/** Whole runs of the call metrics: a tenant sees exactly what a record of its own would have shown. */
module MetricsRuns {
  import opened Prelude
  import opened Dedupe
  import opened Metrics

  datatype Cdr = Cdr(event: Event, clock: Readings)

  /** The tenants' records after a run that started on `day`. */
  function Run(printable: char -> bool, day: int, cdrs: seq<Cdr>): ByTenant
  {
    if cdrs == [] then ByTenant(day, map[]) else
    var last := cdrs[|cdrs| - 1];
    ApplyByTenant(printable, Run(printable, day, cdrs[..|cdrs| - 1]), last.event, last.clock)
  }

  /** A record that is fed the tenant's events and nothing else. */
  function Alone(printable: char -> bool, day: int, cdrs: seq<Cdr>, tenant: string): Daily
  {
    if cdrs == [] then Fresh(day) else
    var before, last := Alone(printable, day, cdrs[..|cdrs| - 1], tenant), cdrs[|cdrs| - 1];
    if Addressee(last.event) == Some(tenant) then Apply(printable, before, last.event, last.clock.counted) else before
  }

  function LastDay(day: int, cdrs: seq<Cdr>): int
  {
    if cdrs == [] then day else cdrs[|cdrs| - 1].clock.rolled
  }

  /** The clock never runs back, and midnight does not fall within one event. */
  ghost predicate IsSteady(day: int, cdrs: seq<Cdr>)
  {
    cdrs != [] ==>
      var front, clock := cdrs[..|cdrs| - 1], cdrs[|cdrs| - 1].clock;
      IsSteady(day, front) && LastDay(day, front) <= clock.rolled == clock.created == clock.counted
  }

  /** The tenants heard of since the day began. */
  function Heard(day: int, cdrs: seq<Cdr>): set<string>
  {
    if cdrs == [] then {} else
    var front, last := cdrs[..|cdrs| - 1], cdrs[|cdrs| - 1];
    var before := if last.clock.rolled == LastDay(day, front) then Heard(day, front) else {};
    match Addressee(last.event)
    case None => before
    case Some(tenant) => before + {tenant}
  }

  /** No day hears of more tenants than there is room for. */
  ghost predicate HasRoom(day: int, cdrs: seq<Cdr>)
  {
    cdrs != [] ==> HasRoom(day, cdrs[..|cdrs| - 1]) && |Heard(day, cdrs)| <= MAX_DAILY_TENANTS
  }

  lemma AddresseeIsACdr(event: Event)
    requires Addressee(event).Some?
    ensures Get(event, "Event") == Some("Cdr")
  {
  }

  /** What ties a tenant's record to the record that is alone. */
  ghost predicate Tied(st: ByTenant, alone: Daily, tenant: string)
  {
    if tenant in st.records then st.records[tenant] == alone && alone.day == st.day
    else alone.day < st.day || alone == Fresh(st.day)
  }

  lemma RollTies(st: ByTenant, alone: Daily, tenant: string, today: int)
    requires Tied(st, alone, tenant) && st.day <= today
    ensures Tied(Roll(st, today), alone, tenant)
  {
  }

  lemma CountTies(printable: char -> bool, st: ByTenant, alone: Daily, tenant: string, event: Event, clock: Readings)
    requires Tied(st, alone, tenant) && st.day == clock.rolled == clock.created == clock.counted
    requires Addressee(event) == Some(tenant) && (tenant in st.records || |st.records| < MAX_DAILY_TENANTS)
    ensures Tied(ApplyByTenant(printable, st, event, clock), Apply(printable, alone, event, clock.counted), tenant)
  {
    AddresseeIsACdr(event);
    var record := if tenant in st.records then st.records[tenant] else Fresh(clock.created);
    assert Reset(record, clock.counted) == Reset(alone, clock.counted);
  }

  lemma StepHears(printable: char -> bool, st: ByTenant, event: Event, clock: Readings)
    ensures var after, rolled := ApplyByTenant(printable, st, event, clock), Roll(st, clock.rolled);
            && after.day == clock.rolled
            && (Addressee(event).None? ==> after.records.Keys == rolled.records.Keys)
            && (Addressee(event).Some? && |rolled.records.Keys + {Addressee(event).value}| <= MAX_DAILY_TENANTS ==>
                  after.records.Keys == rolled.records.Keys + {Addressee(event).value})
  {
    var rolled := Roll(st, clock.rolled);
    if Addressee(event).Some? && Addressee(event).value !in rolled.records {
      assert |rolled.records.Keys + {Addressee(event).value}| == |rolled.records| + 1;
    }
  }

  /** The records are those of the tenants heard of. */
  lemma {:induction false} RunHears(printable: char -> bool, day: int, cdrs: seq<Cdr>)
    requires HasRoom(day, cdrs)
    ensures Run(printable, day, cdrs).day == LastDay(day, cdrs)
    ensures Run(printable, day, cdrs).records.Keys == Heard(day, cdrs)
  {
    if cdrs != [] {
      var front, last := cdrs[..|cdrs| - 1], cdrs[|cdrs| - 1];
      RunHears(printable, day, front);
      StepHears(printable, Run(printable, day, front), last.event, last.clock);
    }
  }

  lemma {:induction false} RunTies(printable: char -> bool, day: int, cdrs: seq<Cdr>, tenant: string)
    requires IsSteady(day, cdrs) && HasRoom(day, cdrs)
    ensures Tied(Run(printable, day, cdrs), Alone(printable, day, cdrs, tenant), tenant)
  {
    if cdrs != [] {
      var front, last := cdrs[..|cdrs| - 1], cdrs[|cdrs| - 1];
      var st, alone := Run(printable, day, front), Alone(printable, day, front, tenant);
      RunTies(printable, day, front, tenant);
      RunHears(printable, day, front);
      RunHears(printable, day, cdrs);
      StepTies(printable, st, alone, tenant, last.event, last.clock);
    }
  }

  lemma StepTies(printable: char -> bool, st: ByTenant, alone: Daily, tenant: string, event: Event, clock: Readings)
    requires Tied(st, alone, tenant) && st.day <= clock.rolled == clock.created == clock.counted
    requires Addressee(event).Some? ==> Addressee(event).value in ApplyByTenant(printable, st, event, clock).records
    ensures var after := if Addressee(event) == Some(tenant) then Apply(printable, alone, event, clock.counted)
            else alone;
            Tied(ApplyByTenant(printable, st, event, clock), after, tenant)
  {
    RollTies(st, alone, tenant, clock.rolled);
    if Addressee(event) == Some(tenant) {
      CountTies(printable, Roll(st, clock.rolled), alone, tenant, event, clock);
    }
  }

  /** Whatever the other tenants do, a tenant's snapshot is that of a record of its own. */
  lemma Projection(printable: char -> bool, day: int, cdrs: seq<Cdr>, tenant: string, today: int)
    requires IsSteady(day, cdrs) && HasRoom(day, cdrs) && LastDay(day, cdrs) <= today
    ensures Snapshot(Run(printable, day, cdrs), tenant, today) ==
            Show(Reset(Alone(printable, day, cdrs, tenant), today))
  {
    RunTies(printable, day, cdrs, tenant);
  }

  // ----- totals -----

  ghost predicate AddsUp(m: Daily)
  {
    m.total == m.answered + m.missed
  }

  lemma ApplyAddsUp(printable: char -> bool, m: Daily, event: Event, today: int)
    requires AddsUp(m)
    ensures AddsUp(Apply(printable, m, event, today))
  {
  }

  lemma StepAddsUp(printable: char -> bool, st: ByTenant, event: Event, clock: Readings)
    requires forall t :: t in st.records ==> AddsUp(st.records[t])
    ensures forall t :: t in ApplyByTenant(printable, st, event, clock).records ==>
              AddsUp(ApplyByTenant(printable, st, event, clock).records[t])
  {
    var rolled, after := Roll(st, clock.rolled), ApplyByTenant(printable, st, event, clock);
    forall t | t in after.records ensures AddsUp(after.records[t]) {
      ApplyAddsUp(printable, if t in rolled.records then rolled.records[t] else Fresh(clock.created), event,
                  clock.counted);
    }
  }

  lemma {:induction false} EveryRecordAddsUp(printable: char -> bool, day: int, cdrs: seq<Cdr>)
    ensures forall t :: t in Run(printable, day, cdrs).records ==> AddsUp(Run(printable, day, cdrs).records[t])
  {
    if cdrs != [] {
      var front, last := cdrs[..|cdrs| - 1], cdrs[|cdrs| - 1];
      EveryRecordAddsUp(printable, day, front);
      StepAddsUp(printable, Run(printable, day, front), last.event, last.clock);
    }
  }

  /** Each shown total is the answered calls and the missed ones. */
  lemma TotalIsAnsweredAndMissed(printable: char -> bool, day: int, cdrs: seq<Cdr>, tenant: string, today: int)
    ensures var shown := Snapshot(Run(printable, day, cdrs), tenant, today);
            shown.total == shown.answered + shown.missed
  {
    EveryRecordAddsUp(printable, day, cdrs);
  }

  // ----- midnight within one event -----

  /** A call that would be counted at this reading. */
  ghost predicate IsCounted(printable: char -> bool, m: Daily, event: Event, today: int)
  {
    Apply(printable, m, event, today).total == Reset(m, today).total + 1
  }

  /** A counted call is seen by its tenant on the day it was counted exactly when that is also the day
      the records were rolled to: a call counted after a midnight that fell within its event is lost. */
  lemma CallIsSeenExactlyWithoutMidnight(printable: char -> bool, st: ByTenant, event: Event, tenant: string,
                                         clock: Readings)
    requires Addressee(event) == Some(tenant) && st.day <= clock.rolled <= clock.counted
    requires var records := Roll(st, clock.rolled).records; tenant in records || |records| < MAX_DAILY_TENANTS
    requires var records := Roll(st, clock.rolled).records;
             IsCounted(printable, if tenant in records then records[tenant] else Fresh(clock.created), event,
                       clock.counted)
    ensures Snapshot(ApplyByTenant(printable, st, event, clock), tenant, clock.counted).total > 0
            <==> clock.rolled == clock.counted
  {
    AddresseeIsACdr(event);
  }

  // ----- every leg is counted once -----

  datatype Feed = Feed(event: Event, today: int)

  /** A record beside the legs that were delivered to it on its day, counted or not, and the number of countable
      events without a Uniqueid. */
  datatype DailyBooks = DailyBooks(m: Daily, legs: seq<Leg>, unnamed: nat)

  function ResetBooks(b: DailyBooks, today: int): DailyBooks
  {
    if today == b.m.day then b else DailyBooks(Fresh(today), [], 0)
  }

  function StepDaily(printable: char -> bool, b: DailyBooks, feed: Feed): DailyBooks
  {
    var m, reset := Apply(printable, b.m, feed.event, feed.today), ResetBooks(b, feed.today);
    var disposition, uniqueid := Get(feed.event, "Disposition"), Get(feed.event, "Uniqueid");
    if Get(feed.event, "Event") != Some("Cdr") then b.(m := m)
    else if disposition.None? || !IsDisposition(disposition.value) then reset.(m := m)
    else if uniqueid.None? then reset.(m := m, unnamed := reset.unnamed + 1)
    else
      var leg := LegOf(feed.event, uniqueid.value, disposition.value);
      if IsLeg(printable, leg) then reset.(m := m, legs := reset.legs + [leg]) else reset.(m := m)
  }

  function RunDaily(printable: char -> bool, day: int, feeds: seq<Feed>): DailyBooks
  {
    if feeds == [] then DailyBooks(Fresh(day), [], 0)
    else StepDaily(printable, RunDaily(printable, day, feeds[..|feeds| - 1]), feeds[|feeds| - 1])
  }

  /** What is counted is what a bounded memory lets through of the legs delivered. */
  ghost predicate CountsPassed(b: DailyBooks)
  {
    && b.m.memory == Passed(b.legs, MAX_CDR_DEDUPE_IDS).1
    && b.m.total == |Passed(b.legs, MAX_CDR_DEDUPE_IDS).0| + b.unnamed
  }

  lemma CountedOnce(m: Daily, event: Event, disposition: string)
    ensures Counted(m, event, disposition).total == m.total + 1 && Counted(m, event, disposition).memory == m.memory
  {
  }

  lemma LegCountsPassed(printable: char -> bool, reset: DailyBooks, event: Event, leg: Leg)
    requires CountsPassed(reset)
    ensures CountsPassed(DailyBooks(CountedLeg(reset.m, event, leg), reset.legs + [leg], reset.unnamed))
  {
    OneMoreLeg(reset.legs, leg);
    CountedOnce(reset.m.(memory := Remember(reset.m.memory, leg, MAX_CDR_DEDUPE_IDS)), event, leg.disposition);
  }

  /** What a delivered leg makes of a record. */
  function CountedLeg(m: Daily, event: Event, leg: Leg): Daily
  {
    if leg in m.memory.seen then m
    else Counted(m.(memory := Remember(m.memory, leg, MAX_CDR_DEDUPE_IDS)), event, leg.disposition)
  }

  lemma ResetCountsPassed(b: DailyBooks, today: int)
    requires CountsPassed(b)
    ensures CountsPassed(ResetBooks(b, today)) && ResetBooks(b, today).m == Reset(b.m, today)
  {
  }

  lemma StepCountsPassed(printable: char -> bool, b: DailyBooks, feed: Feed)
    requires CountsPassed(b)
    ensures CountsPassed(StepDaily(printable, b, feed))
  {
    var reset, event := ResetBooks(b, feed.today), feed.event;
    ResetCountsPassed(b, feed.today);
    var disposition, uniqueid := Get(event, "Disposition"), Get(event, "Uniqueid");
    if Get(event, "Event") == Some("Cdr") && disposition.Some? && IsDisposition(disposition.value) {
      CountedOnce(reset.m, event, disposition.value);
      if uniqueid.Some? {
        LegCountsPassed(printable, reset, event, LegOf(event, uniqueid.value, disposition.value));
      }
    }
  }

  lemma OneMoreLeg(legs: seq<Leg>, leg: Leg)
    ensures var (log, memory) := Passed(legs, MAX_CDR_DEDUPE_IDS);
            Passed(legs + [leg], MAX_CDR_DEDUPE_IDS)
            == if leg in memory.seen then (log, memory) else (log + [leg], Remember(memory, leg, MAX_CDR_DEDUPE_IDS))
  {
    assert (legs + [leg])[..|legs|] == legs;
  }

  lemma {:induction false} RunCountsPassed(printable: char -> bool, day: int, feeds: seq<Feed>)
    ensures CountsPassed(RunDaily(printable, day, feeds))
  {
    if feeds != [] {
      RunCountsPassed(printable, day, feeds[..|feeds| - 1]);
      StepCountsPassed(printable, RunDaily(printable, day, feeds[..|feeds| - 1]), feeds[|feeds| - 1]);
    }
  }

  lemma {:induction false} FirstsAreTheSet<Key>(keys: seq<Key>)
    ensures |Firsts(keys)| == |set k | k in keys| && forall k :: k in Firsts(keys) <==> k in keys
  {
    if keys == [] {
      assert (set k | k in keys) == {};
    } else {
      var front, last := keys[..|keys| - 1], keys[|keys| - 1];
      FirstsAreTheSet(front);
      if last in front {
        assert (set k | k in keys) == set k | k in front;
      } else {
        assert (set k | k in keys) == (set k | k in front) + {last};
      }
    }
  }

  /** On a day with no more different legs than the memory holds, the total is the number of different legs
      delivered and of events without a Uniqueid, however often and in whatever order they were delivered. */
  lemma TotalCountsLegsOnce(printable: char -> bool, day: int, feeds: seq<Feed>)
    requires var legs := RunDaily(printable, day, feeds).legs; |set leg | leg in legs| <= MAX_CDR_DEDUPE_IDS
    ensures var b := RunDaily(printable, day, feeds); b.m.total == |set leg | leg in b.legs| + b.unnamed
  {
    var legs := RunDaily(printable, day, feeds).legs;
    RunCountsPassed(printable, day, feeds);
    FirstsAreTheSet(legs);
    BoundedRefinesUnbounded(legs, MAX_CDR_DEDUPE_IDS);
  }

  /** A leg is counted again only after as many others as the memory holds. */
  lemma LegCountedAgainOnlyAfterManyOthers(printable: char -> bool, day: int, feeds: seq<Feed>, i: nat, j: nat)
    requires var counted := Passed(RunDaily(printable, day, feeds).legs, MAX_CDR_DEDUPE_IDS).0;
             i < j < |counted| && counted[i] == counted[j]
    ensures var b := RunDaily(printable, day, feeds);
            b.m.total == |Passed(b.legs, MAX_CDR_DEDUPE_IDS).0| + b.unnamed && j - i - 1 >= MAX_CDR_DEDUPE_IDS
  {
    RunCountsPassed(printable, day, feeds);
    PassesAgainOnlyAfterManyOthers(RunDaily(printable, day, feeds).legs, MAX_CDR_DEDUPE_IDS, i, j);
  }

  /** The events of a tenant, as its record is fed them. */
  function Feeds(cdrs: seq<Cdr>, tenant: string): seq<Feed>
  {
    if cdrs == [] then [] else
    var before, last := Feeds(cdrs[..|cdrs| - 1], tenant), cdrs[|cdrs| - 1];
    if Addressee(last.event) == Some(tenant) then before + [Feed(last.event, last.clock.counted)] else before
  }

  lemma OneMoreFeed(printable: char -> bool, day: int, feeds: seq<Feed>, feed: Feed)
    ensures RunDaily(printable, day, feeds + [feed]).m ==
            Apply(printable, RunDaily(printable, day, feeds).m, feed.event, feed.today)
  {
    assert (feeds + [feed])[..|feeds|] == feeds;
    StepDailyApplies(printable, RunDaily(printable, day, feeds), feed);
  }

  /** The books only watch: the record inside them moves as it does alone. */
  lemma StepDailyApplies(printable: char -> bool, b: DailyBooks, feed: Feed)
    ensures StepDaily(printable, b, feed).m == Apply(printable, b.m, feed.event, feed.today)
  {
  }

  lemma {:induction false} AloneIsFed(printable: char -> bool, day: int, cdrs: seq<Cdr>, tenant: string)
    ensures Alone(printable, day, cdrs, tenant) == RunDaily(printable, day, Feeds(cdrs, tenant)).m
  {
    if cdrs != [] {
      var front, last := cdrs[..|cdrs| - 1], cdrs[|cdrs| - 1];
      AloneIsFed(printable, day, front, tenant);
      OneMoreFeed(printable, day, Feeds(front, tenant), Feed(last.event, last.clock.counted));
    }
  }

  /** Through all of it: whatever the other tenants do and however often its CDRs are delivered, a tenant that had
      calls today is shown the number of its different legs and of its events without a Uniqueid. */
  lemma TenantCountsLegsOnce(printable: char -> bool, day: int, cdrs: seq<Cdr>, tenant: string)
    requires IsSteady(day, cdrs) && HasRoom(day, cdrs)
    requires var b := RunDaily(printable, day, Feeds(cdrs, tenant));
             b.m.day == LastDay(day, cdrs) && |set leg | leg in b.legs| <= MAX_CDR_DEDUPE_IDS
    ensures var b := RunDaily(printable, day, Feeds(cdrs, tenant));
            Snapshot(Run(printable, day, cdrs), tenant, LastDay(day, cdrs)).total == |set leg | leg in b.legs|
              + b.unnamed
  {
    Projection(printable, day, cdrs, tenant, LastDay(day, cdrs));
    AloneIsFed(printable, day, cdrs, tenant);
    TotalCountsLegsOnce(printable, day, Feeds(cdrs, tenant));
  }
}
