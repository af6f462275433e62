/** What the queue mirror keeps over every run of events, pickups and look-ups. */
module QueueMirror {
  import opened Prelude
  import opened QueueState

  datatype Op =
    | Ami(event: Event, now: Option<real>)
    | Pickup(channel: string, queue: Option<string>)
    | Look(now: Option<real>)

  function Step(lim: Limits, st: State, op: Op): State
  {
    match op
    case Ami(event, now) => Apply(lim, st, event, now)
    case Pickup(channel, queue) => Remove(lim, st, channel, queue)
    case Look(now) => Prune(lim, st, now)
  }

  function Run(lim: Limits, ops: seq<Op>): State
  {
    if ops == [] then State(map[], map[]) else Step(lim, Run(lim, ops[..|ops| - 1]), ops[|ops| - 1])
  }

  // ----- validity -----

  lemma CountersGrow(counters: Counters, tenant: string, kind: Kind)
    requires |counters| <= MAX_TENANTS
    ensures var after := Counted(counters, tenant, kind);
            && counters.Keys <= after.Keys && |counters| <= |after| <= MAX_TENANTS
            && (|after| < MAX_TENANTS ==> tenant in after)
  {
    var after := Counted(counters, tenant, kind);
    if tenant in counters {
      SameSize(after, counters);
    } else if |counters| < MAX_TENANTS {
      assert after.Keys == counters.Keys + {tenant};
    }
  }

  lemma CountIsValid(lim: Limits, before: State, st: State, tenant: string, kind: Kind)
    requires Valid(lim, before) && st.counters == before.counters
    requires RowsFollowTheirQueue(st) && |st.waiting| <= lim.maxWaiting
    requires forall c :: c in st.waiting ==>
               st.waiting[c].tenant == tenant
                 || (c in before.waiting && before.waiting[c].tenant == st.waiting[c].tenant)
    ensures Valid(lim, Count(st, tenant, kind))
  {
    CountersGrow(st.counters, tenant, kind);
  }

  lemma EndIsValid(lim: Limits, st: State, channel: string, tenant: string, kind: Kind)
    requires Valid(lim, st)
    ensures Valid(lim, Count(Without(st, channel), tenant, kind))
  {
    FewerKeys(st.waiting - {channel}, st.waiting);
    CountIsValid(lim, st, Without(st, channel), tenant, kind);
  }

  lemma SizeWith<K, V>(m: map<K, V>, k: K, v: V)
    ensures |m[k := v]| == |m| + if k in m then 0 else 1
  {
    if k in m {
      SameSize(m[k := v], m);
    } else {
      assert m[k := v].Keys == m.Keys + {k};
    }
  }

  lemma PutFollows(st: State, channel: string, row: Row)
    requires RowsFollowTheirQueue(st) && QueueTenant(row.queue) == Some(row.tenant)
    ensures RowsFollowTheirQueue(Put(st, channel, row))
  {
    var after := Put(st, channel, row);
    forall c | c in after.waiting ensures QueueTenant(after.waiting[c].queue) == Some(after.waiting[c].tenant) {
      if c != channel {
        assert after.waiting[c] == st.waiting[c];
      }
    }
  }

  lemma PutIsValid(lim: Limits, st: State, channel: string, row: Row, kind: Kind)
    requires Valid(lim, st) && QueueTenant(row.queue) == Some(row.tenant)
    requires channel in st.waiting || |st.waiting| < lim.maxWaiting
    ensures Valid(lim, Count(Put(st, channel, row), row.tenant, kind))
  {
    SizeWith(st.waiting, channel, row);
    PutFollows(st, channel, row);
    CountIsValid(lim, st, Put(st, channel, row), row.tenant, kind);
  }

  lemma JoinIsValid(lim: Limits, st: State, channel: string, row: Row)
    requires Valid(lim, st) && QueueTenant(row.queue) == Some(row.tenant)
    ensures Valid(lim, Join(lim, st, channel, row))
  {
    var kind := Verdict(lim, st, channel, row);
    if kind == Joins || kind == Requeues {
      PutIsValid(lim, st, channel, row, kind);
    } else {
      CountIsValid(lim, st, st, if kind == BlockedRequeue then st.waiting[channel].tenant else row.tenant, kind);
    }
  }

  lemma EndEventIsValid(lim: Limits, st: State, event: Event, kind: Kind)
    requires Valid(lim, st)
    ensures Valid(lim, End(lim, st, event, kind))
  {
    var after := End(lim, st, event, kind);
    if after != st {
      var channel := event["Channel"];
      var tenant := st.waiting[channel].tenant;
      if after == Count(Without(st, channel), tenant, kind) {
        EndIsValid(lim, st, channel, tenant, kind);
      } else if after == Count(st, tenant, MismatchedQueue) {
        CountIsValid(lim, st, st, tenant, MismatchedQueue);
      } else {
        CountIsValid(lim, st, st, tenant, MismatchedUniqueid);
      }
    }
  }

  lemma AfterPruneIsValid(lim: Limits, st: State, now: Option<real>)
    requires Valid(lim, st)
    ensures Valid(lim, Prune(lim, st, now))
  {
    if now.Some? {
      PruneIsValid(lim, st, now.value, st.waiting.Keys);
    }
  }

  lemma EventIsValid(lim: Limits, st: State, event: Event, now: Option<real>)
    requires Valid(lim, st)
    ensures Valid(lim, Apply(lim, st, event, now))
  {
    match Get(event, "Event")
    case None =>
    case Some(name) =>
      if EndKind(name).Some? {
        EndEventIsValid(lim, st, event, EndKind(name).value);
      } else if name == "QueueCallerJoin" && IsJoin(lim, event) && now.Some? {
        AfterPruneIsValid(lim, st, now);
        JoinIsValid(lim, Prune(lim, st, now), event["Channel"], RowOf(lim, event, now.value));
      }
  }

  lemma StepIsValid(lim: Limits, st: State, op: Op)
    requires Valid(lim, st)
    ensures Valid(lim, Step(lim, st, op))
  {
    match op
    case Look(now) => AfterPruneIsValid(lim, st, now);
    case Pickup(channel, queue) =>
      if channel in st.waiting { EndIsValid(lim, st, channel, st.waiting[channel].tenant, PickedUp); }
    case Ami(event, now) => EventIsValid(lim, st, event, now);
  }

  /** In every reachable state each row belongs to its queue's tenant and the mirror is bounded. */
  lemma {:induction false} RunIsValid(lim: Limits, ops: seq<Op>)
    ensures Valid(lim, Run(lim, ops))
  {
    if ops != [] {
      RunIsValid(lim, ops[..|ops| - 1]);
      StepIsValid(lim, Run(lim, ops[..|ops| - 1]), ops[|ops| - 1]);
    }
  }

  // ----- conservation -----

  /** The names under which a caller enters the mirror, and those under which a row leaves it. */
  const ENTRIES: seq<Kind> := [Joins, Requeues]
  const ENDS: seq<Kind> := [Left, Abandoned, Answered, Dumped, Completed, HungUp, Expired, PickedUp]

  function Total(tally: Tally, kinds: seq<Kind>): nat
  {
    if kinds == [] then 0 else Number(tally, kinds[0]) + Total(tally, kinds[1..])
  }

  function Net(tally: Tally): int
  {
    Total(tally, ENTRIES) - Total(tally, ENDS)
  }

  /** What counting one event under this name adds to Net. */
  function Weight(kind: Kind): int
  {
    match kind
    case Joins | Requeues => 1
    case Left | Abandoned | Answered | Dumped | Completed | HungUp | Expired | PickedUp => -1
    case _ => 0
  }

  lemma WeightIs(kind: Kind)
    ensures kind in ENTRIES <==> Weight(kind) == 1
    ensures kind in ENDS <==> Weight(kind) == -1
  {
    assert ENTRIES[0] == Joins && ENTRIES[1] == Requeues;
    assert ENDS[0] == Left && ENDS[1] == Abandoned && ENDS[2] == Answered && ENDS[3] == Dumped && ENDS[4] == Completed
           && ENDS[5] == HungUp && ENDS[6] == Expired && ENDS[7] == PickedUp;
  }

  lemma {:induction false} TotalOfAdded(tally: Tally, kind: Kind, n: nat, kinds: seq<Kind>)
    requires Distinct(kinds)
    ensures Total(Added(tally, kind, n), kinds) == Total(tally, kinds) + if kind in kinds then n else 0
  {
    if kinds != [] {
      TotalOfAdded(tally, kind, n, kinds[1..]);
      assert kinds == [kinds[0]] + kinds[1..];
    }
  }

  lemma AddedWeighs(tally: Tally, kind: Kind, n: nat)
    ensures Weight(kind) == 1 ==> Net(Added(tally, kind, n)) == Net(tally) + n
    ensures Weight(kind) == -1 ==> Net(Added(tally, kind, n)) == Net(tally) - n
    ensures Weight(kind) == 0 ==> Net(Added(tally, kind, n)) == Net(tally)
  {
    WeightIs(kind);
    TotalOfAdded(tally, kind, n, ENTRIES);
    TotalOfAdded(tally, kind, n, ENDS);
  }

  lemma NothingWeighsNothing()
    ensures Net(map[]) == 0
  {
    TotalOfNothing(ENTRIES);
    TotalOfNothing(ENDS);
  }

  lemma {:induction false} TotalOfNothing(kinds: seq<Kind>)
    ensures Total(map[], kinds) == 0
  {
    if kinds != [] {
      TotalOfNothing(kinds[1..]);
    }
  }

  ghost function Rows(st: State, tenant: string): set<string>
  {
    set c | c in st.waiting && st.waiting[c].tenant == tenant
  }

  /** `replaced` rows of the tenant were overwritten by a requeue. */
  ghost predicate Conserved(st: State, tenant: string, replaced: nat)
  {
    if tenant in st.counters then
      Net(st.counters[tenant]) == |Rows(st, tenant)| + replaced
    else
      |st.counters| < MAX_TENANTS ==> Rows(st, tenant) == {} && replaced == 0
  }

  /** One counted event: the books of its tenant move by its weight, all others by nothing. */
  lemma CountConserves(before: State, st: State, who: string, kind: Kind, tenant: string, replaced: nat, more: nat)
    requires st.counters == before.counters && |before.counters| <= MAX_TENANTS && Conserved(before, tenant, replaced)
    requires |Rows(st, tenant)| + more == |Rows(before, tenant)| + if who == tenant then Weight(kind) else 0
    ensures Conserved(Count(st, who, kind), tenant, replaced + more)
  {
    var after := Count(st, who, kind);
    assert Rows(after, tenant) == Rows(st, tenant);
    CountersGrow(st.counters, who, kind);
    if who == tenant {
      AddedWeighs(TallyOf(st.counters, who), kind, 1);
      NothingWeighsNothing();
    }
  }

  lemma EndConserves(st: State, channel: string, kind: Kind, tenant: string, replaced: nat)
    requires |st.counters| <= MAX_TENANTS && Conserved(st, tenant, replaced) && channel in st.waiting
    requires Weight(kind) == -1
    ensures Conserved(Count(Without(st, channel), st.waiting[channel].tenant, kind), tenant, replaced)
  {
    var after, who := Without(st, channel), st.waiting[channel].tenant;
    assert Rows(after, tenant) == Rows(st, tenant) - {channel};
    CountConserves(st, after, who, kind, tenant, replaced, 0);
  }

  /** How many rows of the tenant this Join overwrites. */
  function Replaces(lim: Limits, st: State, channel: string, row: Row, tenant: string): nat
  {
    if Verdict(lim, st, channel, row) == Requeues && st.waiting[channel].tenant == tenant then 1 else 0
  }

  lemma SizeWithout<T>(s: set<T>, x: T)
    ensures |s| == |s - {x}| + if x in s then 1 else 0
  {
    if x in s {
      assert s == (s - {x}) + {x};
    } else {
      assert s == s - {x};
    }
  }

  lemma OtherRowsAfterPut(st: State, channel: string, row: Row, tenant: string)
    ensures Rows(Put(st, channel, row), tenant) - {channel} == Rows(st, tenant) - {channel}
  {
    var after := Put(st, channel, row).waiting;
    assert forall c :: c != channel ==> (c in after <==> c in st.waiting);
    assert forall c :: c != channel && c in after ==> after[c] == st.waiting[c];
  }

  lemma RowsAfterPut(st: State, channel: string, row: Row, tenant: string)
    ensures var more := if channel in st.waiting && st.waiting[channel].tenant == tenant then 1 else 0;
            |Rows(Put(st, channel, row), tenant)| + more == |Rows(st, tenant)| + if row.tenant == tenant then 1 else 0
  {
    OtherRowsAfterPut(st, channel, row, tenant);
    SizeWithout(Rows(Put(st, channel, row), tenant), channel);
    SizeWithout(Rows(st, tenant), channel);
  }

  lemma PutConserves(st: State, channel: string, row: Row, tenant: string, replaced: nat)
    requires |st.counters| <= MAX_TENANTS && Conserved(st, tenant, replaced)
    ensures var kind := if channel in st.waiting then Requeues else Joins;
            var more := if channel in st.waiting && st.waiting[channel].tenant == tenant then 1 else 0;
            Conserved(Count(Put(st, channel, row), row.tenant, kind), tenant, replaced + more)
  {
    RowsAfterPut(st, channel, row, tenant);
    var more := if channel in st.waiting && st.waiting[channel].tenant == tenant then 1 else 0;
    CountConserves(st, Put(st, channel, row), row.tenant, if channel in st.waiting then Requeues else Joins, tenant,
                   replaced, more);
  }

  lemma JoinConserves(lim: Limits, st: State, channel: string, row: Row, tenant: string, replaced: nat)
    requires |st.counters| <= MAX_TENANTS && Conserved(st, tenant, replaced)
    ensures Conserved(Join(lim, st, channel, row), tenant, replaced + Replaces(lim, st, channel, row, tenant))
  {
    var kind := Verdict(lim, st, channel, row);
    if kind == Joins || kind == Requeues {
      PutConserves(st, channel, row, tenant, replaced);
    } else {
      CountConserves(st, st, if kind == BlockedRequeue then st.waiting[channel].tenant else row.tenant, kind, tenant,
                     replaced, 0);
    }
  }

  lemma RowsAfterPrune(lim: Limits, st: State, now: real, tenant: string)
    ensures var all := st.waiting.Keys;
            |Rows(PruneAmong(lim, st, now, all), tenant)| + |Stale(lim, st, now, all, tenant)| == |Rows(st, tenant)|
  {
    var all := st.waiting.Keys;
    assert Rows(PruneAmong(lim, st, now, all), tenant) + Stale(lim, st, now, all, tenant) == Rows(st, tenant);
  }

  lemma PruneConserves(lim: Limits, st: State, now: real, tenant: string, replaced: nat)
    requires Valid(lim, st) && Conserved(st, tenant, replaced)
    ensures Conserved(PruneAmong(lim, st, now, st.waiting.Keys), tenant, replaced)
  {
    var all := st.waiting.Keys;
    RowsAfterPrune(lim, st, now, tenant);
    PruneIsValid(lim, st, now, all);
    SameSize(PruneAmong(lim, st, now, all).counters, st.counters);
    if tenant in st.counters {
      AddedWeighs(st.counters[tenant], Expired, |Stale(lim, st, now, all, tenant)|);
      assert Weight(Expired) == -1;
    }
  }

  lemma EndEventConserves(lim: Limits, st: State, event: Event, kind: Kind, tenant: string, replaced: nat)
    requires |st.counters| <= MAX_TENANTS && Conserved(st, tenant, replaced) && Weight(kind) == -1
    ensures Conserved(End(lim, st, event, kind), tenant, replaced)
  {
    var after := End(lim, st, event, kind);
    if after != st {
      var channel := event["Channel"];
      var who := st.waiting[channel].tenant;
      if after == Count(Without(st, channel), who, kind) {
        EndConserves(st, channel, kind, tenant, replaced);
      } else {
        var mismatch := if after == Count(st, who, MismatchedQueue) then MismatchedQueue else MismatchedUniqueid;
        CountConserves(st, st, who, mismatch, tenant, replaced, 0);
      }
    }
  }

  /** The Join that a step makes, if it makes one. */
  predicate Joined(lim: Limits, op: Op)
  {
    op.Ami? && Get(op.event, "Event") == Some("QueueCallerJoin") && IsJoin(lim, op.event) && op.now.Some?
  }

  function ReplacedBy(lim: Limits, st: State, op: Op, tenant: string): nat
  {
    if !Joined(lim, op) then 0
    else Replaces(lim, Prune(lim, st, op.now), op.event["Channel"], RowOf(lim, op.event, op.now.value), tenant)
  }

  /** The tenant's rows that a requeue replaced, over a whole run. */
  function ReplacedIn(lim: Limits, ops: seq<Op>, tenant: string): nat
  {
    if ops == [] then 0
    else ReplacedIn(lim, ops[..|ops| - 1], tenant) + ReplacedBy(lim, Run(lim, ops[..|ops| - 1]), ops[|ops| - 1], tenant)
  }

  lemma JoinEventConserves(lim: Limits, st: State, event: Event, now: real, tenant: string, replaced: nat)
    requires Valid(lim, st) && Conserved(st, tenant, replaced) && IsJoin(lim, event)
    ensures var pruned, channel, row := Prune(lim, st, Some(now)), event["Channel"], RowOf(lim, event, now);
            Conserved(Join(lim, pruned, channel, row), tenant, replaced + Replaces(lim, pruned, channel, row, tenant))
  {
    PruneConserves(lim, st, now, tenant, replaced);
    AfterPruneIsValid(lim, st, Some(now));
    JoinConserves(lim, Prune(lim, st, Some(now)), event["Channel"], RowOf(lim, event, now), tenant, replaced);
  }

  lemma EndsWeigh(name: string)
    requires EndKind(name).Some?
    ensures Weight(EndKind(name).value) == -1 && name != "QueueCallerJoin"
  {
  }

  lemma EventConserves(lim: Limits, st: State, event: Event, now: Option<real>, tenant: string, replaced: nat)
    requires Valid(lim, st) && Conserved(st, tenant, replaced)
    ensures Conserved(Apply(lim, st, event, now), tenant, replaced + ReplacedBy(lim, st, Ami(event, now), tenant))
  {
    match Get(event, "Event")
    case None =>
    case Some(name) =>
      if EndKind(name).Some? {
        EndsWeigh(name);
        EndEventConserves(lim, st, event, EndKind(name).value, tenant, replaced);
      } else if name == "QueueCallerJoin" && IsJoin(lim, event) && now.Some? {
        JoinEventConserves(lim, st, event, now.value, tenant, replaced);
      }
  }

  lemma LookConserves(lim: Limits, st: State, now: Option<real>, tenant: string, replaced: nat)
    requires Valid(lim, st) && Conserved(st, tenant, replaced)
    ensures Conserved(Prune(lim, st, now), tenant, replaced)
  {
    if now.Some? {
      PruneConserves(lim, st, now.value, tenant, replaced);
    }
  }

  lemma PickupConserves(lim: Limits, st: State, channel: string, queue: Option<string>, tenant: string, replaced: nat)
    requires |st.counters| <= MAX_TENANTS && Conserved(st, tenant, replaced)
    ensures Conserved(Remove(lim, st, channel, queue), tenant, replaced)
  {
    if channel in st.waiting {
      EndConserves(st, channel, PickedUp, tenant, replaced);
    }
  }

  lemma StepConserves(lim: Limits, st: State, op: Op, tenant: string, replaced: nat)
    requires Valid(lim, st) && Conserved(st, tenant, replaced)
    ensures Conserved(Step(lim, st, op), tenant, replaced + ReplacedBy(lim, st, op, tenant))
  {
    match op
    case Look(now) => LookConserves(lim, st, now, tenant, replaced);
    case Pickup(channel, queue) => PickupConserves(lim, st, channel, queue, tenant, replaced);
    case Ami(event, now) => EventConserves(lim, st, event, now, tenant, replaced);
  }

  lemma {:induction false} RunConserves(lim: Limits, ops: seq<Op>, tenant: string)
    ensures Conserved(Run(lim, ops), tenant, ReplacedIn(lim, ops, tenant))
  {
    if ops == [] {
      assert Rows(Run(lim, ops), tenant) == {};
    } else {
      var before := ops[..|ops| - 1];
      RunConserves(lim, before, tenant);
      RunIsValid(lim, before);
      StepConserves(lim, Run(lim, before), ops[|ops| - 1], tenant, ReplacedIn(lim, before, tenant));
    }
  }

  /** Whoever entered is still waiting, has left under one of the names, or was replaced by a requeue. */
  lemma Conservation(lim: Limits, ops: seq<Op>, tenant: string)
    requires tenant in Run(lim, ops).counters
    ensures var st := Run(lim, ops);
            Total(st.counters[tenant], ENTRIES) == |Rows(st, tenant)| + Total(st.counters[tenant], ENDS)
              + ReplacedIn(lim, ops, tenant)
  {
    RunConserves(lim, ops, tenant);
  }

  // ----- a tenant missed at first is missed for good -----

  ghost predicate SameFullTable(before: State, after: State)
  {
    |before.counters| >= MAX_TENANTS ==> after.counters.Keys == before.counters.Keys && |after.counters| >= MAX_TENANTS
  }

  lemma CountKeepsFullTable(before: State, st: State, tenant: string, kind: Kind)
    requires st.counters == before.counters
    ensures SameFullTable(before, Count(st, tenant, kind))
  {
    if |st.counters| >= MAX_TENANTS && tenant in st.counters {
      SameSize(Counted(st.counters, tenant, kind), st.counters);
    }
  }

  lemma PruneKeepsFullTable(lim: Limits, st: State, now: Option<real>)
    ensures SameFullTable(st, Prune(lim, st, now))
  {
    if now.Some? {
      SameSize(Prune(lim, st, now).counters, st.counters);
    }
  }

  lemma JoinKeepsFullTable(lim: Limits, st: State, channel: string, row: Row)
    ensures SameFullTable(st, Join(lim, st, channel, row))
  {
    var kind := Verdict(lim, st, channel, row);
    if kind == Joins || kind == Requeues {
      CountKeepsFullTable(st, Put(st, channel, row), row.tenant, kind);
    } else {
      CountKeepsFullTable(st, st, if kind == BlockedRequeue then st.waiting[channel].tenant else row.tenant, kind);
    }
  }

  lemma EndKeepsFullTable(lim: Limits, st: State, event: Event, kind: Kind)
    ensures SameFullTable(st, End(lim, st, event, kind))
  {
    var after := End(lim, st, event, kind);
    if after != st {
      var channel := event["Channel"];
      var who := st.waiting[channel].tenant;
      CountKeepsFullTable(st, Without(st, channel), who, kind);
      CountKeepsFullTable(st, st, who, MismatchedQueue);
      CountKeepsFullTable(st, st, who, MismatchedUniqueid);
    }
  }

  lemma FullTableKeepsItsTenants(lim: Limits, st: State, op: Op)
    ensures SameFullTable(st, Step(lim, st, op))
  {
    match op
    case Look(now) => PruneKeepsFullTable(lim, st, now);
    case Pickup(channel, queue) =>
      if channel in st.waiting { CountKeepsFullTable(st, Without(st, channel), st.waiting[channel].tenant, PickedUp); }
    case Ami(event, now) =>
      var name := Get(event, "Event");
      if name.Some? && EndKind(name.value).Some? {
        EndKeepsFullTable(lim, st, event, EndKind(name.value).value);
      } else if name.Some? && IsJoin(lim, event) && now.Some? {
        PruneKeepsFullTable(lim, st, now);
        JoinKeepsFullTable(lim, Prune(lim, st, now), event["Channel"], RowOf(lim, event, now.value));
      }
  }

  lemma {:induction false} FullTableStays(lim: Limits, ops: seq<Op>, more: seq<Op>)
    ensures SameFullTable(Run(lim, ops), Run(lim, ops + more))
  {
    if more == [] {
      assert ops + more == ops;
    } else {
      var front := more[..|more| - 1];
      FullTableStays(lim, ops, front);
      LastOfJoined(ops, more);
      SameFullTableAcross(Run(lim, ops), Run(lim, ops + front), lim, more[|more| - 1]);
    }
  }

  lemma LastOfJoined(ops: seq<Op>, more: seq<Op>)
    requires more != []
    ensures ops + more == (ops + more[..|more| - 1]) + [more[|more| - 1]]
    ensures (ops + more)[..|ops + more| - 1] == ops + more[..|more| - 1]
    ensures (ops + more)[|ops + more| - 1] == more[|more| - 1]
  {
  }

  lemma SameFullTableAcross(first: State, before: State, lim: Limits, op: Op)
    requires SameFullTable(first, before)
    ensures SameFullTable(first, Step(lim, before, op))
  {
    FullTableKeepsItsTenants(lim, before, op);
  }

  /** A tenant that is not counted while it has a row, or while the table is full, never is. */
  lemma UncountedForGood(lim: Limits, ops: seq<Op>, more: seq<Op>, tenant: string)
    requires tenant !in Run(lim, ops).counters
    requires Rows(Run(lim, ops), tenant) != {} || |Run(lim, ops).counters| >= MAX_TENANTS
    ensures tenant !in Run(lim, ops + more).counters
  {
    RunConserves(lim, ops, tenant);
    FullTableStays(lim, ops, more);
  }

  lemma FirstCountDecides(st: State, tenant: string, kind: Kind)
    ensures tenant in Count(st, tenant, kind).counters || |Count(st, tenant, kind).counters| >= MAX_TENANTS
  {
  }

  lemma JoinIsCountedOrTableIsFull(lim: Limits, st: State, channel: string, row: Row)
    requires Verdict(lim, st, channel, row) != BlockedRequeue
    ensures var after := Join(lim, st, channel, row);
            row.tenant in after.counters || |after.counters| >= MAX_TENANTS
  {
    var kind := Verdict(lim, st, channel, row);
    FirstCountDecides(if kind == Joins || kind == Requeues then Put(st, channel, row) else st, row.tenant, kind);
  }

  lemma JoinedStep(lim: Limits, st: State, op: Op)
    requires Joined(lim, op)
    ensures Step(lim, st, op) ==
            Join(lim, Prune(lim, st, op.now), op.event["Channel"], RowOf(lim, op.event, op.now.value))
  {
    assert EndKind("QueueCallerJoin").None?;
  }

  /** A Join of the tenant is counted, or no event of the tenant ever is, whether or not a row of it is left. */
  lemma FirstJoinDecides(lim: Limits, ops: seq<Op>, op: Op, more: seq<Op>, tenant: string)
    requires Joined(lim, op) && QueueTenant(op.event["Queue"]) == Some(tenant)
    requires var st := Prune(lim, Run(lim, ops), op.now);
             Verdict(lim, st, op.event["Channel"], RowOf(lim, op.event, op.now.value)) != BlockedRequeue
    ensures tenant in Run(lim, ops + [op]).counters || tenant !in Run(lim, ops + [op] + more).counters
  {
    assert (ops + [op])[..|ops|] == ops;
    JoinedStep(lim, Run(lim, ops), op);
    JoinIsCountedOrTableIsFull(lim, Prune(lim, Run(lim, ops), op.now), op.event["Channel"],
                               RowOf(lim, op.event, op.now.value));
    if tenant !in Run(lim, ops + [op]).counters {
      UncountedForGood(lim, ops + [op], more, tenant);
    }
  }

  // ----- what a single event may do to a row -----

  /** A tracked channel that has not expired changes tenant exactly when both Uniqueids are known and differ. */
  lemma TenantMovesExactly(lim: Limits, st: State, event: Event, now: real)
    requires Get(event, "Event") == Some("QueueCallerJoin") && IsJoin(lim, event) && event["Channel"] in st.waiting
    requires var row := st.waiting[event["Channel"]];
             !IsStale(lim, row, now) && QueueTenant(event["Queue"]) != Some(row.tenant)
    ensures var channel, after := event["Channel"], Apply(lim, st, event, Some(now));
            var uniqueid := Get(event, "Uniqueid");
            && channel in after.waiting
            && (after.waiting[channel].tenant != st.waiting[channel].tenant <==>
                uniqueid.Some? && st.waiting[channel].uniqueid.Some? && uniqueid != st.waiting[channel].uniqueid)
  {
    var channel := event["Channel"];
    var pruned := Prune(lim, st, Some(now));
    assert channel in pruned.waiting && pruned.waiting[channel] == st.waiting[channel];
    assert EndKind("QueueCallerJoin").None?;
  }

  lemma EndLeavesRows(lim: Limits, st: State, event: Event, kind: Kind, channel: string)
    requires channel in st.waiting && channel in End(lim, st, event, kind).waiting
    ensures End(lim, st, event, kind).waiting[channel] == st.waiting[channel]
  {
  }

  lemma JoinLeavesOtherRows(lim: Limits, st: State, joined: string, row: Row, channel: string)
    requires channel in st.waiting && channel != joined
    ensures channel in Join(lim, st, joined, row).waiting
    ensures Join(lim, st, joined, row).waiting[channel] == st.waiting[channel]
  {
    var kind := Verdict(lim, st, joined, row);
    assert kind == Joins || kind == Requeues || Join(lim, st, joined, row).waiting == st.waiting;
  }

  /** No other step moves a row to another tenant. */
  lemma OnlyItsOwnJoinMovesARow(lim: Limits, st: State, op: Op, channel: string)
    requires channel in st.waiting && channel in Step(lim, st, op).waiting
    requires !(Joined(lim, op) && op.event["Channel"] == channel)
    ensures Step(lim, st, op).waiting[channel] == st.waiting[channel]
  {
    match op
    case Look(now) =>
    case Pickup(picked, queue) =>
    case Ami(event, now) =>
      match Get(event, "Event")
      case None =>
      case Some(name) =>
        if EndKind(name).Some? {
          EndLeavesRows(lim, st, event, EndKind(name).value, channel);
        } else if name == "QueueCallerJoin" && IsJoin(lim, event) && now.Some? {
          var pruned, row := Prune(lim, st, now), RowOf(lim, event, now.value);
          if channel in pruned.waiting {
            JoinLeavesOtherRows(lim, pruned, event["Channel"], row, channel);
          } else {
            JoinAddsOnlyItsRow(lim, pruned, event["Channel"], row, channel);
          }
        }
  }

  lemma JoinAddsOnlyItsRow(lim: Limits, st: State, joined: string, row: Row, channel: string)
    requires channel !in st.waiting && channel != joined
    ensures channel !in Join(lim, st, joined, row).waiting
  {
    var kind := Verdict(lim, st, joined, row);
    assert kind == Joins || kind == Requeues || Join(lim, st, joined, row).waiting == st.waiting;
  }

  /** A Join delivered again leaves the row, and so its waiting time, as it is, until it expires. */
  lemma RedeliveredJoinKeepsItsRow(lim: Limits, st: State, event: Event, now: Option<real>)
    requires Get(event, "Event") == Some("QueueCallerJoin") && IsJoin(lim, event) && event["Channel"] in st.waiting
    requires var row := st.waiting[event["Channel"]];
             row.queue == event["Queue"] && row.uniqueid == Get(event, "Uniqueid")
    ensures var channel, after := event["Channel"], Apply(lim, st, event, now);
            (now.Some? && IsStale(lim, st.waiting[channel], now.value))
              || (channel in after.waiting && after.waiting[channel] == st.waiting[channel])
  {
    var channel := event["Channel"];
    assert EndKind("QueueCallerJoin").None?;
    if now.Some? && !IsStale(lim, st.waiting[channel], now.value) {
      var pruned := Prune(lim, st, now);
      assert channel in pruned.waiting && pruned.waiting[channel] == st.waiting[channel];
    }
  }

  /** An end event removes its row exactly when the queue fits and it does not contradict the Uniqueid
      of the row; it touches no other row. */
  lemma EndRemovesExactly(lim: Limits, st: State, event: Event, now: Option<real>, channel: string)
    requires Get(event, "Event").Some? && EndKind(event["Event"]).Some? && channel in st.waiting
    ensures var row, after := st.waiting[channel], Apply(lim, st, event, now);
            var queue, uniqueid := Get(event, "Queue"), Get(event, "Uniqueid");
            && (channel in after.waiting ==> after.waiting[channel] == row)
            && (channel !in after.waiting <==>
                && Get(event, "Channel") == Some(channel) && IsChannel(lim, channel) && IsUniqueidField(uniqueid)
                && (queue == Some(row.queue) || (queue.None? && EndKind(event["Event"]) == Some(HungUp)))
                && (row.uniqueid.None? || uniqueid == row.uniqueid))
  {
  }
}
