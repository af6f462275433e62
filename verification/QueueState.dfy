/** The in-memory mirror of the callers waiting in Asterisk's queues, fed by AMI events that may be
    repeated, late or out of order. */
module QueueState {
  import opened Prelude
  import opened Text

  const MAX_TENANTS: nat := 256

  /** Bounds of one tracker, and str.isprintable for one character. */
  datatype Limits = Limits(maxWaiting: nat, maxPerQueue: nat, maxAge: real, printable: char -> bool)

  datatype Row = Row(queue: string, tenant: string, uniqueid: Option<string>, callerNum: string, callerName: string,
                     joinedAt: real)

  datatype Kind =
    | Joins | Requeues
    | Left | Abandoned | Answered | Dumped | Completed | HungUp | Expired | PickedUp
    | DuplicateJoins | BlockedRequeue | RejectedGlobal | RejectedQueue | MismatchedQueue | MismatchedUniqueid

  /** A Counter: a kind that is missing counts as zero. */
  type Tally = map<Kind, nat>

  type Counters = map<string, Tally>

  datatype State = State(waiting: map<string, Row>, counters: Counters)

  function QueueTenant(queue: string): (r: Option<string>)
    ensures r.Some? ==> IsTenantId(r.value)
  {
    if |queue| < 5 || queue[..5] != "fila-" then None else
    var rest := queue[5..];
    if IsTenantId(rest) then Some(rest)
    else if |rest| > 3 && rest[|rest| - 3..] in {"-en", "-es"} && IsTenantId(rest[..|rest| - 3])
    then Some(rest[..|rest| - 3])
    else None
  }

  predicate IsChannel(lim: Limits, channel: string)
  {
    0 < |channel| <= 160 && forall i :: 0 <= i < |channel| ==> lim.printable(channel[i]) && !IsSpace(channel[i])
  }

  predicate IsUniqueidField(uniqueid: Option<string>)
  {
    uniqueid.Some? ==> IsUniqueId(uniqueid.value)
  }

  function SafeCallerField(lim: Limits, value: Option<string>, maxLength: nat): string
  {
    match value
    case None => ""
    case Some(text) => if |text| <= maxLength && AllOf(text, lim.printable) then text else ""
  }

  function EndKind(event: string): Option<Kind>
  {
    match event
    case "QueueCallerLeave" => Some(Left)
    case "QueueCallerAbandon" => Some(Abandoned)
    case "AgentConnect" => Some(Answered)
    case "AgentDump" => Some(Dumped)
    case "AgentComplete" => Some(Completed)
    case "Hangup" => Some(HungUp)
    case _ => None
  }

  // ----- the steps, on states -----

  function Number(tally: Tally, kind: Kind): nat
  {
    if kind in tally then tally[kind] else 0
  }

  function Added(tally: Tally, kind: Kind, n: nat): Tally
  {
    if n == 0 then tally else tally[kind := Number(tally, kind) + n]
  }

  function TallyOf(counters: Counters, tenant: string): Tally
  {
    if tenant in counters then counters[tenant] else map[]
  }

  /** _count: a tenant that finds the table full is never counted. */
  function Counted(counters: Counters, tenant: string, kind: Kind): Counters
  {
    if tenant in counters || |counters| < MAX_TENANTS
    then counters[tenant := Added(TallyOf(counters, tenant), kind, 1)]
    else counters
  }

  function Count(st: State, tenant: string, kind: Kind): State
  {
    st.(counters := Counted(st.counters, tenant, kind))
  }

  predicate IsStale(lim: Limits, row: Row, now: real)
  {
    now >= row.joinedAt && now - row.joinedAt > lim.maxAge
  }

  /** The channels among `among` whose rows expire, of one tenant. */
  function Stale(lim: Limits, st: State, now: real, among: set<string>, tenant: string): set<string>
  {
    set c | c in among && c in st.waiting && IsStale(lim, st.waiting[c], now) && st.waiting[c].tenant == tenant
  }

  /** Every stale row among these channels leaves and is counted as expired. */
  function PruneAmong(lim: Limits, st: State, now: real, among: set<string>): State
  {
    State(map c | c in st.waiting && !(c in among && IsStale(lim, st.waiting[c], now)) :: st.waiting[c],
          map t | t in st.counters :: Added(st.counters[t], Expired, |Stale(lim, st, now, among, t)|))
  }

  /** _prune. `now` is None for a clock reading that is not a usable number. */
  function Prune(lim: Limits, st: State, now: Option<real>): State
  {
    if now.None? then st else PruneAmong(lim, st, now.value, st.waiting.Keys)
  }

  function Without(st: State, channel: string): State
  {
    st.(waiting := st.waiting - {channel})
  }

  /** _end */
  function End(lim: Limits, st: State, event: Event, kind: Kind): State
  {
    var channel, queue, uniqueid := Get(event, "Channel"), Get(event, "Queue"), Get(event, "Uniqueid");
    if channel.None? || !IsChannel(lim, channel.value) || !IsUniqueidField(uniqueid) then st
    else if channel.value !in st.waiting then st
    else
      var row := st.waiting[channel.value];
      if kind != HungUp && queue != Some(row.queue) then Count(st, row.tenant, MismatchedQueue)
      else if queue.Some? && queue != Some(row.queue) then Count(st, row.tenant, MismatchedQueue)
      else if row.uniqueid.Some? && uniqueid != row.uniqueid then Count(st, row.tenant, MismatchedUniqueid)
      else Count(Without(st, channel.value), row.tenant, kind)
  }

  function InQueue(st: State, queue: string): set<string>
  {
    set c | c in st.waiting && st.waiting[c].queue == queue
  }

  /** Under which name this row's Join is counted. */
  function Verdict(lim: Limits, st: State, channel: string, row: Row): Kind
  {
    if channel in st.waiting then
      var previous := st.waiting[channel];
      if previous.queue == row.queue && previous.uniqueid == row.uniqueid then DuplicateJoins
      else if previous.tenant != row.tenant
           && (row.uniqueid.None? || previous.uniqueid.None? || row.uniqueid == previous.uniqueid) then BlockedRequeue
      else Requeues
    else if |st.waiting| >= lim.maxWaiting then RejectedGlobal
    else if |InQueue(st, row.queue)| >= lim.maxPerQueue then RejectedQueue
    else Joins
  }

  function Put(st: State, channel: string, row: Row): State
  {
    st.(waiting := st.waiting[channel := row])
  }

  /** A Join, after the stale rows are gone. */
  function Join(lim: Limits, st: State, channel: string, row: Row): State
  {
    match Verdict(lim, st, channel, row)
    case BlockedRequeue => Count(st, st.waiting[channel].tenant, BlockedRequeue)
    case Joins => Count(Put(st, channel, row), row.tenant, Joins)
    case Requeues => Count(Put(st, channel, row), row.tenant, Requeues)
    case kind => Count(st, row.tenant, kind)
  }

  function RowOf(lim: Limits, event: Event, now: real): Row
    requires IsJoin(lim, event)
  {
    var queue := event["Queue"];
    Row(queue, QueueTenant(queue).value, Get(event, "Uniqueid"), SafeCallerField(lim, Get(event, "CallerIDNum"), 64),
        SafeCallerField(lim, Get(event, "CallerIDName"), 128), now)
  }

  predicate IsJoin(lim: Limits, event: Event)
  {
    && Get(event, "Channel").Some? && IsChannel(lim, event["Channel"])
    && Get(event, "Queue").Some? && QueueTenant(event["Queue"]).Some?
    && IsUniqueidField(Get(event, "Uniqueid"))
  }

  /** apply_event */
  function Apply(lim: Limits, st: State, event: Event, now: Option<real>): State
  {
    match Get(event, "Event")
    case None => st
    case Some(name) =>
      if EndKind(name).Some? then End(lim, st, event, EndKind(name).value)
      else if name != "QueueCallerJoin" || !IsJoin(lim, event) || now.None? then st
      else Join(lim, Prune(lim, st, now), event["Channel"], RowOf(lim, event, now.value))
  }

  /** remove, after a pickup */
  function Remove(lim: Limits, st: State, channel: string, queue: Option<string>): State
  {
    if !IsChannel(lim, channel) || channel !in st.waiting then st
    else
      var row := st.waiting[channel];
      if queue.Some? && row.queue != queue.value then st
      else Count(Without(st, channel), row.tenant, PickedUp)
  }

  // ----- what every state keeps -----

  /** A tenant with rows is counted, unless the table was already full. */
  ghost predicate TenantsAreCounted(st: State)
  {
    |st.counters| < MAX_TENANTS ==> forall c :: c in st.waiting ==> st.waiting[c].tenant in st.counters
  }

  ghost predicate RowsFollowTheirQueue(st: State)
  {
    forall c :: c in st.waiting ==> QueueTenant(st.waiting[c].queue) == Some(st.waiting[c].tenant)
  }

  ghost predicate Valid(lim: Limits, st: State)
  {
    TenantsAreCounted(st) && RowsFollowTheirQueue(st) && |st.waiting| <= lim.maxWaiting && |st.counters| <= MAX_TENANTS
  }

  lemma PruneIsValid(lim: Limits, st: State, now: real, among: set<string>)
    requires Valid(lim, st)
    ensures Valid(lim, PruneAmong(lim, st, now, among))
    ensures PruneAmong(lim, st, now, among).counters.Keys == st.counters.Keys
  {
    var after := PruneAmong(lim, st, now, among);
    assert after.counters.Keys == st.counters.Keys;
    FewerKeys(after.waiting, st.waiting);
    SameSize(after.counters, st.counters);
  }

  lemma FewerKeys<K, V>(a: map<K, V>, b: map<K, V>)
    requires a.Keys <= b.Keys
    ensures |a| <= |b|
  {
    Subset(a.Keys, b.Keys);
  }

  lemma {:induction false} Subset<K>(a: set<K>, b: set<K>)
    requires a <= b
    ensures |a| <= |b|
  {
    assert a + (b - a) == b;
  }

  lemma SameSize<K, V>(a: map<K, V>, b: map<K, V>)
    requires a.Keys == b.Keys
    ensures |a| == |b|
  {
    FewerKeys(a, b);
    FewerKeys(b, a);
  }

  lemma StaleOneMore(lim: Limits, st: State, now: real, done: set<string>, c: string, tenant: string)
    requires c in st.waiting && c !in done
    ensures var here := if IsStale(lim, st.waiting[c], now) && st.waiting[c].tenant == tenant then 1 else 0;
            |Stale(lim, st, now, done + {c}, tenant)| == |Stale(lim, st, now, done, tenant)| + here
  {
    var some, more := Stale(lim, st, now, done, tenant), Stale(lim, st, now, done + {c}, tenant);
    if IsStale(lim, st.waiting[c], now) && st.waiting[c].tenant == tenant {
      assert more == some + {c};
    } else {
      assert more == some;
    }
  }

  lemma PrunedRows(lim: Limits, st: State, now: real, done: set<string>, c: string)
    requires c in st.waiting && c !in done
    ensures var before, after := PruneAmong(lim, st, now, done).waiting, PruneAmong(lim, st, now, done + {c}).waiting;
            && c in before && before[c] == st.waiting[c]
            && after == if IsStale(lim, st.waiting[c], now) then before - {c} else before
  {
  }

  lemma PrunedTally(lim: Limits, st: State, now: real, done: set<string>, c: string, tenant: string)
    requires c in st.waiting && c !in done && tenant in st.counters
    ensures var before, after := PruneAmong(lim, st, now, done).counters, PruneAmong(lim, st, now, done + {c}).counters;
            var row := st.waiting[c];
            && tenant in before && tenant in after
            && after[tenant] ==
              Added(before[tenant], Expired, if IsStale(lim, row, now) && row.tenant == tenant then 1 else 0)
  {
    StaleOneMore(lim, st, now, done, c, tenant);
    AddedTwice(st.counters[tenant], |Stale(lim, st, now, done, tenant)|);
  }

  lemma AddedTwice(tally: Tally, n: nat)
    ensures Added(Added(tally, Expired, n), Expired, 1) == Added(tally, Expired, n + 1)
  {
  }

  lemma CountedOnce(before: Counters, after: Counters, tenant: string, stale: bool)
    requires after.Keys == before.Keys && (tenant in before || |before| >= MAX_TENANTS)
    requires forall t :: t in before ==> after[t] == Added(before[t], Expired, if stale && t == tenant then 1 else 0)
    ensures after == if stale then Counted(before, tenant, Expired) else before
  {
    var expected := if stale then Counted(before, tenant, Expired) else before;
    forall t | t in before ensures after[t] == expected[t] {
    }
    assert after == expected;
  }

  lemma PrunedCounters(lim: Limits, st: State, now: real, done: set<string>, c: string)
    requires Valid(lim, st) && c in st.waiting && c !in done
    ensures var before, after := PruneAmong(lim, st, now, done).counters, PruneAmong(lim, st, now, done + {c}).counters;
            after == if IsStale(lim, st.waiting[c], now) then Counted(before, st.waiting[c].tenant, Expired) else before
  {
    var before, after := PruneAmong(lim, st, now, done).counters, PruneAmong(lim, st, now, done + {c}).counters;
    var tenant, stale := st.waiting[c].tenant, IsStale(lim, st.waiting[c], now);
    assert before.Keys == st.counters.Keys && after.Keys == st.counters.Keys;
    SameSize(before, st.counters);
    forall t | t in before ensures after[t] == Added(before[t], Expired, if stale && t == tenant then 1 else 0) {
      PrunedTally(lim, st, now, done, c, t);
    }
    CountedOnce(before, after, tenant, stale);
  }

  /** One more channel looked at, of those still to do. */
  lemma PruneOneMore(lim: Limits, st: State, now: real, todo: set<string>, c: string)
    requires Valid(lim, st) && c in todo && todo <= st.waiting.Keys
    ensures var before, after := PruneAmong(lim, st, now, st.waiting.Keys - todo),
            PruneAmong(lim, st, now, st.waiting.Keys - (todo - {c}));
            after == AfterLook(lim, before, c, st.waiting[c], now)
  {
    var done := st.waiting.Keys - todo;
    assert st.waiting.Keys - (todo - {c}) == done + {c};
    PrunedRows(lim, st, now, done, c);
    PrunedCounters(lim, st, now, done, c);
  }

  function AfterLook(lim: Limits, st: State, channel: string, row: Row, now: real): State
  {
    if IsStale(lim, row, now) then Count(Without(st, channel), row.tenant, Expired) else st
  }

  lemma PruneAll(lim: Limits, st: State, now: real, todo: set<string>)
    ensures todo == {} ==> PruneAmong(lim, st, now, st.waiting.Keys - todo) == Prune(lim, st, Some(now))
    ensures todo == st.waiting.Keys ==> PruneAmong(lim, st, now, st.waiting.Keys - todo) == st
  {
    if todo == {} {
      assert st.waiting.Keys - todo == st.waiting.Keys;
    }
    if todo == st.waiting.Keys {
      assert st.waiting.Keys - todo == {};
      forall t | t in st.counters ensures PruneAmong(lim, st, now, {}).counters[t] == st.counters[t] {
        assert Stale(lim, st, now, {}, t) == {};
      }
      assert PruneAmong(lim, st, now, {}).waiting == st.waiting;
      assert PruneAmong(lim, st, now, {}).counters == st.counters;
    }
  }

  class QueueStateTracker {
    const lim: Limits
    var waiting: map<string, Row>
    var counters: Counters

    constructor (lim: Limits)
      ensures this.lim == lim && Value() == State(map[], map[])
    {
      this.lim := lim;
      waiting, counters := map[], map[];
    }

    function Value(): State
      reads this
    {
      State(waiting, counters)
    }

    method CountOne(tenant: string, kind: Kind)
      modifies this`counters
      ensures Value() == Count(old(Value()), tenant, kind)
    {
      if tenant in counters || |counters| < MAX_TENANTS {
        counters := counters[tenant := Added(TallyOf(counters, tenant), kind, 1)];
      }
    }

    /** The body of _prune's loop. */
    method ExpireRow(channel: string, row: Row, now: real)
      modifies this
      ensures Value() == AfterLook(lim, old(Value()), channel, row, now)
    {
      if IsStale(lim, row, now) {
        waiting := waiting - {channel};
        CountOne(row.tenant, Expired);
      }
    }

    method PruneStale(now: Option<real>)
      requires Valid(lim, Value())
      modifies this
      ensures Value() == Prune(lim, old(Value()), now)
    {
      if now.None? {
        return;
      }
      var start := Value();
      var todo := waiting.Keys;
      PruneAll(lim, start, now.value, todo);
      while todo != {}
        invariant todo <= start.waiting.Keys
        invariant Value() == PruneAmong(lim, start, now.value, start.waiting.Keys - todo)
        decreases |todo|
      {
        var channel :| channel in todo;
        PruneOneMore(lim, start, now.value, todo, channel);
        ExpireRow(channel, start.waiting[channel], now.value);
        todo := todo - {channel};
      }
      PruneAll(lim, start, now.value, todo);
    }

    method EndCall(event: Event, kind: Kind)
      modifies this
      ensures Value() == End(lim, old(Value()), event, kind)
    {
      var channel, uniqueid := Get(event, "Channel"), Get(event, "Uniqueid");
      if channel.None? || !IsChannel(lim, channel.value) {
        return;
      }
      if !IsUniqueidField(uniqueid) {
        return;
      }
      if channel.value !in waiting {
        return;
      }
      var row, queue := waiting[channel.value], Get(event, "Queue");
      if kind != HungUp && queue != Some(row.queue) {
        CountOne(row.tenant, MismatchedQueue);
        return;
      }
      if queue.Some? && queue != Some(row.queue) {
        CountOne(row.tenant, MismatchedQueue);
        return;
      }
      if row.uniqueid.Some? && uniqueid != row.uniqueid {
        CountOne(row.tenant, MismatchedUniqueid);
        return;
      }
      waiting := waiting - {channel.value};
      CountOne(row.tenant, kind);
    }

    method ApplyEvent(event: Event, now: Option<real>)
      requires Valid(lim, Value())
      modifies this
      ensures Value() == Apply(lim, old(Value()), event, now)
    {
      var name := Get(event, "Event");
      if name.None? {
        return;
      }
      var kind := EndKind(name.value);
      if kind.Some? {
        EndCall(event, kind.value);
        return;
      }
      if name.value != "QueueCallerJoin" || !IsJoin(lim, event) || now.None? {
        return;
      }
      PruneStale(now);
      JoinCall(event["Channel"], RowOf(lim, event, now.value));
    }

    /** The part of apply_event that holds the lock: a valid Join, its row at hand. */
    method JoinCall(channel: string, row: Row)
      modifies this
      ensures Value() == Join(lim, old(Value()), channel, row)
    {
      var requeue := channel in waiting;
      if requeue {
        var previous := waiting[channel];
        if previous.queue == row.queue && previous.uniqueid == row.uniqueid {
          CountOne(row.tenant, DuplicateJoins);
          return;
        }
        if (&& previous.tenant != row.tenant
            && (row.uniqueid.None? || previous.uniqueid.None? || row.uniqueid == previous.uniqueid)) {
          CountOne(previous.tenant, BlockedRequeue);
          return;
        }
      } else {
        if |waiting| >= lim.maxWaiting {
          CountOne(row.tenant, RejectedGlobal);
          return;
        }
        if |InQueue(Value(), row.queue)| >= lim.maxPerQueue {
          CountOne(row.tenant, RejectedQueue);
          return;
        }
      }
      waiting := waiting[channel := row];
      CountOne(row.tenant, if requeue then Requeues else Joins);
    }

    method RemovePickedUp(channel: string, queue: Option<string>)
      modifies this
      ensures Value() == Remove(lim, old(Value()), channel, queue)
    {
      if !IsChannel(lim, channel) || channel !in waiting {
        return;
      }
      var row := waiting[channel];
      if queue.Some? && row.queue != queue.value {
        return;
      }
      waiting := waiting - {channel};
      CountOne(row.tenant, PickedUp);
    }

    method QueueForChannel(channel: string, now: Option<real>) returns (queue: Option<string>)
      requires Valid(lim, Value())
      modifies this
      ensures Value() == (if IsChannel(lim, channel) then Prune(lim, old(Value()), now) else old(Value()))
      ensures queue == (if IsChannel(lim, channel) && channel in waiting then Some(waiting[channel].queue) else None)
    {
      if !IsChannel(lim, channel) {
        return None;
      }
      PruneStale(now);
      return if channel in waiting then Some(waiting[channel].queue) else None;
    }
  }
}
