/** What admission control guarantees over whole runs: the sliding windows never exceed their
    limits, and an idempotency key is not granted twice. */
module OutboundAdmissionRuns {
  import opened Prelude
  import opened OutboundAdmission

  datatype Op =
    | ReserveOp(call: Call, now: Option<real>)
    | FinishOp(ticket: nat, outcome: Outcome)
    | SnapshotOp(now: Option<real>)

  /** Grant number i (from 0) is ticket i + 1. */
  datatype Granted = Granted(tenant: string, extension: string, key: Option<Key>, when: real)

  /** A run so far: the state, every grant ever made, for each rejected ticket how many grants
      preceded its rejection, and the latest clock reading used. */
  datatype History = History(state: State, grants: seq<Granted>, rejectedAt: map<nat, nat>, clock: real)

  const START: History := History(State(map[], map[], map[], map[], 0, None), [], map[], 0.0)

  /** The clock reading a step uses, if it uses one: a reservation that is refused for its arguments, or for a
      reading older than the last one, uses none. */
  function Reading(s: State, op: Op): Option<real>
  {
    match op
    case ReserveOp(call, now) => if Runs(s, call, now) then now else None
    case FinishOp(_, _) => None
    case SnapshotOp(now) => if Usable(now) then now else None
  }

  function Apply(h: History, limits: Limits, op: Op): History
  {
    var clock := if Reading(h.state, op).Some? then Reading(h.state, op).value else h.clock;
    match op
    case ReserveOp(call, now) =>
      var (s, status) := Reserve(h.state, limits, call, now);
      var grants := if status.Reserved? then h.grants + [Granted(call.tenant, call.extension, KeyOf(call), now.value)]
        else h.grants;
      History(s, grants, h.rejectedAt, clock)
    case FinishOp(ticket, outcome) =>
      var (s, known) := Finish(h.state, ticket, outcome);
      History(s, h.grants, if known && outcome.WasRejected? then h.rejectedAt[ticket := |h.grants|] else h.rejectedAt,
              clock)
    case SnapshotOp(now) =>
      History(Look(h.state, limits, now), h.grants, h.rejectedAt, clock)
  }

  function Run(limits: Limits, ops: seq<Op>): History
  {
    if ops == [] then START else Apply(Run(limits, ops[..|ops| - 1]), limits, ops[|ops| - 1])
  }

  /** The reading of the last snapshot that had a usable one. */
  function LastLook(ops: seq<Op>): real
  {
    if ops == [] then 0.0 else
    var last := ops[|ops| - 1];
    if last.SnapshotOp? && Usable(last.now) then last.now.value else LastLook(ops[..|ops| - 1])
  }

  /** The readings of snapshots do not fall behind what was read before, nor those of reservations behind a
      snapshot. Reservations among themselves may come in any order: the source refuses a reading older than that
      of the last reservation. */
  predicate InOrder(limits: Limits, ops: seq<Op>)
  {
    ops != [] ==>
      var front := ops[..|ops| - 1];
      InOrder(limits, front) && IsTimely(Run(limits, front), LastLook(front), ops[|ops| - 1])
  }

  predicate IsTimely(h: History, looked: real, op: Op)
  {
    match op
    case FinishOp(_, _) => true
    case SnapshotOp(now) => Usable(now) ==> now.value >= h.clock
    case ReserveOp(call, now) =>
      Usable(now) ==> now.value >= looked || (h.state.lastTime.Some? && now.value < h.state.lastTime.value)
  }

  /** The latest reading used is that of the last reservation or of the last snapshot. */
  ghost predicate ClockIsKnown(h: History, looked: real)
  {
    looked <= h.clock && (h.clock == looked || h.state.lastTime == Some(h.clock))
  }

  lemma StepIsInOrder(h: History, looked: real, limits: Limits, op: Op)
    requires ClockIsKnown(h, looked) && IsTimely(h, looked, op)
    ensures Reading(h.state, op).Some? ==> Reading(h.state, op).value >= h.clock
    ensures var next := if op.SnapshotOp? && Usable(op.now) then op.now.value else looked;
            ClockIsKnown(Apply(h, limits, op), next)
  {
  }

  lemma {:induction false} RunsAreInOrder(limits: Limits, ops: seq<Op>)
    requires InOrder(limits, ops)
    ensures ClockIsKnown(Run(limits, ops), LastLook(ops))
    ensures ops != [] ==>
              var before := Run(limits, ops[..|ops| - 1]);
              var reading := Reading(before.state, ops[|ops| - 1]);
              reading.Some? ==> reading.value >= before.clock
  {
    if ops != [] {
      var front := ops[..|ops| - 1];
      RunsAreInOrder(limits, front);
      StepIsInOrder(Run(limits, front), LastLook(front), limits, ops[|ops| - 1]);
    }
  }

  /** A rate limit applies to a tenant or to one extension of it. */
  datatype Scope = OfTenant(tenant: string) | OfLine(tenant: string, extension: string)

  predicate Matches(g: Granted, scope: Scope)
  {
    g.tenant == scope.tenant && (scope.OfLine? ==> g.extension == scope.extension)
  }

  function WindowFor(s: State, scope: Scope): seq<real>
  {
    match scope
    case OfTenant(t) => WindowOf(s.tenantWindow, t)
    case OfLine(t, e) => WindowOf(s.extensionWindow, (t, e))
  }

  function LimitFor(limits: Limits, scope: Scope): nat
  {
    if scope.OfTenant? then limits.perTenant else limits.perExtension
  }

  /** When the grants of a scope were made, oldest first. */
  function Times(grants: seq<Granted>, scope: Scope): seq<real>
  {
    if grants == [] then [] else
    var g := grants[|grants| - 1];
    Times(grants[..|grants| - 1], scope) + if Matches(g, scope) then [g.when] else []
  }

  /** The times younger than a minute. */
  function Recent(ts: seq<real>, now: real): seq<real>
  {
    if ts == [] then [] else
    var last := ts[|ts| - 1];
    Recent(ts[..|ts| - 1], now) + if now - last < WINDOW then [last] else []
  }

  /** How many of `ts` fall in (t - 60, t]. */
  function CountIn(ts: seq<real>, t: real): nat
  {
    if ts == [] then 0 else
    var last := ts[|ts| - 1];
    CountIn(ts[..|ts| - 1], t) + if t - WINDOW < last <= t then 1 else 0
  }

  ghost predicate Ordered(ts: seq<real>, upto: real)
  {
    && (forall i, j :: 0 <= i < j < |ts| ==> ts[i] <= ts[j])
    && (forall i :: 0 <= i < |ts| ==> ts[i] <= upto)
  }

  /** Whenever a grant was made, no more than `limit` were then younger than a minute. */
  ghost predicate WithinLimit(ts: seq<real>, limit: nat)
  {
    forall n :: 0 < n <= |ts| ==> |Recent(ts[..n], ts[n - 1])| <= limit
  }

  lemma {:induction false} OldOnesAreNotRecent(ts: seq<real>, now: real)
    requires forall i :: 0 <= i < |ts| ==> now - ts[i] >= WINDOW
    ensures Recent(ts, now) == []
  {
    if ts != [] {
      OldOnesAreNotRecent(ts[..|ts| - 1], now);
    }
  }

  lemma {:induction false} RecentAreAmong(ts: seq<real>, now: real)
    ensures forall w :: w in Recent(ts, now) ==> w in ts
  {
    if ts != [] {
      RecentAreAmong(ts[..|ts| - 1], now);
    }
  }

  lemma {:induction false} TrimDropsOld(q: seq<real>, now: real)
    requires forall w :: w in q ==> now - w >= WINDOW
    ensures Trim(q, now) == []
  {
    if q != [] {
      assert q[0] in q && forall w :: w in q[1..] ==> w in q;
      TrimDropsOld(q[1..], now);
    }
  }

  lemma {:induction false} TrimKeepsYoungEnd(q: seq<real>, x: real, now: real)
    requires x <= now && now - x < WINDOW
    ensures Trim(q + [x], now) == Trim(q, now) + [x]
  {
    if q != [] && (q[0] > now || now - q[0] >= WINDOW) {
      assert (q + [x])[1..] == q[1..] + [x];
      TrimKeepsYoungEnd(q[1..], x, now);
    }
  }

  /** Trimming the window of an earlier instant gives the window of a later one. */
  lemma {:induction false} TrimIsRecent(ts: seq<real>, a: real, b: real)
    requires a <= b && Ordered(ts, a)
    ensures Trim(Recent(ts, a), b) == Recent(ts, b)
  {
    if ts != [] {
      var init, last := ts[..|ts| - 1], ts[|ts| - 1];
      TrimIsRecent(init, a, b);
      if b - last < WINDOW {
        TrimKeepsYoungEnd(Recent(init, a), last, b);
      } else {
        OldOnesAreNotRecent(ts, b);
        RecentAreAmong(ts, a);
        TrimDropsOld(Recent(ts, a), b);
      }
    }
  }

  lemma {:induction false} CountShrinks(ts: seq<real>, x: real, t: real)
    requires x <= t && Ordered(ts, x)
    ensures CountIn(ts, t) <= |Recent(ts, x)|
  {
    if ts != [] {
      CountShrinks(ts[..|ts| - 1], x, t);
    }
  }

  /** If the limit held at every grant, it holds in the minute before any instant. */
  lemma {:induction false} LimitAtGrantsIsLimitAlways(ts: seq<real>, upto: real, limit: nat, t: real)
    requires Ordered(ts, upto) && WithinLimit(ts, limit)
    ensures CountIn(ts, t) <= limit
  {
    if ts != [] {
      var init, last := ts[..|ts| - 1], ts[|ts| - 1];
      if last > t {
        assert forall n :: 0 < n <= |init| ==> init[..n] == ts[..n] && init[n - 1] == ts[n - 1];
        LimitAtGrantsIsLimitAlways(init, upto, limit, t);
      } else {
        assert ts[..|ts|] == ts;
        CountShrinks(ts, last, t);
      }
    }
  }

  lemma {:induction false} TimesAreOrdered(grants: seq<Granted>, scope: Scope, upto: real)
    requires forall i, j :: 0 <= i < j < |grants| ==> grants[i].when <= grants[j].when
    requires forall i :: 0 <= i < |grants| ==> grants[i].when <= upto
    ensures Ordered(Times(grants, scope), upto)
  {
    if grants != [] {
      var init, last := grants[..|grants| - 1], grants[|grants| - 1];
      TimesAreOrdered(init, scope, last.when);
    }
  }

  /** The invariant of every orderly run. */
  ghost predicate GrantsOrdered(h: History)
  {
    && (forall i, j :: 0 <= i < j < |h.grants| ==> h.grants[i].when <= h.grants[j].when)
    && (forall i :: 0 <= i < |h.grants| ==> h.grants[i].when <= h.clock)
    && h.state.sequence == |h.grants|
    && (h.state.lastTime.Some? ==> h.state.lastTime.value <= h.clock)
  }

  ghost predicate WindowsExact(h: History, limits: Limits)
  {
    && (forall scope :: WindowFor(h.state, scope) == Recent(Times(h.grants, scope), h.clock))
    && (forall scope :: WithinLimit(Times(h.grants, scope), LimitFor(limits, scope)))
  }

  lemma WindowAfterCleaning(s: State, now: real, ttl: nat, scope: Scope)
    ensures WindowFor(Cleaned(s, now, ttl), scope) == Trim(WindowFor(s, scope), now)
  {
  }

  /** A usable reading makes every window exact at that reading. */
  lemma CleaningIsExact(h: History, limits: Limits, now: real)
    requires GrantsOrdered(h) && WindowsExact(h, limits) && now >= h.clock
    ensures forall scope :: WindowFor(Cleaned(h.state, now, limits.ttl), scope) == Recent(Times(h.grants, scope), now)
  {
    forall scope ensures WindowFor(Cleaned(h.state, now, limits.ttl), scope) == Recent(Times(h.grants, scope), now) {
      TimesAreOrdered(h.grants, scope, h.clock);
      TrimIsRecent(Times(h.grants, scope), h.clock, now);
      WindowAfterCleaning(h.state, now, limits.ttl, scope);
    }
  }

  lemma OneMoreTime(grants: seq<Granted>, g: Granted, scope: Scope)
    ensures Times(grants + [g], scope) == Times(grants, scope) + if Matches(g, scope) then [g.when] else []
  {
    assert (grants + [g])[..|grants|] == grants;
  }

  lemma OneMoreRecent(ts: seq<real>, x: real)
    ensures Recent(ts + [x], x) == Recent(ts, x) + [x]
  {
    assert (ts + [x])[..|ts|] == ts;
  }

  lemma StaysWithinLimit(ts: seq<real>, x: real, limit: nat)
    requires WithinLimit(ts, limit) && |Recent(ts, x)| < limit
    ensures WithinLimit(ts + [x], limit)
  {
    var more := ts + [x];
    OneMoreRecent(ts, x);
    forall n | 0 < n <= |more| ensures |Recent(more[..n], more[n - 1])| <= limit {
      if n <= |ts| {
        assert more[..n] == ts[..n];
      } else {
        assert more[..n] == more;
      }
    }
  }

  lemma GrantIsExact(grants: seq<Granted>, g: Granted, scope: Scope, limit: nat)
    requires WithinLimit(Times(grants, scope), limit)
    requires Matches(g, scope) ==> |Recent(Times(grants, scope), g.when)| < limit
    ensures WithinLimit(Times(grants + [g], scope), limit)
    ensures Recent(Times(grants + [g], scope), g.when) ==
            Recent(Times(grants, scope), g.when) + if Matches(g, scope) then [g.when] else []
  {
    var ts := Times(grants, scope);
    OneMoreTime(grants, g, scope);
    if Matches(g, scope) {
      StaysWithinLimit(ts, g.when, limit);
      OneMoreRecent(ts, g.when);
    } else {
      assert ts + [] == ts && Recent(ts, g.when) + [] == Recent(ts, g.when);
    }
  }

  /** What a scope's window becomes when a reservation is granted. */
  lemma WindowAfterGrant(s: State, call: Call, now: real, scope: Scope)
    ensures WindowFor(Grant(s, call, now), scope) ==
            WindowFor(s, scope) + if Matches(Granted(call.tenant, call.extension, KeyOf(call), now), scope) then [now]
              else []
  {
  }

  lemma GrantedMeansRoom(s: State, limits: Limits, call: Call, now: real, scope: Scope)
    requires Decide(s, limits, call).Reserved?
    requires Matches(Granted(call.tenant, call.extension, KeyOf(call), now), scope)
    ensures |WindowFor(s, scope)| < LimitFor(limits, scope)
  {
  }

  lemma GrantKeepsWindows(s: State, grants: seq<Granted>, limits: Limits, call: Call, now: real, scope: Scope)
    requires Decide(s, limits, call).Reserved?
    requires WindowFor(s, scope) == Recent(Times(grants, scope), now)
    requires WithinLimit(Times(grants, scope), LimitFor(limits, scope))
    ensures var more := grants + [Granted(call.tenant, call.extension, KeyOf(call), now)];
            && WindowFor(Grant(s, call, now), scope) == Recent(Times(more, scope), now)
            && WithinLimit(Times(more, scope), LimitFor(limits, scope))
  {
    var g := Granted(call.tenant, call.extension, KeyOf(call), now);
    WindowAfterGrant(s, call, now, scope);
    if Matches(g, scope) {
      GrantedMeansRoom(s, limits, call, now, scope);
    }
    GrantIsExact(grants, g, scope, LimitFor(limits, scope));
  }

  lemma ReservationKeepsWindows(h: History, limits: Limits, call: Call, now: Option<real>)
    requires GrantsOrdered(h) && WindowsExact(h, limits)
    requires Runs(h.state, call, now) && now.value >= h.clock
    ensures WindowsExact(Apply(h, limits, ReserveOp(call, now)), limits)
  {
    var cleaned := Cleaned(h.state, now.value, limits.ttl).(lastTime := now);
    var h' := Apply(h, limits, ReserveOp(call, now));
    CleaningIsExact(h, limits, now.value);
    forall scope
      ensures WindowFor(h'.state, scope) == Recent(Times(h'.grants, scope), now.value)
      ensures WithinLimit(Times(h'.grants, scope), LimitFor(limits, scope))
    {
      assert WindowFor(cleaned, scope) == WindowFor(Cleaned(h.state, now.value, limits.ttl), scope);
      if Decide(cleaned, limits, call).Reserved? {
        GrantKeepsWindows(cleaned, h.grants, limits, call, now.value, scope);
      }
    }
  }

  lemma WindowsStayExact(h: History, limits: Limits, op: Op)
    requires GrantsOrdered(h) && WindowsExact(h, limits)
    requires Reading(h.state, op).Some? ==> Reading(h.state, op).value >= h.clock
    ensures GrantsOrdered(Apply(h, limits, op)) && WindowsExact(Apply(h, limits, op), limits)
  {
    if op.ReserveOp? && Reading(h.state, op).Some? {
      ReservationKeepsWindows(h, limits, op.call, op.now);
    } else if Reading(h.state, op).Some? {
      CleaningIsExact(h, limits, op.now.value);
    } else {
      assert forall scope :: WindowFor(Apply(h, limits, op).state, scope) == WindowFor(h.state, scope);
    }
  }

  lemma {:induction false} RunsAreExact(limits: Limits, ops: seq<Op>)
    requires ValidLimits(limits) && InOrder(limits, ops)
    ensures GrantsOrdered(Run(limits, ops)) && WindowsExact(Run(limits, ops), limits)
  {
    if ops == [] {
      assert forall scope :: Times([], scope) == [];
    } else {
      RunsAreExact(limits, ops[..|ops| - 1]);
      RunsAreInOrder(limits, ops);
      WindowsStayExact(Run(limits, ops[..|ops| - 1]), limits, ops[|ops| - 1]);
    }
  }

  /** Sliding-window safety: in the minute up to any instant, a tenant was granted at most
      `perTenant` reservations and an extension at most `perExtension`. */
  lemma SlidingWindowSafety(limits: Limits, ops: seq<Op>, scope: Scope, t: real)
    requires ValidLimits(limits) && InOrder(limits, ops)
    ensures CountIn(Times(Run(limits, ops).grants, scope), t) <= LimitFor(limits, scope)
  {
    var h := Run(limits, ops);
    RunsAreExact(limits, ops);
    TimesAreOrdered(h.grants, scope, h.clock);
    LimitAtGrantsIsLimitAlways(Times(h.grants, scope), h.clock, LimitFor(limits, scope), t);
  }

  /** No later grant has the same key. */
  ghost predicate Latest(grants: seq<Granted>, i: nat)
    requires i < |grants|
  {
    forall j :: i < j < |grants| ==> grants[j].key != grants[i].key
  }

  /** Grant i no longer stands in the way of its key: it was rejected or has expired. */
  ghost predicate Settled(h: History, limits: Limits, i: nat)
    requires i < |h.grants|
  {
    i + 1 in h.rejectedAt || h.clock - h.grants[i].when >= limits.ttl as real
  }

  /** Every ticket in flight is its own unexpired, unrejected grant, and if it has a key then the
      idempotency table holds a pending request of the same instant, and no newer grant of that
      key exists. */
  ghost predicate TicketsMatch(h: History, limits: Limits)
  {
    forall t :: t in h.state.inflight ==> TicketMatches(h, limits, t)
  }

  ghost predicate TicketMatches(h: History, limits: Limits, t: nat)
    requires t in h.state.inflight
  {
    && 1 <= t <= |h.grants| && t !in h.rejectedAt
    && h.state.inflight[t] == Row(h.grants[t - 1].when, h.grants[t - 1].key)
    && !Settled(h, limits, t - 1)
    && (h.grants[t - 1].key.Some? ==>
          && h.grants[t - 1].key.value in h.state.requests
          && h.state.requests[h.grants[t - 1].key.value].when == h.grants[t - 1].when
          && h.state.requests[h.grants[t - 1].key.value].state.Pending?
          && Latest(h.grants, t - 1))
  }

  /** An unsettled grant is the latest of its key, and its key is in the table. */
  ghost predicate UnsettledHeld(h: History, limits: Limits)
  {
    forall i :: 0 <= i < |h.grants| && h.grants[i].key.Some? && !Settled(h, limits, i) ==>
      h.grants[i].key.value in h.state.requests && Latest(h.grants, i)
  }

  ghost predicate RequestsDated(h: History)
  {
    && (forall k :: k in h.state.requests ==> h.state.requests[k].when <= h.clock)
    && (forall i :: 0 <= i < |h.grants| && h.grants[i].key.Some? && h.grants[i].key.value in h.state.requests ==>
          h.grants[i].when <= h.state.requests[h.grants[i].key.value].when)
    && (forall t :: t in h.rejectedAt ==> 1 <= t <= |h.grants| && h.rejectedAt[t] <= |h.grants|)
  }

  ghost predicate TablesConsistent(h: History, limits: Limits)
  {
    GrantsOrdered(h) && TicketsMatch(h, limits) && UnsettledHeld(h, limits) && RequestsDated(h)
  }

  /** The history seen from a later instant, with the tables cleaned. */
  function CleanedAt(h: History, limits: Limits, now: real): History
  {
    h.(state := Cleaned(h.state, now, limits.ttl), clock := now)
  }

  /** What is unsettled at a later instant was unsettled before. */
  lemma CleaningSettlesOnly(h: History, limits: Limits, now: real, i: nat)
    requires now >= h.clock && i < |h.grants| && !Settled(CleanedAt(h, limits, now), limits, i)
    ensures !Settled(h, limits, i)
  {
  }

  lemma CleaningKeepsUnsettled(h: History, limits: Limits, now: real)
    requires TablesConsistent(h, limits) && now >= h.clock
    ensures UnsettledHeld(CleanedAt(h, limits, now), limits)
  {
    var c := CleanedAt(h, limits, now);
    forall i | 0 <= i < |c.grants| && c.grants[i].key.Some? && !Settled(c, limits, i)
      ensures c.grants[i].key.value in c.state.requests && Latest(c.grants, i)
    {
      CleaningSettlesOnly(h, limits, now, i);
    }
  }

  lemma CleaningKeepsTickets(h: History, limits: Limits, now: real)
    requires TablesConsistent(h, limits) && now >= h.clock
    ensures TicketsMatch(CleanedAt(h, limits, now), limits)
  {
    var c := CleanedAt(h, limits, now);
    forall t | t in c.state.inflight ensures t in h.state.inflight && !Settled(c, limits, t - 1) {
      assert Alive(h.state.inflight[t].when, now, limits.ttl);
    }
  }

  lemma CleaningKeepsTables(h: History, limits: Limits, now: real)
    requires TablesConsistent(h, limits) && now >= h.clock
    ensures TablesConsistent(CleanedAt(h, limits, now), limits)
  {
    CleaningKeepsUnsettled(h, limits, now);
    CleaningKeepsTickets(h, limits, now);
  }

  function WithGrant(h: History, call: Call): History
  {
    h.(state := Grant(h.state, call, h.clock),
       grants := h.grants + [Granted(call.tenant, call.extension, KeyOf(call), h.clock)])
  }

  /** A granted key was free, so its earlier grants are all settled. */
  lemma GrantedKeyWasFree(h: History, limits: Limits, call: Call, i: nat)
    requires TablesConsistent(h, limits) && Decide(h.state, limits, call).Reserved?
    requires i < |h.grants| && h.grants[i].key.Some? && h.grants[i].key == KeyOf(call)
    ensures Settled(h, limits, i)
  {
    assert KeyOf(call).value !in h.state.requests;
  }

  lemma GrantKeepsUnsettled(h: History, limits: Limits, call: Call)
    requires TablesConsistent(h, limits) && Decide(h.state, limits, call).Reserved?
    ensures UnsettledHeld(WithGrant(h, call), limits)
  {
    var h' := WithGrant(h, call);
    forall i | 0 <= i < |h'.grants| && h'.grants[i].key.Some? && !Settled(h', limits, i)
      ensures h'.grants[i].key.value in h'.state.requests && Latest(h'.grants, i)
    {
      if i < |h.grants| {
        assert !Settled(h, limits, i);
        if h.grants[i].key == KeyOf(call) {
          GrantedKeyWasFree(h, limits, call, i);
        }
      }
    }
  }

  lemma OldTicketMatches(h: History, limits: Limits, call: Call, t: nat)
    requires TablesConsistent(h, limits) && Decide(h.state, limits, call).Reserved? && t in h.state.inflight
    ensures t in WithGrant(h, call).state.inflight && TicketMatches(WithGrant(h, call), limits, t)
  {
    assert TicketMatches(h, limits, t);
    assert WithGrant(h, call).grants[t - 1] == h.grants[t - 1];
  }

  lemma NewTicketMatches(h: History, limits: Limits, call: Call)
    requires TablesConsistent(h, limits) && ValidLimits(limits) && Decide(h.state, limits, call).Reserved?
    ensures |h.grants| + 1 in WithGrant(h, call).state.inflight
    ensures TicketMatches(WithGrant(h, call), limits, |h.grants| + 1)
  {
  }

  lemma GrantKeepsTickets(h: History, limits: Limits, call: Call)
    requires TablesConsistent(h, limits) && ValidLimits(limits) && Decide(h.state, limits, call).Reserved?
    ensures TicketsMatch(WithGrant(h, call), limits)
  {
    forall t | t in WithGrant(h, call).state.inflight ensures TicketMatches(WithGrant(h, call), limits, t) {
      if t in h.state.inflight {
        OldTicketMatches(h, limits, call, t);
      } else {
        NewTicketMatches(h, limits, call);
      }
    }
  }

  lemma GrantKeepsDates(h: History, limits: Limits, call: Call)
    requires TablesConsistent(h, limits) && Decide(h.state, limits, call).Reserved?
    ensures GrantsOrdered(WithGrant(h, call)) && RequestsDated(WithGrant(h, call))
  {
  }

  lemma GrantKeepsTables(h: History, limits: Limits, call: Call)
    requires TablesConsistent(h, limits) && ValidLimits(limits) && Decide(h.state, limits, call).Reserved?
    ensures TablesConsistent(WithGrant(h, call), limits)
  {
    GrantKeepsUnsettled(h, limits, call);
    GrantKeepsTickets(h, limits, call);
    GrantKeepsDates(h, limits, call);
  }

  /** A ticket in flight is the only one of its key. */
  lemma OneTicketPerKey(h: History, limits: Limits, a: nat, b: nat)
    requires TablesConsistent(h, limits) && a in h.state.inflight && b in h.state.inflight
    requires h.state.inflight[a].key.Some? && h.state.inflight[a].key == h.state.inflight[b].key
    ensures a == b
  {
  }

  lemma FinishKeepsTickets(h: History, limits: Limits, ticket: nat, outcome: Outcome)
    requires TablesConsistent(h, limits) && ticket in h.state.inflight
    ensures TicketsMatch(Apply(h, limits, FinishOp(ticket, outcome)), limits)
  {
    var h' := Apply(h, limits, FinishOp(ticket, outcome));
    var key := h.state.inflight[ticket].key;
    forall t | t in h'.state.inflight
      ensures t != ticket && !Settled(h', limits, t - 1)
      ensures h.state.inflight[t].key.Some? ==> h.state.inflight[t].key != key
    {
      assert !Settled(h, limits, t - 1);
      if h.state.inflight[t].key.Some? && h.state.inflight[t].key == key {
        OneTicketPerKey(h, limits, t, ticket);
      }
    }
  }

  lemma FinishKeepsUnsettled(h: History, limits: Limits, ticket: nat, outcome: Outcome)
    requires TablesConsistent(h, limits) && ticket in h.state.inflight
    ensures UnsettledHeld(Apply(h, limits, FinishOp(ticket, outcome)), limits)
  {
    var h' := Apply(h, limits, FinishOp(ticket, outcome));
    forall i | 0 <= i < |h'.grants| && h'.grants[i].key.Some? && !Settled(h', limits, i)
      ensures h'.grants[i].key.value in h'.state.requests && Latest(h'.grants, i)
    {
      assert !Settled(h, limits, i);
    }
  }

  lemma FinishKeepsDates(h: History, limits: Limits, ticket: nat, outcome: Outcome)
    requires TablesConsistent(h, limits) && ticket in h.state.inflight
    ensures GrantsOrdered(Apply(h, limits, FinishOp(ticket, outcome)))
    ensures RequestsDated(Apply(h, limits, FinishOp(ticket, outcome)))
  {
    var h' := Apply(h, limits, FinishOp(ticket, outcome));
    assert forall k :: k in h'.state.requests ==>
             k in h.state.requests && h'.state.requests[k].when == h.state.requests[k].when;
  }

  lemma FinishKeepsTables(h: History, limits: Limits, ticket: nat, outcome: Outcome)
    requires TablesConsistent(h, limits)
    ensures TablesConsistent(Apply(h, limits, FinishOp(ticket, outcome)), limits)
  {
    if ticket in h.state.inflight {
      FinishKeepsTickets(h, limits, ticket, outcome);
      FinishKeepsUnsettled(h, limits, ticket, outcome);
      FinishKeepsDates(h, limits, ticket, outcome);
    }
  }

  /** The history just before `reserve` decides. */
  function Ready(h: History, limits: Limits, now: Option<real>): History
    requires now.Some?
  {
    var c := CleanedAt(h, limits, now.value);
    c.(state := c.state.(lastTime := now))
  }

  lemma ReadyKeepsTables(h: History, limits: Limits, now: Option<real>)
    requires TablesConsistent(h, limits) && Usable(now) && now.value >= h.clock
    ensures TablesConsistent(Ready(h, limits, now), limits)
    ensures forall call :: Runs(h.state, call, now) ==>
      Apply(h, limits, ReserveOp(call, now)) ==
      if Decide(Ready(h, limits, now).state, limits, call).Reserved? then WithGrant(Ready(h, limits, now), call)
        else Ready(h, limits, now)
  {
    CleaningKeepsTables(h, limits, now.value);
    var c, r := CleanedAt(h, limits, now.value), Ready(h, limits, now);
    assert forall i :: 0 <= i < |h.grants| ==> (Settled(c, limits, i) <==> Settled(r, limits, i));
  }

  lemma StepKeepsTables(h: History, limits: Limits, op: Op)
    requires TablesConsistent(h, limits) && ValidLimits(limits)
    requires Reading(h.state, op).Some? ==> Reading(h.state, op).value >= h.clock
    ensures TablesConsistent(Apply(h, limits, op), limits)
  {
    match op
    case FinishOp(ticket, outcome) => FinishKeepsTables(h, limits, ticket, outcome);
    case SnapshotOp(now) => if Usable(now) { CleaningKeepsTables(h, limits, now.value); }
    case ReserveOp(call, now) =>
      if Runs(h.state, call, now) {
        ReadyKeepsTables(h, limits, now);
        if Decide(Ready(h, limits, now).state, limits, call).Reserved? {
          GrantKeepsTables(Ready(h, limits, now), limits, call);
        }
      }
  }

  lemma {:induction false} RunsKeepTables(limits: Limits, ops: seq<Op>)
    requires ValidLimits(limits) && InOrder(limits, ops)
    ensures TablesConsistent(Run(limits, ops), limits)
  {
    if ops != [] {
      RunsKeepTables(limits, ops[..|ops| - 1]);
      RunsAreInOrder(limits, ops);
      StepKeepsTables(Run(limits, ops[..|ops| - 1]), limits, ops[|ops| - 1]);
    }
  }

  /** Between two grants of one key, the first was rejected or the time to live has passed. */
  ghost predicate Idempotent(h: History, limits: Limits)
  {
    forall i, j :: 0 <= i < j < |h.grants| && h.grants[i].key.Some? && h.grants[i].key == h.grants[j].key ==>
      || (i + 1 in h.rejectedAt && h.rejectedAt[i + 1] <= j)
      || h.grants[j].when - h.grants[i].when >= limits.ttl as real
  }

  lemma GrantKeepsIdempotency(h: History, limits: Limits, call: Call)
    requires TablesConsistent(h, limits) && Idempotent(h, limits) && Decide(h.state, limits, call).Reserved?
    ensures Idempotent(WithGrant(h, call), limits)
  {
    forall i | 0 <= i < |h.grants| && h.grants[i].key.Some? && h.grants[i].key == KeyOf(call)
      ensures i + 1 in h.rejectedAt || h.clock - h.grants[i].when >= limits.ttl as real
    {
      GrantedKeyWasFree(h, limits, call, i);
    }
  }

  lemma StepKeepsIdempotency(h: History, limits: Limits, op: Op)
    requires TablesConsistent(h, limits) && Idempotent(h, limits)
    requires Reading(h.state, op).Some? ==> Reading(h.state, op).value >= h.clock
    ensures Idempotent(Apply(h, limits, op), limits)
  {
    if op.ReserveOp? && Runs(h.state, op.call, op.now) {
      var ready := Ready(h, limits, op.now);
      ReadyKeepsTables(h, limits, op.now);
      assert Idempotent(ready, limits);
      if Decide(ready.state, limits, op.call).Reserved? {
        GrantKeepsIdempotency(ready, limits, op.call);
      }
    }
  }

  /** Idempotency over every orderly run. */
  lemma {:induction false} IdempotencyOverRuns(limits: Limits, ops: seq<Op>)
    requires ValidLimits(limits) && InOrder(limits, ops)
    ensures Idempotent(Run(limits, ops), limits)
  {
    if ops != [] {
      var init := ops[..|ops| - 1];
      IdempotencyOverRuns(limits, init);
      RunsKeepTables(limits, init);
      RunsAreInOrder(limits, ops);
      StepKeepsIdempotency(Run(limits, init), limits, ops[|ops| - 1]);
    }
  }

  /** A finish changes nothing about the request of another key, nor about that of its own key once a newer
      reservation of the key exists, even one of the same instant. */
  lemma LateFinishLeavesNewerReservation(limits: Limits, ops: seq<Op>, ticket: nat, outcome: Outcome, k: Key)
    requires ValidLimits(limits) && InOrder(limits, ops)
    requires 1 <= ticket <= |Run(limits, ops).grants| && k in Run(limits, ops).state.requests
    requires Run(limits, ops).grants[ticket - 1].key != Some(k)
             || !Latest(Run(limits, ops).grants, ticket - 1)
    ensures var h := Run(limits, ops);
            var after := Finish(h.state, ticket, outcome).0;
            k in after.requests && after.requests[k] == h.state.requests[k]
  {
    RunsKeepTables(limits, ops);
  }

  /** A window all of whose entries lie in the future of a sweep is forgotten. */
  lemma {:induction false} TrimDropsFuture(q: seq<real>, now: real)
    requires forall w :: w in q ==> w > now
    ensures Trim(q, now) == []
  {
    if q != [] {
      assert q[0] in q && forall w :: w in q[1..] ==> w in q;
      TrimDropsFuture(q[1..], now);
    }
  }

  lemma {:induction false} RecentAreYoung(ts: seq<real>, now: real)
    ensures forall w :: w in Recent(ts, now) ==> now - w < WINDOW
  {
    if ts != [] {
      RecentAreYoung(ts[..|ts| - 1], now);
    }
  }

  lemma AppendKeepsOrder(q: seq<real>, x: real, upto: real)
    requires Ordered(q, upto) && x <= upto && forall w :: w in q ==> w <= x
    ensures Ordered(q + [x], upto)
  {
    forall i | 0 <= i < |q| ensures q[i] <= x {
      assert q[i] in q;
    }
  }

  /** The recent times are in order. */
  lemma {:induction false} RecentIsOrdered(ts: seq<real>, upto: real)
    requires Ordered(ts, upto)
    ensures Ordered(Recent(ts, upto), upto)
  {
    if ts != [] {
      var init, last := ts[..|ts| - 1], ts[|ts| - 1];
      RecentIsOrdered(init, upto);
      RecentAreAmong(init, upto);
      forall w | w in Recent(init, upto) ensures w <= last {
        assert w in init;
      }
      AppendKeepsOrder(Recent(init, upto), last, upto);
    }
  }

  lemma TrimShortens(q: seq<real>, now: real)
    ensures |Trim(q, now)| <= |q|
  {
  }

  /** What a snapshot does to the window that a reservation at `t` will find, whatever its clock reading. With ts
      the grants of the scope, the window stays exact if and only if none of them is younger than a minute at `t`,
      or the oldest that was recent before the snapshot is not in its future and the oldest that is recent at `t`
      is not old for the snapshot. */
  lemma SnapshotHarmsExactly(h: History, limits: Limits, now: real, t: real, scope: Scope)
    requires GrantsOrdered(h) && WindowsExact(h, limits) && now >= 0.0 && t >= h.clock
    ensures var ts := Times(h.grants, scope);
            Recent(ts, t) != [] ==> Recent(ts, h.clock) != []
    ensures var ts := Times(h.grants, scope);
            Trim(WindowFor(Look(h.state, limits, Some(now)), scope), t) == Recent(ts, t)
            <==> Recent(ts, t) == []
                 || (Recent(ts, h.clock)[0] <= now && now - Recent(ts, t)[0] < WINDOW)
  {
    var ts := Times(h.grants, scope);
    TimesAreOrdered(h.grants, scope, h.clock);
    WindowAfterCleaning(h.state, now, limits.ttl, scope);
    TrimIsRecent(ts, h.clock, t);
    if now >= h.clock {
      EarlySnapshot(ts, h.clock, now, t);
    } else {
      LateSnapshot(ts, h.clock, now, t);
    }
  }

  lemma FirstRecentIsPast(ts: seq<real>, upto: real, a: real)
    requires Ordered(ts, upto) && Recent(ts, a) != []
    ensures Recent(ts, a)[0] <= upto
  {
    RecentAreAmong(ts, a);
    assert Recent(ts, a)[0] in Recent(ts, a);
  }

  lemma EarlySnapshot(ts: seq<real>, clock: real, now: real, t: real)
    requires Ordered(ts, clock) && clock <= now && clock <= t && Recent(ts, t) == Trim(Recent(ts, clock), t)
    ensures Recent(ts, t) != [] ==> Recent(ts, clock) != [] && Recent(ts, clock)[0] <= now
    ensures Trim(Trim(Recent(ts, clock), now), t) == Recent(ts, t)
            <==> Recent(ts, t) == [] || now - Recent(ts, t)[0] < WINDOW
  {
    TrimIsRecent(ts, clock, now);
    if Recent(ts, t) != [] {
      FirstRecentIsPast(ts, clock, clock);
    }
    if now <= t {
      TrimIsRecent(ts, now, t);
      RecentAreYoung(ts, t);
      assert Recent(ts, t) != [] ==> Recent(ts, t)[0] in Recent(ts, t);
    } else {
      SnapshotAhead(ts, clock, now, t);
    }
  }

  lemma SnapshotAhead(ts: seq<real>, clock: real, now: real, t: real)
    requires Ordered(ts, clock) && clock <= t < now
    ensures Trim(Recent(ts, now), t) == Recent(ts, t) <==> Recent(ts, t) == [] || now - Recent(ts, t)[0] < WINDOW
  {
    TrimIsRecent(ts, t, now);
    RecentAreYoung(ts, now);
    if Recent(ts, now) != [] {
      FirstRecentIsPast(ts, clock, now);
      assert Recent(ts, now)[0] in Recent(ts, now);
    }
    assert Trim(Recent(ts, now), t) == Recent(ts, now);
    if Recent(ts, t) != [] {
      FirstRecentIsPast(ts, clock, t);
      TrimShortens(Recent(ts, t)[1..], now);
    }
  }

  lemma LateSnapshot(ts: seq<real>, clock: real, now: real, t: real)
    requires Ordered(ts, clock) && now < clock <= t && Recent(ts, t) == Trim(Recent(ts, clock), t)
    ensures Recent(ts, t) != [] ==> Recent(ts, clock) != []
    ensures Trim(Trim(Recent(ts, clock), now), t) == Recent(ts, t)
            <==> Recent(ts, t) == [] || (Recent(ts, clock)[0] <= now && now - Recent(ts, t)[0] < WINDOW)
  {
    var q := Recent(ts, clock);
    RecentIsOrdered(ts, clock);
    RecentAreYoung(ts, clock);
    RecentAreYoung(ts, t);
    if q != [] && q[0] > now {
      TrimDropsFuture(q, now);
    } else if q != [] {
      assert q[0] in q;
    }
    if Recent(ts, t) != [] {
      assert Recent(ts, t)[0] in Recent(ts, t);
    }
  }

  /** The snapshot reads its clock before it takes the lock and cleans without comparing it with
      the last reservation: one late reading forgets a fresh reservation, the same request is
      granted again at the same instant, and a limit of one is exceeded. */
  lemma LateSnapshotForgetsReservation(limits: Limits, call: Call)
    requires ValidLimits(limits) && WellFormed(call) && call.requestId.Some?
    ensures var ops := [ReserveOp(call, Some(10.0)), SnapshotOp(Some(9.0)), ReserveOp(call, Some(10.0))];
            && !InOrder(limits, ops) && !Idempotent(Run(limits, ops), limits)
            && CountIn(Times(Run(limits, ops).grants, OfTenant(call.tenant)), 10.0) == 2
            && (limits.perTenant == 1 ==> 2 > LimitFor(limits, OfTenant(call.tenant)))
  {
    var ops := [ReserveOp(call, Some(10.0)), SnapshotOp(Some(9.0)), ReserveOp(call, Some(10.0))];
    var g := Granted(call.tenant, call.extension, KeyOf(call), 10.0);
    TwiceGranted(limits, call);
    TwoGrantsAtOnce(g, Run(limits, ops).grants);
    SameGrantTwiceIsNotIdempotent(Run(limits, ops), limits, g);
    FirstReservation(limits, call);
    LateReadingIsNotInOrder(limits, call);
  }

  lemma FirstReservation(limits: Limits, call: Call)
    requires ValidLimits(limits) && WellFormed(call)
    ensures Run(limits, [ReserveOp(call, Some(10.0))])
            == WithGrant(START.(state := START.state.(lastTime := Some(10.0)), clock := 10.0), call)
  {
    var again := ReserveOp(call, Some(10.0));
    assert [] + [again] == [again];
    RunExtends(limits, [], again);
    FreshGrant(START, limits, call);
  }

  lemma ThenSwept(limits: Limits, call: Call)
    requires ValidLimits(limits) && WellFormed(call)
    ensures Run(limits, [ReserveOp(call, Some(10.0)), SnapshotOp(Some(9.0))])
            == History(State(map[], map[], map[], map[], 1, Some(10.0)),
                       [Granted(call.tenant, call.extension, KeyOf(call), 10.0)], map[], 9.0)
  {
    var again, late := ReserveOp(call, Some(10.0)), SnapshotOp(Some(9.0));
    assert [again] + [late] == [again, late];
    FirstReservation(limits, call);
    RunExtends(limits, [again], late);
    LateSweep(limits, call);
  }

  /** After a late sweep the same call is granted once more. */
  lemma TwiceGranted(limits: Limits, call: Call)
    requires ValidLimits(limits) && WellFormed(call)
    ensures var g := Granted(call.tenant, call.extension, KeyOf(call), 10.0);
            var h := Run(limits, [ReserveOp(call, Some(10.0)), SnapshotOp(Some(9.0)), ReserveOp(call, Some(10.0))]);
            h.grants == [g, g] && h.rejectedAt == map[]
  {
    var again, late := ReserveOp(call, Some(10.0)), SnapshotOp(Some(9.0));
    assert [again, late] + [again] == [again, late, again];
    ThenSwept(limits, call);
    RunExtends(limits, [again, late], again);
    FreshGrant(Run(limits, [again, late]), limits, call);
  }

  lemma SameGrantTwiceIsNotIdempotent(h: History, limits: Limits, g: Granted)
    requires ValidLimits(limits) && h.grants == [g, g] && h.rejectedAt == map[] && g.key.Some?
    ensures !Idempotent(h, limits)
  {
    assert h.grants[0] == h.grants[1];
  }

  lemma TwoGrantsAtOnce(g: Granted, grants: seq<Granted>)
    requires grants == [g, g] && g.when == 10.0
    ensures CountIn(Times(grants, OfTenant(g.tenant)), 10.0) == 2
  {
    assert grants[..1] == [g] && [g][..0] == [];
    assert Times([g], OfTenant(g.tenant)) == [10.0] && Times(grants, OfTenant(g.tenant)) == [10.0, 10.0];
    assert [10.0, 10.0][..1] == [10.0];
  }

  lemma LateReadingIsNotInOrder(limits: Limits, call: Call)
    requires WellFormed(call) && Run(limits, [ReserveOp(call, Some(10.0))]).clock == 10.0
    ensures !InOrder(limits, [ReserveOp(call, Some(10.0)), SnapshotOp(Some(9.0)), ReserveOp(call, Some(10.0))])
  {
    var again, late := ReserveOp(call, Some(10.0)), SnapshotOp(Some(9.0));
    assert [again, late, again][..2] == [again, late] && [again, late][..1] == [again];
    assert !InOrder(limits, [again, late]);
  }

  /** A sweep at 9 forgets all that was reserved at 10, and the new history starts empty. */
  lemma LateSweep(limits: Limits, call: Call)
    requires ValidLimits(limits) && WellFormed(call)
    ensures var before := WithGrant(START.(state := START.state.(lastTime := Some(10.0)), clock := 10.0), call);
            Apply(before, limits, SnapshotOp(Some(9.0))) ==
            History(State(map[], map[], map[], map[], 1, Some(10.0)), before.grants, map[], 9.0)
  {
    var before := WithGrant(START.(state := START.state.(lastTime := Some(10.0)), clock := 10.0), call);
    var swept := Apply(before, limits, SnapshotOp(Some(9.0))).state;
    var none: seq<real> := [];
    assert none + [10.0] == [10.0] && Trim([10.0], 9.0) == [];
    assert swept.tenantWindow == map[] && swept.extensionWindow == map[];
    assert swept.requests == map[] && swept.inflight == map[];
  }

  lemma RunExtends(limits: Limits, ops: seq<Op>, op: Op)
    ensures Run(limits, ops + [op]) == Apply(Run(limits, ops), limits, op)
  {
    assert (ops + [op])[..|ops|] == ops;
  }

  /** With empty tables, any well-formed call is granted. */
  lemma FreshGrant(h: History, limits: Limits, call: Call)
    requires ValidLimits(limits) && WellFormed(call)
    requires h.state == State(map[], map[], map[], map[], h.state.sequence, h.state.lastTime)
    requires h.state.lastTime.Some? ==> h.state.lastTime.value <= 10.0
    ensures Apply(h, limits, ReserveOp(call, Some(10.0))) ==
            WithGrant(h.(state := h.state.(lastTime := Some(10.0)), clock := 10.0), call)
  {
    var cleaned := Cleaned(h.state, 10.0, limits.ttl);
    assert cleaned.tenantWindow == map[] && cleaned.extensionWindow == map[];
    assert cleaned.requests == map[] && cleaned.inflight == map[];
    assert cleaned == h.state;
  }
}
