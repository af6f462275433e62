/** Whole runs of the service-level tracker: the day's counters and the history against a full log of
    the calls that were counted. */
module QueueSlaRuns {
  import opened Prelude
  import opened Dedupe
  import opened QueueSla

  /** A counted call, as an unbounded log would keep it. */
  datatype Entry = Entry(queue: string, uniqueid: Option<string>, within: bool)

  datatype Op = Ami(event: Event, today: int, again: int) | Look(today: int)

  /** A day that was closed, with the log of its counted calls. */
  datatype Closed = Closed(day: int, log: seq<Entry>)

  /** The tracker beside everything countable that was delivered on its current day, counted or not, the log of
      what it counted that day, the logs of the days before, and the log of everything since the start. */
  datatype Books = Books(st: State, delivered: seq<Entry>, today: seq<Entry>, closed: seq<Closed>, all: seq<Entry>)

  function Start(day: int): Books
  {
    Books(State(day, map[], [], Empty(), []), [], [], [], [])
  }

  function RollBooks(b: Books, today: int): Books
  {
    if today == b.st.day then b
    else Books(Roll(b.st, today), [], [], b.closed + [Closed(b.st.day, b.today)], b.all)
  }

  /** The delivery of an event that is refused. */
  function Pass(b: Books, e: Entry): Books
  {
    b.(delivered := b.delivered + [e])
  }

  function Enter(b: Books, e: Entry): Books
  {
    var counted := Record(b.st, e.queue, e.within);
    Books(if e.uniqueid.Some? then Noted(counted, (e.queue, e.uniqueid.value)) else counted,
          b.delivered + [e], b.today + [e], b.closed, b.all + [e])
  }

  function StepBooks(cfg: Config, b: Books, op: Op): Books
  {
    match op
    case Look(today) => RollBooks(b, today)
    case Ami(event, today, again) =>
      match Countable(cfg, event)
      case None => b
      case Some(outcome) =>
        var uniqueid := Get(event, "Uniqueid");
        var rolled := RollBooks(b, today);
        var e := Entry(outcome.queue, uniqueid, IsWithin(cfg, outcome));
        if IsRepeat(rolled.st, outcome, uniqueid) then Pass(rolled, e) else Enter(RollBooks(rolled, again), e)
  }

  /** The books only watch: the tracker inside them moves as it does alone. */
  lemma BooksFollowTheTracker(cfg: Config, b: Books, op: Op)
    ensures StepBooks(cfg, b, op).st ==
            match op
            case Look(today) => Roll(b.st, today)
            case Ami(event, today, again) => Apply(cfg, b.st, event, today, again)
  {
  }

  // ----- sums -----

  function Offered(log: seq<Entry>, queue: string): nat
  {
    if log == [] then 0
    else Offered(log[..|log| - 1], queue) + if log[|log| - 1].queue == queue then 1 else 0
  }

  function Within(log: seq<Entry>, queue: string): nat
  {
    if log == [] then 0
    else Within(log[..|log| - 1], queue) + if log[|log| - 1].queue == queue && log[|log| - 1].within then 1 else 0
  }

  function Calls(log: seq<Entry>): seq<Call>
  {
    if log == [] then [] else
    var front, last := Calls(log[..|log| - 1]), log[|log| - 1];
    if last.uniqueid.Some? then front + [(last.queue, last.uniqueid.value)] else front
  }

  function HistoryOffered(history: seq<HistoryRow>, queue: string): nat
  {
    if history == [] then 0 else
    var last := history[|history| - 1];
    HistoryOffered(history[..|history| - 1], queue) + CountIf(last.queue == queue, last.offered)
  }

  function HistoryWithin(history: seq<HistoryRow>, queue: string): nat
  {
    if history == [] then 0 else
    var last := history[|history| - 1];
    HistoryWithin(history[..|history| - 1], queue) + CountIf(last.queue == queue, last.within)
  }

  function CountIf(condition: bool, n: nat): nat
  {
    if condition then n else 0
  }

  lemma OneMore(log: seq<Entry>, e: Entry, queue: string)
    ensures Offered(log + [e], queue) == Offered(log, queue) + if e.queue == queue then 1 else 0
    ensures Within(log + [e], queue) == Within(log, queue) + if e.queue == queue && e.within then 1 else 0
    ensures Calls(log + [e]) == Calls(log) + if e.uniqueid.Some? then [(e.queue, e.uniqueid.value)] else []
  {
    assert (log + [e])[..|log|] == log;
    assert Calls(log) + [] == Calls(log);
  }

  // ----- the invariant -----

  /** The counters of the day are the counts of its log. */
  ghost predicate CountsTheDay(b: Books)
  {
    && (forall q :: q in b.st.queues ==> b.st.queues[q].offered > 0)
    && (forall q :: StatsOf(b.st, q).offered == Offered(b.today, q) && StatsOf(b.st, q).within == Within(b.today, q))
  }

  /** History and current day together account for every counted call. */
  ghost predicate CountsEverything(b: Books)
  {
    forall q ::
      && HistoryOffered(b.st.history, q) + StatsOf(b.st, q).offered == Offered(b.all, q)
      && HistoryWithin(b.st.history, q) + StatsOf(b.st, q).within == Within(b.all, q)
  }

  ghost predicate Inv(b: Books)
  {
    && NamesMatch(b.st)
    && CountsTheDay(b)
    && CountsEverything(b)
    && Passed(Calls(b.delivered), MAX_SLA_DEDUPE_IDS) == (Calls(b.today), b.st.memory)
  }

  /** The memory holds the last calls of the day's log. */
  lemma MemoryHoldsTheLog(b: Books)
    requires Inv(b)
    ensures Remembers(b.st.memory, Calls(b.today), MAX_SLA_DEDUPE_IDS)
  {
    PassedIsRemembered(Calls(b.delivered), MAX_SLA_DEDUPE_IDS);
  }

  lemma {:induction false} ClosingRowsSum(st: State, names: seq<string>, history: seq<HistoryRow>, q: string)
    requires forall n :: n in names ==> n in st.queues && st.queues[n].offered > 0
    requires forall i, j :: 0 <= i < j < |names| ==> names[i] != names[j]
    ensures var rows := ClosingRows(st.day, names, st.queues);
            && HistoryOffered(history + rows, q) == HistoryOffered(history, q)
              + CountIf(q in names, StatsOf(st, q).offered)
            && HistoryWithin(history + rows, q) == HistoryWithin(history, q)
              + CountIf(q in names, StatsOf(st, q).within)
  {
    if names == [] {
      assert history + [] == history;
    } else {
      var front, last := names[..|names| - 1], names[|names| - 1];
      ClosingRowsSum(st, front, history, q);
      var rows := ClosingRows(st.day, front, st.queues);
      var row := HistoryRow(st.day, last, st.queues[last].offered, st.queues[last].within);
      assert history + (rows + [row]) == (history + rows) + [row];
      assert ((history + rows) + [row])[..|history + rows|] == history + rows;
      assert names == front + [last];
    }
  }

  lemma RollKeeps(b: Books, today: int)
    requires Inv(b)
    ensures Inv(RollBooks(b, today))
  {
    var st, after := b.st, RollBooks(b, today);
    if today != st.day {
      forall q
        ensures HistoryOffered(after.st.history, q) + StatsOf(after.st, q).offered == Offered(b.all, q)
        ensures HistoryWithin(after.st.history, q) + StatsOf(after.st, q).within == Within(b.all, q)
      {
        ClosingRowsSum(st, st.names, st.history, q);
        assert HistoryOffered(st.history, q) + StatsOf(st, q).offered == Offered(b.all, q);
      }
    }
  }

  lemma RecordKeepsNames(st: State, queue: string, within: bool)
    requires NamesMatch(st)
    ensures NamesMatch(Record(st, queue, within))
  {
  }

  lemma RecordedStats(st: State, queue: string, within: bool, q: string)
    ensures StatsOf(Record(st, queue, within), q).offered == StatsOf(st, q).offered + CountIf(q == queue, 1)
    ensures StatsOf(Record(st, queue, within), q).within == StatsOf(st, q).within + CountIf(q == queue && within, 1)
  {
  }

  lemma EnterCounts(b: Books, e: Entry, q: string)
    requires CountsTheDay(b) && CountsEverything(b)
    ensures var after := Enter(b, e);
            && StatsOf(after.st, q).offered == Offered(after.today, q)
            && StatsOf(after.st, q).within == Within(after.today, q)
            && HistoryOffered(after.st.history, q) + StatsOf(after.st, q).offered == Offered(after.all, q)
            && HistoryWithin(after.st.history, q) + StatsOf(after.st, q).within == Within(after.all, q)
  {
    RecordedStats(b.st, e.queue, e.within, q);
    OneMore(b.today, e, q);
    OneMore(b.all, e, q);
    assert StatsOf(b.st, q).offered == Offered(b.today, q);
    assert HistoryOffered(b.st.history, q) + StatsOf(b.st, q).offered == Offered(b.all, q);
  }

  /** A delivered event is let through by the tracker exactly when the bounded memory lets it through. */
  lemma DeliveryPasses(delivered: seq<Entry>, today: seq<Entry>, memory: Memory<Call>, e: Entry)
    requires Passed(Calls(delivered), MAX_SLA_DEDUPE_IDS) == (Calls(today), memory)
    ensures var repeated := e.uniqueid.Some? && (e.queue, e.uniqueid.value) in memory.seen;
            Passed(Calls(delivered + [e]), MAX_SLA_DEDUPE_IDS)
            == if repeated || e.uniqueid.None? then (Calls(today), memory)
               else (Calls(today + [e]), Remember(memory, (e.queue, e.uniqueid.value), MAX_SLA_DEDUPE_IDS))
    ensures e.uniqueid.None? ==> Calls(today + [e]) == Calls(today)
  {
    OneMore(delivered, e, e.queue);
    OneMore(today, e, e.queue);
    if e.uniqueid.Some? {
      var keys := Calls(delivered);
      assert (keys + [(e.queue, e.uniqueid.value)])[..|keys|] == keys;
    } else {
      assert Calls(delivered + [e]) == Calls(delivered);
    }
  }

  lemma PassKeeps(b: Books, e: Entry)
    requires Inv(b) && e.uniqueid.Some? && (e.queue, e.uniqueid.value) in b.st.memory.seen
    ensures Inv(Pass(b, e))
  {
    DeliveryPasses(b.delivered, b.today, b.st.memory, e);
  }

  lemma EnterKeeps(b: Books, e: Entry)
    requires Inv(b) && (e.uniqueid.Some? ==> (e.queue, e.uniqueid.value) !in b.st.memory.seen)
    ensures Inv(Enter(b, e))
  {
    RecordKeepsNames(b.st, e.queue, e.within);
    DeliveryPasses(b.delivered, b.today, b.st.memory, e);
    var after := Enter(b, e);
    forall q
      ensures StatsOf(after.st, q).offered == Offered(after.today, q)
      ensures StatsOf(after.st, q).within == Within(after.today, q)
      ensures HistoryOffered(after.st.history, q) + StatsOf(after.st, q).offered == Offered(after.all, q)
      ensures HistoryWithin(after.st.history, q) + StatsOf(after.st, q).within == Within(after.all, q)
    {
      EnterCounts(b, e, q);
    }
  }

  lemma StepKeeps(cfg: Config, b: Books, op: Op)
    requires Inv(b)
    ensures Inv(StepBooks(cfg, b, op))
  {
    match op
    case Look(today) => RollKeeps(b, today);
    case Ami(event, today, again) =>
      match Countable(cfg, event)
      case None =>
      case Some(outcome) =>
        var uniqueid := Get(event, "Uniqueid");
        var rolled := RollBooks(b, today);
        var e := Entry(outcome.queue, uniqueid, IsWithin(cfg, outcome));
        RollKeeps(b, today);
        if IsRepeat(rolled.st, outcome, uniqueid) {
          PassKeeps(rolled, e);
        } else {
          RollKeeps(rolled, again);
          EnterKeeps(RollBooks(rolled, again), e);
        }
  }

  // ----- whole runs -----

  function Run(cfg: Config, day: int, ops: seq<Op>): Books
  {
    if ops == [] then Start(day) else StepBooks(cfg, Run(cfg, day, ops[..|ops| - 1]), ops[|ops| - 1])
  }

  lemma StartIsRight(day: int)
    ensures Inv(Start(day))
  {
  }

  lemma {:induction false} RunKeeps(cfg: Config, day: int, ops: seq<Op>)
    ensures Inv(Run(cfg, day, ops))
  {
    if ops == [] {
      StartIsRight(day);
    } else {
      RunKeeps(cfg, day, ops[..|ops| - 1]);
      StepKeeps(cfg, Run(cfg, day, ops[..|ops| - 1]), ops[|ops| - 1]);
    }
  }

  /** Rolling over a day loses no call and invents none, whatever the clock does. */
  lemma Conservation(cfg: Config, day: int, ops: seq<Op>, queue: string)
    ensures var b := Run(cfg, day, ops);
            && HistoryOffered(b.st.history, queue) + StatsOf(b.st, queue).offered == Offered(b.all, queue)
            && HistoryWithin(b.st.history, queue) + StatsOf(b.st, queue).within == Within(b.all, queue)
            && StatsOf(b.st, queue).within <= StatsOf(b.st, queue).offered
  {
    RunKeeps(cfg, day, ops);
    var b := Run(cfg, day, ops);
    assert StatsOf(b.st, queue).offered == Offered(b.today, queue);
    WithinIsOffered(b.today, queue);
  }

  lemma {:induction false} WithinIsOffered(log: seq<Entry>, queue: string)
    ensures Within(log, queue) <= Offered(log, queue)
  {
    if log != [] {
      WithinIsOffered(log[..|log| - 1], queue);
    }
  }

  /** The day's log: a call is counted again only after as many others as the memory holds. */
  lemma CountedAgainOnlyAfterManyOthers(cfg: Config, day: int, ops: seq<Op>, i: nat, j: nat)
    requires var calls := Calls(Run(cfg, day, ops).today); i < j < |calls| && calls[i] == calls[j]
    ensures j - i - 1 >= MAX_SLA_DEDUPE_IDS
  {
    RunKeeps(cfg, day, ops);
    MemoryHoldsTheLog(Run(cfg, day, ops));
  }

  /** A countable event is refused exactly when its call is among the last ones the memory holds. */
  lemma RefusedExactlyWhenRemembered(cfg: Config, day: int, ops: seq<Op>, outcome: Outcome, uniqueid: string)
    ensures var b := Run(cfg, day, ops);
            IsRepeat(b.st, outcome, Some(uniqueid))
            <==> (outcome.queue, uniqueid) in Suffix(Calls(b.today), MAX_SLA_DEDUPE_IDS)
  {
    RunKeeps(cfg, day, ops);
    MemoryHoldsTheLog(Run(cfg, day, ops));
  }

  // ----- what was delivered, and what was counted -----

  /** Of the events delivered, those without a Uniqueid and the first of each call. */
  function FirstDeliveries(log: seq<Entry>): seq<Entry>
  {
    if log == [] then [] else
    var before, last := log[..|log| - 1], log[|log| - 1];
    if last.uniqueid.Some? && (last.queue, last.uniqueid.value) in Calls(before) then FirstDeliveries(before)
    else FirstDeliveries(before) + [last]
  }

  /** The first of each call is what a memory that never forgets lets through. */
  lemma {:induction false} FirstDeliveriesAreFirsts(log: seq<Entry>)
    ensures Calls(FirstDeliveries(log)) == Firsts(Calls(log))
    ensures forall c :: c in Firsts(Calls(log)) <==> c in Calls(log)
  {
    if log != [] {
      var before, last := log[..|log| - 1], log[|log| - 1];
      FirstDeliveriesAreFirsts(before);
      OneMore(FirstDeliveries(before), last, last.queue);
      if last.uniqueid.Some? {
        var keys := Calls(before);
        assert Calls(log) == keys + [(last.queue, last.uniqueid.value)];
        assert (keys + [(last.queue, last.uniqueid.value)])[..|keys|] == keys;
      }
    }
  }

  /** The events that the tracker counted are the first deliveries, if the memory was large enough for the day. */
  ghost predicate CountsFirsts(b: Books)
  {
    |Firsts(Calls(b.delivered))| <= MAX_SLA_DEDUPE_IDS ==> b.today == FirstDeliveries(b.delivered)
  }

  lemma DeliveryCountsFirsts(b: Books, e: Entry)
    requires Inv(b) && CountsFirsts(b)
    ensures var repeated := e.uniqueid.Some? && (e.queue, e.uniqueid.value) in b.st.memory.seen;
            CountsFirsts(if repeated then Pass(b, e) else Enter(b, e))
  {
    var more := b.delivered + [e];
    assert more[..|b.delivered|] == b.delivered;
    OneMore(b.delivered, e, e.queue);
    FirstDeliveriesAreFirsts(b.delivered);
    if e.uniqueid.Some? && |Firsts(Calls(more))| <= MAX_SLA_DEDUPE_IDS {
      var keys, call := Calls(b.delivered), (e.queue, e.uniqueid.value);
      assert Calls(more) == keys + [call] && (keys + [call])[..|keys|] == keys;
      MemoryHoldsTheLog(b);
      assert call in b.st.memory.seen <==> call in keys;
    } else if e.uniqueid.None? {
      assert Calls(more) == Calls(b.delivered);
    }
  }

  lemma {:induction false} RunCountsFirsts(cfg: Config, day: int, ops: seq<Op>)
    ensures CountsFirsts(Run(cfg, day, ops))
  {
    if ops != [] {
      var b, op := Run(cfg, day, ops[..|ops| - 1]), ops[|ops| - 1];
      RunKeeps(cfg, day, ops[..|ops| - 1]);
      RunCountsFirsts(cfg, day, ops[..|ops| - 1]);
      if op.Ami? && Countable(cfg, op.event).Some? {
        var outcome, uniqueid := Countable(cfg, op.event).value, Get(op.event, "Uniqueid");
        var rolled, e := RollBooks(b, op.today), Entry(outcome.queue, uniqueid, IsWithin(cfg, outcome));
        RollKeeps(b, op.today);
        if IsRepeat(rolled.st, outcome, uniqueid) {
          DeliveryCountsFirsts(rolled, e);
        } else {
          RollKeeps(rolled, op.again);
          DeliveryCountsFirsts(RollBooks(rolled, op.again), e);
        }
      }
    }
  }

  function CallsOf(calls: seq<Call>, queue: string): set<Call>
  {
    set c | c in calls && c.0 == queue
  }

  function Unnamed(log: seq<Entry>, queue: string): nat
  {
    if log == [] then 0
    else Unnamed(log[..|log| - 1], queue) + CountIf(log[|log| - 1].queue == queue && log[|log| - 1].uniqueid.None?, 1)
  }

  ghost predicate NoRepeat(calls: seq<Call>)
  {
    forall i, j :: 0 <= i < j < |calls| ==> calls[i] != calls[j]
  }

  lemma OneMoreCall(calls: seq<Call>, call: Call, queue: string)
    requires NoRepeat(calls + [call])
    ensures NoRepeat(calls) && |CallsOf(calls + [call], queue)| == |CallsOf(calls, queue)| + CountIf(call.0 == queue, 1)
  {
    var more := calls + [call];
    forall i | 0 <= i < |calls| ensures calls[i] == more[i] && calls[i] != call {
      assert more[|calls|] == call;
    }
    if call.0 == queue {
      assert CallsOf(more, queue) == CallsOf(calls, queue) + {call};
    } else {
      assert CallsOf(more, queue) == CallsOf(calls, queue);
    }
  }

  lemma {:induction false} OfferedOfDistinctCalls(log: seq<Entry>, queue: string)
    requires NoRepeat(Calls(log))
    ensures Offered(log, queue) == |CallsOf(Calls(log), queue)| + Unnamed(log, queue)
  {
    if log == [] {
      assert CallsOf([], queue) == {};
    } else {
      var front, e := log[..|log| - 1], log[|log| - 1];
      if e.uniqueid.Some? {
        OneMoreCall(Calls(front), (e.queue, e.uniqueid.value), queue);
      }
      OfferedOfDistinctCalls(front, queue);
    }
  }

  /** In whatever order and however often events were delivered: what a tracker lets through on a day is what a
      memory of ten thousand calls lets through of the calls delivered that day. */
  lemma CountedCallsArePassed(cfg: Config, day: int, ops: seq<Op>)
    ensures var b := Run(cfg, day, ops);
            Calls(b.today) == Passed(Calls(b.delivered), MAX_SLA_DEDUPE_IDS).0
  {
    RunKeeps(cfg, day, ops);
  }

  /** On a day with no more different calls than the memory holds, the tracker counts exactly the first delivery
      of each call and every event without a Uniqueid; so `offered` is the number of different calls delivered
      for the queue and of events without a Uniqueid, and the first outcome of a call decides about the
      threshold. */
  lemma OfferedCountsCallsOnce(cfg: Config, day: int, ops: seq<Op>, queue: string)
    requires |Firsts(Calls(Run(cfg, day, ops).delivered))| <= MAX_SLA_DEDUPE_IDS
    ensures var b := Run(cfg, day, ops);
            && StatsOf(b.st, queue).offered == |CallsOf(Calls(b.delivered), queue)| + Unnamed(b.delivered, queue)
            && StatsOf(b.st, queue).within == Within(FirstDeliveries(b.delivered), queue)
  {
    var b := Run(cfg, day, ops);
    RunKeeps(cfg, day, ops);
    RunCountsFirsts(cfg, day, ops);
    assert StatsOf(b.st, queue).within == Within(b.today, queue);
    assert StatsOf(b.st, queue).offered == Offered(b.today, queue);
    FirstDeliveriesAreFirsts(b.delivered);
    FirstDeliveriesUnnamed(b.delivered, queue);
    BoundedRefinesUnbounded(Calls(b.delivered), MAX_SLA_DEDUPE_IDS);
    PassedIsRemembered(Calls(b.delivered), MAX_SLA_DEDUPE_IDS);
    OfferedOfDistinctCalls(b.today, queue);
    assert CallsOf(Calls(b.today), queue) == CallsOf(Calls(b.delivered), queue);
  }

  lemma {:induction false} FirstDeliveriesUnnamed(log: seq<Entry>, queue: string)
    ensures Unnamed(FirstDeliveries(log), queue) == Unnamed(log, queue)
  {
    if log != [] {
      var before, last := log[..|log| - 1], log[|log| - 1];
      FirstDeliveriesUnnamed(before, queue);
      assert (FirstDeliveries(before) + [last])[..|FirstDeliveries(before)|] == FirstDeliveries(before);
    }
  }

  /** The first outcome of a call stands: delivering the call again on the same day, with any outcome and
      whatever came in between, changes nothing as long as fewer other calls were counted since than the memory
      holds. */
  lemma FirstOutcomeStands(cfg: Config, day: int, ops: seq<Op>, i: nat, later: Event, again: int)
    requires var calls := Calls(Run(cfg, day, ops).today);
             i < |calls| && |calls| - i <= MAX_SLA_DEDUPE_IDS
             && Countable(cfg, later).Some? && Get(later, "Uniqueid").Some?
             && (Countable(cfg, later).value.queue, Get(later, "Uniqueid").value) == calls[i]
    ensures var st := Run(cfg, day, ops).st; Apply(cfg, st, later, st.day, again) == st
  {
    var b := Run(cfg, day, ops);
    RefusedExactlyWhenRemembered(cfg, day, ops, Countable(cfg, later).value, Get(later, "Uniqueid").value);
    AmongTheLast(Calls(b.today), MAX_SLA_DEDUPE_IDS, i);
  }

  lemma AmongTheLast(calls: seq<Call>, max: nat, i: nat)
    requires i < |calls| && |calls| - i <= max
    ensures calls[i] in Suffix(calls, max)
  {
    var last := Suffix(calls, max);
    assert last[i - (|calls| - |last|)] == calls[i];
  }

  // ----- one row per closed day and queue -----

  /** No reading of the clock that took effect lies before the day it found. */
  ghost predicate ClockIsMonotone(cfg: Config, day: int, ops: seq<Op>)
  {
    ops != [] ==>
      && ClockIsMonotone(cfg, day, ops[..|ops| - 1])
      && ops[|ops| - 1].today >= Run(cfg, day, ops[..|ops| - 1]).st.day
      && (ops[|ops| - 1].Ami? ==> ops[|ops| - 1].again >= ops[|ops| - 1].today)
  }

  /** The rows of the history for a day and a queue. */
  function RowsFor(history: seq<HistoryRow>, day: int, queue: string): seq<HistoryRow>
  {
    if history == [] then [] else
    var before, last := RowsFor(history[..|history| - 1], day, queue), history[|history| - 1];
    if last.day == day && last.queue == queue then before + [last] else before
  }

  /** The one row of a closed day for a queue that had calls, and none for one that had not. */
  function RowOf(closed: Closed, queue: string): seq<HistoryRow>
  {
    if Offered(closed.log, queue) == 0 then []
    else [HistoryRow(closed.day, queue, Offered(closed.log, queue), Within(closed.log, queue))]
  }

  lemma {:induction false} RowsForJoin(a: seq<HistoryRow>, b: seq<HistoryRow>, day: int, queue: string)
    ensures RowsFor(a + b, day, queue) == RowsFor(a, day, queue) + RowsFor(b, day, queue)
  {
    if b == [] {
      assert a + b == a;
    } else {
      RowsForJoin(a, b[..|b| - 1], day, queue);
      assert (a + b)[..|a + b| - 1] == a + b[..|b| - 1];
    }
  }

  lemma {:induction false} NoRowOfAnotherDay(history: seq<HistoryRow>, day: int, queue: string)
    requires forall i :: 0 <= i < |history| ==> history[i].day != day
    ensures RowsFor(history, day, queue) == []
  {
    if history != [] {
      NoRowOfAnotherDay(history[..|history| - 1], day, queue);
    }
  }

  /** Closing a day writes one row for each of its queues, in their order. */
  lemma {:induction false} ClosingRowsAre(day: int, names: seq<string>, queues: map<string, Stats>)
    requires forall n :: n in names ==> n in queues && queues[n].offered > 0
    ensures var rows := ClosingRows(day, names, queues);
            && |rows| == |names|
            && forall i :: 0 <= i < |names| ==>
                 rows[i].day == day && rows[i].queue == names[i]
                 && rows[i].offered == queues[names[i]].offered && rows[i].within == queues[names[i]].within
  {
    if names != [] {
      ClosingRowsAre(day, names[..|names| - 1], queues);
    }
  }

  lemma OneMoreRow(rows: seq<HistoryRow>, row: HistoryRow, day: int, queue: string)
    ensures RowsFor(rows + [row], day, queue) ==
            RowsFor(rows, day, queue) + if row.day == day && row.queue == queue then [row] else []
  {
    assert (rows + [row])[..|rows|] == rows;
  }

  lemma {:induction false} RowsOfClosing(day: int, names: seq<string>, queues: map<string, Stats>, queue: string)
    requires forall n :: n in names ==> n in queues && queues[n].offered > 0
    requires forall i, j :: 0 <= i < j < |names| ==> names[i] != names[j]
    ensures RowsFor(ClosingRows(day, names, queues), day, queue) ==
            if queue in names then [HistoryRow(day, queue, queues[queue].offered, queues[queue].within)] else []
  {
    if names != [] {
      var front, last := names[..|names| - 1], names[|names| - 1];
      RowsOfClosing(day, front, queues, queue);
      OneMoreRow(ClosingRows(day, front, queues), HistoryRow(day, last, queues[last].offered, queues[last].within),
                 day, queue);
      assert names == front + [last];
    }
  }

  /** Every closed day has exactly one row for each queue with calls, and no row is of any other day. */
  ghost predicate OneRowEach(b: Books)
  {
    && (forall i :: 0 <= i < |b.closed| ==> b.closed[i].day < b.st.day)
    && (forall i, j :: 0 <= i < j < |b.closed| ==> b.closed[i].day < b.closed[j].day)
    && (forall r :: r in b.st.history ==> exists i :: 0 <= i < |b.closed| && b.closed[i].day == r.day)
    && (forall i, q :: 0 <= i < |b.closed| ==> RowsFor(b.st.history, b.closed[i].day, q) == RowOf(b.closed[i], q))
  }

  lemma ClosedDayHasItsRows(b: Books, queue: string)
    requires Inv(b) && OneRowEach(b)
    ensures RowsFor(b.st.history + ClosingRows(b.st.day, b.st.names, b.st.queues), b.st.day, queue)
            == RowOf(Closed(b.st.day, b.today), queue)
  {
    var rows := ClosingRows(b.st.day, b.st.names, b.st.queues);
    forall i | 0 <= i < |b.st.history| ensures b.st.history[i].day != b.st.day {
      assert b.st.history[i] in b.st.history;
    }
    NoRowOfAnotherDay(b.st.history, b.st.day, queue);
    RowsForJoin(b.st.history, rows, b.st.day, queue);
    RowsOfClosing(b.st.day, b.st.names, b.st.queues, queue);
    assert StatsOf(b.st, queue).offered == Offered(b.today, queue)
           && StatsOf(b.st, queue).within == Within(b.today, queue);
  }

  lemma EarlierDaysKeepTheirRows(b: Books, i: nat, queue: string)
    requires Inv(b) && OneRowEach(b) && i < |b.closed|
    ensures RowsFor(b.st.history + ClosingRows(b.st.day, b.st.names, b.st.queues), b.closed[i].day, queue)
            == RowOf(b.closed[i], queue)
  {
    var rows := ClosingRows(b.st.day, b.st.names, b.st.queues);
    ClosingRowsAre(b.st.day, b.st.names, b.st.queues);
    NoRowOfAnotherDay(rows, b.closed[i].day, queue);
    RowsForJoin(b.st.history, rows, b.closed[i].day, queue);
  }

  lemma RollKeepsOneRowEach(b: Books, today: int)
    requires Inv(b) && OneRowEach(b) && today >= b.st.day
    ensures OneRowEach(RollBooks(b, today))
  {
    if today != b.st.day {
      var after, n := RollBooks(b, today), |b.closed|;
      var rows := ClosingRows(b.st.day, b.st.names, b.st.queues);
      ClosingRowsAre(b.st.day, b.st.names, b.st.queues);
      forall r | r in after.st.history ensures exists i :: 0 <= i < |after.closed| && after.closed[i].day == r.day {
        if r in rows {
          assert after.closed[n].day == r.day;
        } else {
          var i :| 0 <= i < n && b.closed[i].day == r.day;
          assert after.closed[i].day == r.day;
        }
      }
      forall i, q | 0 <= i < |after.closed|
        ensures RowsFor(after.st.history, after.closed[i].day, q) == RowOf(after.closed[i], q)
      {
        if i < n {
          EarlierDaysKeepTheirRows(b, i, q);
        } else {
          ClosedDayHasItsRows(b, q);
        }
      }
    }
  }

  /** Counting changes neither the history nor the closed days. */
  lemma DeliveryKeepsOneRowEach(b: Books, e: Entry)
    requires OneRowEach(b)
    ensures OneRowEach(Pass(b, e)) && OneRowEach(Enter(b, e))
  {
    assert Enter(b, e).st.history == b.st.history && Enter(b, e).st.day == b.st.day;
  }

  lemma StepKeepsOneRowEach(cfg: Config, b: Books, op: Op)
    requires Inv(b) && OneRowEach(b) && op.today >= b.st.day && (op.Ami? ==> op.again >= op.today)
    ensures OneRowEach(StepBooks(cfg, b, op))
  {
    RollKeepsOneRowEach(b, op.today);
    RollKeeps(b, op.today);
    if op.Ami? && Countable(cfg, op.event).Some? {
      var outcome, uniqueid := Countable(cfg, op.event).value, Get(op.event, "Uniqueid");
      var rolled, e := RollBooks(b, op.today), Entry(outcome.queue, uniqueid, IsWithin(cfg, outcome));
      RollKeepsOneRowEach(rolled, op.again);
      DeliveryKeepsOneRowEach(rolled, e);
      DeliveryKeepsOneRowEach(RollBooks(rolled, op.again), e);
    }
  }

  /** With a monotone clock every closed day has exactly one row for each queue that had calls, with the day's
      counts, and none for any other queue. */
  lemma {:induction false} HistoryHasOneRowEach(cfg: Config, day: int, ops: seq<Op>)
    requires ClockIsMonotone(cfg, day, ops)
    ensures OneRowEach(Run(cfg, day, ops))
  {
    if ops != [] {
      HistoryHasOneRowEach(cfg, day, ops[..|ops| - 1]);
      RunKeeps(cfg, day, ops[..|ops| - 1]);
      StepKeepsOneRowEach(cfg, Run(cfg, day, ops[..|ops| - 1]), ops[|ops| - 1]);
    }
  }
}
