/** The service level of each queue, from AMI events: counters of the current day, a bounded memory of
    the calls already counted, and the history of the days that closed. */
module QueueSla {
  import opened Prelude
  import opened Text
  import opened Dedupe

  const MAX_HOLD_SECONDS: nat := 86400  // 24 * 3600
  const MAX_SLA_DEDUPE_IDS: nat := 10000

  /** The threshold of one tracker, and str.isprintable for one character. */
  datatype Config = Config(threshold: nat, printable: char -> bool)

  datatype Stats = Stats(offered: nat, within: nat)

  /** One line of the history; the percentage is derived from it. */
  datatype HistoryRow = HistoryRow(day: int, queue: string, offered: nat, within: nat)

  /** (queue, Uniqueid) */
  type Call = (string, string)

  /** `names` is the order in which the queues were first seen, as the dictionary keeps it. */
  datatype State = State(day: int, queues: map<string, Stats>, names: seq<string>, memory: Memory<Call>,
                         history: seq<HistoryRow>)

  datatype Outcome = Outcome(queue: string, hold: Option<nat>, answered: bool)

  /** _hold_time_seconds of a text: whole seconds, never a guess. */
  function HoldTime(value: Option<string>): (hold: Option<nat>)
    ensures hold.Some? ==> hold.value <= MAX_HOLD_SECONDS
  {
    if value.None? || !(1 <= |value.value| <= 9) || !AllOf(value.value, IsDigit) then None
    else if Decimal(value.value) <= MAX_HOLD_SECONDS then Some(Decimal(value.value)) else None
  }

  predicate IsQueueName(cfg: Config, queue: string)
  {
    1 <= |queue| <= 96 && forall i :: 0 <= i < |queue| ==> cfg.printable(queue[i]) && !IsSpace(queue[i])
  }

  /** parse_agent_connect_event, or else parse_queue_caller_abandon_event */
  function ParseOutcome(cfg: Config, event: Event): (r: Option<Outcome>)
    ensures r.Some? ==> IsQueueName(cfg, r.value.queue)
  {
    var name, queue := Get(event, "Event"), Get(event, "Queue");
    if name != Some("AgentConnect") && name != Some("QueueCallerAbandon") then None
    else if queue.None? || !IsQueueName(cfg, queue.value) then None
    else Some(Outcome(queue.value, HoldTime(Get(event, "HoldTime")), name == Some("AgentConnect")))
  }

  /** The outcome of an event that may be counted. */
  function Countable(cfg: Config, event: Event): Option<Outcome>
  {
    var uniqueid := Get(event, "Uniqueid");
    if uniqueid.Some? && !IsUniqueId(uniqueid.value) then None else ParseOutcome(cfg, event)
  }

  predicate IsWithin(cfg: Config, outcome: Outcome)
  {
    outcome.answered && outcome.hold.Some? && outcome.hold.value <= cfg.threshold
  }

  // ----- the steps, on states -----

  /** One history row for each queue of the closing day, in order. */
  function ClosingRows(day: int, names: seq<string>, queues: map<string, Stats>): seq<HistoryRow>
  {
    if names == [] then [] else
    var last := names[|names| - 1];
    var rows := ClosingRows(day, names[..|names| - 1], queues);
    if last !in queues || queues[last].offered == 0 then rows
    else rows + [HistoryRow(day, last, queues[last].offered, queues[last].within)]
  }

  ghost predicate NamesMatch(st: State)
  {
    && (forall q :: q in st.queues <==> q in st.names)
    && (forall i, j :: 0 <= i < j < |st.names| ==> st.names[i] != st.names[j])
  }

  /** _reset_if_new_day */
  function Roll(st: State, today: int): State
  {
    if today == st.day then st
    else State(today, map[], [], Empty(), st.history + ClosingRows(st.day, st.names, st.queues))
  }

  function StatsOf(st: State, queue: string): Stats
  {
    if queue in st.queues then st.queues[queue] else Stats(0, 0)
  }

  /** _record, on the right day */
  function Record(st: State, queue: string, within: bool): State
  {
    var stats := StatsOf(st, queue);
    st.(queues := st.queues[queue := Stats(stats.offered + 1, stats.within + if within then 1 else 0)],
        names := if queue in st.queues then st.names else st.names + [queue])
  }

  function Noted(st: State, call: Call): State
  {
    st.(memory := Remember(st.memory, call, MAX_SLA_DEDUPE_IDS))
  }

  predicate IsRepeat(st: State, outcome: Outcome, uniqueid: Option<string>)
  {
    uniqueid.Some? && (outcome.queue, uniqueid.value) in st.memory.seen
  }

  /** apply_event. The clock is read twice, once before the look-up and once in _record. */
  function Apply(cfg: Config, st: State, event: Event, today: int, again: int): State
  {
    match Countable(cfg, event)
    case None => st
    case Some(outcome) =>
      var uniqueid := Get(event, "Uniqueid");
      var rolled := Roll(st, today);
      if IsRepeat(rolled, outcome, uniqueid) then rolled else
      var counted := Record(Roll(rolled, again), outcome.queue, IsWithin(cfg, outcome));
      if uniqueid.Some? then Noted(counted, (outcome.queue, uniqueid.value)) else counted
  }

  class QueueSlaTracker {
    const cfg: Config
    var day: int
    var queues: map<string, Stats>
    var names: seq<string>
    var seen: set<Call>
    var order: seq<Call>
    var history: seq<HistoryRow>

    constructor (cfg: Config, today: int, history: seq<HistoryRow>)
      ensures this.cfg == cfg && Value() == State(today, map[], [], Empty(), history)
    {
      this.cfg, day, this.history := cfg, today, history;
      queues, names, seen, order := map[], [], {}, [];
    }

    function Value(): State
      reads this
    {
      State(day, queues, names, Memory(seen, order), history)
    }

    method ResetIfNewDay(today: int)
      requires NamesMatch(Value())
      modifies this
      ensures Value() == Roll(old(Value()), today) && NamesMatch(Value())
    {
      if today == day {
        return;
      }
      ghost var start := history;
      for i := 0 to |names|
        invariant unchanged(`day, `queues, `names, `seen, `order)
        invariant history == start + ClosingRows(day, names[..i], queues)
      {
        assert names[..i + 1][..i] == names[..i];
        var stats := queues[names[i]];
        if stats.offered == 0 {
          continue;
        }
        history := history + [HistoryRow(day, names[i], stats.offered, stats.within)];
      }
      assert names[..|names|] == names;
      day, queues, names, seen, order := today, map[], [], {}, [];
    }

    method RecordCall(outcome: Outcome, today: int)
      requires NamesMatch(Value())
      modifies this
      ensures Value() == Record(Roll(old(Value()), today), outcome.queue, IsWithin(cfg, outcome))
    {
      ResetIfNewDay(today);
      if outcome.queue !in queues {
        queues, names := queues[outcome.queue := Stats(0, 0)], names + [outcome.queue];
      }
      var stats := queues[outcome.queue];
      stats := stats.(offered := stats.offered + 1);
      if outcome.answered && outcome.hold.Some? && outcome.hold.value <= cfg.threshold {
        stats := stats.(within := stats.within + 1);
      }
      queues := queues[outcome.queue := stats];
    }

    method ApplyEvent(event: Event, today: int, again: int)
      requires NamesMatch(Value())
      modifies this
      ensures Value() == Apply(cfg, old(Value()), event, today, again)
    {
      var outcome := ParseOutcome(cfg, event);
      if outcome.None? {
        return;
      }
      var uniqueid := Get(event, "Uniqueid");
      if uniqueid.Some? && !IsUniqueId(uniqueid.value) {
        return;
      }
      ResetIfNewDay(today);
      if uniqueid.Some? && (outcome.value.queue, uniqueid.value) in seen {
        return;
      }
      RecordCall(outcome.value, again);
      if uniqueid.Some? {
        var call := (outcome.value.queue, uniqueid.value);
        seen, order := seen + {call}, order + [call];
        if |order| > MAX_SLA_DEDUPE_IDS {
          seen, order := seen - {order[0]}, order[1..];
        }
      }
    }

    method Snapshot(today: int) returns (result: map<string, Stats>)
      requires NamesMatch(Value())
      modifies this
      ensures Value() == Roll(old(Value()), today) && result == queues
    {
      ResetIfNewDay(today);
      return queues;
    }
  }
}
