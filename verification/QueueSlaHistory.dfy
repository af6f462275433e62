/** The summary of the service-level history by date and queue. */
module QueueSlaHistory {
  import opened Prelude
  import opened QueueSla

  /** A line of the history as it is read back: untrusted until it is checked. */
  datatype Line = Line(date: string, queue: string, offered: int, within: int)

  type Summary = map<string, map<string, Stats>>

  predicate IsLeapYear(year: nat) { year % 4 == 0 && (year % 100 != 0 || year % 400 == 0) }

  function DaysIn(year: nat, month: nat): nat
  {
    if month == 2 then (if IsLeapYear(year) then 29 else 28)
    else if month in {4, 6, 9, 11} then 30 else 31
  }

  /** A real calendar date, written YYYY-MM-DD. */
  predicate IsDate(s: string)
  {
    && |s| == 10 && s[4] == '-' && s[7] == '-'
    && AllOf(s[..4], IsDigit) && AllOf(s[5..7], IsDigit) && AllOf(s[8..], IsDigit)
    && var year, month, day := Decimal(s[..4]), Decimal(s[5..7]), Decimal(s[8..]);
       1 <= year && 1 <= month <= 12 && 1 <= day <= DaysIn(year, month)
  }

  /** _valid_history_row */
  predicate IsLine(cfg: Config, r: Line)
  {
    IsDate(r.date) && IsQueueName(cfg, r.queue) && 1 <= r.offered <= 10000000 && 0 <= r.within <= r.offered
  }

  predicate Matches(r: Line, date: string, queue: string) { r.date == date && r.queue == queue }

  function Part(condition: bool, n: int): int
  {
    if condition then n else 0
  }

  function SumOffered(records: seq<Line>, date: string, queue: string): int
  {
    if records == [] then 0
    else
      var last := records[|records| - 1];
      SumOffered(records[..|records| - 1], date, queue) + Part(Matches(last, date, queue), last.offered)
  }

  function SumWithin(records: seq<Line>, date: string, queue: string): int
  {
    if records == [] then 0
    else
      var last := records[|records| - 1];
      SumWithin(records[..|records| - 1], date, queue) + Part(Matches(last, date, queue), last.within)
  }

  function At(m: Summary, date: string, queue: string): Stats
  {
    if date in m && queue in m[date] then m[date][queue] else Stats(0, 0)
  }

  /** No empty date and no empty queue in a summary. */
  ghost predicate IsTight(m: Summary)
  {
    forall date :: date in m ==> IsTightDay(m[date])
  }

  ghost predicate IsTightDay(queues: map<string, Stats>)
  {
    queues != map[] && forall queue :: queue in queues ==> queues[queue].offered > 0
  }

  ghost predicate IsSummary(m: Summary, records: seq<Line>)
  {
    && IsTight(m)
    && forall date, queue ::
         && At(m, date, queue).offered == SumOffered(records, date, queue)
         && At(m, date, queue).within == SumWithin(records, date, queue)
  }

  function WithLine(m: Summary, r: Line): Summary
    requires r.offered > 0 && r.within >= 0
  {
    var stats, queues := At(m, r.date, r.queue), if r.date in m then m[r.date] else map[];
    m[r.date := queues[r.queue := Stats(stats.offered + r.offered, stats.within + r.within)]]
  }

  lemma WithLineAt(m: Summary, r: Line, date: string, queue: string)
    requires r.offered > 0 && r.within >= 0
    ensures At(WithLine(m, r), date, queue).offered == At(m, date, queue).offered
            + Part(Matches(r, date, queue), r.offered)
    ensures At(WithLine(m, r), date, queue).within == At(m, date, queue).within
            + Part(Matches(r, date, queue), r.within)
  {
  }

  lemma WithLineIsTight(m: Summary, r: Line)
    requires IsTight(m) && r.offered > 0 && r.within >= 0
    ensures IsTight(WithLine(m, r))
  {
    var after := WithLine(m, r);
    assert r.queue in after[r.date];
    forall date | date in after ensures IsTightDay(after[date]) {
      assert date != r.date ==> after[date] == m[date];
    }
  }

  lemma SummaryOneMore(m: Summary, records: seq<Line>, r: Line)
    requires IsSummary(m, records) && r.offered > 0 && r.within >= 0
    ensures IsSummary(WithLine(m, r), records + [r])
  {
    assert (records + [r])[..|records|] == records;
    WithLineIsTight(m, r);
    forall date, queue
      ensures At(WithLine(m, r), date, queue).offered == SumOffered(records + [r], date, queue)
      ensures At(WithLine(m, r), date, queue).within == SumWithin(records + [r], date, queue)
    {
      WithLineAt(m, r, date, queue);
      assert At(m, date, queue).offered == SumOffered(records, date, queue);
    }
  }

  /** The body of the loop, for a valid line. */
  method AddLine(m: Summary, r: Line) returns (summary: Summary)
    requires r.offered > 0 && r.within >= 0
    ensures summary == WithLine(m, r)
  {
    summary := m;
    if r.date !in summary {
      summary := summary[r.date := map[]];
    }
    var queues := summary[r.date];
    var offered, within := 0, 0;
    if r.queue in queues {
      offered, within := queues[r.queue].offered, queues[r.queue].within;
    }
    summary := summary[r.date := queues[r.queue := Stats(offered + r.offered, within + r.within)]];
  }

  ghost predicate AreLines(cfg: Config, records: seq<Line>)
  {
    forall i :: 0 <= i < |records| ==> IsLine(cfg, records[i])
  }

  /** summarize_sla_history_by_date: None when a line is not valid. */
  method Summarize(cfg: Config, records: seq<Line>) returns (byDate: Option<Summary>)
    ensures byDate.Some? <==> AreLines(cfg, records)
    ensures byDate.Some? ==> IsSummary(byDate.value, records)
  {
    var summary: Summary := map[];
    for i := 0 to |records|
      invariant AreLines(cfg, records[..i]) && IsSummary(summary, records[..i])
    {
      var r := records[i];
      if !IsLine(cfg, r) {
        return None;
      }
      assert records[..i + 1] == records[..i] + [r];
      SummaryOneMore(summary, records[..i], r);
      summary := AddLine(summary, r);
    }
    assert records[..|records|] == records;
    return Some(summary);
  }

  // ----- the order of the lines does not matter -----

  function Removed(records: seq<Line>, i: nat): seq<Line>
    requires i < |records|
  {
    records[..i] + records[i + 1..]
  }

  lemma {:induction false} SumWithout(records: seq<Line>, i: nat, date: string, queue: string)
    requires i < |records|
    ensures var r := records[i];
            && SumOffered(records, date, queue) == SumOffered(Removed(records, i), date, queue)
              + Part(Matches(r, date, queue), r.offered)
            && SumWithin(records, date, queue) == SumWithin(Removed(records, i), date, queue)
              + Part(Matches(r, date, queue), r.within)
  {
    var last := |records| - 1;
    if i == last {
      assert Removed(records, i) == records[..last];
    } else {
      SumWithout(records[..last], i, date, queue);
      var rest := Removed(records, i);
      assert rest[..|rest| - 1] == Removed(records[..last], i) && rest[|rest| - 1] == records[last];
    }
  }

  /** Where the last line of one order stands in the other. */
  lemma FindInOtherOrder(front: seq<Line>, last: Line, b: seq<Line>) returns (i: nat)
    requires multiset(front + [last]) == multiset(b)
    ensures i < |b| && b[i] == last && multiset(front) == multiset(Removed(b, i))
  {
    assert last in multiset(b);
    i :| 0 <= i < |b| && b[i] == last;
    assert b == b[..i] + [last] + b[i + 1..];
    assert multiset(Removed(b, i)) == multiset(b) - multiset{last};
    assert multiset(front + [last]) - multiset{last} == multiset(front);
  }

  lemma {:induction false} SumIgnoresOrder(a: seq<Line>, b: seq<Line>, date: string, queue: string)
    requires multiset(a) == multiset(b)
    ensures SumOffered(a, date, queue) == SumOffered(b, date, queue)
    ensures SumWithin(a, date, queue) == SumWithin(b, date, queue)
    decreases |a|
  {
    if a == [] {
      assert |multiset(b)| == 0;
    } else {
      var front, last := a[..|a| - 1], a[|a| - 1];
      assert a == front + [last];
      var i := FindInOtherOrder(front, last, b);
      SumIgnoresOrder(front, Removed(b, i), date, queue);
      SumWithout(b, i, date, queue);
    }
  }

  lemma SameStats(m: Summary, n: Summary, date: string, queue: string)
    requires At(m, date, queue).offered == At(n, date, queue).offered
    requires At(m, date, queue).within == At(n, date, queue).within
    requires IsTight(m) && IsTight(n) && date in m && queue in m[date]
    ensures date in n && queue in n[date] && m[date][queue] == n[date][queue]
  {
  }

  /** Two summaries of the same lines in any order are the same. */
  lemma SummaryIgnoresOrder(a: seq<Line>, b: seq<Line>, m: Summary, n: Summary)
    requires multiset(a) == multiset(b) && IsSummary(m, a) && IsSummary(n, b)
    ensures m == n
  {
    forall date, queue
      ensures At(m, date, queue).offered == At(n, date, queue).offered
      ensures At(m, date, queue).within == At(n, date, queue).within
    {
      SumIgnoresOrder(a, b, date, queue);
    }
    SummaryIncluded(m, n);
    SummaryIncluded(n, m);
    forall date | date in m ensures m[date] == n[date] {
    }
  }

  lemma SummaryIncluded(m: Summary, n: Summary)
    requires IsTight(m) && IsTight(n)
    requires forall date, queue ::
               At(m, date, queue).offered == At(n, date, queue).offered
               && At(m, date, queue).within == At(n, date, queue).within
    ensures forall date :: date in m ==>
              date in n && forall queue :: queue in m[date] ==> queue in n[date] && m[date][queue] == n[date][queue]
  {
    forall date | date in m
      ensures date in n && forall queue :: queue in m[date] ==> queue in n[date] && m[date][queue] == n[date][queue]
    {
      var some :| some in m[date];
      SameStats(m, n, date, some);
      forall queue | queue in m[date] ensures queue in n[date] && m[date][queue] == n[date][queue] {
        SameStats(m, n, date, queue);
      }
    }
  }
}
