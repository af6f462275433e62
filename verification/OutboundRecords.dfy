/** The persisted records of outbound calls: JSON objects with a status and a counter of attempts, and the
    moves a record may make over its life. */
module OutboundRecords {
  import opened Prelude
  import opened Text

  /** A JSON value as json.loads gives it; `Huge` is a number that overflows a float. */
  datatype Json = Null | Bool(b: bool) | Whole(n: int) | Decimal(r: real) | Huge | Text(s: string) | Other

  type Record = map<string, Json>

  /** record.get(key) */
  function Field(r: Record, key: string): Json
  {
    if key in r then r[key] else Null
  }

  predicate HasStatus(r: Record, status: string)
  {
    Field(r, "status") == Text(status)
  }

  /** A counter of attempts, or -1 for what is no integer. */
  function Attempts(r: Record): int
  {
    match Field(r, "attempts")
    case Whole(n) => n
    case _ => -1
  }

  /** A finite moment that is not negative. */
  predicate IsMoment(j: Json)
  {
    match j
    case Whole(n) => n >= 0
    case Decimal(r) => r >= 0.0
    case _ => false
  }

  function Moment(j: Json): real
    requires IsMoment(j)
  {
    match j
    case Whole(n) => n as real
    case Decimal(r) => r
  }

  predicate IsHexOf(s: string, length: nat)
  {
    |s| == length && AllOf(s, IsHex)
  }

  predicate IsAttemptId(j: Json)
  {
    j.Text? && IsHexOf(j.s, 32)
  }

  predicate IsActive(r: Record)
  {
    HasStatus(r, "pendente") || HasStatus(r, "discando")
  }

  // ----- moves -----

  function Begun(r: Record, attempt: string, now: real): Record
  {
    r["status" := Text("discando")]["attempts" := Whole(Attempts(r) + 1)]["last_attempt_at" := Decimal(now)]
     ["attempt_id" := Text(attempt)]["channel_id" := Text("axe-" + attempt)]
  }

  function WithStatus(r: Record, status: string): Record
  {
    r["status" := Text(status)]
  }

  predicate IsOutcome(outcome: string)
  {
    outcome in {"ANSWER", "BUSY", "NOANSWER", "CANCEL", "CONGESTION"}
  }

  /** Where an attempt leads: the answered status, another try, or the end. */
  function NextStatus(outcome: string, answered: string, attempts: int, limit: nat): string
  {
    if outcome == "ANSWER" then answered else if attempts < limit then "pendente" else "esgotado"
  }

  /** A record moved to manual review, as the reconciliation tool does it. */
  function Reviewed(r: Record, now: real, actor: string): Record
  {
    WithStatus(r, "revisao_manual")["reviewed_at" := Decimal(now)]["review_actor" := Text(actor)]
  }

  /** The assignments that begin an attempt. */
  method BeginAttempt(r: Record, attempt: string, now: real) returns (s: Record)
    ensures s == Begun(r, attempt, now)
  {
    s := r["status" := Text("discando")];
    s := s["attempts" := Whole(Attempts(r) + 1)];
    s := s["last_attempt_at" := Decimal(now)];
    s := s["attempt_id" := Text(attempt)];
    s := s["channel_id" := Text("axe-" + attempt)];
  }

  /** The branches that end one. */
  method EndAttempt(r: Record, outcome: string, answered: string, limit: nat) returns (s: Record)
    ensures s == WithStatus(r, NextStatus(outcome, answered, Attempts(r), limit))
  {
    var status := answered;
    if outcome != "ANSWER" && Attempts(r) < limit {
      status := "pendente";
    } else if outcome != "ANSWER" {
      status := "esgotado";
    }
    s := r["status" := Text(status)];
  }

  ghost predicate Begins(r: Record, s: Record, limit: nat)
  {
    HasStatus(r, "pendente") && 0 <= Attempts(r) < limit && HasStatus(s, "discando") && Attempts(s) == Attempts(r) + 1
  }

  ghost predicate Returns(r: Record, s: Record, limit: nat)
  {
    HasStatus(r, "discando") && 1 <= Attempts(r) < limit && HasStatus(s, "pendente") && Attempts(s) == Attempts(r)
  }

  ghost predicate Finishes(r: Record, s: Record)
  {
    IsActive(r) && !IsActive(s)
  }

  /** Everything that may happen to a record in one step. */
  ghost predicate Moves(r: Record, s: Record, limit: nat)
  {
    s == r || Begins(r, s, limit) || Returns(r, s, limit) || Finishes(r, s)
  }

  /** How many steps a record still has before it. */
  function Rank(r: Record, limit: nat): int
  {
    if HasStatus(r, "pendente") then 2 * (limit - Attempts(r)) + 1
    else if HasStatus(r, "discando") then 2 * (limit - Attempts(r)) + 2
    else 0
  }

  /** An active record with a counter in its range. */
  ghost predicate InRange(r: Record, limit: nat)
  {
    && (HasStatus(r, "pendente") ==> 0 <= Attempts(r) < limit)
    && (HasStatus(r, "discando") ==> 1 <= Attempts(r) <= limit)
  }

  lemma MovesDecrease(r: Record, s: Record, limit: nat)
    requires InRange(r, limit) && Moves(r, s, limit)
    ensures InRange(s, limit)
    ensures s == r || 0 <= Rank(s, limit) < Rank(r, limit)
    ensures !IsActive(r) ==> s == r
  {
  }

  /** A record over time. */
  ghost predicate IsLife(trace: seq<Record>, limit: nat)
  {
    trace != [] && InRange(trace[0], limit) && forall i :: 0 <= i < |trace| - 1 ==> Moves(trace[i], trace[i + 1], limit)
  }

  /** How often the record was dialed, and how often it changed at all. */
  ghost function Dials(trace: seq<Record>, limit: nat): nat
  {
    if |trace| <= 1 then 0
    else Dials(trace[..|trace| - 1], limit) + if Begins(trace[|trace| - 2], trace[|trace| - 1], limit) then 1 else 0
  }

  ghost function Changes(trace: seq<Record>): nat
  {
    if |trace| <= 1 then 0
    else Changes(trace[..|trace| - 1]) + if trace[|trace| - 2] != trace[|trace| - 1] then 1 else 0
  }

  /** What a record has used up: its first counter and its dials; for a finished one, no more than the limit. */
  lemma {:induction false} DialsAreCounted(trace: seq<Record>, limit: nat)
    requires IsLife(trace, limit) && IsActive(trace[0])
    ensures InRange(trace[|trace| - 1], limit)
    ensures IsActive(trace[|trace| - 1]) ==> Attempts(trace[|trace| - 1]) == Attempts(trace[0]) + Dials(trace, limit)
    ensures Attempts(trace[0]) + Dials(trace, limit) <= limit
  {
    if |trace| > 1 {
      var last := |trace| - 1;
      var front := trace[..last];
      DialsAreCounted(front, limit);
      assert Moves(trace[last - 1], trace[last], limit) && front[|front| - 1] == trace[last - 1];
      MovesDecrease(trace[last - 1], trace[last], limit);
    }
  }

  /** Every change brings the end nearer: a life has no more changes than its first rank. */
  lemma {:induction false} ChangesAreBounded(trace: seq<Record>, limit: nat)
    requires IsLife(trace, limit)
    ensures InRange(trace[|trace| - 1], limit) && Rank(trace[|trace| - 1], limit) >= 0
    ensures Changes(trace) + Rank(trace[|trace| - 1], limit) <= Rank(trace[0], limit)
  {
    if |trace| > 1 {
      var last := |trace| - 1;
      ChangesAreBounded(trace[..last], limit);
      assert Moves(trace[last - 1], trace[last], limit) && trace[..last][last - 1] == trace[last - 1];
      MovesDecrease(trace[last - 1], trace[last], limit);
    }
  }

  /** A record that is neither pending nor being dialed stays as it is, whatever happens. */
  lemma {:induction false} FinishedForGood(trace: seq<Record>, limit: nat, i: nat)
    requires IsLife(trace, limit) && i < |trace| && !IsActive(trace[i])
    ensures forall j :: i <= j < |trace| ==> trace[j] == trace[i]
    decreases |trace| - i
  {
    if i + 1 < |trace| {
      ChangesAreBounded(trace[..i + 1], limit);
      assert Moves(trace[i], trace[i + 1], limit);
      MovesDecrease(trace[i], trace[i + 1], limit);
      FinishedForGood(trace, limit, i + 1);
    }
  }
}
