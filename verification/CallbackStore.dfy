/** The stored catalog under its operations: each keeps it valid, and no callback is dialed more often than
    the limit. */
module CallbackStore {
  import opened Prelude
  import opened OutboundRecords
  import opened Callbacks

  lemma {:induction false} FindMeans(rs: Catalog, id: string)
    ensures match FindCallback(rs, id)
            case Some(i) => Field(rs[i], "id") == Text(id)
            case None => forall k :: 0 <= k < |rs| ==> Field(rs[k], "id") != Text(id)
  {
    if rs != [] && Field(rs[|rs| - 1], "id") != Text(id) {
      FindMeans(rs[..|rs| - 1], id);
    }
  }

  // ----- replacing one record -----

  /** The new version of a record that may take its place. */
  ghost predicate MayReplace(printable: char -> bool, rs: Catalog, i: nat, s: Record)
    requires i < |rs|
  {
    && Field(s, "id") == Field(rs[i], "id") && IsSound(printable, s)
    && forall k :: 0 <= k < |rs| && k != i ==> AreCompatible(rs[k], s)
  }

  lemma CompatibleBothWays(r: Record, s: Record)
    ensures AreCompatible(r, s) <==> AreCompatible(s, r)
  {
  }

  lemma Replacing(printable: char -> bool, rs: Catalog, i: nat, s: Record)
    requires IsCatalog(printable, rs) && i < |rs| && Field(s, "id") == Field(rs[i], "id")
    ensures IsCatalog(printable, rs[i := s]) <==> MayReplace(printable, rs, i, s)
  {
    var after := rs[i := s];
    forall k | 0 <= k < |rs| && k != i
      ensures after[k] == rs[k] && (AreCompatible(rs[k], s) <==> AreCompatible(s, rs[k]))
    {
      CompatibleBothWays(rs[k], s);
    }
    if IsCatalog(printable, after) {
      assert IsSound(printable, after[i]);
      forall k | 0 <= k < |rs| && k != i ensures AreCompatible(rs[k], s) {
        assert AreCompatible(after[if k < i then k else i], after[if k < i then i else k]);
      }
    } else if MayReplace(printable, rs, i, s) {
      ReplacedIsCatalog(printable, rs, i, s);
    }
  }

  lemma ReplacedIsCatalog(printable: char -> bool, rs: Catalog, i: nat, s: Record)
    requires IsCatalog(printable, rs) && i < |rs| && MayReplace(printable, rs, i, s)
    ensures IsCatalog(printable, rs[i := s])
  {
    var after := rs[i := s];
    forall j, k | 0 <= j < k < |after|
      ensures Field(after[j], "id") != Field(after[k], "id") && AreCompatible(after[j], after[k])
    {
      assert AreCompatible(rs[j], rs[k]) && Field(rs[j], "id") != Field(rs[k], "id");
      if k == i { assert AreCompatible(rs[j], s); }
      if j == i { CompatibleBothWays(rs[k], s); assert AreCompatible(rs[k], s); }
    }
  }

  // ----- reserving a callback -----

  /** No other record is being dialed under this attempt. */
  ghost predicate IsFreshAttempt(rs: Catalog, i: nat, attempt: string)
  {
    forall k :: 0 <= k < |rs| && k != i && HasStatus(rs[k], "discando") ==> Field(rs[k], "attempt_id") != Text(attempt)
  }

  lemma BegunIsActionable(printable: char -> bool, r: Record, attempt: string, now: real)
    requires IsSound(printable, r) && HasStatus(r, "pendente")
    ensures IsActionable(printable, Begun(r, attempt, now)) && Attempts(Begun(r, attempt, now)) == Attempts(r) + 1
  {
    var s := Begun(r, attempt, now);
    assert IsActionable(printable, r) && Attempts(s) == Attempts(r) + 1;
    assert Field(s, "id") == Field(r, "id") && Field(s, "caller_id_num") == Field(r, "caller_id_num");
    assert CallerName(s) == CallerName(r) && Field(s, "tenant") == Field(r, "tenant");
    assert Field(s, "requested_at") == Field(r, "requested_at");
    assert Field(s, "source_uniqueid") == Field(r, "source_uniqueid");
  }

  lemma BegunIsCorrelated(r: Record, attempt: string, now: real)
    requires Attempts(r) >= 0 && IsHexOf(attempt, 32) && now >= 0.0
    ensures IsCorrelated(Begun(r, attempt, now)) <==> IsAnswered(r)
  {
    var s := Begun(r, attempt, now);
    assert Field(s, "attempt_id") == Text(attempt) && Field(s, "channel_id") == Text("axe-" + attempt);
    assert Field(s, "last_attempt_at") == Decimal(now) && Attempts(s) == Attempts(r) + 1;
    BegunIsAnswered(r, attempt, now);
  }

  lemma BegunIsSound(printable: char -> bool, r: Record, attempt: string, now: real)
    requires IsSound(printable, r) && HasStatus(r, "pendente") && IsHexOf(attempt, 32) && now >= 0.0
    ensures IsSound(printable, Begun(r, attempt, now)) <==> IsAnswered(r)
    ensures Field(Begun(r, attempt, now), "id") == Field(r, "id")
  {
    BegunIsActionable(printable, r, attempt, now);
    BegunIsCorrelated(r, attempt, now);
  }

  lemma BegunIsCompatible(r: Record, s: Record, attempt: string, now: real)
    requires AreCompatible(r, s) && HasStatus(s, "pendente")
    ensures AreCompatible(r, Begun(s, attempt, now))
            <==> !(HasStatus(r, "discando") && Field(r, "attempt_id") == Text(attempt))
  {
  }

  /** Reserving keeps the catalog valid exactly when the attempt is not one that is under way, and the record
      carries no malformed trace of an earlier answer; otherwise the saved catalog can never be loaded again. */
  lemma CallingKeepsExactly(printable: char -> bool, rs: Catalog, id: string, attempt: string, now: real)
    requires IsCatalog(printable, rs) && now >= 0.0 && Calling(rs, id, attempt, now).Some?
    ensures var i := FindCallback(rs, id).value;
            IsCatalog(printable, Calling(rs, id, attempt, now).value)
            <==> IsFreshAttempt(rs, i, attempt) && IsAnswered(rs[i])
  {
    var i := FindCallback(rs, id).value;
    var s := Begun(rs[i], attempt, now);
    BegunIsSound(printable, rs[i], attempt, now);
    Replacing(printable, rs, i, s);
    forall k | 0 <= k < |rs| && k != i
      ensures AreCompatible(rs[k], s)
              <==> !(HasStatus(rs[k], "discando") && Field(rs[k], "attempt_id") == Text(attempt))
    {
      if k < i {
        assert AreCompatible(rs[k], rs[i]);
      } else {
        assert AreCompatible(rs[i], rs[k]);
        CompatibleBothWays(rs[i], rs[k]);
      }
      BegunIsCompatible(rs[k], rs[i], attempt, now);
    }
  }

  /** A valid catalog that a reservation spoils: a pending callback with a malformed answer loads, but not once it
      is being dialed. */
  lemma MalformedAnswerSpoilsCatalog(printable: char -> bool, id: string, number: string, attempt: string, now: real)
    requires IsHexOf(id, 12) && IsRequest(number, None, None) && IsHexOf(attempt, 32) && now >= 0.0
    ensures var rs := [NewRequest(id, Digits(number).value, "", None, None, now)["originate_response" := Text("")]];
            && IsCatalog(printable, rs) && Calling(rs, id, attempt, now).Some?
            && !IsCatalog(printable, Calling(rs, id, attempt, now).value)
  {
    var r := NewRequest(id, Digits(number).value, "", None, None, now)["originate_response" := Text("")];
    NewRequestFields(id, Digits(number).value, "", None, None, now);
    DigitsAreAPhone(number);
    assert Field(r, "originate_response") == Text("") && !IsAnswered(r);
    assert IsSound(printable, r) && IsCatalog(printable, [r]);
    assert FindCallback([r], id) == Some(0);
    CallingKeepsExactly(printable, [r], id, attempt, now);
  }

  // ----- results and cancellations -----

  /** A record that stays what it was but for its status, and becomes pending only if it may. */
  lemma StatusKeeps(printable: char -> bool, rs: Catalog, i: nat, s: Record)
    requires IsCatalog(printable, rs) && i < |rs| && IsActive(rs[i])
    requires forall key :: key != "status" && key != "cancelled_at" ==> Field(s, key) == Field(rs[i], key)
    requires CallerName(s) == CallerName(rs[i])
    requires Field(s, "status").Text? && !HasStatus(s, "discando")
    requires HasStatus(s, "pendente") ==> Attempts(rs[i]) < MAX_ATTEMPTS
    ensures IsCatalog(printable, rs[i := s])
  {
    assert IsActionable(printable, rs[i]) && Attempts(s) == Attempts(rs[i]);
    assert IsActive(s) ==> IsActionable(printable, s);
    forall k | 0 <= k < |rs| && k != i ensures AreCompatible(rs[k], s) {
      assert AreCompatible(rs[if k < i then k else i], rs[if k < i then i else k]);
    }
    ReplacedIsCatalog(printable, rs, i, s);
  }

  /** Recording a result keeps the catalog valid. */
  lemma ResultKeeps(printable: char -> bool, rs: Catalog, id: string, outcome: string)
    requires IsCatalog(printable, rs) && WithResult(rs, id, outcome).Some?
    ensures IsCatalog(printable, WithResult(rs, id, outcome).value)
  {
    var i := FindCallback(rs, id).value;
    StatusKeeps(printable, rs, i, WithStatus(rs[i], StatusAfter(outcome, Attempts(rs[i]))));
  }

  /** Cancelling keeps the catalog valid. */
  lemma CancelKeeps(printable: char -> bool, rs: Catalog, id: string, tenant: string, now: real)
    requires IsCatalog(printable, rs) && Cancelled(rs, id, tenant, now).Some?
    ensures IsCatalog(printable, Cancelled(rs, id, tenant, now).value)
  {
    var i := FindCallback(rs, id).value;
    StatusKeeps(printable, rs, i, WithStatus(rs[i], "cancelado")["cancelled_at" := Decimal(now)]);
  }

  /** Moving a dialed record to review keeps the catalog valid. */
  lemma ReviewKeeps(printable: char -> bool, rs: Catalog, i: nat, now: real, actor: string)
    requires IsCatalog(printable, rs) && i < |rs| && HasStatus(rs[i], "discando")
    ensures IsCatalog(printable, rs[i := Reviewed(rs[i], now, actor)])
  {
    var s := Reviewed(rs[i], now, actor);
    forall k | 0 <= k < |rs| && k != i ensures AreCompatible(rs[k], s) {
      assert !IsActive(s);
    }
    ReplacedIsCatalog(printable, rs, i, s);
  }

  // ----- requests -----

  lemma {:induction false} FreshIdIsFresh(rs: Catalog, draws: seq<string>)
    requires FreshId(rs, draws).Some?
    ensures var id := FreshId(rs, draws).value;
            && id in draws && forall k :: 0 <= k < |rs| ==> Field(rs[k], "id") != Text(id)
  {
    FindMeans(rs, draws[0]);
    if FindCallback(rs, draws[0]).Some? {
      FreshIdIsFresh(rs, draws[1..]);
    }
  }

  lemma NewRequestFields(id: string, digits: string, name: string, tenant: Option<string>, source: Option<string>,
                         now: real)
    ensures var r := NewRequest(id, digits, name, tenant, source, now);
            && Field(r, "id") == Text(id) && Field(r, "caller_id_num") == Text(digits) && CallerName(r) == Text(name)
            && HasStatus(r, "pendente") && Attempts(r) == 0 && Field(r, "requested_at") == Decimal(now)
            && Field(r, "tenant") == TextOrNull(tenant) && Field(r, "source_uniqueid") == TextOrNull(source)
  {
  }

  lemma DigitsAreAPhone(number: string)
    requires Digits(number).Some?
    ensures IsPhone(Digits(number).value) && Digits(number).value[0] != '+'
  {
  }

  lemma NewRequestIsSound(printable: char -> bool, id: string, number: string, name: string, tenant: Option<string>,
                          source: Option<string>, now: real)
    requires IsRequest(number, tenant, source) && IsHexOf(id, 12) && now >= 0.0
    ensures IsSound(printable, NewRequest(id, Digits(number).value, SafeName(printable, name), tenant, source, now))
  {
    NewRequestFields(id, Digits(number).value, SafeName(printable, name), tenant, source, now);
    DigitsAreAPhone(number);
  }

  lemma AppendIsCatalog(printable: char -> bool, rs: Catalog, r: Record)
    requires IsCatalog(printable, rs) && |rs| < MAX_CALLBACKS && IsSound(printable, r) && HasIdentifier(r)
    requires forall k :: 0 <= k < |rs| ==> Field(rs[k], "id") != Field(r, "id") && AreCompatible(rs[k], r)
    ensures IsCatalog(printable, rs + [r])
  {
    var after := rs + [r];
    forall j, k | 0 <= j < k < |after|
      ensures Field(after[j], "id") != Field(after[k], "id") && AreCompatible(after[j], after[k])
    {
      assert k < |rs| ==> Field(rs[j], "id") != Field(rs[k], "id") && AreCompatible(rs[j], rs[k]);
    }
  }

  /** A new request keeps the catalog valid. */
  lemma RequestKeeps(printable: char -> bool, rs: Catalog, number: string, name: string, tenant: Option<string>,
                     source: Option<string>, draws: seq<string>, now: real)
    requires IsCatalog(printable, rs) && now >= 0.0 && forall d :: d in draws ==> IsHexOf(d, 12)
    requires Requested(printable, rs, number, name, tenant, source, draws, now).Some?
    ensures IsCatalog(printable, Requested(printable, rs, number, name, tenant, source, draws, now).value)
  {
    FreshIdIsFresh(rs, draws);
    var id, digits, safe := FreshId(rs, draws).value, Digits(number).value, SafeName(printable, name);
    var r := NewRequest(id, digits, safe, tenant, source, now);
    NewRequestFields(id, digits, safe, tenant, source, now);
    NewRequestIsSound(printable, id, number, name, tenant, source, now);
    forall k | 0 <= k < |rs| ensures AreCompatible(rs[k], r) {
      if source.Some? { assert !IsSameSource(rs[k], tenant, source.value); }
    }
    AppendIsCatalog(printable, rs, r);
  }

  // ----- whole runs -----

  datatype Op =
    | Reserve(id: string, attempt: string, now: real)
    | Report(id: string, outcome: string)
    | Cancel(id: string, tenant: string, now: real)
    | Request(number: string, name: string, tenantOf: Option<string>, source: Option<string>, draws: seq<string>,
              now: real)
    | Review(i: nat, now: real, actor: string)

  /** What an operation writes, if it writes. */
  function Written(printable: char -> bool, rs: Catalog, op: Op): Option<Catalog>
  {
    match op
    case Reserve(id, attempt, now) => Calling(rs, id, attempt, now)
    case Report(id, outcome) => WithResult(rs, id, outcome)
    case Cancel(id, tenant, now) => Cancelled(rs, id, tenant, now)
    case Request(number, name, tenant, source, draws, now) =>
      Requested(printable, rs, number, name, tenant, source, draws, now)
    case Review(i, now, actor) =>
      if i < |rs| && HasStatus(rs[i], "discando") then Some(rs[i := Reviewed(rs[i], now, actor)]) else None
  }

  /** Every operation loads first, and what cannot be loaded is left alone. */
  ghost function Step(printable: char -> bool, rs: Catalog, op: Op): Catalog
  {
    if !IsCatalog(printable, rs) || Written(printable, rs, op).None? then rs else Written(printable, rs, op).value
  }

  ghost function Run(printable: char -> bool, rs: Catalog, ops: seq<Op>): Catalog
  {
    if ops == [] then rs else Step(printable, Run(printable, rs, ops[..|ops| - 1]), ops[|ops| - 1])
  }

  lemma BegunMoves(r: Record, attempt: string, now: real)
    requires HasStatus(r, "pendente") && 0 <= Attempts(r) < MAX_ATTEMPTS
    ensures Moves(r, Begun(r, attempt, now), MAX_ATTEMPTS)
  {
  }

  lemma ResultMoves(r: Record, outcome: string)
    requires HasStatus(r, "discando") && 1 <= Attempts(r) <= MAX_ATTEMPTS
    ensures Moves(r, WithStatus(r, StatusAfter(outcome, Attempts(r))), MAX_ATTEMPTS)
  {
  }

  lemma EndMoves(r: Record, now: real, actor: string)
    requires IsActive(r)
    ensures Moves(r, WithStatus(r, "cancelado")["cancelled_at" := Decimal(now)], MAX_ATTEMPTS)
    ensures Moves(r, Reviewed(r, now, actor), MAX_ATTEMPTS)
  {
  }

  /** In one step a record stays in its place and makes at most one of its moves. */
  lemma StepMoves(printable: char -> bool, rs: Catalog, op: Op, k: nat)
    requires k < |rs|
    ensures k < |Step(printable, rs, op)| && Moves(rs[k], Step(printable, rs, op)[k], MAX_ATTEMPTS)
  {
    if Written(printable, rs, op).Some? {
      WrittenMoves(printable, rs, op, k);
    }
  }

  lemma WrittenMoves(printable: char -> bool, rs: Catalog, op: Op, k: nat)
    requires k < |rs| && Written(printable, rs, op).Some?
    ensures var after := Written(printable, rs, op).value; k < |after| && Moves(rs[k], after[k], MAX_ATTEMPTS)
  {
    match op
    case Reserve(id, attempt, now) => BegunMoves(rs[FindCallback(rs, id).value], attempt, now);
    case Report(id, outcome) => ResultMoves(rs[FindCallback(rs, id).value], outcome);
    case Cancel(id, tenant, now) => EndMoves(rs[FindCallback(rs, id).value], now, "");
    case Request(number, name, tenant, source, draws, now) =>
    case Review(i, now, actor) => EndMoves(rs[i], now, actor);
  }

  /** The versions of one record over a run. */
  ghost function LifeOf(printable: char -> bool, rs: Catalog, ops: seq<Op>, k: nat): seq<Record>
    requires k < |rs|
    ensures k < |Run(printable, rs, ops)|
    ensures LifeOf(printable, rs, ops, k) != [] && LifeOf(printable, rs, ops, k)[0] == rs[k]
    ensures LifeOf(printable, rs, ops, k)[|LifeOf(printable, rs, ops, k)| - 1] == Run(printable, rs, ops)[k]
  {
    if ops == [] then [rs[k]] else
    var front := ops[..|ops| - 1];
    var before := LifeOf(printable, rs, front, k);
    StepMoves(printable, Run(printable, rs, front), ops[|ops| - 1], k);
    before + [Run(printable, rs, ops)[k]]
  }

  lemma {:induction false} LifeIsLife(printable: char -> bool, rs: Catalog, ops: seq<Op>, k: nat)
    requires IsCatalog(printable, rs) && k < |rs|
    ensures IsLife(LifeOf(printable, rs, ops, k), MAX_ATTEMPTS)
  {
    if ops == [] {
      assert IsSound(printable, rs[k]);
    } else {
      var front := ops[..|ops| - 1];
      LifeIsLife(printable, rs, front, k);
      StepMoves(printable, Run(printable, rs, front), ops[|ops| - 1], k);
    }
  }

  /** Whatever is done to the catalog, in any order: a callback is dialed at most twice, its counter is the
      number of its dials, and once it is neither pending nor being dialed it stays as it is. */
  lemma RetrySafety(printable: char -> bool, rs: Catalog, ops: seq<Op>, k: nat)
    requires IsCatalog(printable, rs) && k < |rs|
    ensures var life, last := LifeOf(printable, rs, ops, k), Run(printable, rs, ops)[k];
            && (!IsActive(rs[k]) ==> last == rs[k])
            && (IsActive(rs[k]) ==> Attempts(rs[k]) + Dials(life, MAX_ATTEMPTS) <= MAX_ATTEMPTS)
            && (IsActive(rs[k]) && IsActive(last) ==> Attempts(last) == Attempts(rs[k]) + Dials(life, MAX_ATTEMPTS))
            && Changes(life) <= Rank(rs[k], MAX_ATTEMPTS)
  {
    var life := LifeOf(printable, rs, ops, k);
    LifeIsLife(printable, rs, ops, k);
    ChangesAreBounded(life, MAX_ATTEMPTS);
    if IsActive(rs[k]) {
      DialsAreCounted(life, MAX_ATTEMPTS);
    } else {
      FinishedForGood(life, MAX_ATTEMPTS, 0);
    }
  }

  /** No active record carries a malformed trace of an answer. */
  ghost predicate AreAnswered(rs: Catalog)
  {
    forall k :: 0 <= k < |rs| && IsActive(rs[k]) ==> IsAnswered(rs[k])
  }

  /** What the callers see to: clocks that are not negative, ids as the random generator draws them, and an
      attempt that is not under way. */
  ghost predicate IsMeantWell(rs: Catalog, op: Op)
  {
    match op
    case Reserve(id, attempt, now) =>
      now >= 0.0 && forall k :: 0 <= k < |rs| && HasStatus(rs[k], "discando") ==>
        Field(rs[k], "attempt_id") != Text(attempt)
    case Request(number, name, tenant, source, draws, now) => now >= 0.0 && forall d :: d in draws ==> IsHexOf(d, 12)
    case _ => true
  }

  lemma WrittenKeeps(printable: char -> bool, rs: Catalog, op: Op)
    requires IsCatalog(printable, rs) && AreAnswered(rs) && IsMeantWell(rs, op) && Written(printable, rs, op).Some?
    ensures IsCatalog(printable, Written(printable, rs, op).value)
  {
    match op
    case Reserve(id, attempt, now) => CallingKeepsExactly(printable, rs, id, attempt, now);
    case Report(id, outcome) => ResultKeeps(printable, rs, id, outcome);
    case Cancel(id, tenant, now) => CancelKeeps(printable, rs, id, tenant, now);
    case Request(number, name, tenant, source, draws, now) =>
      RequestKeeps(printable, rs, number, name, tenant, source, draws, now);
    case Review(i, now, actor) => ReviewKeeps(printable, rs, i, now, actor);
  }

  lemma BegunIsAnswered(r: Record, attempt: string, now: real)
    ensures IsAnswered(Begun(r, attempt, now)) == IsAnswered(r)
  {
    var s := Begun(r, attempt, now);
    assert Field(s, "originate_response") == Field(r, "originate_response");
    assert Field(s, "originate_response_at") == Field(r, "originate_response_at");
  }

  lemma EndedIsAnswered(r: Record, status: string)
    ensures IsAnswered(WithStatus(r, status)) == IsAnswered(r)
  {
    var s := WithStatus(r, status);
    assert Field(s, "originate_response") == Field(r, "originate_response");
    assert Field(s, "originate_response_at") == Field(r, "originate_response_at");
  }

  lemma NewRequestIsAnswered(id: string, digits: string, name: string, tenant: Option<string>, source: Option<string>,
                             now: real)
    ensures IsAnswered(NewRequest(id, digits, name, tenant, source, now))
  {
  }

  /** No operation touches the fields of an answer. */
  lemma WrittenIsAnswered(printable: char -> bool, rs: Catalog, op: Op, k: nat)
    requires AreAnswered(rs) && Written(printable, rs, op).Some? && k < |Written(printable, rs, op).value|
    ensures var after := Written(printable, rs, op).value; IsActive(after[k]) ==> IsAnswered(after[k])
  {
    match op
    case Reserve(id, attempt, now) => BegunIsAnswered(rs[FindCallback(rs, id).value], attempt, now);
    case Report(id, outcome) =>
      var r := rs[FindCallback(rs, id).value];
      EndedIsAnswered(r, StatusAfter(outcome, Attempts(r)));
    case Cancel(id, tenant, now) =>
    case Request(number, name, tenant, source, draws, now) =>
      NewRequestIsAnswered(FreshId(rs, draws).value, Digits(number).value, SafeName(printable, name), tenant, source,
                           now);
    case Review(i, now, actor) =>
  }

  ghost predicate AreMeantWell(printable: char -> bool, rs: Catalog, ops: seq<Op>)
  {
    ops != [] ==>
      var front := ops[..|ops| - 1];
      AreMeantWell(printable, rs, front) && IsMeantWell(Run(printable, rs, front), ops[|ops| - 1])
  }

  /** Over any run with attempt ids that are not under way, the stored catalog can always be loaded again. */
  lemma {:induction false} RunKeepsCatalog(printable: char -> bool, rs: Catalog, ops: seq<Op>)
    requires IsCatalog(printable, rs) && AreAnswered(rs) && AreMeantWell(printable, rs, ops)
    ensures IsCatalog(printable, Run(printable, rs, ops)) && AreAnswered(Run(printable, rs, ops))
  {
    if ops != [] {
      var front, op := ops[..|ops| - 1], ops[|ops| - 1];
      RunKeepsCatalog(printable, rs, front);
      var before := Run(printable, rs, front);
      if Written(printable, before, op).Some? {
        WrittenKeeps(printable, before, op);
        forall k | 0 <= k < |Written(printable, before, op).value|
          ensures IsActive(Written(printable, before, op).value[k]) ==>
                    IsAnswered(Written(printable, before, op).value[k])
        {
          WrittenIsAnswered(printable, before, op, k);
        }
      }
    }
  }

  // ----- one request for one source -----

  /** The fields that say who asked for what. */
  predicate IsSameRequest(r: Record, s: Record)
  {
    && Field(r, "id") == Field(s, "id") && Field(r, "caller_id_num") == Field(s, "caller_id_num")
    && Field(r, "tenant") == Field(s, "tenant") && Field(r, "source_uniqueid") == Field(s, "source_uniqueid")
  }

  lemma WrittenIsSameRequest(printable: char -> bool, rs: Catalog, op: Op, k: nat)
    requires k < |rs| && Written(printable, rs, op).Some?
    ensures var after := Written(printable, rs, op).value; k < |after| && IsSameRequest(rs[k], after[k])
  {
    match op
    case Reserve(id, attempt, now) => BegunIsSameRequest(rs[FindCallback(rs, id).value], attempt, now);
    case Report(id, outcome) =>
      var r := rs[FindCallback(rs, id).value];
      EndedIsSameRequest(r, StatusAfter(outcome, Attempts(r)), 0.0, "");
    case Cancel(id, tenant, now) => EndedIsSameRequest(rs[FindCallback(rs, id).value], "cancelado", now, "");
    case Request(number, name, tenant, source, draws, now) =>
    case Review(i, now, actor) => EndedIsSameRequest(rs[i], "revisao_manual", now, actor);
  }

  lemma BegunIsSameRequest(r: Record, attempt: string, now: real)
    ensures IsSameRequest(r, Begun(r, attempt, now))
  {
  }

  lemma EndedIsSameRequest(r: Record, status: string, now: real, actor: string)
    ensures IsSameRequest(r, WithStatus(r, status))
    ensures IsSameRequest(r, WithStatus(r, status)["cancelled_at" := Decimal(now)])
    ensures IsSameRequest(r, Reviewed(r, now, actor))
  {
  }

  /** Whatever is done to the catalog, the record at a place goes on answering the same request. */
  lemma {:induction false} RunIsSameRequest(printable: char -> bool, rs: Catalog, ops: seq<Op>, k: nat)
    requires k < |rs|
    ensures k < |Run(printable, rs, ops)| && IsSameRequest(rs[k], Run(printable, rs, ops)[k])
  {
    if ops != [] {
      var front, op := ops[..|ops| - 1], ops[|ops| - 1];
      RunIsSameRequest(printable, rs, front, k);
      if Written(printable, Run(printable, rs, front), op).Some? {
        WrittenIsSameRequest(printable, Run(printable, rs, front), op, k);
      }
    }
  }

  /** One AMI source of a tenant asks for one callback, however often and however much later its event is
      delivered again: nothing is written, and an event with the same number is given the record of the first. */
  lemma SourceAsksOnce(printable: char -> bool, rs: Catalog, first: string, name: string, tenant: Option<string>,
                       source: string, draws: seq<string>, now: real, ops: seq<Op>, again: string, nameAgain: string,
                       drawsAgain: seq<string>, later: real)
    requires Requested(printable, rs, first, name, tenant, Some(source), draws, now).Some?
    ensures var asked := Run(printable, Requested(printable, rs, first, name, tenant, Some(source), draws, now).value,
                             ops);
            && Requested(printable, asked, again, nameAgain, tenant, Some(source), drawsAgain, later).None?
            && (IsKnown(asked, again, tenant, Some(source), |rs|) <==> Digits(again) == Digits(first))
  {
    var id, digits, safe := FreshId(rs, draws).value, Digits(first).value, SafeName(printable, name);
    NewRequestFields(id, digits, safe, tenant, Some(source), now);
    var after := Requested(printable, rs, first, name, tenant, Some(source), draws, now).value;
    assert IsSameSource(after[|rs|], tenant, source);
    var asked := Run(printable, after, ops);
    forall k | 0 <= k <= |rs| ensures k < |asked| && IsSameRequest(after[k], asked[k]) {
      RunIsSameRequest(printable, after, ops, k);
    }
    assert IsSameSource(asked[|rs|], tenant, source);
    forall k | 0 <= k < |rs| ensures !IsSameSource(asked[k], tenant, source) {
      assert after[k] == rs[k] && IsSameRequest(after[k], asked[k]);
    }
  }

  // ----- the next callback to dial -----

  /** What makes next_pending_callback give up on the whole list. */
  predicate SpoilsTheOrder(r: Record)
  {
    HasStatus(r, "pendente") &&
    (!IsMoment(Field(r, "requested_at"))
     || ("caller_id_num" in r && !(Field(r, "caller_id_num").Text? && IsPhone(Field(r, "caller_id_num").s)))
     || !IsOwner(Field(r, "tenant")))
  }

  predicate IsBefore(r: Record, s: Record)
    requires IsMoment(Field(r, "requested_at")) && IsMoment(Field(s, "requested_at"))
  {
    Moment(Field(r, "requested_at")) < Moment(Field(s, "requested_at"))
  }

  /** next_pending_callback: the oldest pending request, the first of several as old; None when the list is
      spoiled or nothing is pending. */
  method NextPending(rs: Catalog) returns (next: Option<nat>)
    ensures (next.None? <==>
             || !HaveUniqueIds(rs) || (exists k :: 0 <= k < |rs| && SpoilsTheOrder(rs[k]))
             || forall k :: 0 <= k < |rs| ==> !HasStatus(rs[k], "pendente"))
    ensures (next.Some? ==>
             && next.value < |rs| && HasStatus(rs[next.value], "pendente")
             && forall k :: 0 <= k < |rs| && HasStatus(rs[k], "pendente") ==>
                  && IsMoment(Field(rs[k], "requested_at")) && IsMoment(Field(rs[next.value], "requested_at"))
                  && !IsBefore(rs[k], rs[next.value]) && (k < next.value ==> IsBefore(rs[next.value], rs[k])))
  {
    var unique := CheckUniqueIds(rs);
    if !unique {
      return None;
    }
    next := None;
    for i := 0 to |rs|
      invariant forall k :: 0 <= k < i ==> !SpoilsTheOrder(rs[k])
      invariant next.None? <==> forall k :: 0 <= k < i ==> !HasStatus(rs[k], "pendente")
      invariant (next.Some? ==>
                 && next.value < i && HasStatus(rs[next.value], "pendente")
                 && forall k :: 0 <= k < i && HasStatus(rs[k], "pendente") ==>
                      && IsMoment(Field(rs[k], "requested_at")) && IsMoment(Field(rs[next.value], "requested_at"))
                      && !IsBefore(rs[k], rs[next.value]) && (k < next.value ==> IsBefore(rs[next.value], rs[k])))
    {
      if !HasStatus(rs[i], "pendente") {
        continue;
      }
      if SpoilsTheOrder(rs[i]) {
        return None;
      }
      if next.None? || IsBefore(rs[i], rs[next.value]) {
        next := Some(i);
      }
    }
  }

  /** In a valid catalog nothing spoils the order: as long as a request is pending, one is next. */
  lemma NobodyIsStuck(printable: char -> bool, rs: Catalog)
    requires IsCatalog(printable, rs)
    ensures HaveUniqueIds(rs) && forall k :: 0 <= k < |rs| ==> !SpoilsTheOrder(rs[k])
  {
    forall k | 0 <= k < |rs| ensures !SpoilsTheOrder(rs[k]) {
      assert IsSound(printable, rs[k]);
    }
  }

  /** The first record of a source, as the list of matches begins with it. */
  method FirstOfSource(rs: Catalog, tenant: Option<string>, source: string) returns (first: Option<nat>)
    ensures match first
            case Some(k) =>
              k < |rs| && IsSameSource(rs[k], tenant, source)
              && forall j :: 0 <= j < k ==> !IsSameSource(rs[j], tenant, source)
            case None => forall j :: 0 <= j < |rs| ==> !IsSameSource(rs[j], tenant, source)
  {
    for k := 0 to |rs|
      invariant forall j :: 0 <= j < k ==> !IsSameSource(rs[j], tenant, source)
    {
      if IsSameSource(rs[k], tenant, source) {
        return Some(k);
      }
    }
    return None;
  }

  // ----- the file -----

  /** Corrupt is the error of a catalog that does not load; Known is the record that a known source is given. */
  datatype Reply = Corrupt | Refused | Known(at: nat) | Saved

  class CallbackFile {
    const printable: char -> bool
    var records: Catalog

    constructor (printable: char -> bool, records: Catalog)
      ensures this.printable == printable && this.records == records
    {
      this.printable, this.records := printable, records;
    }

    /** What every operation answers and leaves behind. */
    twostate predicate Did(op: Op, reply: Reply)
      reads this
    {
      && records == Step(printable, old(records), op)
      && (reply == Corrupt <==> !IsCatalog(printable, old(records)))
      && (reply == Saved <==> IsCatalog(printable, old(records)) && Written(printable, old(records), op).Some?)
      && (reply.Known? ==> op.Request?)
    }

    method MarkCalling(id: string, attempt: string, now: real) returns (reply: Reply)
      modifies this`records
      ensures Did(Reserve(id, attempt, now), reply)
    {
      var ok := ValidateCatalog(printable, records);
      if !ok {
        return Corrupt;
      }
      var found := FindCallback(records, id);
      if found.None? {
        return Refused;
      }
      var callback := records[found.value];
      if !HasStatus(callback, "pendente") || !(0 <= Attempts(callback) < MAX_ATTEMPTS) || !IsHexOf(attempt, 32) {
        return Refused;
      }
      callback := BeginAttempt(callback, attempt, now);
      records := records[found.value := callback];
      return Saved;
    }

    method MarkResult(id: string, outcome: string) returns (reply: Reply)
      modifies this`records
      ensures Did(Report(id, outcome), reply)
    {
      var ok := ValidateCatalog(printable, records);
      if !ok {
        return Corrupt;
      }
      var found := FindCallback(records, id);
      if found.None? {
        return Refused;
      }
      var callback := records[found.value];
      if !HasStatus(callback, "discando") || !(1 <= Attempts(callback) <= MAX_ATTEMPTS) || !IsOutcome(outcome) {
        return Refused;
      }
      callback := EndAttempt(callback, outcome, "concluido", MAX_ATTEMPTS);
      records := records[found.value := callback];
      return Saved;
    }

    method CancelPending(id: string, tenant: string, now: real) returns (reply: Reply)
      modifies this`records
      ensures (if IsHexOf(id, 12) && IsTenantId(tenant) then Did(Cancel(id, tenant, now), reply)
               else reply == Refused && records == old(records))
    {
      if !IsHexOf(id, 12) || !IsTenantId(tenant) {
        return Refused;
      }
      var ok := ValidateCatalog(printable, records);
      if !ok {
        return Corrupt;
      }
      var found := FindCallback(records, id);
      if found.None? || Field(records[found.value], "tenant") != Text(tenant) {
        return Refused;
      }
      var callback := records[found.value];
      if !HasStatus(callback, "pendente") {
        return Refused;
      }
      records := records[found.value := callback["status" := Text("cancelado")]["cancelled_at" := Decimal(now)]];
      return Saved;
    }

    /** The entry of a request whose source is not known. */
    method NewEntry(number: string, name: string, tenant: Option<string>, source: Option<string>, draws: seq<string>,
                    now: real)
      returns (saved: Option<Catalog>)
      requires IsRequest(number, tenant, source)
      requires source.Some? ==> forall k :: 0 <= k < |records| ==> !IsSameSource(records[k], tenant, source.value)
      ensures saved == Requested(printable, records, number, name, tenant, source, draws, now)
    {
      if |records| >= MAX_CALLBACKS {
        return None;
      }
      var id := FreshId(records, draws);
      if id.None? {
        return None;
      }
      return Some(records
                  + [NewRequest(id.value, Digits(number).value, SafeName(printable, name), tenant, source, now)]);
    }

    method AddRequest(number: string, name: string, tenant: Option<string>, source: Option<string>, draws: seq<string>,
                      now: real)
      returns (reply: Reply)
      modifies this`records
      ensures (if IsRequest(number, tenant, source) then Did(Request(number, name, tenant, source, draws, now), reply)
               else reply == Refused && records == old(records))
      ensures forall k: nat :: reply == Known(k) <==>
                IsRequest(number, tenant, source) && IsCatalog(printable, old(records))
                  && IsKnown(old(records), number, tenant, source, k)
    {
      if !IsRequest(number, tenant, source) {
        return Refused;
      }
      var ok := ValidateCatalog(printable, records);
      if !ok {
        return Corrupt;
      }
      if source.Some? {
        var first := FirstOfSource(records, tenant, source.value);
        if first.Some? {
          var answers := Field(records[first.value], "caller_id_num") == Text(Digits(number).value);
          return if answers then Known(first.value) else Refused;
        }
      }
      var saved := NewEntry(number, name, tenant, source, draws, now);
      if saved.None? {
        return Refused;
      }
      records := saved.value;
      return Saved;
    }
  }
}
