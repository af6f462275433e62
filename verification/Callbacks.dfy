/** The catalog of requested callbacks: what a valid catalog is, and the operations that load it, change
    one record and save it. */
module Callbacks {
  import opened Prelude
  import opened OutboundRecords

  const MAX_ATTEMPTS: nat := 2
  const MAX_CALLBACKS: nat := 20000

  type Catalog = seq<Record>

  predicate IsPhone(s: string)
  {
    if s != "" && s[0] == '+' then 8 <= |s| - 1 <= 20 && AllOf(s[1..], IsDigit) else 8 <= |s| <= 20 && AllOf(s, IsDigit)
  }

  /** A tenant field that is missing, or names a tenant. */
  predicate IsOwner(j: Json)
  {
    j == Null || (j.Text? && IsTenantId(j.s))
  }

  predicate IsShortName(printable: char -> bool, j: Json)
  {
    j.Text? && |j.s| <= 80 && AllOf(j.s, printable)
  }

  /** record.get("caller_id_name", "") */
  function CallerName(r: Record): Json
  {
    if "caller_id_name" in r then r["caller_id_name"] else Text("")
  }

  // ----- a valid catalog -----

  predicate HasIdentifier(r: Record)
  {
    Field(r, "id").Text? && Field(r, "id").s != ""
  }

  ghost predicate HaveUniqueIds(rs: Catalog)
  {
    && (forall i :: 0 <= i < |rs| ==> HasIdentifier(rs[i]))
    && (forall i, j :: 0 <= i < j < |rs| ==> Field(rs[i], "id") != Field(rs[j], "id"))
  }

  /** What every pending or dialing record must have. */
  predicate IsActionable(printable: char -> bool, r: Record)
  {
    && Field(r, "id").Text? && IsHexOf(Field(r, "id").s, 12)
    && Field(r, "caller_id_num").Text? && IsPhone(Field(r, "caller_id_num").s) && Field(r, "caller_id_num").s[0] != '+'
    && IsShortName(printable, CallerName(r))
    && IsOwner(Field(r, "tenant"))
    && IsMoment(Field(r, "requested_at"))
    && 0 <= Attempts(r) <= MAX_ATTEMPTS
    && (Field(r, "source_uniqueid") != Null ==>
        Field(r, "source_uniqueid").Text? && IsUniqueId(Field(r, "source_uniqueid").s))
  }

  /** The trace of an OriginateResponse, if there is one. */
  predicate IsAnswered(r: Record)
  {
    && Field(r, "originate_response") in {Null, Text("Success"), Text("Failure")}
    && (Field(r, "originate_response_at") == Null || IsMoment(Field(r, "originate_response_at")))
  }

  /** What a dialing record must have besides. */
  predicate IsCorrelated(r: Record)
  {
    && Attempts(r) >= 1
    && IsAttemptId(Field(r, "attempt_id")) && Field(r, "channel_id") == Text("axe-" + Field(r, "attempt_id").s)
    && IsMoment(Field(r, "last_attempt_at"))
    && IsAnswered(r)
  }

  predicate IsSound(printable: char -> bool, r: Record)
  {
    && Field(r, "status").Text?
    && (IsActive(r) ==> IsActionable(printable, r))
    && (HasStatus(r, "pendente") ==> Attempts(r) < MAX_ATTEMPTS)
    && (HasStatus(r, "discando") ==> IsCorrelated(r))
  }

  /** Two active records may not claim the same AMI source of a tenant. */
  ghost predicate SameClaim(r: Record, s: Record)
  {
    && IsActive(r) && IsActive(s)
    && Field(r, "source_uniqueid") != Null && Field(r, "source_uniqueid") == Field(s, "source_uniqueid")
    && Field(r, "tenant") == Field(s, "tenant")
  }

  ghost predicate SameAttempt(r: Record, s: Record)
  {
    HasStatus(r, "discando") && HasStatus(s, "discando") && Field(r, "attempt_id") == Field(s, "attempt_id")
  }

  ghost predicate AreCompatible(r: Record, s: Record)
  {
    !SameClaim(r, s) && !SameAttempt(r, s)
  }

  /** validate_callback_catalog does not raise. */
  ghost predicate IsCatalog(printable: char -> bool, rs: Catalog)
  {
    && HaveUniqueIds(rs) && |rs| <= MAX_CALLBACKS
    && (forall i :: 0 <= i < |rs| ==> IsSound(printable, rs[i]))
    && (forall i, j :: 0 <= i < j < |rs| ==> AreCompatible(rs[i], rs[j]))
  }

  // ----- the operations, on a loaded catalog -----

  /** find_callback: the index of the record with this id. */
  function FindCallback(rs: Catalog, id: string): (found: Option<nat>)
    ensures found.Some? ==> found.value < |rs| && Field(rs[found.value], "id") == Text(id)
  {
    if rs == [] then None
    else if Field(rs[|rs| - 1], "id") == Text(id) then Some(|rs| - 1)
    else FindCallback(rs[..|rs| - 1], id)
  }

  /** mark_callback_calling: the saved catalog, or None when it refuses. */
  function Calling(rs: Catalog, id: string, attempt: string, now: real): (saved: Option<Catalog>)
  {
    match FindCallback(rs, id)
    case None => None
    case Some(i) =>
      if !HasStatus(rs[i], "pendente") || !(0 <= Attempts(rs[i]) < MAX_ATTEMPTS) || !IsHexOf(attempt, 32) then None
      else Some(rs[i := Begun(rs[i], attempt, now)])
  }

  function StatusAfter(outcome: string, attempts: int): string
  {
    NextStatus(outcome, "concluido", attempts, MAX_ATTEMPTS)
  }

  /** mark_callback_result */
  function WithResult(rs: Catalog, id: string, outcome: string): (saved: Option<Catalog>)
  {
    match FindCallback(rs, id)
    case None => None
    case Some(i) =>
      if !HasStatus(rs[i], "discando") || !(1 <= Attempts(rs[i]) <= MAX_ATTEMPTS) || !IsOutcome(outcome) then None
      else Some(rs[i := WithStatus(rs[i], StatusAfter(outcome, Attempts(rs[i])))])
  }

  /** cancel_pending_callback */
  function Cancelled(rs: Catalog, id: string, tenant: string, now: real): (saved: Option<Catalog>)
  {
    match FindCallback(rs, id)
    case None => None
    case Some(i) =>
      if !IsHexOf(id, 12) || !IsTenantId(tenant) || Field(rs[i], "tenant") != Text(tenant)
        || !HasStatus(rs[i], "pendente") then None
      else Some(rs[i := WithStatus(rs[i], "cancelado")["cancelled_at" := Decimal(now)]])
  }

  /** A new request; `id` is the first of the drawn ids that is not in use. */
  function NewRequest(id: string, digits: string, name: string, tenant: Option<string>, source: Option<string>,
                      now: real): Record
  {
    var plain: Record := map["id" := Text(id), "caller_id_num" := Text(digits), "caller_id_name" := Text(name),
                             "status" := Text("pendente"), "attempts" := Whole(0), "requested_at" := Decimal(now),
                             "last_attempt_at" := Null];
    var owned := if tenant.Some? then plain["tenant" := Text(tenant.value)] else plain;
    if source.Some? then owned["source_uniqueid" := Text(source.value)] else owned
  }

  /** _callback_contact: the digits to dial. */
  function Digits(number: string): Option<string>
  {
    if !IsPhone(number) then None else Some(if number[0] == '+' then number[1..] else number)
  }

  function SafeName(printable: char -> bool, name: string): string
  {
    if |name| <= 80 && AllOf(name, printable) then name else ""
  }

  function TextOrNull(value: Option<string>): Json
  {
    if value.Some? then Text(value.value) else Null
  }

  predicate IsSameSource(r: Record, tenant: Option<string>, source: string)
  {
    Field(r, "tenant") == TextOrNull(tenant) && Field(r, "source_uniqueid") == Text(source)
  }

  /** The record at `k` is the first of this source, and answers to the number: what a known source is given. */
  predicate IsKnown(rs: Catalog, number: string, tenant: Option<string>, source: Option<string>, k: nat)
  {
    && k < |rs| && source.Some? && IsSameSource(rs[k], tenant, source.value)
    && (forall j :: 0 <= j < k ==> !IsSameSource(rs[j], tenant, source.value))
    && Digits(number).Some? && Field(rs[k], "caller_id_num") == Text(Digits(number).value)
  }

  /** The first of the drawn ids that no record has. */
  function FreshId(rs: Catalog, draws: seq<string>): Option<string>
  {
    if draws == [] then None
    else if FindCallback(rs, draws[0]).None? then Some(draws[0])
    else FreshId(rs, draws[1..])
  }

  /** Would the request be refused before the catalog is read? The tenant must be one that can own an
      extension, whose name is at most 96 characters long. */
  predicate IsRequest(number: string, tenant: Option<string>, source: Option<string>)
  {
    && IsPhone(number)
    && (tenant.Some? ==> IsTenantId(tenant.value) && |tenant.value| <= 87)
    && (source.Some? ==> IsUniqueId(source.value))
  }

  /** add_callback_request: the saved catalog, or None when nothing is written. `draws` are the ids that the
      random generator gives. */
  function Requested(printable: char -> bool, rs: Catalog, number: string, name: string, tenant: Option<string>,
                     source: Option<string>, draws: seq<string>, now: real): (saved: Option<Catalog>)
  {
    if !IsRequest(number, tenant, source) then None
    else if source.Some? && exists k :: 0 <= k < |rs| && IsSameSource(rs[k], tenant, source.value) then None
    else if |rs| >= MAX_CALLBACKS then None
    else
      match FreshId(rs, draws)
      case None => None
      case Some(id) => Some(rs + [NewRequest(id, Digits(number).value, SafeName(printable, name), tenant, source, now)])
  }

  // ----- the validator -----

  function Ids(rs: Catalog): set<Json>
  {
    if rs == [] then {} else Ids(rs[..|rs| - 1]) + {Field(rs[|rs| - 1], "id")}
  }

  lemma {:induction false} IdsAreThose(rs: Catalog, id: Json)
    ensures id in Ids(rs) <==> exists k :: 0 <= k < |rs| && Field(rs[k], "id") == id
  {
    if rs != [] {
      IdsAreThose(rs[..|rs| - 1], id);
      assert rs == rs[..|rs| - 1] + [rs[|rs| - 1]];
    }
  }

  lemma OneMoreId(rs: Catalog, i: nat)
    requires i < |rs| && HaveUniqueIds(rs[..i])
    ensures HaveUniqueIds(rs[..i + 1]) <==> HasIdentifier(rs[i]) && Field(rs[i], "id") !in Ids(rs[..i])
    ensures Ids(rs[..i + 1]) == Ids(rs[..i]) + {Field(rs[i], "id")}
  {
    var front, more := rs[..i], rs[..i + 1];
    assert more == front + [rs[i]] && more[..i] == front && more[i] == rs[i];
    IdsAreThose(front, Field(rs[i], "id"));
    if HaveUniqueIds(more) {
      forall k | 0 <= k < i ensures Field(front[k], "id") != Field(rs[i], "id") {
        assert front[k] == more[k] && Field(more[k], "id") != Field(more[i], "id");
      }
    }
  }

  lemma PrefixHasUniqueIds(rs: Catalog, i: nat)
    requires i <= |rs| && HaveUniqueIds(rs)
    ensures HaveUniqueIds(rs[..i])
  {
  }

  /** _catalog_has_unique_ids */
  method CheckUniqueIds(rs: Catalog) returns (ok: bool)
    ensures ok <==> HaveUniqueIds(rs)
  {
    var ids: set<Json> := {};
    for i := 0 to |rs|
      invariant HaveUniqueIds(rs[..i]) && ids == Ids(rs[..i])
    {
      OneMoreId(rs, i);
      if !HasIdentifier(rs[i]) || Field(rs[i], "id") in ids {
        if HaveUniqueIds(rs) { PrefixHasUniqueIds(rs, i + 1); }
        return false;
      }
      ids := ids + {Field(rs[i], "id")};
    }
    assert rs[..|rs|] == rs;
    return true;
  }

  /** Everything that a catalog asks of its records, ids apart. */
  ghost predicate AreSound(printable: char -> bool, rs: Catalog)
  {
    && (forall i :: 0 <= i < |rs| ==> IsSound(printable, rs[i]))
    && (forall i, j :: 0 <= i < j < |rs| ==> AreCompatible(rs[i], rs[j]))
  }

  /** The source claims and the attempts of the records so far. */
  function Claims(rs: Catalog): set<(Json, Json)>
  {
    if rs == [] then {} else
    var r := rs[|rs| - 1];
    Claims(rs[..|rs| - 1])
    + if IsActive(r) && Field(r, "source_uniqueid") != Null then {(Field(r, "tenant"), Field(r, "source_uniqueid"))}
      else {}
  }

  function InFlight(rs: Catalog): set<Json>
  {
    if rs == [] then {} else
    var r := rs[|rs| - 1];
    InFlight(rs[..|rs| - 1]) + if HasStatus(r, "discando") then {Field(r, "attempt_id")} else {}
  }

  predicate IsUnclaimed(r: Record, claims: set<(Json, Json)>, attempts: set<Json>)
  {
    && (IsActive(r) && Field(r, "source_uniqueid") != Null ==>
        (Field(r, "tenant"), Field(r, "source_uniqueid")) !in claims)
    && (HasStatus(r, "discando") ==> Field(r, "attempt_id") !in attempts)
  }

  lemma {:induction false} UnclaimedIsCompatible(rs: Catalog, r: Record)
    ensures IsUnclaimed(r, Claims(rs), InFlight(rs)) <==> forall k :: 0 <= k < |rs| ==> AreCompatible(rs[k], r)
  {
    if rs != [] {
      UnclaimedIsCompatible(rs[..|rs| - 1], r);
      assert rs == rs[..|rs| - 1] + [rs[|rs| - 1]];
    }
  }

  lemma OneMoreSound(printable: char -> bool, rs: Catalog, i: nat)
    requires i < |rs| && AreSound(printable, rs[..i])
    ensures (AreSound(printable, rs[..i + 1]) <==>
             IsSound(printable, rs[i]) && IsUnclaimed(rs[i], Claims(rs[..i]), InFlight(rs[..i])))
  {
    var front, more := rs[..i], rs[..i + 1];
    assert more == front + [rs[i]] && more[i] == rs[i];
    UnclaimedIsCompatible(front, rs[i]);
    if AreSound(printable, more) {
      forall k | 0 <= k < i ensures AreCompatible(front[k], rs[i]) {
        assert front[k] == more[k] && AreCompatible(more[k], more[i]);
      }
      assert IsSound(printable, more[i]);
    }
  }

  lemma PrefixIsSound(printable: char -> bool, rs: Catalog, i: nat)
    requires i <= |rs| && AreSound(printable, rs)
    ensures AreSound(printable, rs[..i])
  {
  }

  /** validate_callback_catalog: false where it raises. */
  method ValidateCatalog(printable: char -> bool, rs: Catalog) returns (ok: bool)
    ensures ok <==> IsCatalog(printable, rs)
  {
    var unique := CheckUniqueIds(rs);
    if !unique || |rs| > MAX_CALLBACKS {
      return false;
    }
    var claims: set<(Json, Json)>, attempts: set<Json> := {}, {};
    for i := 0 to |rs|
      invariant AreSound(printable, rs[..i])
      invariant claims == Claims(rs[..i]) && attempts == InFlight(rs[..i])
    {
      OneMoreSound(printable, rs, i);
      assert rs[..i + 1][..i] == rs[..i];
      var r := rs[i];
      if !IsSound(printable, r) || !IsUnclaimed(r, claims, attempts) {
        if AreSound(printable, rs) { PrefixIsSound(printable, rs, i + 1); }
        return false;
      }
      if IsActive(r) && Field(r, "source_uniqueid") != Null {
        claims := claims + {(Field(r, "tenant"), Field(r, "source_uniqueid"))};
      }
      if HasStatus(r, "discando") {
        attempts := attempts + {Field(r, "attempt_id")};
      }
    }
    assert rs[..|rs|] == rs;
    return true;
  }
}
