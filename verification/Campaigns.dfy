/** The catalog of dialing campaigns: every operation keeps it valid, and no contact is dialed more often
    than the limit. */
module Campaigns {
  import opened Prelude
  import opened Splitting
  import opened OutboundRecords

  const MAX_ATTEMPTS: nat := 3
  const MAX_CAMPAIGNS: nat := 10000
  const MAX_CONTACTS: nat := 1000

  datatype Campaign = Campaign(id: Json, name: Json, agent: Json, tenant: Json, contacts: seq<Record>)

  type Catalog = seq<Campaign>

  predicate IsNumber(j: Json)
  {
    j.Text? && 8 <= |j.s| <= 20 && AllOf(j.s, IsDigit)
  }

  predicate IsState(status: string)
  {
    status in {"pendente", "discando", "atendida", "ocupado", "sem_resposta", "cancelada", "falha", "esgotado",
               "revisao_manual"}
  }

  /** The tenant that owns the extension of an agent, as in t1-sales. */
  function AgentOwner(agent: string): Option<string>
  {
    match Find(agent, "-")
    case None => None
    case Some(i) =>
      var rest := agent[i + 1..];
      if (&& IsTenantId(agent[..i]) && 1 <= |rest| <= 79 && rest[0] != '-'
          && AllOf(rest, c => 'a' <= c <= 'z' || IsDigit(c) || c == '-'))
      then Some(agent[..i]) else None
  }

  // ----- a valid catalog -----

  predicate IsCorrelated(r: Record)
  {
    && Attempts(r) >= 1
    && IsAttemptId(Field(r, "attempt_id")) && Field(r, "channel_id") == Text("axe-" + Field(r, "attempt_id").s)
    && IsMoment(Field(r, "last_attempt_at"))
  }

  predicate IsContact(r: Record)
  {
    && IsNumber(Field(r, "number"))
    && Field(r, "status").Text? && IsState(Field(r, "status").s)
    && 0 <= Attempts(r) <= MAX_ATTEMPTS
    && (HasStatus(r, "pendente") ==> Attempts(r) < MAX_ATTEMPTS)
    && (HasStatus(r, "discando") ==> IsCorrelated(r))
  }

  ghost predicate AreContacts(contacts: seq<Record>)
  {
    && (forall k :: 0 <= k < |contacts| ==> IsContact(contacts[k]))
    && (forall j, k :: 0 <= j < k < |contacts| ==> Field(contacts[j], "number") != Field(contacts[k], "number"))
  }

  predicate IsHeader(printable: char -> bool, c: Campaign)
  {
    && c.id.Text? && IsHexOf(c.id.s, 12)
    && c.agent.Text? && AgentOwner(c.agent.s).Some?
      && (c.tenant != Null ==> c.tenant == Text(AgentOwner(c.agent.s).value))
    && c.name.Text? && 1 <= |c.name.s| <= 100 && AllOf(c.name.s, printable)
    && 1 <= |c.contacts| <= MAX_CONTACTS
  }

  ghost predicate AreCampaigns(printable: char -> bool, cs: Catalog)
  {
    && (forall i :: 0 <= i < |cs| ==> IsHeader(printable, cs[i]) && AreContacts(cs[i].contacts))
    && (forall i, j :: 0 <= i < j < |cs| ==> cs[i].id != cs[j].id)
  }

  /** validate_campaign_catalog does not raise. */
  ghost predicate IsCatalog(printable: char -> bool, cs: Catalog)
  {
    |cs| <= MAX_CAMPAIGNS && AreCampaigns(printable, cs)
  }

  // ----- the operations -----

  function FindCampaign(cs: Catalog, id: string): (found: Option<nat>)
    ensures found.Some? ==> found.value < |cs| && cs[found.value].id == Text(id)
  {
    if cs == [] then None
    else if cs[|cs| - 1].id == Text(id) then Some(|cs| - 1)
    else FindCampaign(cs[..|cs| - 1], id)
  }

  /** The first contact with this number and, if one is asked for, this status. */
  function FindContact(contacts: seq<Record>, number: string, status: Option<string>, from: nat): (found: Option<nat>)
    ensures found.Some? ==> from <= found.value < |contacts| && Field(contacts[found.value], "number") == Text(number)
    ensures found.Some? && status.Some? ==> HasStatus(contacts[found.value], status.value)
    decreases |contacts| - from
  {
    if from >= |contacts| then None
    else if Field(contacts[from], "number") == Text(number)
      && (status.Some? ==> HasStatus(contacts[from], status.value)) then Some(from)
    else FindContact(contacts, number, status, from + 1)
  }

  function WithContact(cs: Catalog, i: nat, k: nat, r: Record): Catalog
    requires i < |cs| && k < |cs[i].contacts|
  {
    cs[i := cs[i].(contacts := cs[i].contacts[k := r])]
  }

  /** mark_contact_calling: the saved catalog, or None when it refuses. */
  function Calling(cs: Catalog, id: string, number: string, attempt: string, now: real): Option<Catalog>
  {
    match FindCampaign(cs, id)
    case None => None
    case Some(i) =>
      match FindContact(cs[i].contacts, number, None, 0)
      case None => None
      case Some(k) =>
        var r := cs[i].contacts[k];
        if !HasStatus(r, "pendente") || !(0 <= Attempts(r) < MAX_ATTEMPTS) || !IsHexOf(attempt, 32) then None
        else Some(WithContact(cs, i, k, Begun(r, attempt, now)))
  }

  function StatusAfter(outcome: string, attempts: int): string
  {
    NextStatus(outcome, "atendida", attempts, MAX_ATTEMPTS)
  }

  /** mark_contact_result */
  function WithResult(cs: Catalog, id: string, number: string, outcome: string): Option<Catalog>
  {
    match FindCampaign(cs, id)
    case None => None
    case Some(i) =>
      match FindContact(cs[i].contacts, number, Some("discando"), 0)
      case None => None
      case Some(k) =>
        var r := cs[i].contacts[k];
        if !IsOutcome(outcome) || !(1 <= Attempts(r) <= MAX_ATTEMPTS) then None
        else Some(WithContact(cs, i, k, WithStatus(r, StatusAfter(outcome, Attempts(r)))))
  }

  // ----- each operation keeps the catalog valid -----

  lemma ContactReplaced(contacts: seq<Record>, k: nat, r: Record)
    requires AreContacts(contacts) && k < |contacts| && IsContact(r)
    requires Field(r, "number") == Field(contacts[k], "number")
    ensures AreContacts(contacts[k := r])
  {
  }

  lemma CatalogReplaced(printable: char -> bool, cs: Catalog, i: nat, k: nat, r: Record)
    requires IsCatalog(printable, cs) && i < |cs| && k < |cs[i].contacts|
    requires IsContact(r) && Field(r, "number") == Field(cs[i].contacts[k], "number")
    ensures IsCatalog(printable, WithContact(cs, i, k, r))
  {
    ContactReplaced(cs[i].contacts, k, r);
    var after := WithContact(cs, i, k, r);
    assert IsHeader(printable, after[i]);
    forall j | 0 <= j < |after|
      ensures IsHeader(printable, after[j]) && AreContacts(after[j].contacts) && after[j].id == cs[j].id
    {
      assert IsHeader(printable, cs[j]) && AreContacts(cs[j].contacts);
    }
  }

  lemma BegunIsContact(r: Record, attempt: string, now: real)
    requires IsContact(r) && HasStatus(r, "pendente") && IsHexOf(attempt, 32) && now >= 0.0
    ensures IsContact(Begun(r, attempt, now)) && Field(Begun(r, attempt, now), "number") == Field(r, "number")
  {
    var s := Begun(r, attempt, now);
    assert Attempts(s) == Attempts(r) + 1 && Field(s, "attempt_id") == Text(attempt)
           && Field(s, "channel_id") == Text("axe-" + attempt);
    assert Field(s, "last_attempt_at") == Decimal(now) && Field(s, "status") == Text("discando");
  }

  lemma CallingKeeps(printable: char -> bool, cs: Catalog, id: string, number: string, attempt: string, now: real)
    requires IsCatalog(printable, cs) && now >= 0.0 && Calling(cs, id, number, attempt, now).Some?
    ensures IsCatalog(printable, Calling(cs, id, number, attempt, now).value)
  {
    var i := FindCampaign(cs, id).value;
    var k := FindContact(cs[i].contacts, number, None, 0).value;
    BegunIsContact(cs[i].contacts[k], attempt, now);
    CatalogReplaced(printable, cs, i, k, Begun(cs[i].contacts[k], attempt, now));
  }

  lemma EndedIsContact(r: Record, status: string)
    requires IsContact(r) && IsState(status) && status != "discando"
    requires status == "pendente" ==> Attempts(r) < MAX_ATTEMPTS
    ensures IsContact(WithStatus(r, status)) && Field(WithStatus(r, status), "number") == Field(r, "number")
  {
  }

  lemma ResultKeeps(printable: char -> bool, cs: Catalog, id: string, number: string, outcome: string)
    requires IsCatalog(printable, cs) && WithResult(cs, id, number, outcome).Some?
    ensures IsCatalog(printable, WithResult(cs, id, number, outcome).value)
  {
    var i := FindCampaign(cs, id).value;
    var k := FindContact(cs[i].contacts, number, Some("discando"), 0).value;
    var r := cs[i].contacts[k];
    EndedIsContact(r, StatusAfter(outcome, Attempts(r)));
    CatalogReplaced(printable, cs, i, k, WithStatus(r, StatusAfter(outcome, Attempts(r))));
  }

  lemma ReviewKeeps(printable: char -> bool, cs: Catalog, i: nat, k: nat, now: real, actor: string)
    requires IsCatalog(printable, cs) && i < |cs| && k < |cs[i].contacts|
    ensures IsCatalog(printable, WithContact(cs, i, k, Reviewed(cs[i].contacts[k], now, actor)))
  {
    var r := cs[i].contacts[k];
    EndedIsContact(r, "revisao_manual");
    var s := Reviewed(r, now, actor);
    assert IsContact(s) by {
      assert Attempts(s) == Attempts(r) && Field(s, "status") == Text("revisao_manual")
             && Field(s, "number") == Field(r, "number");
    }
    CatalogReplaced(printable, cs, i, k, s);
  }

  // ----- whole runs -----

  datatype Op =
    | Reserve(id: string, number: string, attempt: string, now: real)
    | Report(id: string, number: string, outcome: string)
    | Create(campaign: Campaign)
    | Review(i: nat, k: nat, now: real, actor: string)

  /** What an operation writes, if it writes; create_campaign validates what it is about to save. */
  ghost function Written(printable: char -> bool, cs: Catalog, op: Op): Option<Catalog>
  {
    match op
    case Reserve(id, number, attempt, now) => Calling(cs, id, number, attempt, now)
    case Report(id, number, outcome) => WithResult(cs, id, number, outcome)
    case Create(campaign) => if IsCatalog(printable, cs + [campaign]) then Some(cs + [campaign]) else None
    case Review(i, k, now, actor) =>
      if i < |cs| && k < |cs[i].contacts| && HasStatus(cs[i].contacts[k], "discando")
      then Some(WithContact(cs, i, k, Reviewed(cs[i].contacts[k], now, actor))) else None
  }

  ghost function Step(printable: char -> bool, cs: Catalog, op: Op): Catalog
  {
    if !IsCatalog(printable, cs) || Written(printable, cs, op).None? then cs else Written(printable, cs, op).value
  }

  ghost function Run(printable: char -> bool, cs: Catalog, ops: seq<Op>): Catalog
  {
    if ops == [] then cs else Step(printable, Run(printable, cs, ops[..|ops| - 1]), ops[|ops| - 1])
  }

  /** Clock readings are never negative. */
  ghost predicate ClocksAreSane(ops: seq<Op>)
  {
    forall k :: 0 <= k < |ops| && ops[k].Reserve? ==> ops[k].now >= 0.0
  }

  /** The stored catalog can always be loaded again. */
  lemma {:induction false} RunKeepsCatalog(printable: char -> bool, cs: Catalog, ops: seq<Op>)
    requires IsCatalog(printable, cs) && ClocksAreSane(ops)
    ensures IsCatalog(printable, Run(printable, cs, ops))
  {
    if ops != [] {
      var front, op := ops[..|ops| - 1], ops[|ops| - 1];
      RunKeepsCatalog(printable, cs, front);
      var before := Run(printable, cs, front);
      if Written(printable, before, op).Some? {
        match op
        case Reserve(id, number, attempt, now) => CallingKeeps(printable, before, id, number, attempt, now);
        case Report(id, number, outcome) => ResultKeeps(printable, before, id, number, outcome);
        case Create(campaign) =>
        case Review(i, k, now, actor) => ReviewKeeps(printable, before, i, k, now, actor);
      }
    }
  }

  ghost predicate HasContactAt(cs: Catalog, i: nat, k: nat)
  {
    i < |cs| && k < |cs[i].contacts|
  }

  lemma BegunMoves(r: Record, attempt: string, now: real)
    requires HasStatus(r, "pendente") && 0 <= Attempts(r) < MAX_ATTEMPTS
    ensures Moves(r, Begun(r, attempt, now), MAX_ATTEMPTS)
  {
  }

  lemma EndMoves(r: Record, outcome: string, now: real, actor: string)
    requires HasStatus(r, "discando")
    ensures 1 <= Attempts(r) <= MAX_ATTEMPTS ==>
              Moves(r, WithStatus(r, StatusAfter(outcome, Attempts(r))), MAX_ATTEMPTS)
    ensures Moves(r, Reviewed(r, now, actor), MAX_ATTEMPTS)
  {
  }

  /** Only the contact that is replaced moves. */
  lemma ContactMoves(cs: Catalog, c: nat, j: nat, s: Record, i: nat, k: nat)
    requires HasContactAt(cs, c, j) && HasContactAt(cs, i, k) && Moves(cs[c].contacts[j], s, MAX_ATTEMPTS)
    ensures HasContactAt(WithContact(cs, c, j, s), i, k)
    ensures Moves(cs[i].contacts[k], WithContact(cs, c, j, s)[i].contacts[k], MAX_ATTEMPTS)
  {
    if i == c && k == j {
      assert WithContact(cs, c, j, s)[i].contacts[k] == s;
    } else {
      assert WithContact(cs, c, j, s)[i].contacts[k] == cs[i].contacts[k];
    }
  }

  lemma WrittenMoves(printable: char -> bool, cs: Catalog, op: Op, i: nat, k: nat)
    requires HasContactAt(cs, i, k) && Written(printable, cs, op).Some?
    ensures var after := Written(printable, cs, op).value;
            HasContactAt(after, i, k) && Moves(cs[i].contacts[k], after[i].contacts[k], MAX_ATTEMPTS)
  {
    match op
    case Reserve(id, number, attempt, now) =>
      var c := FindCampaign(cs, id).value;
      var j := FindContact(cs[c].contacts, number, None, 0).value;
      BegunMoves(cs[c].contacts[j], attempt, now);
      ContactMoves(cs, c, j, Begun(cs[c].contacts[j], attempt, now), i, k);
    case Report(id, number, outcome) =>
      var c := FindCampaign(cs, id).value;
      var j := FindContact(cs[c].contacts, number, Some("discando"), 0).value;
      var r := cs[c].contacts[j];
      EndMoves(r, outcome, 0.0, "");
      ContactMoves(cs, c, j, WithStatus(r, StatusAfter(outcome, Attempts(r))), i, k);
    case Create(campaign) =>
    case Review(c, j, now, actor) =>
      EndMoves(cs[c].contacts[j], "", now, actor);
      ContactMoves(cs, c, j, Reviewed(cs[c].contacts[j], now, actor), i, k);
  }

  /** In one step a contact stays in its place and makes at most one of its moves. */
  lemma StepMoves(printable: char -> bool, cs: Catalog, op: Op, i: nat, k: nat)
    requires HasContactAt(cs, i, k)
    ensures HasContactAt(Step(printable, cs, op), i, k)
    ensures Moves(cs[i].contacts[k], Step(printable, cs, op)[i].contacts[k], MAX_ATTEMPTS)
  {
    if Written(printable, cs, op).Some? {
      WrittenMoves(printable, cs, op, i, k);
    }
  }

  /** The versions of one contact over a run. */
  ghost function LifeOf(printable: char -> bool, cs: Catalog, ops: seq<Op>, i: nat, k: nat): (life: seq<Record>)
    requires HasContactAt(cs, i, k)
    ensures HasContactAt(Run(printable, cs, ops), i, k)
    ensures life != [] && life[0] == cs[i].contacts[k] && life[|life| - 1] == Run(printable, cs, ops)[i].contacts[k]
  {
    if ops == [] then [cs[i].contacts[k]] else
    var front := ops[..|ops| - 1];
    var before := LifeOf(printable, cs, front, i, k);
    StepMoves(printable, Run(printable, cs, front), ops[|ops| - 1], i, k);
    before + [Run(printable, cs, ops)[i].contacts[k]]
  }

  lemma {:induction false} LifeIsLife(printable: char -> bool, cs: Catalog, ops: seq<Op>, i: nat, k: nat)
    requires IsCatalog(printable, cs) && HasContactAt(cs, i, k)
    ensures IsLife(LifeOf(printable, cs, ops, i, k), MAX_ATTEMPTS)
  {
    if ops == [] {
      assert AreContacts(cs[i].contacts) && IsContact(cs[i].contacts[k]);
    } else {
      var front := ops[..|ops| - 1];
      LifeIsLife(printable, cs, front, i, k);
      StepMoves(printable, Run(printable, cs, front), ops[|ops| - 1], i, k);
    }
  }

  /** Whatever is done to the catalog, in any order: a contact is dialed at most three times, its counter is
      the number of its dials, and once it is neither pending nor being dialed, as under manual review, it
      stays as it is. */
  lemma RetrySafety(printable: char -> bool, cs: Catalog, ops: seq<Op>, i: nat, k: nat)
    requires IsCatalog(printable, cs) && HasContactAt(cs, i, k)
    ensures var first, life, last := cs[i].contacts[k], LifeOf(printable, cs, ops, i, k),
            Run(printable, cs, ops)[i].contacts[k];
            && (!IsActive(first) ==> last == first)
            && (IsActive(first) ==> Attempts(first) + Dials(life, MAX_ATTEMPTS) <= MAX_ATTEMPTS)
            && (IsActive(first) && IsActive(last) ==> Attempts(last) == Attempts(first) + Dials(life, MAX_ATTEMPTS))
            && Changes(life) <= Rank(first, MAX_ATTEMPTS)
  {
    var life := LifeOf(printable, cs, ops, i, k);
    LifeIsLife(printable, cs, ops, i, k);
    ChangesAreBounded(life, MAX_ATTEMPTS);
    if IsActive(cs[i].contacts[k]) {
      DialsAreCounted(life, MAX_ATTEMPTS);
    } else {
      FinishedForGood(life, MAX_ATTEMPTS, 0);
    }
  }

  // ----- the validator -----

  function Numbers(contacts: seq<Record>): set<Json>
  {
    if contacts == [] then {} else Numbers(contacts[..|contacts| - 1]) + {Field(contacts[|contacts| - 1], "number")}
  }

  lemma {:induction false} NumbersAreThose(contacts: seq<Record>, number: Json)
    ensures number in Numbers(contacts) <==> exists k :: 0 <= k < |contacts| && Field(contacts[k], "number") == number
  {
    if contacts != [] {
      NumbersAreThose(contacts[..|contacts| - 1], number);
      assert contacts == contacts[..|contacts| - 1] + [contacts[|contacts| - 1]];
    }
  }

  lemma OneMoreContact(contacts: seq<Record>, i: nat)
    requires i < |contacts| && AreContacts(contacts[..i])
    ensures AreContacts(contacts[..i + 1])
            <==> IsContact(contacts[i]) && Field(contacts[i], "number") !in Numbers(contacts[..i])
    ensures Numbers(contacts[..i + 1]) == Numbers(contacts[..i]) + {Field(contacts[i], "number")}
  {
    var front, more := contacts[..i], contacts[..i + 1];
    assert more == front + [contacts[i]] && more[..i] == front && more[i] == contacts[i];
    NumbersAreThose(front, Field(contacts[i], "number"));
    if AreContacts(more) {
      forall k | 0 <= k < i ensures Field(front[k], "number") != Field(contacts[i], "number") {
        assert front[k] == more[k] && Field(more[k], "number") != Field(more[i], "number");
      }
      assert IsContact(more[i]);
    }
  }

  lemma PrefixAreContacts(contacts: seq<Record>, i: nat)
    requires i <= |contacts| && AreContacts(contacts)
    ensures AreContacts(contacts[..i])
  {
  }

  /** The inner loop of validate_campaign_catalog. */
  method ValidateContacts(contacts: seq<Record>) returns (ok: bool)
    ensures ok <==> AreContacts(contacts)
  {
    var numbers: set<Json> := {};
    for i := 0 to |contacts|
      invariant AreContacts(contacts[..i]) && numbers == Numbers(contacts[..i])
    {
      OneMoreContact(contacts, i);
      if !IsContact(contacts[i]) || Field(contacts[i], "number") in numbers {
        if AreContacts(contacts) { PrefixAreContacts(contacts, i + 1); }
        return false;
      }
      numbers := numbers + {Field(contacts[i], "number")};
    }
    assert contacts[..|contacts|] == contacts;
    return true;
  }

  function Ids(cs: Catalog): set<Json>
  {
    if cs == [] then {} else Ids(cs[..|cs| - 1]) + {cs[|cs| - 1].id}
  }

  lemma {:induction false} IdsAreThose(cs: Catalog, id: Json)
    ensures id in Ids(cs) <==> exists k :: 0 <= k < |cs| && cs[k].id == id
  {
    if cs != [] {
      IdsAreThose(cs[..|cs| - 1], id);
      assert cs == cs[..|cs| - 1] + [cs[|cs| - 1]];
    }
  }

  lemma OneMoreCampaign(printable: char -> bool, cs: Catalog, i: nat)
    requires i < |cs| && AreCampaigns(printable, cs[..i])
    ensures (AreCampaigns(printable, cs[..i + 1]) <==>
             IsHeader(printable, cs[i]) && AreContacts(cs[i].contacts) && cs[i].id !in Ids(cs[..i]))
    ensures Ids(cs[..i + 1]) == Ids(cs[..i]) + {cs[i].id}
  {
    var front, more := cs[..i], cs[..i + 1];
    assert more == front + [cs[i]] && more[..i] == front && more[i] == cs[i];
    IdsAreThose(front, cs[i].id);
    if AreCampaigns(printable, more) {
      forall k | 0 <= k < i ensures front[k].id != cs[i].id {
        assert front[k] == more[k] && more[k].id != more[i].id;
      }
      assert IsHeader(printable, more[i]) && AreContacts(more[i].contacts);
    }
  }

  lemma PrefixAreCampaigns(printable: char -> bool, cs: Catalog, i: nat)
    requires i <= |cs| && AreCampaigns(printable, cs)
    ensures AreCampaigns(printable, cs[..i])
  {
  }

  /** validate_campaign_catalog: false where it raises. */
  method ValidateCatalog(printable: char -> bool, cs: Catalog) returns (ok: bool)
    ensures ok <==> IsCatalog(printable, cs)
  {
    if |cs| > MAX_CAMPAIGNS {
      return false;
    }
    var ids: set<Json> := {};
    for i := 0 to |cs|
      invariant AreCampaigns(printable, cs[..i]) && ids == Ids(cs[..i])
    {
      OneMoreCampaign(printable, cs, i);
      var contactsOk := ValidateContacts(cs[i].contacts);
      if !IsHeader(printable, cs[i]) || cs[i].id in ids || !contactsOk {
        if AreCampaigns(printable, cs) { PrefixAreCampaigns(printable, cs, i + 1); }
        return false;
      }
      ids := ids + {cs[i].id};
    }
    assert cs[..|cs|] == cs;
    return true;
  }

  // ----- one contact of a loaded catalog -----

  /** The body of mark_contact_calling. */
  method ReserveContact(cs: Catalog, id: string, number: string, attempt: string, now: real)
    returns (saved: Option<Catalog>)
    ensures saved == Calling(cs, id, number, attempt, now)
  {
    var i := FindCampaign(cs, id);
    if i.None? {
      return None;
    }
    var k := FindContact(cs[i.value].contacts, number, None, 0);
    if k.None? {
      return None;
    }
    var contact := cs[i.value].contacts[k.value];
    if !HasStatus(contact, "pendente") || !(0 <= Attempts(contact) < MAX_ATTEMPTS) || !IsHexOf(attempt, 32) {
      return None;
    }
    contact := BeginAttempt(contact, attempt, now);
    return Some(WithContact(cs, i.value, k.value, contact));
  }

  /** The body of mark_contact_result. */
  method ConcludeContact(cs: Catalog, id: string, number: string, outcome: string) returns (saved: Option<Catalog>)
    ensures saved == WithResult(cs, id, number, outcome)
  {
    var i := FindCampaign(cs, id);
    if i.None? {
      return None;
    }
    var k := FindContact(cs[i.value].contacts, number, Some("discando"), 0);
    if k.None? {
      return None;
    }
    var contact := cs[i.value].contacts[k.value];
    if !IsOutcome(outcome) || !(1 <= Attempts(contact) <= MAX_ATTEMPTS) {
      return None;
    }
    contact := EndAttempt(contact, outcome, "atendida", MAX_ATTEMPTS);
    return Some(WithContact(cs, i.value, k.value, contact));
  }

  // ----- the file -----

  /** Corrupt is the error of a catalog that does not load. */
  datatype Reply = Corrupt | Refused | Saved

  class CampaignFile {
    const printable: char -> bool
    var campaigns: Catalog

    constructor (printable: char -> bool, campaigns: Catalog)
      ensures this.printable == printable && this.campaigns == campaigns
    {
      this.printable, this.campaigns := printable, campaigns;
    }

    /** What every operation answers and leaves behind. */
    twostate predicate Did(op: Op, reply: Reply)
      reads this
    {
      && campaigns == Step(printable, old(campaigns), op)
      && (reply == Corrupt <==> !IsCatalog(printable, old(campaigns)))
      && (reply == Saved <==> IsCatalog(printable, old(campaigns)) && Written(printable, old(campaigns), op).Some?)
    }

    method MarkCalling(id: string, number: string, attempt: string, now: real) returns (reply: Reply)
      modifies this`campaigns
      ensures Did(Reserve(id, number, attempt, now), reply)
    {
      var ok := ValidateCatalog(printable, campaigns);
      if !ok {
        return Corrupt;
      }
      var saved := ReserveContact(campaigns, id, number, attempt, now);
      if saved.None? {
        return Refused;
      }
      campaigns := saved.value;
      return Saved;
    }

    method MarkResult(id: string, number: string, outcome: string) returns (reply: Reply)
      modifies this`campaigns
      ensures Did(Report(id, number, outcome), reply)
    {
      var ok := ValidateCatalog(printable, campaigns);
      if !ok {
        return Corrupt;
      }
      var saved := ConcludeContact(campaigns, id, number, outcome);
      if saved.None? {
        return Refused;
      }
      campaigns := saved.value;
      return Saved;
    }

    /** create_campaign, for a cleaned campaign: what is saved is valid, or a ValueError leaves the file alone. */
    method CreateCampaign(campaign: Campaign) returns (reply: Reply)
      modifies this`campaigns
      ensures Did(Create(campaign), reply)
    {
      var ok := ValidateCatalog(printable, campaigns);
      if !ok {
        return Corrupt;
      }
      var more := campaigns + [campaign];
      var valid := ValidateCatalog(printable, more);
      if !valid {
        return Refused;
      }
      campaigns := more;
      return Saved;
    }
  }

  // ----- the next contact to dial -----

  /** next_pending_contact: the first contact that may be dialed. */
  method NextPending(contacts: seq<Record>) returns (next: Option<nat>)
    ensures next.None? ==> forall k :: 0 <= k < |contacts| ==> !MayDial(contacts[k])
    ensures next.Some? ==>
              next.value < |contacts| && MayDial(contacts[next.value])
              && forall k :: 0 <= k < next.value ==> !MayDial(contacts[k])
  {
    for k := 0 to |contacts|
      invariant forall j :: 0 <= j < k ==> !MayDial(contacts[j])
    {
      if MayDial(contacts[k]) {
        return Some(k);
      }
    }
    return None;
  }

  /** A missing counter counts as zero. */
  predicate MayDial(r: Record)
  {
    HasStatus(r, "pendente")
      && (if "attempts" in r then r["attempts"].Whole? && r["attempts"].n < MAX_ATTEMPTS else true)
  }
}
