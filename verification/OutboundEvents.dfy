/** What a DialEnd event does to the catalog of callbacks: it settles the one attempt that it names, and
    settles it once. */
module OutboundEvents {
  import opened Prelude
  import opened OutboundRecords
  import opened Correlation
  import Callbacks
  import Campaigns
  import CallbackStore

  /** A callback that the handler finds: of the tenant and the number, being dialed, matched by the event, and
      not one whose Originate was refused. */
  predicate Concerns(event: Event, tenant: string, number: string, r: Record)
  {
    && Field(r, "tenant") == Text(tenant) && Field(r, "caller_id_num") == Text(number)
    && HasStatus(r, "discando") && MatchesDialEvent(event, r)
    && Field(r, "originate_response") != Text("Failure")
  }

  function Concerned(event: Event, tenant: string, number: string, rs: Callbacks.Catalog): (found: seq<nat>)
    ensures forall i :: 0 <= i < |found| ==> found[i] < |rs| && Concerns(event, tenant, number, rs[found[i]])
  {
    if rs == [] then [] else
    var before := Concerned(event, tenant, number, rs[..|rs| - 1]);
    if Concerns(event, tenant, number, rs[|rs| - 1]) then before + [|rs| - 1] else before
  }

  /** A contact of a campaign that claims the same event. */
  predicate Claims(event: Event, number: string, r: Record)
  {
    Field(r, "number") == Text(number) && HasStatus(r, "discando") && MatchesDialEvent(event, r)
  }

  ghost predicate Conflicts(event: Event, tenant: string, number: string, cs: Campaigns.Catalog)
  {
    exists i, k :: 0 <= i < |cs| && 0 <= k < |cs[i].contacts| && cs[i].tenant == Text(tenant)
                   && Claims(event, number, cs[i].contacts[k])
  }

  /** What the event must be before a catalog is read. `tenant` and `number` are those that the handler took
      from the event, if it found any. */
  predicate IsResult(event: Event, tenant: Option<string>, number: Option<string>)
  {
    && Get(event, "Event") == Some("DialEnd") && tenant.Some? && number.Some?
    && Get(event, "DialStatus").Some? && IsOutcome(Get(event, "DialStatus").value)
  }

  /** apply_callback_dial_result: the stored callbacks afterwards. A catalog that does not load ends it. */
  ghost function DialResult(printable: char -> bool, event: Event, tenant: Option<string>, number: Option<string>,
                            rs: Callbacks.Catalog, cs: Campaigns.Catalog): Callbacks.Catalog
  {
    if !IsResult(event, tenant, number) then rs
    else if !Callbacks.IsCatalog(printable, rs) || !Campaigns.IsCatalog(printable, cs) then rs
    else if Conflicts(event, tenant.value, number.value, cs) then rs
    else
      var found := Concerned(event, tenant.value, number.value, rs);
      if |found| != 1 || !Field(rs[found[0]], "id").Text? then rs
      else
        match Callbacks.WithResult(rs, Field(rs[found[0]], "id").s, event["DialStatus"])
        case None => rs
        case Some(saved) => saved
  }

  /** Everything that lets the event settle the callback at `k`. */
  ghost predicate Settles(printable: char -> bool, event: Event, tenant: Option<string>, number: Option<string>,
                          rs: Callbacks.Catalog, cs: Campaigns.Catalog, k: nat)
  {
    && IsResult(event, tenant, number) && Callbacks.IsCatalog(printable, rs) && Campaigns.IsCatalog(printable, cs)
    && !Conflicts(event, tenant.value, number.value, cs)
    && k < |rs| && Concerns(event, tenant.value, number.value, rs[k])
  }

  /** In a valid catalog at most one callback is concerned. */
  lemma {:induction false} OneIsConcerned(printable: char -> bool, event: Event, tenant: string, number: string,
                                          rs: Callbacks.Catalog, upto: nat, k: nat)
    requires Callbacks.IsCatalog(printable, rs) && k < upto <= |rs| && Concerns(event, tenant, number, rs[k])
    ensures Concerned(event, tenant, number, rs[..upto]) == [k]
  {
    var last := upto - 1;
    assert rs[..upto][..last] == rs[..last];
    CallbackAttemptsAreDistinct(printable, rs);
    if k == last {
      NoneIsConcerned(event, tenant, number, rs, last, k);
    } else {
      OneIsConcerned(printable, event, tenant, number, rs, last, k);
      if Concerns(event, tenant, number, rs[last]) {
        AtMostOneInFlight(event, rs, k, last);
      }
    }
  }

  lemma {:induction false} NoneIsConcerned(event: Event, tenant: string, number: string, rs: Callbacks.Catalog,
                                           upto: nat, k: nat)
    requires AttemptsAreDistinct(rs) && upto <= k < |rs| && Concerns(event, tenant, number, rs[k])
    ensures Concerned(event, tenant, number, rs[..upto]) == []
  {
    if upto > 0 {
      assert rs[..upto][..upto - 1] == rs[..upto - 1];
      NoneIsConcerned(event, tenant, number, rs, upto - 1, k);
      if Concerns(event, tenant, number, rs[upto - 1]) {
        AtMostOneInFlight(event, rs, upto - 1, k);
      }
    }
  }

  lemma {:induction false} FindsByItsId(rs: Callbacks.Catalog, k: nat, id: string)
    requires Callbacks.HaveUniqueIds(rs) && k < |rs| && Field(rs[k], "id") == Text(id)
    ensures Callbacks.FindCallback(rs, id) == Some(k)
  {
    if k < |rs| - 1 {
      FindsByItsId(rs[..|rs| - 1], k, id);
    }
  }

  /** The event changes the catalog exactly where it settles a callback: that one gets the status that the
      outcome and its counter decide, and nothing else changes. */
  lemma DialResultExactly(printable: char -> bool, event: Event, tenant: Option<string>, number: Option<string>,
                          rs: Callbacks.Catalog, cs: Campaigns.Catalog)
    ensures var after := DialResult(printable, event, tenant, number, rs, cs);
            && (forall k: nat :: Settles(printable, event, tenant, number, rs, cs, k) ==>
                  after == rs[k := WithStatus(rs[k], Callbacks.StatusAfter(event["DialStatus"], Attempts(rs[k])))])
            && ((forall k: nat :: !Settles(printable, event, tenant, number, rs, cs, k)) ==> after == rs)
  {
    var after := DialResult(printable, event, tenant, number, rs, cs);
    forall k: nat | Settles(printable, event, tenant, number, rs, cs, k)
      ensures after == rs[k := WithStatus(rs[k], Callbacks.StatusAfter(event["DialStatus"], Attempts(rs[k])))]
    {
      OneIsConcerned(printable, event, tenant.value, number.value, rs, |rs|, k);
      assert rs[..|rs|] == rs && Callbacks.IsSound(printable, rs[k]);
      FindsByItsId(rs, k, Field(rs[k], "id").s);
    }
    if (forall k: nat :: !Settles(printable, event, tenant, number, rs, cs, k)) && after != rs {
      var found := Concerned(event, tenant.value, number.value, rs);
      assert Settles(printable, event, tenant, number, rs, cs, found[0]);
    }
  }

  /** Nobody is being dialed under this attempt. */
  ghost predicate NobodyDials(rs: Callbacks.Catalog, attempt: Json)
  {
    forall k :: 0 <= k < |rs| && HasStatus(rs[k], "discando") ==> Field(rs[k], "attempt_id") != attempt
  }

  lemma SettledIsNotDialed(printable: char -> bool, event: Event, tenant: Option<string>, number: Option<string>,
                           rs: Callbacks.Catalog, cs: Campaigns.Catalog, k: nat)
    requires Settles(printable, event, tenant, number, rs, cs, k)
    ensures NobodyDials(DialResult(printable, event, tenant, number, rs, cs), Field(rs[k], "attempt_id"))
  {
    DialResultExactly(printable, event, tenant, number, rs, cs);
    CallbackAttemptsAreDistinct(printable, rs);
    var after := DialResult(printable, event, tenant, number, rs, cs);
    forall j | 0 <= j < |after| && HasStatus(after[j], "discando")
      ensures Field(after[j], "attempt_id") != Field(rs[k], "attempt_id")
    {
      assert j != k && after[j] == rs[j];
      assert Field(rs[if j < k then j else k], "attempt_id") != Field(rs[if j < k then k else j], "attempt_id");
    }
  }

  lemma WrittenDialsNobody(printable: char -> bool, rs: Callbacks.Catalog, op: CallbackStore.Op, attempt: Json)
    requires NobodyDials(rs, attempt) && (op.Reserve? ==> Text(op.attempt) != attempt)
    requires CallbackStore.Written(printable, rs, op).Some?
    ensures NobodyDials(CallbackStore.Written(printable, rs, op).value, attempt)
  {
    match op
    case Reserve(id, another, now) =>
      var i := Callbacks.FindCallback(rs, id).value;
      BegunDials(rs[i], another, now);
      ReplacedDialsNobody(rs, i, Begun(rs[i], another, now), attempt);
    case Report(id, outcome) =>
      var i := Callbacks.FindCallback(rs, id).value;
      EndedDials(rs[i], Callbacks.StatusAfter(outcome, Attempts(rs[i])), 0.0, "");
      ReplacedDialsNobody(rs, i, WithStatus(rs[i], Callbacks.StatusAfter(outcome, Attempts(rs[i]))), attempt);
    case Cancel(id, tenant, now) =>
      var i := Callbacks.FindCallback(rs, id).value;
      EndedDials(rs[i], "cancelado", now, "");
      ReplacedDialsNobody(rs, i, WithStatus(rs[i], "cancelado")["cancelled_at" := Decimal(now)], attempt);
    case Request(number, name, tenant, source, draws, now) =>
      var id := Callbacks.FreshId(rs, draws).value;
      CallbackStore.NewRequestFields(id, Callbacks.Digits(number).value, Callbacks.SafeName(printable, name), tenant,
                                     source, now);
    case Review(i, now, actor) =>
      EndedDials(rs[i], "revisao_manual", now, actor);
      ReplacedDialsNobody(rs, i, Reviewed(rs[i], now, actor), attempt);
  }

  lemma ReplacedDialsNobody(rs: Callbacks.Catalog, i: nat, s: Record, attempt: Json)
    requires NobodyDials(rs, attempt) && i < |rs| && (HasStatus(s, "discando") ==> Field(s, "attempt_id") != attempt)
    ensures NobodyDials(rs[i := s], attempt)
  {
  }

  lemma BegunDials(r: Record, attempt: string, now: real)
    ensures Field(Begun(r, attempt, now), "attempt_id") == Text(attempt)
  {
  }

  lemma EndedDials(r: Record, status: string, now: real, actor: string)
    ensures HasStatus(WithStatus(r, status), "discando") ==> status == "discando"
    ensures HasStatus(WithStatus(r, status)["cancelled_at" := Decimal(now)], "discando") ==> status == "discando"
    ensures !HasStatus(Reviewed(r, now, actor), "discando")
  {
  }

  /** As long as the attempt is not used again, nobody is dialed under it. */
  lemma {:induction false} RunDialsNobody(printable: char -> bool, rs: Callbacks.Catalog, ops: seq<CallbackStore.Op>,
                                          attempt: Json)
    requires NobodyDials(rs, attempt) && forall op :: op in ops && op.Reserve? ==> Text(op.attempt) != attempt
    ensures NobodyDials(CallbackStore.Run(printable, rs, ops), attempt)
  {
    if ops != [] {
      var front, op := ops[..|ops| - 1], ops[|ops| - 1];
      RunDialsNobody(printable, rs, front, attempt);
      if CallbackStore.Written(printable, CallbackStore.Run(printable, rs, front), op).Some? {
        WrittenDialsNobody(printable, CallbackStore.Run(printable, rs, front), op, attempt);
      }
    }
  }

  /** An event settles an attempt once: whatever is done to the catalog afterwards, and even if the callback is
      dialed again under another attempt, delivering the event again changes nothing. */
  lemma DialEventCountsOnce(printable: char -> bool, event: Event, tenant: Option<string>, number: Option<string>,
                            rs: Callbacks.Catalog, cs: Campaigns.Catalog, k: nat, ops: seq<CallbackStore.Op>,
                            later: Campaigns.Catalog)
    requires Settles(printable, event, tenant, number, rs, cs, k)
    requires forall op :: op in ops && op.Reserve? ==> Text(op.attempt) != Field(rs[k], "attempt_id")
    ensures var again := CallbackStore.Run(printable, DialResult(printable, event, tenant, number, rs, cs), ops);
            DialResult(printable, event, tenant, number, again, later) == again
  {
    var after := DialResult(printable, event, tenant, number, rs, cs);
    var again := CallbackStore.Run(printable, after, ops);
    SettledIsNotDialed(printable, event, tenant, number, rs, cs, k);
    RunDialsNobody(printable, after, ops, Field(rs[k], "attempt_id"));
    forall j: nat ensures !Settles(printable, event, tenant, number, again, later, j) {
      if Settles(printable, event, tenant, number, again, later, j) {
        CallbackAttemptsAreDistinct(printable, rs);
        CallbackAttemptsAreDistinct(printable, again);
        OneDialEventOneAttempt(event, rs[k], again[j]);
        assert false;
      }
    }
    DialResultExactly(printable, event, tenant, number, again, later);
  }
}
