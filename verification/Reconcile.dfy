/** Manual quarantine of a stale outbound claim: the audit entry is durable before the catalog changes, and
    nothing is ever made pending again. */
module Reconcile {
  import opened Prelude
  import opened Text
  import opened OutboundRecords
  import Campaigns

  /** The snapshot of one of the two catalogs. */
  datatype Store = Callbacks(records: seq<Record>) | Campaigned(campaigns: seq<Campaigns.Campaign>)

  /** Where a record stands: a callback, or a contact of a campaign. */
  datatype Place = Place(i: nat, k: nat)

  /** A record with the identity, the tenant and the number it is filed under. */
  datatype Item = Item(place: Place, id: Json, tenant: Json, number: Json, record: Record)

  datatype Claim = Claim(tenant: string, id: string, number: Json, minAge: real, now: real)

  datatype Phase = Requested | Committed

  datatype Entry = Entry(phase: Phase, tenant: string, id: string, attempt: Json, number: Json, actor: string,
                         evidence: string, when: real)

  ghost predicate Exists(store: Store, p: Place)
  {
    match store
    case Callbacks(records) => p.i < |records| && p.k == 0
    case Campaigned(campaigns) => p.i < |campaigns| && p.k < |campaigns[p.i].contacts|
  }

  function RecordAt(store: Store, p: Place): Record
    requires Exists(store, p)
  {
    match store
    case Callbacks(records) => records[p.i]
    case Campaigned(campaigns) => campaigns[p.i].contacts[p.k]
  }

  function WithRecord(store: Store, p: Place, r: Record): Store
    requires Exists(store, p)
  {
    match store
    case Callbacks(records) => Callbacks(records[p.i := r])
    case Campaigned(campaigns) => Campaigned(Campaigns.WithContact(campaigns, p.i, p.k, r))
  }

  function ItemsOfCampaign(c: Campaigns.Campaign, i: nat, upTo: nat): (items: seq<Item>)
    requires upTo <= |c.contacts|
    ensures |items| == upTo && forall k :: 0 <= k < upTo ==>
              items[k] == Item(Place(i, k), c.id, c.tenant, Field(c.contacts[k], "number"), c.contacts[k])
  {
    seq(upTo, k requires 0 <= k < upTo =>
        Item(Place(i, k), c.id, c.tenant, Field(c.contacts[k], "number"), c.contacts[k]))
  }

  /** What _candidate_records looks at, in its order. */
  function Items(store: Store, upTo: nat): seq<Item>
    requires upTo <= match store { case Callbacks(records) => |records| case Campaigned(campaigns) => |campaigns| }
  {
    if upTo == 0 then [] else
    match store
    case Callbacks(records) =>
      var r := records[upTo - 1];
      Items(store, upTo - 1)
        + [Item(Place(upTo - 1, 0), Field(r, "id"), Field(r, "tenant"), Field(r, "caller_id_num"), r)]
    case Campaigned(campaigns) =>
      var c := campaigns[upTo - 1];
      Items(store, upTo - 1) + ItemsOfCampaign(c, upTo - 1, |c.contacts|)
  }

  function AllItems(store: Store): seq<Item>
  {
    match store
    case Callbacks(records) => Items(store, |records|)
    case Campaigned(campaigns) => Items(store, |campaigns|)
  }

  lemma {:induction false} ItemsStandThere(store: Store, upTo: nat)
    requires upTo <= match store { case Callbacks(records) => |records| case Campaigned(campaigns) => |campaigns| }
    ensures forall it :: it in Items(store, upTo) ==> Exists(store, it.place) && RecordAt(store, it.place) == it.record
  {
    if upTo > 0 {
      ItemsStandThere(store, upTo - 1);
    }
  }

  /** A number that is neither text nor infinite. */
  function Finite(j: Json): Option<real>
  {
    match j
    case Whole(n) => Some(n as real)
    case Decimal(r) => Some(r)
    case _ => None
  }

  /** _candidate_records and the identity of the claim. For callbacks the number is not asked for. */
  predicate IsClaimed(store: Store, it: Item, claim: Claim)
  {
    var started := Finite(Field(it.record, "last_attempt_at"));
    && it.tenant == Text(claim.tenant) && HasStatus(it.record, "discando")
    && started.Some? && started.value <= claim.now && claim.now - started.value >= claim.minAge
    && it.id == Text(claim.id) && (store.Campaigned? ==> it.number == claim.number)
  }

  function Matching(store: Store, items: seq<Item>, claim: Claim): seq<Item>
  {
    if items == [] then [] else
    var last := items[|items| - 1];
    Matching(store, items[..|items| - 1], claim) + if IsClaimed(store, last, claim) then [last] else []
  }

  lemma {:induction false} MatchingComeFrom(store: Store, items: seq<Item>, claim: Claim)
    ensures forall it :: it in Matching(store, items, claim) ==> it in items && IsClaimed(store, it, claim)
  {
    if items != [] {
      MatchingComeFrom(store, items[..|items| - 1], claim);
    }
  }

  method FindClaims(store: Store, claim: Claim) returns (found: seq<Item>)
    ensures found == Matching(store, AllItems(store), claim)
    ensures forall it :: it in found ==>
              Exists(store, it.place) && RecordAt(store, it.place) == it.record && IsClaimed(store, it, claim)
  {
    var items := AllItems(store);
    found := [];
    for i := 0 to |items|
      invariant found == Matching(store, items[..i], claim)
    {
      assert items[..i + 1][..i] == items[..i];
      if IsClaimed(store, items[i], claim) {
        found := found + [items[i]];
      }
    }
    assert items[..|items|] == items;
    ItemsStandThere(store,
                    match store { case Callbacks(records) => |records| case Campaigned(campaigns) => |campaigns| });
    MatchingComeFrom(store, items, claim);
  }

  // ----- the request -----

  predicate IsRequest(claim: Claim, actor: string, evidence: string)
  {
    && IsTenantId(claim.tenant) && |claim.tenant| <= 87 && claim.minAge >= 300.0 && claim.id != ""
    && 2 <= |Strip(actor)| <= 100
    && 10 <= |Strip(evidence)| <= 512 && '\n' !in evidence && '\r' !in evidence
  }

  function SafeAttempt(j: Json): Json { if IsAttemptId(j) then j else Null }

  function EntryFor(it: Item, claim: Claim, actor: string, evidence: string, phase: Phase): Entry
  {
    Entry(phase, claim.tenant, claim.id, SafeAttempt(Field(it.record, "attempt_id")), it.number, Strip(actor),
          Strip(evidence), claim.now)
  }

  /** The catalog with the claim under review. */
  function Quarantined(store: Store, it: Item, now: real, actor: string): Store
    requires Exists(store, it.place)
  {
    WithRecord(store, it.place, Reviewed(it.record, now, Strip(actor)))
  }

  /** Only one record changes, and no record becomes pending. */
  lemma QuarantineOnlyReviews(store: Store, it: Item, now: real, actor: string, p: Place)
    requires Exists(store, it.place) && RecordAt(store, it.place) == it.record && Exists(store, p)
    ensures var after := Quarantined(store, it, now, actor);
            && Exists(after, p)
            && (p != it.place ==> RecordAt(after, p) == RecordAt(store, p))
            && (p == it.place ==> HasStatus(RecordAt(after, p), "revisao_manual"))
            && (HasStatus(RecordAt(after, p), "pendente") ==> RecordAt(after, p) == RecordAt(store, p))
  {
  }

  // ----- the files, which may fail at each write -----

  /** Refused left the file as it was; Lost wrote it but reports an error, as when the last fsync fails. */
  datatype Fault = Fine | Refused | Lost

  datatype Snapshot = Snapshot(store: Store, audit: seq<Entry>)

  datatype Outcome = Invalid | NotFound | Failed | Done

  class OutboundFiles {
    var store: Store
    var audit: seq<Entry>
    var faults: seq<Fault>
    /** Every state that a crash could leave on the disk. */
    ghost var durable: seq<Snapshot>

    constructor (store: Store, audit: seq<Entry>, faults: seq<Fault>)
      ensures this.store == store && this.audit == audit && this.faults == faults && durable == [Snapshot(store, audit)]
    {
      this.store, this.audit, this.faults := store, audit, faults;
      durable := [Snapshot(store, audit)];
    }

    method NextFault() returns (fault: Fault)
      modifies this`faults
    {
      if faults == [] {
        return Fine;
      }
      fault := faults[0];
      faults := faults[1..];
    }

    /** audit_event */
    method Append(entry: Entry) returns (ok: bool)
      modifies this`audit, this`faults, this`durable
      ensures audit == old(audit) || audit == old(audit) + [entry]
      ensures ok ==> audit == old(audit) + [entry]
      ensures durable == old(durable) + [Snapshot(store, audit)]
    {
      var fault := NextFault();
      if !fault.Refused? {
        audit := audit + [entry];
      }
      durable := durable + [Snapshot(store, audit)];
      return fault.Fine?;
    }

    /** atomic_write_json */
    method Replace(next: Store) returns (ok: bool)
      modifies this`store, this`faults, this`durable
      ensures store == old(store) || store == next
      ensures ok ==> store == next
      ensures durable == old(durable) + [Snapshot(store, audit)]
    {
      var fault := NextFault();
      if !fault.Refused? {
        store := next;
      }
      durable := durable + [Snapshot(store, audit)];
      return fault.Fine?;
    }

    /** What a crash at any point since then could leave: the old catalog, or the next one behind its
        durable request; the audit only grows. */
    twostate predicate IsWriteAhead(requested: Entry, next: Store)
      reads this
    {
      && |old(durable)| < |durable| && old(durable) <= durable && durable[|durable| - 1] == Snapshot(store, audit)
      && forall d :: |old(durable)| <= d < |durable| ==>
           && old(audit) <= durable[d].audit
           && (durable[d].store == old(store) || (durable[d].store == next && requested in durable[d].audit))
    }

    /** The three writes of quarantine_claim. */
    method WriteAhead(requested: Entry, next: Store, committed: Entry) returns (ok: bool)
      modifies this
      ensures IsWriteAhead(requested, next)
      ensures ok ==> store == next && audit == old(audit) + [requested, committed]
    {
      ok := Append(requested);
      if !ok {
        return;
      }
      assert audit == old(audit) + [requested];
      ok := Replace(next);
      if !ok {
        return;
      }
      ok := Append(committed);
      if ok {
        assert old(audit) + [requested] + [committed] == old(audit) + [requested, committed];
      }
    }

    /** quarantine_claim, under the lock of the catalog. At every point of a crash the catalog is the old one
        or the one with the single claim under review, and the latter only behind its durable request. */
    method QuarantineClaim(claim: Claim, actor: string, evidence: string)
      returns (outcome: Outcome, ghost item: Option<Item>)
      modifies this
      ensures outcome.Invalid? <==> !IsRequest(claim, actor, evidence)
      ensures (outcome.NotFound? <==>
               IsRequest(claim, actor, evidence) && |Matching(old(store), AllItems(old(store)), claim)| != 1)
      ensures outcome.Invalid? || outcome.NotFound? ==>
                durable == old(durable) && store == old(store) && audit == old(audit)
      ensures item.Some? <==> outcome.Failed? || outcome.Done?
      ensures (item.Some? ==>
                 var it := item.value;
                 && Exists(old(store), it.place) && RecordAt(old(store), it.place) == it.record
                   && IsClaimed(old(store), it, claim)
                 && IsWriteAhead(EntryFor(it, claim, actor, evidence, Requested),
                                 Quarantined(old(store), it, claim.now, actor)))
      ensures (outcome.Done? ==>
                 && store == Quarantined(old(store), item.value, claim.now, actor)
                 && audit == old(audit) + [EntryFor(item.value, claim, actor, evidence, Requested),
                                           EntryFor(item.value, claim, actor, evidence, Committed)])
    {
      item := None;
      if !IsRequest(claim, actor, evidence) {
        return Invalid, None;
      }
      var found := FindClaims(store, claim);
      if |found| != 1 {
        return NotFound, None;
      }
      var it := found[0];
      assert it in found;
      item := Some(it);
      var next := WithRecord(store, it.place, Reviewed(it.record, claim.now, Strip(actor)));
      var ok := WriteAhead(EntryFor(it, claim, actor, evidence, Requested), next,
                           EntryFor(it, claim, actor, evidence, Committed));
      return if ok then Done else Failed, item;
    }
  }
}
