/** Admission of tenant requests, and the agreement of the registry, the configuration files and
    the AstDB over whole runs of creations and removals. */
module Tenants {
  import opened Prelude
  import opened Hosting
  import opened TenantFiles
  import Strings = Text
  import TenantProvisioning
  import TenantDeprovisioning

  /** t([3-9]|[1-9][0-9]+): t1 and t2 are maintained by hand. */
  predicate IsWizardId(s: string)
  {
    IsTenantId(s) && (|s| == 2 ==> s[1] >= '3')
  }

  function Lower(s: string): string
  {
    seq(|s|, i requires 0 <= i < |s| => if 'A' <= s[i] <= 'Z' then s[i] - 'A' + 'a' else s[i])
  }

  /** re.sub(r"[^0-9]", "", s) */
  function DigitsOf(s: string): (digits: string)
    ensures AllOf(digits, IsDigit)
  {
    if s == "" then "" else (if IsDigit(s[0]) then [s[0]] else "") + DigitsOf(s[1..])
  }

  /** A field of the JSON body; None when it is not text. */
  datatype Request = Request(tenantId: Option<string>, did: Option<string>, displayName: Option<string>)

  predicate IsDidCharacter(c: char) { IsDigit(c) || c in "+().-" || Strings.IsSpace(c) }

  /** validate_tenant_creation_input: an admitted tenant has an id and a DID that no registered
      tenant has and that no static route uses. */
  function ValidateCreation(request: Request, existing: seq<Tenant>, reserved: set<string>, printable: char -> bool)
    : (cleaned: Option<Tenant>)
    ensures cleaned.Some? ==>
              IsWizardId(cleaned.value.id) && 8 <= |cleaned.value.did| <= 15 && AllOf(cleaned.value.did, IsDigit)
    ensures cleaned.Some? ==> cleaned.value.did !in reserved
    ensures cleaned.Some? ==> forall t :: t in existing ==> t.id != cleaned.value.id && t.did != cleaned.value.did
  {
    if request.tenantId.None? || '\r' in request.tenantId.value || '\n' in request.tenantId.value then None else
    var id := Lower(Strings.Strip(request.tenantId.value));
    if !IsWizardId(id) || (exists t :: t in existing && t.id == id) || request.did.None? then None else
    var rawDid := Strings.Strip(request.did.value);
    var did := DigitsOf(rawDid);
    if rawDid == "" || !AllOf(rawDid, IsDidCharacter) || !(8 <= |did| <= 15) then None
    else if (exists t :: t in existing && t.did == did) || did in reserved || request.displayName.None? then None else
    var name := Strings.Strip(request.displayName.value);
    if !(2 <= |name| <= 60) || '\n' in name || !AllOf(name, printable) then None
    else Some(Tenant(id, did, name))
  }

  function FirstWithId(existing: seq<Tenant>, id: string): (found: Option<Tenant>)
    ensures found.Some? ==> found.value in existing && found.value.id == id
    ensures found.None? ==> forall t :: t in existing ==> t.id != id
  {
    if existing == [] then None
    else if existing[0].id == id then Some(existing[0])
    else FirstWithId(existing[1..], id)
  }

  /** validate_tenant_removal: the registered tenant of that id, never t1 or t2. */
  function ValidateRemoval(raw: string, existing: seq<Tenant>): (found: Option<Tenant>)
    ensures found.Some? ==>
              found.value in existing && found.value.id == Lower(Strings.Strip(raw)) && IsWizardId(found.value.id)
    ensures found.None? <==> '\r' in raw || '\n' in raw || !IsWizardId(Lower(Strings.Strip(raw)))
                             || !Registered(existing, Lower(Strings.Strip(raw)))
  {
    if '\r' in raw || '\n' in raw then None else
    var id := Lower(Strings.Strip(raw));
    if !IsWizardId(id) then None else FirstWithId(existing, id)
  }

  /** What load_tenants reads; anything but a list is refused. */
  function LoadTenants(files: Files): Option<seq<Tenant>>
  {
    match Lookup(files, Registry)
    case None => Some([])
    case Some(file) => if file.content.Tenants? then Some(file.content.tenants) else None
  }

  predicate Registered(registry: seq<Tenant>, id: string)
  {
    exists t :: t in registry && t.id == id
  }

  ghost predicate PairwiseDistinct(tenants: seq<Tenant>)
  {
    forall i, j :: 0 <= i < j < |tenants| ==> tenants[i].id != tenants[j].id && tenants[i].did != tenants[j].did
  }

  lemma MembersDiffer(tenants: seq<Tenant>, a: Tenant, b: Tenant)
    requires PairwiseDistinct(tenants) && a in tenants && b in tenants && a != b
    ensures a.id != b.id && a.did != b.did
  {
    var i, j :| 0 <= i < |tenants| && 0 <= j < |tenants| && tenants[i] == a && tenants[j] == b;
  }

  /** The three stores tell the same story: tenant ids and DIDs are pairwise distinct, a wizard
      tenant is registered iff all of its files exist iff any of them does, and the AstDB maps
      exactly the registered DIDs, each to its tenant. */
  ghost predicate Agree(files: Files, dids: map<string, string>)
  {
    && LoadTenants(files).Some?
    && var registry := LoadTenants(files).value;
    && PairwiseDistinct(registry)
    && (forall t :: t in registry ==> IsWizardId(t.id))
    && (forall id, p :: IsWizardId(id) && p in TenantConfigPaths(id) ==> (p in files <==> Registered(registry, id)))
    && (forall t :: t in registry ==> t.did in dids && dids[t.did] == t.id)
    && (forall did :: did in dids ==> exists t :: t in registry && t.did == did)
  }

  lemma OtherTenantsKeepTheirFiles(a: string, b: string, p: Path)
    requires a != b && p in TenantConfigPaths(b)
    ensures p !in TenantConfigPaths(a) && p != Registry && p != Store && p != PJSIP_DYNAMIC
  {
    PathsNameTheirTenant(a);
    PathsNameTheirTenant(b);
  }

  lemma ProvisionKeepsAgreement(before: Files, dids: map<string, string>, tenant: Tenant, texts: seq<string>,
                                after: Files)
    requires Agree(before, dids) && |texts| == 8
    requires IsWizardId(tenant.id)
    requires forall t :: t in LoadTenants(before).value ==> t.id != tenant.id && t.did != tenant.did
    requires TenantProvisioning.Leaves(before, TenantConfigPaths(tenant.id), texts, 8, after)
    requires Lookup(after, Registry) == Some(File(Tenants(LoadTenants(before).value + [tenant]), PRIVATE_MODE))
    ensures Agree(after, dids[tenant.did := tenant.id])
  {
    var listed := LoadTenants(before).value;
    var registry := listed + [tenant];
    assert LoadTenants(after) == Some(registry) && TenantConfigPaths(tenant.id)[..8] == TenantConfigPaths(tenant.id);
    forall id, p | IsWizardId(id) && p in TenantConfigPaths(id) ensures p in after <==> Registered(registry, id) {
      if id == tenant.id {
        assert tenant in registry;
        var i :| 0 <= i < 8 && TenantConfigPaths(id)[i] == p;
        assert Lookup(after, TenantConfigPaths(id)[i]).Some?;
      } else {
        OtherTenantsKeepTheirFiles(tenant.id, id, p);
        assert Lookup(after, p) == Lookup(before, p);
        assert Registered(registry, id) <==> Registered(listed, id) by {
          if Registered(listed, id) { var t :| t in listed && t.id == id; assert t in registry; }
        }
      }
    }
    var updated := dids[tenant.did := tenant.id];
    forall did | did in updated ensures exists t :: t in registry && t.did == did {
      if did == tenant.did {
        assert tenant in registry;
      } else {
        var t :| t in listed && t.did == did;
        assert t in registry;
      }
    }
  }

  lemma {:induction false} RemainingStayDistinct(tenants: seq<Tenant>, id: string)
    requires PairwiseDistinct(tenants)
    ensures PairwiseDistinct(TenantDeprovisioning.RemainingTenants(tenants, id))
  {
    if tenants != [] {
      var rest := TenantDeprovisioning.RemainingTenants(tenants[1..], id);
      assert PairwiseDistinct(tenants[1..]);
      RemainingStayDistinct(tenants[1..], id);
      forall j | 0 <= j < |rest| ensures rest[j].id != tenants[0].id && rest[j].did != tenants[0].did {
        assert rest[j] in tenants[1..];
      }
    }
  }

  lemma RemovalKeepsAgreement(before: Files, dids: map<string, string>, record: Tenant, pjsip: string,
                              extensions: seq<Extension>, after: Files)
    requires Agree(before, dids) && record in LoadTenants(before).value
    requires TenantDeprovisioning.IsRemoval(before, PJSIP_DYNAMIC, TenantConfigPaths(record.id), pjsip, extensions,
                                            LoadTenants(before).value, record, after)
    ensures Agree(after, dids - {record.did})
  {
    var listed := LoadTenants(before).value;
    var registry := TenantDeprovisioning.RemainingTenants(listed, record.id);
    assert LoadTenants(after) == Some(registry);
    RemainingStayDistinct(listed, record.id);
    forall id, p | IsWizardId(id) && p in TenantConfigPaths(id) ensures p in after <==> Registered(registry, id) {
      if id != record.id {
        OtherTenantsKeepTheirFiles(record.id, id, p);
        assert Lookup(after, p) == Lookup(before, p);
        assert Registered(registry, id) <==> Registered(listed, id) by {
          if Registered(listed, id) { var t :| t in listed && t.id == id; assert t in registry; }
        }
      }
    }
    forall t | t in registry ensures t.did in dids - {record.did} && dids[t.did] == t.id {
      MembersDiffer(listed, t, record);
    }
    forall did | did in dids - {record.did} ensures exists t :: t in registry && t.did == did {
      var t :| t in listed && t.did == did;
      assert t.id != record.id;
      assert t in registry;
    }
  }

  /** A removal that failed without a report keeps the agreement: it put everything back but for
      pjsip_dynamic.conf and the store. */
  lemma RollbackKeepsAgreement(before: Files, dids: map<string, string>, after: Files)
    requires Agree(before, dids)
    requires SameOutside(after, before, {PJSIP_DYNAMIC, Store})
    ensures Agree(after, dids)
  {
    assert Lookup(after, Registry) == Lookup(before, Registry);
    forall id, p | IsWizardId(id) && p in TenantConfigPaths(id) ensures p in after <==> p in before {
      PathsNameTheirTenant(id);
      assert Lookup(after, p) == Lookup(before, p);
    }
  }

  /** A creation that failed without a report keeps the agreement exactly when it left none of its files. */
  lemma FailedCreationAgreesExactly(before: Files, dids: map<string, string>, tenant: Tenant, texts: seq<string>,
                                    kept: nat, after: Files)
    requires Agree(before, dids) && IsWizardId(tenant.id) && !Registered(LoadTenants(before).value, tenant.id)
    requires |texts| == 8 && kept <= 8
    requires TenantProvisioning.Leaves(before, TenantConfigPaths(tenant.id), texts, kept, after)
    requires Lookup(after, Registry) == Lookup(before, Registry)
    ensures Agree(after, dids) <==> kept == 0
  {
    TenantProvisioning.NothingLeft(before, TenantConfigPaths(tenant.id), texts, kept, after);
    if kept > 0 {
      assert Lookup(after, TenantConfigPaths(tenant.id)[0]).Some?;
      assert TenantConfigPaths(tenant.id)[0] in after;
    }
  }

  /** A call of the wizard; `texts` is what the renderers would produce for the new tenant. */
  datatype Call = Create(request: Request, texts: Option<seq<string>>) | Remove(id: string)

  /** How a call was answered; NotAdmitted is a request that was not admitted. */
  datatype Answer =
    | NotAdmitted
    | Created(creation: TenantProvisioning.Outcome)
    | Removed(removal: TenantDeprovisioning.Outcome)

  /** The answer reports an incomplete rollback. */
  predicate ReportsTrouble(answer: Answer)
  {
    answer == Created(TenantProvisioning.Failed(true)) || answer == Removed(TenantDeprovisioning.Failed(true))
  }

  /** What the handlers know besides the call: the static routes, the renderer of extensions, and
      `str.isprintable`. */
  datatype Setting = Setting(reserved: set<string>, render: seq<Extension> -> Option<string>, printable: char -> bool)

  predicate HasEightTexts(call: Call)
  {
    call.Create? && call.texts.Some? ==> |call.texts.value| == 8
  }

  /** One call: it is refused and changes nothing, or it is the transaction of its kind. */
  ghost predicate Serves(host: Host, setting: Setting, call: Call, before: World, answer: Answer, kept: nat,
                         after: World)
    requires HasEightTexts(call)
  {
    match LoadTenants(before.files)
    case None => answer == NotAdmitted && after == before
    case Some(existing) =>
      match call
      case Create(request, texts) =>
        (match ValidateCreation(request, existing, setting.reserved, setting.printable)
         case None => answer == NotAdmitted && after == before
         case Some(tenant) =>
           answer.Created?
           && TenantProvisioning.Provisions(host, existing, tenant, texts, before, answer.creation, kept, after))
      case Remove(id) =>
        (match ValidateRemoval(id, existing)
         case None => answer == NotAdmitted && after == before
         case Some(record) =>
           answer.Removed?
           && TenantDeprovisioning.Removes(host, existing, record, setting.render, before, answer.removal, after))
  }

  /** A run of calls, with the world before and after each. */
  ghost predicate IsRun(host: Host, setting: Setting, calls: seq<Call>, answers: seq<Answer>, kept: seq<nat>,
                        worlds: seq<World>)
    requires forall c :: c in calls ==> HasEightTexts(c)
  {
    && |answers| == |calls| && |kept| == |calls| && |worlds| == |calls| + 1
    && forall i :: 0 <= i < |calls| ==> Serves(host, setting, calls[i], worlds[i], answers[i], kept[i], worlds[i + 1])
  }

  /** The request handlers, one call at a time under the transaction lock. */
  method Serve(host: Host, setting: Setting, calls: seq<Call>)
    returns (answers: seq<Answer>, ghost kept: seq<nat>, ghost worlds: seq<World>)
    requires host.Valid() && forall c :: c in calls ==> HasEightTexts(c)
    modifies host, host.forward, host.undoing, host.compensating, host.removals
    ensures host.Valid() && IsRun(host, setting, calls, answers, kept, worlds)
    ensures worlds[0] == old(host.Now()) && worlds[|calls|] == host.Now()
  {
    answers, kept, worlds := [], [], [host.Now()];
    while |answers| < |calls|
      invariant |answers| <= |calls| && |kept| == |answers| && |worlds| == |answers| + 1
      invariant host.Valid() && worlds[0] == old(host.Now()) && worlds[|answers|] == host.Now()
      invariant IsRun(host, setting, calls[..|answers|], answers, kept, worlds)
    {
      ghost var left;
      var answer;
      answer, left := ServeOne(host, setting, calls[|answers|]);
      OneMoreServed(host, setting, calls, answers, kept, worlds, answer, left, host.Now());
      answers, kept, worlds := answers + [answer], kept + [left], worlds + [host.Now()];
    }
    assert calls[..|calls|] == calls;
  }

  lemma OneMoreServed(host: Host, setting: Setting, calls: seq<Call>, answers: seq<Answer>, kept: seq<nat>,
                      worlds: seq<World>, answer: Answer, left: nat, after: World)
    requires |answers| < |calls| && forall c :: c in calls ==> HasEightTexts(c)
    requires IsRun(host, setting, calls[..|answers|], answers, kept, worlds)
    requires Serves(host, setting, calls[|answers|], worlds[|answers|], answer, left, after)
    ensures IsRun(host, setting, calls[..|answers| + 1], answers + [answer], kept + [left], worlds + [after])
  {
    var n := |answers|;
    var all, lefts, later := answers + [answer], kept + [left], worlds + [after];
    forall i | 0 <= i <= n ensures Serves(host, setting, calls[..n + 1][i], later[i], all[i], lefts[i], later[i + 1]) {
      if i < n {
        assert Serves(host, setting, calls[..n][i], worlds[i], answers[i], kept[i], worlds[i + 1]);
      }
    }
  }

  method ServeOne(host: Host, setting: Setting, call: Call) returns (answer: Answer, ghost kept: nat)
    requires host.Valid() && HasEightTexts(call)
    modifies host, host.forward, host.undoing, host.compensating, host.removals
    ensures host.Valid() && Serves(host, setting, call, old(host.Now()), answer, kept, host.Now())
  {
    answer, kept := NotAdmitted, 0;
    var existing := LoadTenants(host.files);
    if existing.None? {
      return;
    }
    match call {
      case Create(request, texts) =>
        var cleaned := ValidateCreation(request, existing.value, setting.reserved, setting.printable);
        if cleaned.Some? {
          var outcome;
          outcome, kept := TenantProvisioning.ProvisionTenant(host, existing.value, cleaned.value, texts);
          answer := Created(outcome);
        }
      case Remove(id) =>
        var record := ValidateRemoval(id, existing.value);
        if record.Some? {
          var outcome := TenantDeprovisioning.RemoveTenant(host, existing.value, record.value, setting.render);
          answer := Removed(outcome);
        }
    }
  }

  /** The call is no creation that failed unreported with files left behind: if it is a creation that failed, it
      failed by a step forward and no unlink of a published file was refused. */
  ghost predicate LeavesNoFile(host: Host, before: World, answer: Answer, after: World)
  {
    answer.Created? && answer.creation.Failed? ==>
      var faults := host.FaultsBetween(before.ticks, after.ticks);
      faults.forward && !faults.undoing
  }

  /** A wizard tenant that is not registered has no file. */
  lemma UnregisteredHasNoFile(files: Files, dids: map<string, string>, id: string)
    requires Agree(files, dids) && IsWizardId(id) && !Registered(LoadTenants(files).value, id)
    ensures TenantProvisioning.AreAbsent(files, TenantConfigPaths(id))
  {
  }

  /** From agreement, a creation without a report leads to agreement exactly when it leaves no file. */
  lemma CreationAgreesExactly(host: Host, tenant: Tenant, texts: Option<seq<string>>, before: World,
                              outcome: TenantProvisioning.Outcome, kept: nat, after: World)
    requires Agree(before.files, before.dids) && IsWizardId(tenant.id) && (texts.Some? ==> |texts.value| == 8)
    requires forall t :: t in LoadTenants(before.files).value ==> t.id != tenant.id && t.did != tenant.did
    requires TenantProvisioning.Provisions(host, LoadTenants(before.files).value, tenant, texts, before, outcome, kept,
                                           after)
    requires outcome != TenantProvisioning.Failed(true)
    ensures Agree(after.files, after.dids) <==> LeavesNoFile(host, before, Created(outcome), after)
  {
    if outcome.Done? {
      UnregisteredHasNoFile(before.files, before.dids, tenant.id);
      ProvisionKeepsAgreement(before.files, before.dids, tenant, texts.value, after.files);
    } else if outcome.Failed? {
      UnregisteredHasNoFile(before.files, before.dids, tenant.id);
      assert tenant.did !in before.dids;
      assert before.dids - {tenant.did} == before.dids;
      FailedCreationAgreesExactly(before.files, before.dids, tenant, texts.value, kept, after.files);
    }
  }

  /** From agreement, a removal without a report leads to agreement. */
  lemma RemovalAgrees(host: Host, record: Tenant, render: seq<Extension> -> Option<string>, before: World,
                      outcome: TenantDeprovisioning.Outcome, after: World)
    requires Agree(before.files, before.dids) && record in LoadTenants(before.files).value
    requires TenantDeprovisioning.Removes(host, LoadTenants(before.files).value, record, render, before, outcome, after)
    requires outcome != TenantDeprovisioning.Failed(true)
    ensures Agree(after.files, after.dids)
  {
    if outcome.Done? {
      var extensions := TenantDeprovisioning.LoadStore(before.files).value;
      RemovalKeepsAgreement(before.files, before.dids, record,
        render(TenantDeprovisioning.Remaining(extensions, record.id)).value, extensions, after.files);
    } else if outcome.Failed? {
      assert before.dids[record.did := record.id] == before.dids;
      RollbackKeepsAgreement(before.files, before.dids, after.files);
    }
  }

  lemma CallAgreesExactly(host: Host, setting: Setting, call: Call, before: World, answer: Answer, kept: nat,
                          after: World)
    requires HasEightTexts(call) && Agree(before.files, before.dids)
    requires Serves(host, setting, call, before, answer, kept, after) && !ReportsTrouble(answer)
    ensures Agree(after.files, after.dids) <==> LeavesNoFile(host, before, answer, after)
  {
    var existing := LoadTenants(before.files).value;
    match call {
      case Create(request, texts) =>
        var cleaned := ValidateCreation(request, existing, setting.reserved, setting.printable);
        if cleaned.Some? {
          CreationAgreesExactly(host, cleaned.value, texts, before, answer.creation, kept, after);
        }
      case Remove(id) =>
        var record := ValidateRemoval(id, existing);
        if record.Some? {
          RemovalAgrees(host, record.value, setting.render, before, answer.removal, after);
        }
    }
  }

  /** What each step keeps exactly when it is fine, all steps keep exactly when all are fine. */
  lemma {:induction false} AllExactly(holds: seq<bool>, fine: seq<bool>)
    requires |holds| == |fine| + 1 && holds[0]
    requires forall i :: 0 <= i < |fine| && holds[i] ==> holds[i + 1] == fine[i]
    ensures false !in holds <==> false !in fine
  {
    if fine == [] {
      assert holds == [holds[0]];
    } else {
      var n := |fine| - 1;
      AllExactly(holds[..n + 1], fine[..n]);
      assert holds == holds[..n + 1] + [holds[n + 1]] && fine == fine[..n] + [fine[n]];
      assert holds[..n + 1][n] == holds[n];
    }
  }

  /** After which calls, and before the first, the stores agree. */
  ghost function Agreements(worlds: seq<World>): seq<bool>
  {
    seq(|worlds|, i requires 0 <= i < |worlds| => Agree(worlds[i].files, worlds[i].dids))
  }

  /** Which calls leave no file behind. */
  ghost function Clearances(host: Host, worlds: seq<World>, answers: seq<Answer>): seq<bool>
    requires |worlds| == |answers| + 1
  {
    seq(|answers|, i requires 0 <= i < |answers| => LeavesNoFile(host, worlds[i], answers[i], worlds[i + 1]))
  }

  lemma RunStepAgreesExactly(host: Host, setting: Setting, calls: seq<Call>, answers: seq<Answer>, kept: seq<nat>,
                             worlds: seq<World>, i: nat)
    requires forall c :: c in calls ==> HasEightTexts(c)
    requires IsRun(host, setting, calls, answers, kept, worlds) && i < |answers|
    requires Agree(worlds[i].files, worlds[i].dids) && !ReportsTrouble(answers[i])
    ensures Agree(worlds[i + 1].files, worlds[i + 1].dids) <==> LeavesNoFile(host, worlds[i], answers[i], worlds[i + 1])
  {
    assert HasEightTexts(calls[i]);
    CallAgreesExactly(host, setting, calls[i], worlds[i], answers[i], kept[i], worlds[i + 1]);
  }

  lemma BooksAt(host: Host, worlds: seq<World>, answers: seq<Answer>, i: nat)
    requires i < |answers| && |worlds| == |answers| + 1
    ensures Agreements(worlds)[i] == Agree(worlds[i].files, worlds[i].dids)
    ensures Agreements(worlds)[i + 1] == Agree(worlds[i + 1].files, worlds[i + 1].dids)
    ensures Clearances(host, worlds, answers)[i] == LeavesNoFile(host, worlds[i], answers[i], worlds[i + 1])
  {
  }

  lemma RunStepsAgreeExactly(host: Host, setting: Setting, calls: seq<Call>, answers: seq<Answer>, kept: seq<nat>,
                             worlds: seq<World>)
    requires forall c :: c in calls ==> HasEightTexts(c)
    requires IsRun(host, setting, calls, answers, kept, worlds) && forall a :: a in answers ==> !ReportsTrouble(a)
    ensures |worlds| == |answers| + 1
    ensures forall i :: 0 <= i < |answers| && Agreements(worlds)[i] ==>
              Agreements(worlds)[i + 1] == Clearances(host, worlds, answers)[i]
  {
    forall i | 0 <= i < |answers| && Agreements(worlds)[i]
      ensures Agreements(worlds)[i + 1] == Clearances(host, worlds, answers)[i]
    {
      BooksAt(host, worlds, answers, i);
      assert answers[i] in answers;
      RunStepAgreesExactly(host, setting, calls, answers, kept, worlds, i);
    }
  }

  /** Over any run that starts in agreement and in which no call reports an incomplete rollback, the stores agree
      after every call exactly when no creation leaves a file behind. */
  lemma RunAgreesExactly(host: Host, setting: Setting, calls: seq<Call>, answers: seq<Answer>, kept: seq<nat>,
                         worlds: seq<World>)
    requires forall c :: c in calls ==> HasEightTexts(c)
    requires IsRun(host, setting, calls, answers, kept, worlds)
    requires Agree(worlds[0].files, worlds[0].dids) && forall a :: a in answers ==> !ReportsTrouble(a)
    ensures false !in Agreements(worlds) <==> false !in Clearances(host, worlds, answers)
  {
    RunStepsAgreeExactly(host, setting, calls, answers, kept, worlds);
    assert Agreements(worlds)[0];
    AllExactly(Agreements(worlds), Clearances(host, worlds, answers));
  }
}
