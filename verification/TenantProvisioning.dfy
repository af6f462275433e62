/** Creating a tenant: eight new files, the DID in the AstDB, a reload, and the registry, with
    compensation when any step fails. */
module TenantProvisioning {
  import opened Prelude
  import opened Hosting
  import opened Oracles
  import opened TenantFiles
  import ConfPublisher

  datatype Outcome = Done | Rejected | Failed(rollbackIncomplete: bool)

  ghost predicate AreAbsent(files: Files, paths: seq<Path>)
  {
    forall p :: p in paths ==> p !in files
  }

  /** Apart from the registry, `after` is `before` plus the first `kept` of the new files. */
  ghost predicate Leaves(before: Files, paths: seq<Path>, texts: seq<string>, kept: nat, after: Files)
    requires kept <= |paths| == |texts|
  {
    && AreAbsent(before, paths[..kept])
    && (forall i :: 0 <= i < kept ==> Lookup(after, paths[i]) == Some(File(Text(texts[i]), PUBLIC_MODE)))
    && (forall p :: p !in paths[..kept] && p != Registry ==> Lookup(after, p) == Lookup(before, p))
  }

  lemma OneMoreLeft(before: Files, paths: seq<Path>, texts: seq<string>, k: nat, files: Files)
    requires k < |paths| == |texts| && Distinct(paths) && Registry !in paths && paths[k] !in before
    requires Leaves(before, paths, texts, k, files)
    ensures Leaves(before, paths, texts, k + 1, files[paths[k] := File(Text(texts[k]), PUBLIC_MODE)])
    ensures paths[k] !in files
  {
    assert paths[..k + 1] == paths[..k] + [paths[k]];
    assert paths[k] !in paths[..k];
    assert Lookup(files, paths[k]) == Lookup(before, paths[k]);
  }

  lemma OneLessLeft(before: Files, paths: seq<Path>, texts: seq<string>, k: nat, files: Files)
    requires k < |paths| == |texts| && Distinct(paths)
    requires Leaves(before, paths, texts, k + 1, files)
    ensures Leaves(before, paths, texts, k, files - {paths[k]}) && paths[k] in files
  {
    assert paths[..k + 1] == paths[..k] + [paths[k]];
    assert paths[k] !in paths[..k];
    assert Lookup(files, paths[k]).Some?;
  }

  lemma NothingLeft(before: Files, paths: seq<Path>, texts: seq<string>, kept: nat, after: Files)
    requires kept <= |paths| == |texts| && Leaves(before, paths, texts, kept, after)
    requires Lookup(after, Registry) == Lookup(before, Registry)
    ensures after == before <==> kept == 0
  {
    if kept == 0 {
      SameEverywhere(after, before);
    } else {
      assert paths[..kept][0] == paths[0];
      assert Lookup(after, paths[0]).Some?;
    }
  }

  /** First loop of exclusive_tenant_files: every target must be absent; its content is staged. */
  method StageExclusive(host: Host, targets: seq<Path>) returns (ok: bool, staged: nat)
    requires host.Valid() && !host.forward.met
    modifies host`temps, host`nextTemp, host.forward`tick, host.forward`met
    ensures host.Valid() && staged <= |targets| && host.nextTemp == old(host.nextTemp) + staged
    ensures host.temps == old(host.temps) + Range(old(host.nextTemp), staged)
    ensures ok <==> AreAbsent(host.files, targets) && !host.forward.met
    ensures ok ==> staged == |targets|
  {
    staged := 0;
    while staged < |targets|
      invariant staged <= |targets| && host.Valid() && host.nextTemp == old(host.nextTemp) + staged
      invariant host.temps == old(host.temps) + Range(old(host.nextTemp), staged)
      invariant !host.forward.met && forall i :: 0 <= i < staged ==> targets[i] !in host.files
    {
      if targets[staged] in host.files {
        return false, staged;
      }
      var temp := host.CreateTemp(host.forward);
      if temp.None? {
        return false, staged;
      }
      ConfPublisher.OneMoreInRange(old(host.temps), old(host.nextTemp), staged);
      var filled := host.Fill(host.forward, temp.value);
      staged := staged + 1;
      if !filled {
        return false, staged;
      }
    }
    ok := true;
  }

  /** Second loop: link each staged file to its target; a link never replaces a file. */
  method LinkAll(host: Host, targets: seq<Path>, texts: seq<string>, first: nat) returns (ok: bool, published: nat)
    requires host.Valid() && !host.forward.met && |targets| == |texts| && Distinct(targets) && Registry !in targets
    requires AreAbsent(host.files, targets) && Range(first, |targets|) <= host.temps
    modifies host`files, host.forward`tick, host.forward`met
    ensures host.Valid() && published <= |targets| && (ok ==> published == |targets|) && (ok <==> !host.forward.met)
    ensures Leaves(old(host.files), targets, texts, published, host.files)
    ensures Lookup(host.files, Registry) == Lookup(old(host.files), Registry)
  {
    published := 0;
    while published < |targets|
      invariant host.Valid() && published <= |targets| && !host.forward.met
      invariant Leaves(old(host.files), targets, texts, published, host.files)
      invariant Lookup(host.files, Registry) == Lookup(old(host.files), Registry)
    {
      ConfPublisher.NextInRange(first, published, |targets|);
      OneMoreLeft(old(host.files), targets, texts, published, host.files);
      var linked := host.Link(first + published, File(Text(texts[published]), PUBLIC_MODE), targets[published]);
      if !linked {
        return false, published;
      }
      published := published + 1;
    }
    ok := true;
  }

  /** `except`: unlink the published files, last first; the first refusal ends the loop, and the file it concerns
      stays with all that were published before it. */
  method UnlinkPublished(host: Host, ghost before: Files, paths: seq<Path>, ghost texts: seq<string>, published: nat)
    returns (ghost kept: nat)
    requires host.Valid() && !host.undoing.met && published <= |paths| == |texts| && Distinct(paths)
    requires Registry !in paths
    requires Leaves(before, paths, texts, published, host.files)
    modifies host`files, host.undoing`tick, host.undoing`met
    ensures host.Valid() && kept <= published && (kept == 0 <==> !host.undoing.met)
    ensures Leaves(before, paths, texts, kept, host.files)
    ensures Lookup(host.files, Registry) == Lookup(old(host.files), Registry)
  {
    var k := published;
    while k > 0
      invariant 0 <= k <= published && host.Valid() && !host.undoing.met
      invariant Leaves(before, paths, texts, k, host.files)
      invariant Lookup(host.files, Registry) == Lookup(old(host.files), Registry)
    {
      k := k - 1;
      OneLessLeft(before, paths, texts, k, host.files);
      var ok := host.Unpublish(host.undoing, paths[k]);
      if !ok {
        return k + 1;
      }
    }
    kept := 0;
  }

  /** exclusive_tenant_files up to its `yield`, which it reaches exactly when no target exists and no step meets
      a fault. */
  method OpenExclusive(host: Host, targets: seq<Path>, texts: seq<string>)
    returns (ok: bool, staged: nat, published: nat)
    requires host.Valid() && !host.forward.met && |targets| == |texts| && Distinct(targets) && Registry !in targets
    modifies host`files, host`temps, host`nextTemp, host.forward`tick, host.forward`met
    ensures host.Valid() && published <= |targets| && host.nextTemp == old(host.nextTemp) + staged
    ensures ok <==> AreAbsent(old(host.files), targets) && !host.forward.met
    ensures ok ==> published == |targets| == staged
    ensures Leaves(old(host.files), targets, texts, published, host.files)
    ensures Lookup(host.files, Registry) == Lookup(old(host.files), Registry)
    ensures host.temps == old(host.temps) + Range(old(host.nextTemp), staged)
  {
    var first := host.nextTemp;
    ok, staged := StageExclusive(host, targets);
    published := 0;
    if ok {
      ok, published := LinkAll(host, targets, texts, first);
    }
  }

  /** exclusive_tenant_files from its `yield` on. The exception of a refused unlink of a temporary reaches the
      caller even when the body succeeded, and then all new files stay. `before` and `temps` are the files and
      the temporaries from before the `with`. */
  method CloseExclusive(host: Host, failed: bool, ghost before: Files, paths: seq<Path>, ghost texts: seq<string>,
                        published: nat, first: nat, staged: nat, ghost temps: Temps)
    returns (ghost kept: nat, raised: bool)
    requires host.Valid() && host.litter == {} && !host.undoing.met && published <= |paths| == |texts|
    requires Distinct(paths) && Registry !in paths && Leaves(before, paths, texts, published, host.files)
    requires host.temps == temps + Range(first, staged) && forall n :: n in temps ==> n < first
    modifies host`files, host`temps, host`litter, host.undoing`tick, host.undoing`met
    modifies host.removals`tick, host.removals`met
    ensures host.Valid() && raised == (failed || host.litter != {}) && kept <= published
    ensures kept == 0 || !failed <==> !failed || !host.undoing.met
    ensures !failed ==> kept == published && !host.undoing.met
    ensures Leaves(before, paths, texts, kept, host.files)
    ensures Lookup(host.files, Registry) == Lookup(old(host.files), Registry)
    ensures ConfPublisher.OnlyLitterIsNew(temps, first, host.temps, host.litter)
    ensures !raised ==> host.removals.tick == old(host.removals.tick) + staged
  {
    kept := published;
    if failed {
      kept := UnlinkPublished(host, before, paths, texts, published);
    }
    InRange(first, staged);
    var discarded := ConfPublisher.DiscardStaged(host, first, staged);
    raised := failed || !discarded;
  }

  /** Files created only where none existed, and taken away again if the caller fails: a file that was there
      before is neither overwritten nor deleted. It succeeds exactly when the caller does, no target exists, and
      no step and no removal of a temporary fails. The first `kept` new files stay after a failure: none exactly
      when no unlink was refused, unless only the removal of a temporary failed, and then all of them. */
  method CreateExclusively(host: Host, targets: seq<Path>, texts: seq<string>, bodySucceeds: bool)
    returns (ok: bool, ghost kept: nat)
    requires host.Valid() && |targets| == |texts| && Distinct(targets) && Registry !in targets
    modifies host, host.forward, host.undoing, host.compensating, host.removals
    ensures host.Valid() && host.dids == old(host.dids) && host.runtime == old(host.runtime)
    ensures var absent := AreAbsent(old(host.files), targets);
            var faulty := Falters(host.forward.schedule, old(host.forward.tick), host.forward.tick);
            var refused := Falters(host.undoing.schedule, old(host.undoing.tick), host.undoing.tick);
            var littered := Falters(host.removals.schedule, old(host.removals.tick), host.removals.tick);
            && (ok <==> bodySucceeds && absent && !faulty && !littered)
            && (host.temps == old(host.temps) <==> !littered)
            && kept <= |targets|
            && (bodySucceeds && absent && !faulty ==> kept == |targets|)
            && (!(bodySucceeds && absent && !faulty) ==> (kept == 0 <==> !refused))
    ensures kept <= |targets| && Leaves(old(host.files), targets, texts, kept, host.files)
    ensures host.files == old(host.files) <==> kept == 0
  {
    host.Begin();
    var first := host.nextTemp;
    var entered, staged, published := OpenExclusive(host, targets, texts);
    var raised;
    kept, raised := CloseExclusive(host, !(entered && bodySucceeds), old(host.files), targets, texts,
                                   published, first, staged, old(host.temps));
    ok := !raised;
    ConfPublisher.LitterTellsTheTruth(old(host.temps), first, host.temps, host.litter);
    NothingLeft(old(host.files), targets, texts, kept, host.files);
  }

  /** snapshot_registry: reading may fail; nothing is changed. */
  method SnapshotRegistry(host: Host) returns (ok: bool, snapshot: Option<File>)
    requires host.Valid()
    modifies host.forward`tick, host.forward`met
    ensures host.Valid() && host.forward.met == (old(host.forward.met) || !ok)
    ensures host.forward.tick == old(host.forward.tick) + 1
    ensures ok ==> snapshot == Lookup(host.files, Registry)
  {
    var fault := host.forward.Next();
    ok, snapshot := fault.Fine?, Lookup(host.files, Registry);
  }

  /** The steps inside `with exclusive_tenant_files`. */
  method ProvisionBody(host: Host, existing: seq<Tenant>, tenant: Tenant)
    returns (ok: bool, attemptedDid: bool, saveStarted: bool)
    requires host.Valid()
    modifies host`files, host`dids, host`runtime, host.forward`tick, host.forward`met
    ensures host.Valid() && host.forward.met == (old(host.forward.met) || !ok)
    ensures SameOutside(host.files, old(host.files), {Registry})
    ensures !saveStarted ==> host.files == old(host.files)
    ensures !attemptedDid ==> host.dids == old(host.dids) && host.runtime == old(host.runtime) && !saveStarted
    ensures host.dids == old(host.dids) || host.dids == old(host.dids)[tenant.did := tenant.id]
    ensures ok ==>
              attemptedDid && saveStarted
                && Lookup(host.files, Registry) == Some(File(Tenants(existing + [tenant]), PRIVATE_MODE))
    ensures ok ==> host.dids == old(host.dids)[tenant.did := tenant.id] && host.runtime == ConfOf(host.files)
  {
    attemptedDid, saveStarted := false, false;
    ok := host.Connect(host.forward);
    if !ok {
      return;
    }
    attemptedDid := true;
    ok := host.RegisterDid(host.forward, tenant.did, tenant.id);
    if !ok {
      return;
    }
    ok := host.Reload(host.forward);
    if !ok {
      return;
    }
    saveStarted := true;
    StoresAreNotRead(host.files, Registry, File(Tenants(existing + [tenant]), PRIVATE_MODE));
    ok := host.Save(host.forward, Registry, Tenants(existing + [tenant]));
  }

  /** Second compensation phase: a fresh connection undoes the DID and reloads what is left. */
  method CompensateDid(host: Host, did: string) returns (ok: bool)
    requires host.Valid()
    modifies host`dids, host`runtime, host.compensating`tick, host.compensating`met
    ensures host.Valid() && host.compensating.met == (old(host.compensating.met) || !ok)
    ensures ok ==> host.dids == old(host.dids) - {did} && host.runtime == ConfOf(host.files)
    ensures host.dids == old(host.dids) || host.dids == old(host.dids) - {did}
  {
    ok := host.Connect(host.compensating);
    if ok {
      ok := host.UnregisterDid(host.compensating, did);
    }
    if ok {
      ok := host.Reload(host.compensating);
    }
  }

  /** The `try` of provision_tenant up to its last statement. `raised` is an exception reaching
      the handler, which happens after the new files were dealt with. */
  method TryProvision(host: Host, paths: seq<Path>, texts: seq<string>, existing: seq<Tenant>, tenant: Tenant)
    returns (raised: bool, attemptedDid: bool, saveStarted: bool, snapshot: Option<File>, ghost kept: nat)
    requires host.Valid() && host.litter == {} && !host.forward.met && !host.undoing.met
    requires |texts| == |paths| && Distinct(paths) && Registry !in paths
    modifies host, host.forward`tick, host.forward`met, host.undoing`tick, host.undoing`met
    modifies host.removals`tick, host.removals`met
    ensures host.Valid() && host.nextTemp >= old(host.nextTemp)
    ensures raised <==> !AreAbsent(old(host.files), paths) || host.forward.met || host.litter != {}
    ensures kept <= |paths| && Leaves(old(host.files), paths, texts, kept, host.files)
    ensures AreAbsent(old(host.files), paths) && !host.forward.met ==> kept == |paths|
    ensures !AreAbsent(old(host.files), paths) || host.forward.met ==> (kept == 0 <==> !host.undoing.met)
    ensures !raised ==> Lookup(host.files, Registry) == Some(File(Tenants(existing + [tenant]), PRIVATE_MODE))
    ensures !raised ==> host.dids == old(host.dids)[tenant.did := tenant.id] && host.runtime == ConfOf(host.files)
    ensures !raised ==> host.removals.tick == old(host.removals.tick) + |paths|
    ensures ConfPublisher.OnlyLitterIsNew(old(host.temps), old(host.nextTemp), host.temps, host.litter)
    ensures saveStarted ==> snapshot == Lookup(old(host.files), Registry)
    ensures !saveStarted ==> Lookup(host.files, Registry) == Lookup(old(host.files), Registry)
    ensures !attemptedDid ==> host.dids == old(host.dids) && host.runtime == old(host.runtime)
    ensures host.dids == old(host.dids) || host.dids == old(host.dids)[tenant.did := tenant.id]
  {
    attemptedDid, saveStarted, kept := false, false, 0;
    var read;
    read, snapshot := SnapshotRegistry(host);
    if !read {
      return true, false, false, None, 0;
    }
    var first := host.nextTemp;
    var entered, staged, published := OpenExclusive(host, paths, texts);
    var body := false;
    ghost var atYield := host.files;
    if entered {
      body, attemptedDid, saveStarted := ProvisionBody(host, existing, tenant);
    }
    assert Leaves(old(host.files), paths, texts, published, host.files) by {
      LeavesRegistryApart(old(host.files), paths, texts, published, atYield, host.files);
    }
    ghost var afterBody := host.files;
    kept, raised := CloseExclusive(host, !body, old(host.files), paths, texts, published, first, staged,
                                   old(host.temps));
    if body {
      assert ConfOf(host.files) == ConfOf(afterBody) by {
        SameConf(old(host.files), paths, texts, afterBody, host.files);
      }
    }
  }

  lemma LeavesRegistryApart(before: Files, paths: seq<Path>, texts: seq<string>, kept: nat, a: Files, b: Files)
    requires kept <= |paths| == |texts| && Registry !in paths
    requires Leaves(before, paths, texts, kept, a) && SameOutside(b, a, {Registry})
    ensures Leaves(before, paths, texts, kept, b)
  {
    forall i | 0 <= i < kept ensures Lookup(b, paths[i]) == Some(File(Text(texts[i]), PUBLIC_MODE)) {
      assert Lookup(b, paths[i]) == Lookup(a, paths[i]);
    }
  }

  /** Two trees that leave the same files give Asterisk the same to read. */
  lemma SameConf(before: Files, paths: seq<Path>, texts: seq<string>, a: Files, b: Files)
    requires |paths| == |texts|
    requires Leaves(before, paths, texts, |paths|, a) && Leaves(before, paths, texts, |paths|, b)
    ensures ConfOf(a) == ConfOf(b)
  {
    forall p | p != Registry ensures Lookup(a, p) == Lookup(b, p) {
      if p in paths[..|paths|] {
        var i :| 0 <= i < |paths| && paths[..|paths|][i] == p;
        assert Lookup(a, paths[i]) == Lookup(b, paths[i]);
      }
    }
    assert forall p :: p in ConfOf(a) ==> Lookup(a, p) == Lookup(b, p);
    assert forall p :: p in ConfOf(b) ==> Lookup(a, p) == Lookup(b, p);
  }

  /** The handler: the registry first, then the DID over a fresh connection. It reports an incomplete rollback
      exactly when one of its steps meets a fault. */
  method Compensate(host: Host, did: string, attemptedDid: bool, saveStarted: bool, snapshot: Option<File>)
    returns (incomplete: bool)
    requires host.Valid() && !host.compensating.met
    modifies host, host.compensating`tick, host.compensating`met, host.removals`tick, host.removals`met
    ensures host.Valid() && host.compensating.met == incomplete
    ensures SameOutside(host.files, old(host.files), {Registry})
    ensures host.temps == old(host.temps) + host.litter
    ensures ConfPublisher.NewLitter(old(host.litter), host.litter, old(host.nextTemp))
    ensures !incomplete ==>
              Lookup(host.files, Registry) == if saveStarted then snapshot else Lookup(old(host.files), Registry)
    ensures !saveStarted ==> Lookup(host.files, Registry) == Lookup(old(host.files), Registry)
    ensures !incomplete && attemptedDid ==> host.dids == old(host.dids) - {did} && host.runtime == ConfOf(host.files)
    ensures !attemptedDid ==> host.dids == old(host.dids) && host.runtime == old(host.runtime)
    ensures host.dids == old(host.dids) || host.dids == old(host.dids) - {did}
  {
    incomplete := false;
    if saveStarted {
      var restored := ConfPublisher.RestoreSnapshot(host, host.compensating, Registry, snapshot);
      incomplete := !restored;
    }
    if attemptedDid {
      var compensated := CompensateDid(host, did);
      incomplete := incomplete || !compensated;
    }
  }

  /** What the faults met by a call decide: it succeeds exactly when the renderers gave the texts, no file of the
      tenant existed, and neither a step nor the removal of a temporary failed. It reports an incomplete rollback
      exactly when a step of the compensation failed. The first `kept` new files are there after a failure: none
      exactly when no unlink of one was refused, but all if only the removal of a temporary failed. */
  ghost predicate OutcomeFits(faults: Faults, rendered: bool, absent: bool, outcome: Outcome, kept: nat, count: nat)
  {
    && (outcome.Rejected? <==> !rendered)
    && (outcome.Done? <==> rendered && absent && !faults.forward && !faults.removals)
    && (outcome.Failed? ==> (outcome.rollbackIncomplete <==> faults.compensating))
    && (outcome.Failed? && absent && !faults.forward ==> kept == count)
    && (outcome.Failed? && (!absent || faults.forward) ==> (kept == 0 <==> !faults.undoing))
  }

  /** The AstDB knows the tenant, has forgotten it, or is as before. */
  ghost predicate DidsFit(before: map<string, string>, tenant: Tenant, after: map<string, string>)
  {
    after == before || after == before[tenant.did := tenant.id] || after == before - {tenant.did}
  }

  lemma DidsAcross(before: map<string, string>, tenant: Tenant, between: map<string, string>,
                   after: map<string, string>)
    requires between == before || between == before[tenant.did := tenant.id]
    requires after == between || after == between - {tenant.did}
    ensures DidsFit(before, tenant, after)
    ensures after == between - {tenant.did} ==> after == before - {tenant.did}
  {
    assert before[tenant.did := tenant.id] - {tenant.did} == before - {tenant.did};
  }

  /** What a call changes. */
  ghost predicate EffectFits(before: World, existing: seq<Tenant>, tenant: Tenant, paths: seq<Path>, texts: seq<string>,
                             outcome: Outcome, kept: nat, after: World)
    requires |paths| == |texts|
  {
    && (outcome.Done? ==> kept == |paths| && after.ticks.removals == before.ticks.removals + kept)
    && kept <= |paths| && Leaves(before.files, paths, texts, kept, after.files)
    && (outcome.Done? ==> Lookup(after.files, Registry) == Some(File(Tenants(existing + [tenant]), PRIVATE_MODE)))
    && (outcome.Done? ==> after.dids == before.dids[tenant.did := tenant.id] && after.runtime == ConfOf(after.files))
    && (outcome == Failed(false) ==> Lookup(after.files, Registry) == Lookup(before.files, Registry))
    && (outcome == Failed(false) ==> (after.files == before.files <==> kept == 0))
    && (outcome == Failed(false) ==> after.dids == before.dids || after.dids == before.dids - {tenant.did})
    && (outcome == Failed(false) ==> after.runtime == before.runtime || after.runtime == ConfOf(after.files))
    && DidsFit(before.dids, tenant, after.dids)
  }

  /** provision_tenant after the files were rendered. */
  method ProvisionRendered(host: Host, paths: seq<Path>, texts: seq<string>, existing: seq<Tenant>, tenant: Tenant)
    returns (outcome: Outcome, ghost kept: nat)
    requires host.Valid() && host.Met() == Faults(false, false, false, false)
    requires |texts| == |paths| && Distinct(paths) && Registry !in paths
    modifies host, host.forward`tick, host.forward`met, host.undoing`tick, host.undoing`met
    modifies host.compensating`tick, host.compensating`met, host.removals`tick, host.removals`met
    ensures host.Valid() && OutcomeFits(host.Met(), true, AreAbsent(old(host.files), paths), outcome, kept, |paths|)
    ensures EffectFits(old(host.Now()), existing, tenant, paths, texts, outcome, kept, host.Now())
    ensures host.temps == old(host.temps) <==> !host.removals.met
  {
    var raised, attemptedDid, saveStarted, snapshot;
    raised, attemptedDid, saveStarted, snapshot, kept := TryProvision(host, paths, texts, existing, tenant);
    ghost var first := old(host.nextTemp);
    if !raised {
      ConfPublisher.LitterTellsTheTruth(old(host.temps), first, host.temps, host.litter);
      return Done, kept;
    }
    ghost var raisedFiles, temps, litter, next := host.files, host.temps, host.litter, host.nextTemp;
    ghost var dids := host.dids;
    var incomplete := Compensate(host, tenant.did, attemptedDid, saveStarted, snapshot);
    ConfPublisher.LitterAcross(old(host.temps), first, temps, litter, next, host.temps, host.litter);
    ConfPublisher.LitterTellsTheTruth(old(host.temps), first, host.temps, host.litter);
    LeavesRegistryApart(old(host.files), paths, texts, kept, raisedFiles, host.files);
    DidsAcross(old(host.dids), tenant, dids, host.dids);
    if !incomplete {
      NothingLeft(old(host.files), paths, texts, kept, host.files);
    }
    outcome := Failed(incomplete);
  }

  /** What provision_tenant decides and changes, whatever faults it meets. */
  ghost predicate Provisions(host: Host, existing: seq<Tenant>, tenant: Tenant, texts: Option<seq<string>>,
                             before: World, outcome: Outcome, kept: nat, after: World)
    requires texts.Some? ==> |texts.value| == 8
  {
    var faults := host.FaultsBetween(before.ticks, after.ticks);
    var paths := TenantConfigPaths(tenant.id);
    && OutcomeFits(faults, texts.Some?, AreAbsent(before.files, paths), outcome, kept, 8)
    && (after.temps == before.temps <==> !faults.removals)
    && (texts.None? ==> after == before)
    && (texts.Some? ==> EffectFits(before, existing, tenant, paths, texts.value, outcome, kept, after))
  }

  /** provision_tenant. `texts` is what build_tenant_files rendered, or nothing when it refused. */
  method ProvisionTenant(host: Host, existing: seq<Tenant>, tenant: Tenant, texts: Option<seq<string>>)
    returns (outcome: Outcome, ghost kept: nat)
    requires host.Valid() && (texts.Some? ==> |texts.value| == 8)
    modifies host, host.forward, host.undoing, host.compensating, host.removals
    ensures host.Valid() && Provisions(host, existing, tenant, texts, old(host.Now()), outcome, kept, host.Now())
  {
    host.Begin();
    if texts.None? {
      host.MetAreScheduled();
      return Rejected, 0;
    }
    PathsAreDistinct(tenant.id);
    PathsNameTheirTenant(tenant.id);
    outcome, kept := ProvisionRendered(host, TenantConfigPaths(tenant.id), texts.value, existing, tenant);
    host.MetAreScheduled();
  }

  /** A failure that is not reported: wherever the tenant is new, and every step goes well but the removal of
      temporaries, all eight files stay although registry and AstDB do not know the tenant. */
  method RefusedRemovalLeavesFiles(files: Files, existing: seq<Tenant>, tenant: Tenant, texts: seq<string>)
    returns (outcome: Outcome, after: Files, dids: map<string, string>)
    requires |texts| == 8 && AreAbsent(files, TenantConfigPaths(tenant.id))
    ensures outcome == Failed(false) && Lookup(after, Registry) == Lookup(files, Registry) && dids == map[]
    ensures forall p :: p in TenantConfigPaths(tenant.id) ==> p in after
  {
    var host := new Host(files, map[], map[], k => Fine, k => Fine, k => Fine, k => Refused);
    ghost var before, kept := host.Now(), 0;
    outcome, kept := ProvisionTenant(host, existing, tenant, Some(texts));
    if host.removals.tick > 0 {
      assert !host.removals.schedule(0).Fine?;
    }
    after, dids := host.files, host.dids;
    assert outcome == Failed(false) && kept == 8;
    forall p | p in TenantConfigPaths(tenant.id) ensures p in after {
      var i :| 0 <= i < 8 && TenantConfigPaths(tenant.id)[i] == p;
      assert Lookup(after, TenantConfigPaths(tenant.id)[i]).Some?;
    }
  }
}
