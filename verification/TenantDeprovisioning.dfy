/** Removing a tenant: its eight files, its extensions, its DID and its registry entry, or
    everything back as it was. */
module TenantDeprovisioning {
  import opened Prelude
  import opened Hosting
  import opened Oracles
  import opened TenantFiles
  import opened ConfPublisher
  import TenantProvisioning

  datatype Outcome = Done(removedExtensions: nat) | Rejected | Failed(rollbackIncomplete: bool)

  /** A record without a tenant belongs to t1. */
  function TenantOf(extension: Extension): string
  {
    match extension.tenant
    case None => "t1"
    case Some(tenant) => tenant
  }

  /** The extensions that stay, in their order. */
  function Remaining(extensions: seq<Extension>, tenant: string): (kept: seq<Extension>)
    ensures |kept| <= |extensions|
    ensures forall e :: e in kept <==> e in extensions && TenantOf(e) != tenant
    ensures |kept| == |extensions| ==> kept == extensions
  {
    if extensions == [] then []
    else (if TenantOf(extensions[0]) != tenant then [extensions[0]] else []) + Remaining(extensions[1..], tenant)
  }

  function RemainingTenants(tenants: seq<Tenant>, id: string): (kept: seq<Tenant>)
    ensures forall t :: t in kept <==> t in tenants && t.id != id
  {
    if tenants == [] then []
    else (if tenants[0].id != id then [tenants[0]] else []) + RemainingTenants(tenants[1..], id)
  }

  /** The files of `retired` are gone; nothing else changed. */
  ghost predicate IsRetirement(before: Files, retired: seq<Path>, after: Files)
  {
    && (forall p :: p in retired ==> p in before && p !in after)
    && (forall p :: p !in retired ==> Lookup(after, p) == Lookup(before, p))
  }

  ghost predicate ArePresent(files: Files, paths: seq<Path>)
  {
    forall p :: p in paths ==> p in files
  }

  lemma OneMoreRetired(before: Files, paths: seq<Path>, k: nat, files: Files)
    requires k < |paths| && Distinct(paths) && ArePresent(before, paths) && IsRetirement(before, paths[..k], files)
    ensures paths[k] in files && IsRetirement(before, paths[..k + 1], files - {paths[k]})
  {
    assert paths[..k + 1] == paths[..k] + [paths[k]];
    assert paths[k] !in paths[..k];
    assert Lookup(files, paths[k]) == Lookup(before, paths[k]);
  }

  /** retired_config_files up to its `yield`: every snapshot is taken before the first unlink. */
  method OpenRetired(host: Host, paths: seq<Path>)
    returns (ok: bool, retired: nat, snapshots: seq<Option<File>>)
    requires host.Valid() && !host.forward.met && Distinct(paths)
    modifies host`files, host.forward`tick, host.forward`met
    ensures host.Valid() && retired <= |snapshots| <= |paths|
    ensures ok <==> ArePresent(old(host.files), paths) && !host.forward.met
    ensures host.forward.tick <= old(host.forward.tick) + 2 * |paths|
    ensures ok ==> retired == |paths| && host.forward.tick == old(host.forward.tick) + 2 * |paths|
    ensures forall i :: 0 <= i < |snapshots| ==> snapshots[i] == Lookup(old(host.files), paths[i])
    ensures IsRetirement(old(host.files), paths[..retired], host.files)
  {
    retired, snapshots := 0, [];
    while |snapshots| < |paths|
      invariant host.Valid() && |snapshots| <= |paths| && host.files == old(host.files) && !host.forward.met
      invariant host.forward.tick == old(host.forward.tick) + |snapshots|
      invariant forall i :: 0 <= i < |snapshots| ==>
                  snapshots[i] == Lookup(host.files, paths[i]) && paths[i] in host.files
    {
      var fault := host.forward.Next();
      if paths[|snapshots|] !in host.files || !fault.Fine? {
        return false, 0, snapshots;
      }
      snapshots := snapshots + [Lookup(host.files, paths[|snapshots|])];
    }
    ok, retired := RetireAll(host, paths);
  }

  method RetireAll(host: Host, paths: seq<Path>) returns (ok: bool, retired: nat)
    requires host.Valid() && !host.forward.met && Distinct(paths) && ArePresent(host.files, paths)
    modifies host`files, host.forward`tick, host.forward`met
    ensures host.Valid() && retired <= |paths| && (ok <==> !host.forward.met)
    ensures host.forward.tick <= old(host.forward.tick) + |paths|
    ensures ok ==> retired == |paths| && host.forward.tick == old(host.forward.tick) + |paths|
    ensures IsRetirement(old(host.files), paths[..retired], host.files)
  {
    retired := 0;
    while retired < |paths|
      invariant host.Valid() && retired <= |paths| && !host.forward.met
      invariant host.forward.tick == old(host.forward.tick) + retired
      invariant IsRetirement(old(host.files), paths[..retired], host.files)
    {
      OneMoreRetired(old(host.files), paths, retired, host.files);
      var unlinked := host.Retire(paths[retired]);
      if !unlinked {
        return false, retired;
      }
      retired := retired + 1;
    }
    ok := true;
  }

  /** The exception that leaves retired_config_files, if any. */
  datatype Raised = Nothing | Original | FileRestoreError

  /** retired_config_files from its `yield` on. A refused restoration is reported, so its steps count as
      compensation. */
  method CloseRetired(host: Host, failed: bool, retired: seq<Path>, snapshots: seq<Option<File>>)
    returns (raised: Raised)
    requires host.Valid() && !host.compensating.met && |retired| <= |snapshots| && Distinct(retired)
    modifies host`files, host`temps, host`nextTemp, host`litter, host.compensating`tick, host.compensating`met
    modifies host.removals`tick, host.removals`met
    ensures host.Valid() && host.nextTemp >= old(host.nextTemp)
    ensures (failed <==> !raised.Nothing?) && (raised.FileRestoreError? <==> host.compensating.met)
    ensures host.temps == old(host.temps) + host.litter && NewLitter(old(host.litter), host.litter, old(host.nextTemp))
    ensures !failed ==> host.files == old(host.files) && host.litter == old(host.litter)
    ensures raised.Original? ==> Undone(old(host.files), retired, snapshots, 0, {}, host.files)
    ensures forall p :: p !in retired ==> Lookup(host.files, p) == Lookup(old(host.files), p)
  {
    if !failed {
      return Nothing;
    }
    ghost var stranded;
    var complete;
    stranded, complete := UndoPublished(host, host.compensating, retired, snapshots);
    raised := if complete then Original else FileRestoreError;
    assert retired[0..] == retired;
  }

  /** The extension store is rewritten only when some extension goes. */
  function StoreAfter(before: Files, oldExtensions: seq<Extension>, id: string): Option<File>
  {
    if Remaining(oldExtensions, id) == oldExtensions then Lookup(before, Store)
    else Some(File(Extensions(Remaining(oldExtensions, id)), PRIVATE_MODE))
  }

  /** The steps inside both `with` blocks. */
  method RemoveBody(host: Host, oldExtensions: seq<Extension>, existing: seq<Tenant>, record: Tenant)
    returns (ok: bool, didAttempted: bool, storeTouched: bool, saveStarted: bool)
    requires host.Valid()
    modifies host`files, host`dids, host`runtime, host.forward`tick, host.forward`met
    ensures host.Valid() && host.forward.met == (old(host.forward.met) || !ok)
    ensures host.forward.tick > old(host.forward.tick)
    ensures SameOutside(host.files, old(host.files), {Registry, Store})
    ensures !storeTouched ==> Lookup(host.files, Store) == Lookup(old(host.files), Store)
    ensures !saveStarted ==> Lookup(host.files, Registry) == Lookup(old(host.files), Registry)
    ensures !didAttempted ==> host.dids == old(host.dids) && host.runtime == old(host.runtime)
    ensures host.dids == old(host.dids) || host.dids == old(host.dids) - {record.did}
    ensures storeTouched ==> Remaining(oldExtensions, record.id) != oldExtensions && didAttempted
    ensures ok ==> host.dids == old(host.dids) - {record.did} && host.runtime == ConfOf(host.files)
    ensures ok ==>
              Lookup(host.files, Registry) == Some(File(Tenants(RemainingTenants(existing, record.id)), PRIVATE_MODE))
    ensures ok ==> Lookup(host.files, Store) == StoreAfter(old(host.files), oldExtensions, record.id)
  {
    didAttempted, storeTouched, saveStarted := false, false, false;
    ok := host.Connect(host.forward);
    if !ok {
      return;
    }
    didAttempted := true;
    ok := host.UnregisterDid(host.forward, record.did);
    if !ok {
      return;
    }
    ok := host.Reload(host.forward);
    if !ok {
      return;
    }
    ok, storeTouched, saveStarted :=
      SaveRemaining(host, oldExtensions, RemainingTenants(existing, record.id), record.id);
  }

  /** The two stores, the extensions only when some go. */
  method SaveRemaining(host: Host, oldExtensions: seq<Extension>, registry: seq<Tenant>, id: string)
    returns (ok: bool, storeTouched: bool, saveStarted: bool)
    requires host.Valid()
    modifies host`files, host.forward`tick, host.forward`met
    ensures host.Valid() && host.forward.met == (old(host.forward.met) || !ok)
    ensures host.forward.tick > old(host.forward.tick)
    ensures SameOutside(host.files, old(host.files), {Registry, Store}) && ConfOf(host.files) == ConfOf(old(host.files))
    ensures !storeTouched ==> Lookup(host.files, Store) == Lookup(old(host.files), Store)
    ensures !saveStarted ==> Lookup(host.files, Registry) == Lookup(old(host.files), Registry)
    ensures storeTouched ==> Remaining(oldExtensions, id) != oldExtensions
    ensures ok ==> Lookup(host.files, Registry) == Some(File(Tenants(registry), PRIVATE_MODE))
    ensures ok ==> Lookup(host.files, Store) == StoreAfter(old(host.files), oldExtensions, id)
  {
    storeTouched, saveStarted := false, false;
    var remaining := Remaining(oldExtensions, id);
    if |oldExtensions| - |remaining| != 0 {
      storeTouched := true;
      StoresAreNotRead(host.files, Store, File(Extensions(remaining), PRIVATE_MODE));
      ok := host.Save(host.forward, Store, Extensions(remaining));
      if !ok {
        return;
      }
    }
    saveStarted := true;
    StoresAreNotRead(host.files, Registry, File(Tenants(registry), PRIVATE_MODE));
    ok := host.Save(host.forward, Registry, Tenants(registry));
  }

  /** The tree of a confirmed removal. */
  ghost predicate IsRemoval(before: Files, dynamic: Path, paths: seq<Path>, pjsip: string,
                            oldExtensions: seq<Extension>, existing: seq<Tenant>, record: Tenant, after: Files)
  {
    && (forall p :: p in paths ==> p in before && p !in after)
    && Lookup(after, dynamic) == Some(NewFile(before, dynamic, pjsip))
    && Lookup(after, Registry) == Some(File(Tenants(RemainingTenants(existing, record.id)), PRIVATE_MODE))
    && Lookup(after, Store) == StoreAfter(before, oldExtensions, record.id)
    && (forall p :: p !in paths && p !in {dynamic, Registry, Store} ==> Lookup(after, p) == Lookup(before, p))
  }

  /** What the steps of a removal changed outside the retired files. `published` says that the batch had
      replaced pjsip_dynamic.conf when something failed. */
  ghost predicate StepsFit(before: World, dynamic: Path, rendered: Option<string>, oldExtensions: seq<Extension>,
                           existing: seq<Tenant>, record: Tenant, failed: bool, stranded: bool, didAttempted: bool,
                           storeTouched: bool, saveStarted: bool, after: World)
  {
    && (!failed ==>
          && rendered.Some?
          && Lookup(after.files, dynamic) == Some(NewFile(before.files, dynamic, rendered.value))
          && Lookup(after.files, Registry) == Some(File(Tenants(RemainingTenants(existing, record.id)), PRIVATE_MODE))
          && Lookup(after.files, Store) == StoreAfter(before.files, oldExtensions, record.id)
          && after.dids == before.dids - {record.did} && after.runtime == ConfOf(after.files))
    && (failed ==> DynamicFits(before.files, dynamic, rendered, stranded, after.files))
    && (!storeTouched ==> Lookup(after.files, Store) == Lookup(before.files, Store))
    && (storeTouched ==> didAttempted && Remaining(oldExtensions, record.id) != oldExtensions)
    && (!saveStarted ==> Lookup(after.files, Registry) == Lookup(before.files, Registry))
    && (!didAttempted ==> after.dids == before.dids && after.runtime == before.runtime)
    && (after.dids == before.dids || after.dids == before.dids - {record.did})
  }

  /** After a failure pjsip_dynamic.conf is as before, or has its new text if its restoration was refused. */
  ghost predicate DynamicFits(before: Files, dynamic: Path, rendered: Option<string>, stranded: bool, after: Files)
  {
    if stranded then rendered.Some? && Lookup(after, dynamic) == Some(NewFile(before, dynamic, rendered.value))
    else Lookup(after, dynamic) == Lookup(before, dynamic)
  }

  /** `with published_conf_batch(generated, {pjsip_dynamic.conf: ...})` and its body. `rendered` is nothing when
      the renderer refuses the remaining extensions. The first three steps are those of the batch. */
  method WithDynamicBatch(host: Host, dynamic: Path, rendered: Option<string>, oldExtensions: seq<Extension>,
                          existing: seq<Tenant>, record: Tenant)
    returns (failed: bool, didAttempted: bool, storeTouched: bool, saveStarted: bool)
    requires host.Valid() && host.Met() == Faults(false, false, false, false) && dynamic.Conf?
    modifies host, host.forward`tick, host.forward`met, host.undoing`tick, host.undoing`met
    modifies host.removals`tick, host.removals`met
    ensures host.Valid() && host.nextTemp >= old(host.nextTemp) && (failed <==> rendered.None? || host.forward.met)
    ensures if failed then host.forward.tick > old(host.forward.tick) + 3 ==> host.undoing.tick > old(host.undoing.tick)
            else host.forward.tick > old(host.forward.tick) + 3 && !host.undoing.met
    ensures SameOutside(host.files, old(host.files), {dynamic, Registry, Store})
    ensures OnlyLitterIsNew(old(host.temps), old(host.nextTemp), host.temps, host.litter)
    ensures StepsFit(old(host.Now()), dynamic, rendered, oldExtensions, existing, record, failed, host.undoing.met,
                     didAttempted, storeTouched, saveStarted, host.Now())
  {
    failed, didAttempted, storeTouched, saveStarted := true, false, false, false;
    if rendered.Some? {
      failed, didAttempted, storeTouched, saveStarted :=
        RunBatch(host, dynamic, rendered.value, oldExtensions, existing, record);
    }
  }

  method RunBatch(host: Host, dynamic: Path, text: string, oldExtensions: seq<Extension>, existing: seq<Tenant>,
                  record: Tenant)
    returns (failed: bool, didAttempted: bool, storeTouched: bool, saveStarted: bool)
    requires host.Valid() && host.Met() == Faults(false, false, false, false) && dynamic.Conf?
    modifies host, host.forward`tick, host.forward`met, host.undoing`tick, host.undoing`met
    modifies host.removals`tick, host.removals`met
    ensures host.Valid() && host.nextTemp >= old(host.nextTemp) && failed == host.forward.met
    ensures if failed then host.forward.tick > old(host.forward.tick) + 3 ==> host.undoing.tick > old(host.undoing.tick)
            else host.forward.tick > old(host.forward.tick) + 3 && !host.undoing.met
    ensures SameOutside(host.files, old(host.files), {dynamic, Registry, Store})
    ensures OnlyLitterIsNew(old(host.temps), old(host.nextTemp), host.temps, host.litter)
    ensures StepsFit(old(host.Now()), dynamic, Some(text), oldExtensions, existing, record, failed, host.undoing.met,
                     didAttempted, storeTouched, saveStarted, host.Now())
  {
    didAttempted, storeTouched, saveStarted := false, false, false;
    var first := host.nextTemp;
    var targets := [dynamic];
    var entered, staged, published, snapshots := OpenBatch(host, targets, [text]);
    ghost var atYield := host.files;
    assert published == 0 || targets[..published] == targets;
    var body := false;
    if entered {
      body, didAttempted, storeTouched, saveStarted := RemoveBody(host, oldExtensions, existing, record);
    }
    ghost var afterBody := host.files;
    ghost var stranded;
    stranded, failed := CloseBatch(host, !body, targets[..published], snapshots, first, staged, old(host.temps));
    DynamicBatchUndone(old(host.files), dynamic, text, published, snapshots, atYield, afterBody, !body, stranded,
                       host.files);
  }

  /** What closing the batch makes of pjsip_dynamic.conf, and that it leaves the rest to the body. */
  lemma DynamicBatchUndone(before: Files, dynamic: Path, text: string, published: nat, snapshots: seq<Option<File>>,
                           atYield: Files, afterBody: Files, failed: bool, stranded: set<Path>, after: Files)
    requires dynamic.Conf? && published <= |snapshots| <= 1 && (!failed ==> published == 1)
    requires forall i :: 0 <= i < |snapshots| ==> snapshots[i] == Lookup(before, [dynamic][i])
    requires IsPublication(before, [dynamic][..published], [text][..published], atYield)
    requires SameOutside(afterBody, atYield, {Registry, Store})
    requires failed ==> Undone(afterBody, [dynamic][..published], snapshots, 0, stranded, after)
    requires !failed ==> after == afterBody
    requires forall p :: p in stranded ==> p in [dynamic][..published]
    ensures published > 0 ==> [dynamic][..published][published - 1] in afterBody
    ensures !failed ==> Lookup(after, dynamic) == Some(NewFile(before, dynamic, text))
    ensures failed ==> DynamicFits(before, dynamic, Some(text), stranded != {}, after)
    ensures SameOutside(after, before, {dynamic, Registry, Store})
    ensures Lookup(after, Registry) == Lookup(afterBody, Registry)
    ensures Lookup(atYield, Registry) == Lookup(before, Registry)
    ensures Lookup(after, Store) == Lookup(afterBody, Store) && Lookup(atYield, Store) == Lookup(before, Store)
  {
    var targets := [dynamic][..published];
    assert targets[0..] == targets;
    assert Lookup(afterBody, dynamic) == Lookup(atYield, dynamic);
    if published == 0 {
      assert dynamic !in targets && stranded == {};
    } else {
      assert targets == [dynamic];
      assert [dynamic][0] == dynamic && Lookup(atYield, targets[0]).Some?;
      assert stranded != {} ==> dynamic in stranded;
    }
    forall p | p !in {dynamic, Registry, Store} ensures Lookup(after, p) == Lookup(before, p) {
      assert p !in targets && Lookup(afterBody, p) == Lookup(atYield, p) && Lookup(atYield, p) == Lookup(before, p);
    }
  }

  /** Retire the eight files and run the batch in their absence; what follows depends on `failed`. The first
      nineteen steps come before the body. */
  method RetireAndRun(host: Host, dynamic: Path, paths: seq<Path>, rendered: Option<string>,
                      oldExtensions: seq<Extension>, existing: seq<Tenant>, record: Tenant)
    returns (failed: bool, didAttempted: bool, storeTouched: bool, saveStarted: bool, retired: nat,
             snapshots: seq<Option<File>>, ghost atYield: Files)
    requires host.Valid() && host.Met() == Faults(false, false, false, false) && Distinct(paths) && |paths| == 8
    requires dynamic.Conf? && dynamic !in paths && Registry !in paths && Store !in paths
    modifies host, host.forward`tick, host.forward`met, host.undoing`tick, host.undoing`met
    modifies host.removals`tick, host.removals`met
    ensures host.Valid() && host.nextTemp >= old(host.nextTemp)
    ensures failed <==> !ArePresent(old(host.files), paths) || rendered.None? || host.forward.met
    ensures if failed
            then host.forward.tick > old(host.forward.tick) + 19 ==> host.undoing.tick > old(host.undoing.tick)
            else host.forward.tick > old(host.forward.tick) + 19 && !host.undoing.met
    ensures OnlyLitterIsNew(old(host.temps), old(host.nextTemp), host.temps, host.litter)
    ensures retired <= |snapshots| <= |paths| && (!failed ==> retired == |paths|)
    ensures forall i :: 0 <= i < |snapshots| ==> snapshots[i] == Lookup(old(host.files), paths[i])
    ensures IsRetirement(old(host.files), paths[..retired], atYield)
    ensures SameOutside(host.files, atYield, {dynamic, Registry, Store})
    ensures StepsFit(old(host.Now()), dynamic, rendered, oldExtensions, existing, record, failed, host.undoing.met,
                     didAttempted, storeTouched, saveStarted, host.Now())
  {
    failed, didAttempted, storeTouched, saveStarted := true, false, false, false;
    var entered;
    entered, retired, snapshots := OpenRetired(host, paths);
    atYield := host.files;
    RetirementLeaves(old(host.files), dynamic, paths, retired, atYield);
    if entered {
      failed, didAttempted, storeTouched, saveStarted :=
        WithDynamicBatch(host, dynamic, rendered, oldExtensions, existing, record);
    }
  }

  lemma RetirementLeaves(before: Files, dynamic: Path, paths: seq<Path>, retired: nat, after: Files)
    requires retired <= |paths| && IsRetirement(before, paths[..retired], after)
    requires dynamic.Conf? && dynamic !in paths && Registry !in paths && Store !in paths
    ensures Lookup(after, dynamic) == Lookup(before, dynamic)
    ensures Lookup(after, Registry) == Lookup(before, Registry) && Lookup(after, Store) == Lookup(before, Store)
  {
    assert forall p :: p in paths[..retired] ==> p in paths;
  }

  /** `with retired_config_files(...)` and everything inside. */
  method WithRetired(host: Host, dynamic: Path, paths: seq<Path>, rendered: Option<string>,
                     oldExtensions: seq<Extension>, existing: seq<Tenant>, record: Tenant)
    returns (raised: Raised, didAttempted: bool, storeTouched: bool, saveStarted: bool)
    requires host.Valid() && host.Met() == Faults(false, false, false, false) && Distinct(paths) && |paths| == 8
    requires dynamic.Conf? && dynamic !in paths && Registry !in paths && Store !in paths
    modifies host, host.forward`tick, host.forward`met, host.undoing`tick, host.undoing`met
    modifies host.compensating`tick, host.compensating`met, host.removals`tick, host.removals`met
    ensures host.Valid() && host.nextTemp >= old(host.nextTemp)
    ensures raised.Nothing? <==> ArePresent(old(host.files), paths) && rendered.Some? && !host.forward.met
    ensures raised.FileRestoreError? <==> host.compensating.met
    ensures if raised.Nothing? then host.forward.tick > old(host.forward.tick) + 19 && !host.undoing.met
            else host.forward.tick > old(host.forward.tick) + 19 ==> host.undoing.tick > old(host.undoing.tick)
    ensures OnlyLitterIsNew(old(host.temps), old(host.nextTemp), host.temps, host.litter)
    ensures StepsFit(old(host.Now()), dynamic, rendered, oldExtensions, existing, record, !raised.Nothing?,
                     host.undoing.met, didAttempted, storeTouched, saveStarted, host.Now())
    ensures FilesFit(old(host.files), dynamic, paths, raised, host.files)
  {
    var failed, retired, snapshots;
    ghost var atYield;
    failed, didAttempted, storeTouched, saveStarted, retired, snapshots, atYield :=
      RetireAndRun(host, dynamic, paths, rendered, oldExtensions, existing, record);
    assert retired == |paths| ==> paths[..retired] == paths;
    ghost var afterBody, temps, litter, next := host.files, host.temps, host.litter, host.nextTemp;
    raised := CloseRetired(host, failed, paths[..retired], snapshots);
    LitterAcross(old(host.temps), old(host.nextTemp), temps, litter, next, host.temps, host.litter);
    RetiredFilesReturn(old(host.files), dynamic, paths, retired, snapshots, atYield, afterBody, raised, host.files);
  }

  /** Where the tenant's files are: gone, or all back, or not all back if the restoration of one was refused. */
  ghost predicate FilesFit(before: Files, dynamic: Path, paths: seq<Path>, raised: Raised, after: Files)
  {
    && (raised.Nothing? ==> ArePresent(before, paths) && TenantProvisioning.AreAbsent(after, paths))
    && (raised.Original? ==> SameOutside(after, before, {dynamic, Registry, Store}))
    && (forall p :: p !in paths && p !in {dynamic, Registry, Store} ==> Lookup(after, p) == Lookup(before, p))
  }

  /** The `try` of remove_tenant. */
  method TryRemove(host: Host, dynamic: Path, paths: seq<Path>, rendered: Option<string>, oldExtensions: seq<Extension>,
                   existing: seq<Tenant>, record: Tenant)
    returns (raised: Raised, didAttempted: bool, storeTouched: bool, saveStarted: bool, snapshot: Option<File>)
    requires host.Valid() && host.Met() == Faults(false, false, false, false) && Distinct(paths) && |paths| == 8
    requires dynamic.Conf? && dynamic !in paths && Registry !in paths && Store !in paths
    modifies host, host.forward`tick, host.forward`met, host.undoing`tick, host.undoing`met
    modifies host.compensating`tick, host.compensating`met, host.removals`tick, host.removals`met
    ensures host.Valid() && host.nextTemp >= old(host.nextTemp)
    ensures raised.Nothing? <==> ArePresent(old(host.files), paths) && rendered.Some? && !host.forward.met
    ensures raised.FileRestoreError? <==> host.compensating.met
    ensures if raised.Nothing? then host.forward.tick > old(host.forward.tick) + 20 && !host.undoing.met
            else host.forward.tick > old(host.forward.tick) + 20 ==> host.undoing.tick > old(host.undoing.tick)
    ensures OnlyLitterIsNew(old(host.temps), old(host.nextTemp), host.temps, host.litter)
    ensures StepsFit(old(host.Now()), dynamic, rendered, oldExtensions, existing, record, !raised.Nothing?,
                     host.undoing.met, didAttempted, storeTouched, saveStarted, host.Now())
    ensures FilesFit(old(host.files), dynamic, paths, raised, host.files)
    ensures saveStarted ==> snapshot == Lookup(old(host.files), Registry)
  {
    raised, didAttempted, storeTouched, saveStarted := Original, false, false, false;
    var read;
    read, snapshot := TenantProvisioning.SnapshotRegistry(host);
    if read {
      raised, didAttempted, storeTouched, saveStarted :=
        WithRetired(host, dynamic, paths, rendered, oldExtensions, existing, record);
    }
  }

  lemma RetiredFilesReturn(before: Files, dynamic: Path, paths: seq<Path>, retired: nat, snapshots: seq<Option<File>>,
                           atYield: Files, afterBody: Files, raised: Raised, after: Files)
    requires retired <= |snapshots| <= |paths|
    requires dynamic !in paths && Registry !in paths && Store !in paths
    requires forall i :: 0 <= i < |snapshots| ==> snapshots[i] == Lookup(before, paths[i])
    requires IsRetirement(before, paths[..retired], atYield)
    requires SameOutside(afterBody, atYield, {dynamic, Registry, Store})
    requires forall p :: p !in paths[..retired] ==> Lookup(after, p) == Lookup(afterBody, p)
    requires raised.Nothing? ==> retired == |paths| && after == afterBody
    requires raised.Original? ==> Undone(afterBody, paths[..retired], snapshots, 0, {}, after)
    ensures FilesFit(before, dynamic, paths, raised, after)
  {
    if raised.Nothing? {
      assert paths[..retired] == paths;
      forall p | p in paths ensures p in before && p !in after {
        assert Lookup(after, p) == Lookup(atYield, p);
      }
    }
    forall p | p !in {dynamic, Registry, Store} && (p !in paths || raised.Original?)
      ensures Lookup(after, p) == Lookup(before, p)
    {
      if p in paths[..retired] {
        var i :| 0 <= i < retired && paths[..retired][i] == p;
        assert Lookup(after, paths[..retired][i]) == snapshots[i];
      } else {
        assert Lookup(afterBody, p) == Lookup(atYield, p);
      }
    }
  }

  /** Second compensation phase: a fresh connection puts the DID back and reloads. */
  method CompensateDid(host: Host, record: Tenant) returns (ok: bool)
    requires host.Valid()
    modifies host`dids, host`runtime, host.compensating`tick, host.compensating`met
    ensures host.Valid() && host.compensating.met == (old(host.compensating.met) || !ok)
    ensures ok ==> host.dids == old(host.dids)[record.did := record.id] && host.runtime == ConfOf(host.files)
    ensures host.dids == old(host.dids) || host.dids == old(host.dids)[record.did := record.id]
  {
    ok := host.Connect(host.compensating);
    if ok {
      ok := host.RegisterDid(host.compensating, record.did, record.id);
    }
    if ok {
      ok := host.Reload(host.compensating);
    }
  }

  /** The first compensation phase: the registry, then the extension store. */
  method CompensateStores(host: Host, oldExtensions: seq<Extension>, storeTouched: bool, saveStarted: bool,
                          snapshot: Option<File>)
    returns (incomplete: bool)
    requires host.Valid()
    modifies host`files, host`temps, host`nextTemp, host`litter, host.compensating`tick, host.compensating`met
    modifies host.removals`tick, host.removals`met
    ensures host.Valid() && host.compensating.met == (old(host.compensating.met) || incomplete)
    ensures SameOutside(host.files, old(host.files), {Registry, Store})
    ensures host.temps == old(host.temps) + host.litter && NewLitter(old(host.litter), host.litter, old(host.nextTemp))
    ensures !incomplete ==>
              Lookup(host.files, Registry) == if saveStarted then snapshot else Lookup(old(host.files), Registry)
    ensures !incomplete ==>
              Lookup(host.files, Store) ==
              if storeTouched then Some(File(Extensions(oldExtensions), PRIVATE_MODE))
              else Lookup(old(host.files), Store)
  {
    incomplete := false;
    if saveStarted {
      var restored := RestoreSnapshot(host, host.compensating, Registry, snapshot);
      incomplete := !restored;
    }
    if storeTouched {
      ghost var before := host.files;
      var saved := host.Save(host.compensating, Store, Extensions(oldExtensions));
      incomplete := incomplete || !saved;
      assert Lookup(host.files, Registry) == Lookup(before, Registry);
    }
  }

  /** The handler: the stores, then the DID. */
  method Compensate(host: Host, record: Tenant, oldExtensions: seq<Extension>, didAttempted: bool, storeTouched: bool,
                    saveStarted: bool, snapshot: Option<File>)
    returns (incomplete: bool)
    requires host.Valid()
    modifies host, host.compensating`tick, host.compensating`met, host.removals`tick, host.removals`met
    ensures host.Valid() && host.compensating.met == (old(host.compensating.met) || incomplete)
    ensures host.temps == old(host.temps) + host.litter && NewLitter(old(host.litter), host.litter, old(host.nextTemp))
    ensures CompensationFits(old(host.Now()), record, oldExtensions, didAttempted, storeTouched, saveStarted, snapshot,
                             incomplete, host.Now())
  {
    incomplete := CompensateStores(host, oldExtensions, storeTouched, saveStarted, snapshot);
    if didAttempted {
      var compensated := CompensateDid(host, record);
      incomplete := incomplete || !compensated;
    }
  }

  /** What load_store reads: an absent store is empty, anything but a list is refused. */
  function LoadStore(files: Files): Option<seq<Extension>>
  {
    match Lookup(files, Store)
    case None => Some([])
    case Some(file) => if file.content.Extensions? then Some(file.content.extensions) else None
  }

  /** The store is as before, or was rewritten with the same list (and private permissions). */
  ghost predicate SameStore(before: Files, after: Files)
  {
    || Lookup(after, Store) == Lookup(before, Store)
    || (Store in before && before[Store].content.Extensions?
        && Lookup(after, Store) == Some(File(before[Store].content, PRIVATE_MODE)))
  }

  /** The AstDB has forgotten the tenant, knows it again, or is as before. */
  ghost predicate DidsFit(before: map<string, string>, record: Tenant, after: map<string, string>)
  {
    after == before || after == before - {record.did} || after == before[record.did := record.id]
  }

  lemma DidsAcross(before: map<string, string>, record: Tenant, between: map<string, string>,
                   after: map<string, string>)
    requires between == before || between == before - {record.did}
    requires after == between || after == between[record.did := record.id]
    ensures DidsFit(before, record, after)
    ensures after == between[record.did := record.id] ==> after == before[record.did := record.id]
  {
    assert (before - {record.did})[record.did := record.id] == before[record.did := record.id];
  }

  /** What the faults met by a call decide. `readable` says that the extension store could be read, `possible`
      that the remaining extensions were rendered and all files of the tenant existed. It succeeds exactly when
      no step failed. It reports an incomplete rollback exactly when a step of the compensation failed. */
  ghost predicate OutcomeFits(faults: Faults, readable: bool, possible: bool, outcome: Outcome)
  {
    && (outcome.Rejected? <==> !readable)
    && (outcome.Done? <==> readable && possible && !faults.forward)
    && (outcome.Failed? ==> (outcome.rollbackIncomplete <==> faults.compensating))
  }

  /** What a call changes once the store was read. A failure without a report has put every file back, but
      pjsip_dynamic.conf has its new text exactly when its restoration was refused, and the store may have been
      rewritten. */
  ghost predicate EffectFits(before: World, dynamic: Path, paths: seq<Path>, rendered: Option<string>,
                             extensions: seq<Extension>, existing: seq<Tenant>, record: Tenant, stranded: bool,
                             outcome: Outcome, after: World)
  {
    && (outcome.Done? ==>
          && rendered.Some?
          && IsRemoval(before.files, dynamic, paths, rendered.value, extensions, existing, record, after.files)
          && outcome.removedExtensions == |extensions| - |Remaining(extensions, record.id)|
          && after.dids == before.dids - {record.did} && after.runtime == ConfOf(after.files))
    && (outcome == Failed(false) ==>
          && SameOutside(after.files, before.files, {dynamic, Store}) && SameStore(before.files, after.files)
          && DynamicFits(before.files, dynamic, rendered, stranded, after.files)
          && (after.dids == before.dids || after.dids == before.dids[record.did := record.id])
          && (after.runtime == before.runtime || after.runtime == ConfOf(after.files)))
    && (forall p :: p !in paths && p !in {dynamic, Registry, Store} ==>
          Lookup(after.files, p) == Lookup(before.files, p))
    && DidsFit(before.dids, record, after.dids)
  }

  lemma RemovalIsDone(before: World, dynamic: Path, paths: seq<Path>, rendered: Option<string>,
                      extensions: seq<Extension>, existing: seq<Tenant>, record: Tenant, didAttempted: bool,
                      storeTouched: bool, saveStarted: bool, stranded: bool, after: World)
    requires StepsFit(before, dynamic, rendered, extensions, existing, record, false, stranded,
                      didAttempted, storeTouched, saveStarted, after)
    requires FilesFit(before.files, dynamic, paths, Nothing, after.files)
    ensures EffectFits(before, dynamic, paths, rendered, extensions, existing, record, stranded,
                       Done(|extensions| - |Remaining(extensions, record.id)|), after)
  {
  }

  /** What the handler did, in terms of the world before it. */
  ghost predicate CompensationFits(between: World, record: Tenant, extensions: seq<Extension>, didAttempted: bool,
                                   storeTouched: bool, saveStarted: bool, snapshot: Option<File>, incomplete: bool,
                                   after: World)
  {
    && SameOutside(after.files, between.files, {Registry, Store})
    && (!incomplete ==>
          && Lookup(after.files, Registry) == (if saveStarted then snapshot else Lookup(between.files, Registry))
          && Lookup(after.files, Store) ==
               (if storeTouched then Some(File(Extensions(extensions), PRIVATE_MODE)) else Lookup(between.files, Store))
          && (didAttempted ==>
                after.dids == between.dids[record.did := record.id] && after.runtime == ConfOf(after.files)))
    && (!didAttempted ==> after.dids == between.dids && after.runtime == between.runtime)
    && (after.dids == between.dids || after.dids == between.dids[record.did := record.id])
  }

  lemma RemovalIsUndone(before: World, dynamic: Path, paths: seq<Path>, rendered: Option<string>,
                        extensions: seq<Extension>, existing: seq<Tenant>, record: Tenant, raised: Raised,
                        didAttempted: bool, storeTouched: bool, saveStarted: bool, snapshot: Option<File>,
                        stranded: bool, between: World, incomplete: bool, after: World)
    requires dynamic.Conf? && !raised.Nothing? && LoadStore(before.files) == Some(extensions)
    requires StepsFit(before, dynamic, rendered, extensions, existing, record, true, stranded,
                      didAttempted, storeTouched, saveStarted, between)
    requires FilesFit(before.files, dynamic, paths, raised, between.files)
    requires saveStarted ==> snapshot == Lookup(before.files, Registry)
    requires CompensationFits(between, record, extensions, didAttempted, storeTouched, saveStarted, snapshot,
                              incomplete, after)
    ensures EffectFits(before, dynamic, paths, rendered, extensions, existing, record, stranded,
                       Failed(incomplete || raised.FileRestoreError?), after)
  {
    DidsAcross(before.dids, record, between.dids, after.dids);
    assert Lookup(after.files, dynamic) == Lookup(between.files, dynamic);
    if !incomplete && raised.Original? {
      StoreIsSame(before.files, extensions, storeTouched, between.files, after.files, record.id);
      forall p | p !in {dynamic, Store} ensures Lookup(after.files, p) == Lookup(before.files, p) {
        if p != Registry {
          assert Lookup(after.files, p) == Lookup(between.files, p);
        }
      }
    }
  }

  lemma StoreIsSame(before: Files, extensions: seq<Extension>, storeTouched: bool, between: Files, after: Files,
                    id: string)
    requires LoadStore(before) == Some(extensions)
    requires !storeTouched ==> Lookup(between, Store) == Lookup(before, Store)
    requires storeTouched ==> Remaining(extensions, id) != extensions
    requires Lookup(after, Store) ==
             (if storeTouched then Some(File(Extensions(extensions), PRIVATE_MODE)) else Lookup(between, Store))
    ensures SameStore(before, after)
  {
  }

  /** remove_tenant once the extension store was read and its remaining part rendered. */
  method RemoveLoaded(host: Host, dynamic: Path, paths: seq<Path>, rendered: Option<string>, extensions: seq<Extension>,
                      existing: seq<Tenant>, record: Tenant)
    returns (outcome: Outcome)
    requires host.Valid() && host.Met() == Faults(false, false, false, false) && Distinct(paths) && |paths| == 8
    requires dynamic.Conf? && dynamic !in paths && Registry !in paths && Store !in paths
    requires LoadStore(host.files) == Some(extensions)
    modifies host, host.forward`tick, host.forward`met, host.undoing`tick, host.undoing`met
    modifies host.compensating`tick, host.compensating`met, host.removals`tick, host.removals`met
    ensures host.Valid()
    ensures OutcomeFits(host.Met(), true, rendered.Some? && ArePresent(old(host.files), paths), outcome)
    ensures EffectFits(old(host.Now()), dynamic, paths, rendered, extensions, existing, record, host.undoing.met,
                       outcome, host.Now())
    ensures if outcome.Done? then host.forward.tick > old(host.forward.tick) + 20
            else host.forward.tick > old(host.forward.tick) + 20 ==> host.undoing.tick > old(host.undoing.tick)
    ensures host.temps == old(host.temps) <==> !host.removals.met
  {
    var raised, didAttempted, storeTouched, saveStarted, snapshot :=
      TryRemove(host, dynamic, paths, rendered, extensions, existing, record);
    ghost var first := old(host.nextTemp);
    if raised.Nothing? {
      LitterTellsTheTruth(old(host.temps), first, host.temps, host.litter);
      RemovalIsDone(old(host.Now()), dynamic, paths, rendered, extensions, existing, record,
                    didAttempted, storeTouched, saveStarted, host.undoing.met, host.Now());
      return Done(|extensions| - |Remaining(extensions, record.id)|);
    }
    ghost var between, litter, next := host.Now(), host.litter, host.nextTemp;
    var incomplete := Compensate(host, record, extensions, didAttempted, storeTouched, saveStarted, snapshot);
    LitterAcross(old(host.temps), first, between.temps, litter, next, host.temps, host.litter);
    LitterTellsTheTruth(old(host.temps), first, host.temps, host.litter);
    RemovalIsUndone(old(host.Now()), dynamic, paths, rendered, extensions, existing, record, raised, didAttempted,
                    storeTouched, saveStarted, snapshot, host.undoing.met, between, incomplete, host.Now());
    outcome := Failed(incomplete || raised.FileRestoreError?);
  }

  /** The extension store can be read. */
  ghost predicate IsReadable(host: Host, before: World)
  {
    LoadStore(before.files).Some? && host.forward.schedule(before.ticks.forward).Fine?
  }

  /** What remove_tenant decides and changes, whatever faults it meets. */
  ghost predicate Removes(host: Host, existing: seq<Tenant>, record: Tenant, render: seq<Extension> -> Option<string>,
                          before: World, outcome: Outcome, after: World)
  {
    var faults := host.FaultsBetween(before.ticks, after.ticks);
    var paths := TenantConfigPaths(record.id);
    && (after.temps == before.temps <==> !faults.removals)
    && if !IsReadable(host, before) then
         && outcome.Rejected? && after.files == before.files && after.dids == before.dids
         && after.runtime == before.runtime
       else
         var extensions := LoadStore(before.files).value;
         var rendered := render(Remaining(extensions, record.id));
         && OutcomeFits(faults, true, rendered.Some? && ArePresent(before.files, paths), outcome)
         && EffectFits(before, PJSIP_DYNAMIC, paths, rendered, extensions, existing, record, faults.undoing,
                       outcome, after)
  }

  /** remove_tenant. The first twenty-one steps come before the body of the batch. */
  method RemoveTenant(host: Host, existing: seq<Tenant>, record: Tenant, render: seq<Extension> -> Option<string>)
    returns (outcome: Outcome)
    requires host.Valid()
    modifies host, host.forward, host.undoing, host.compensating, host.removals
    ensures host.Valid() && Removes(host, existing, record, render, old(host.Now()), outcome, host.Now())
    ensures outcome.Done? ==> host.forward.tick > old(host.forward.tick) + 21
    ensures outcome.Failed? && host.forward.tick > old(host.forward.tick) + 21 ==>
              host.undoing.tick > old(host.undoing.tick)
  {
    host.Begin();
    var loaded := LoadStore(host.files);
    var fault := host.forward.Next();
    if loaded.None? || !fault.Fine? {
      host.MetAreScheduled();
      return Rejected;
    }
    var paths := TenantConfigPaths(record.id);
    PathsAreDistinct(record.id);
    PathsNameTheirTenant(record.id);
    assert Registry !in paths && Store !in paths;
    outcome := RemoveLoaded(host, PJSIP_DYNAMIC, paths, render(Remaining(loaded.value, record.id)), loaded.value,
                            existing, record);
    host.MetAreScheduled();
  }

  /** A failure that is not reported: wherever a removal is possible, but Asterisk cannot be reached and the
      restoration of pjsip_dynamic.conf is refused, that file keeps its new text. */
  method RefusedRestorationKeepsNewText(files: Files, existing: seq<Tenant>, record: Tenant,
                                        render: seq<Extension> -> Option<string>)
    returns (outcome: Outcome, after: Files)
    requires LoadStore(files).Some? && render(Remaining(LoadStore(files).value, record.id)).Some?
    requires ArePresent(files, TenantConfigPaths(record.id))
    ensures outcome == Failed(false)
    ensures var text := render(Remaining(LoadStore(files).value, record.id)).value;
            Lookup(after, PJSIP_DYNAMIC) == Some(NewFile(files, PJSIP_DYNAMIC, text))
  {
    var host := new Host(files, map[], map[], k => if k == 21 then Refused else Fine, k => Refused, k => Fine,
                         k => Fine);
    outcome := RemoveTenant(host, existing, record, render);
    after := host.files;
    assert host.forward.schedule(0).Fine?;
    if host.forward.tick > 21 {
      assert !host.forward.schedule(21).Fine?;
    }
    if host.undoing.tick > 0 {
      assert !host.undoing.schedule(0).Fine?;
    }
  }
}
