/** Recoverable publication of a batch of configuration files: stage everything, replace one by
    one, and put the snapshots back if the caller fails. */
module ConfPublisher {
  import opened Prelude
  import opened Hosting
  import opened Oracles

  /** A replaced file keeps its permissions; a new one is world-readable. */
  function NewFile(files: Files, target: Path, text: string): File
  {
    StagedFile(Lookup(files, target), text)
  }

  function StagedFile(snapshot: Option<File>, text: string): File
  {
    File(Text(text), if snapshot.Some? then snapshot.value.mode else PUBLIC_MODE)
  }

  /** `after` is `before` with exactly the named files replaced by their new content. */
  ghost predicate IsPublication(before: Files, targets: seq<Path>, texts: seq<string>, after: Files)
    requires |targets| == |texts|
  {
    && (forall i :: 0 <= i < |targets| ==> Lookup(after, targets[i]) == Some(NewFile(before, targets[i], texts[i])))
    && (forall p :: p !in targets ==> Lookup(after, p) == Lookup(before, p))
  }

  /** _write_staged: a filled temporary, or an error with the temporary taken away again. */
  method WriteStaged(host: Host, faults: Oracle) returns (temp: Option<nat>)
    requires host.Valid() && faults.Valid() && faults != host.removals
    modifies host`temps, host`nextTemp, host`litter, faults`tick, faults`met
    modifies host.removals`tick, host.removals`met
    ensures host.Valid() && host.nextTemp >= old(host.nextTemp)
    ensures faults.Valid() && faults.met == (old(faults.met) || temp.None?)
    ensures old(faults.tick) < faults.tick <= old(faults.tick) + 2
    ensures temp.Some? ==> faults.tick == old(faults.tick) + 2 && host.litter == old(host.litter)
    ensures temp.Some? ==> temp.value == old(host.nextTemp) && host.nextTemp == old(host.nextTemp) + 1
    ensures temp.Some? ==> temp.value !in old(host.temps) && host.temps == old(host.temps) + {temp.value}
    ensures temp.None? ==> host.temps == old(host.temps) + host.litter
    ensures temp.None? ==> NewLitter(old(host.litter), host.litter, old(host.nextTemp))
  {
    temp := host.CreateTemp(faults);
    if temp.None? {
      return;
    }
    var filled := host.Fill(faults, temp.value);
    if !filled {
      var _ := host.Discard(temp.value);
      return None;
    }
  }

  /** Litter is only added, under numbers from `first` on. */
  ghost predicate NewLitter(before: set<nat>, after: set<nat>, first: nat)
  {
    before <= after && forall n :: n in after && n < first ==> n in before
  }

  /** The temporaries are those of before and the litter since. */
  ghost predicate OnlyLitterIsNew(before: Temps, first: nat, temps: Temps, litter: set<nat>)
  {
    before <= temps && (litter == {} ==> temps == before) && forall n :: n in litter ==> n >= first
  }

  lemma LitterTellsTheTruth(before: Temps, first: nat, temps: Temps, litter: set<nat>)
    requires OnlyLitterIsNew(before, first, temps, litter) && litter <= temps && forall n :: n in before ==> n < first
    ensures temps == before <==> litter == {}
  {
    if n :| n in litter {
      assert n in temps && n !in before;
    }
  }

  lemma LitterAcross(before: Temps, first: nat, temps: Temps, litter: set<nat>, next: nat, later: Temps,
                     laterLitter: set<nat>)
    requires OnlyLitterIsNew(before, first, temps, litter) && first <= next
    requires later == temps + laterLitter && NewLitter(litter, laterLitter, next)
    ensures OnlyLitterIsNew(before, first, later, laterLitter)
  {
  }

  /** _restore_snapshot: the recorded bytes and permissions, or absence. It fails exactly when one of its steps
      meets a fault. */
  method RestoreSnapshot(host: Host, faults: Oracle, target: Path, previous: Option<File>) returns (ok: bool)
    requires host.Valid() && faults.Valid() && faults != host.removals
    modifies host`files, host`temps, host`nextTemp, host`litter, faults`tick, faults`met
    modifies host.removals`tick, host.removals`met
    ensures host.Valid() && host.nextTemp >= old(host.nextTemp)
    ensures host.temps == old(host.temps) + host.litter && NewLitter(old(host.litter), host.litter, old(host.nextTemp))
    ensures faults.Valid() && faults.met == (old(faults.met) || !ok)
    ensures faults.tick >= old(faults.tick) && (target in old(host.files) ==> faults.tick > old(faults.tick))
    ensures SameOutside(host.files, old(host.files), {target})
    ensures ok ==> Lookup(host.files, target) == previous
    ensures !ok ==> host.files == old(host.files)
  {
    if previous.None? {
      ok := host.Unpublish(faults, target);
      return;
    }
    var temp := WriteStaged(host, faults);
    ok := temp.Some?;
    if ok {
      ok := host.Replace(faults, temp.value, previous.value, target);
      if !ok {
        var _ := host.Discard(temp.value);
      }
    }
  }

  lemma OneMoreInRange(temps: Temps, first: nat, k: nat)
    ensures temps + Range(first, k + 1) == temps + Range(first, k) + {first + k}
    ensures temps - Range(first, k + 1) == temps - Range(first, k) - {first + k}
  {
  }

  /** The snapshots of the first `count` targets. */
  function SnapshotsOf(files: Files, targets: seq<Path>, count: nat): seq<Option<File>>
    requires count <= |targets|
  {
    if count == 0 then [] else SnapshotsOf(files, targets, count - 1) + [Lookup(files, targets[count - 1])]
  }

  lemma {:induction false} SnapshotsAre(files: Files, targets: seq<Path>, count: nat)
    requires count <= |targets|
    ensures |SnapshotsOf(files, targets, count)| == count
    ensures forall i :: 0 <= i < count ==> SnapshotsOf(files, targets, count)[i] == Lookup(files, targets[i])
  {
    if count > 0 {
      SnapshotsAre(files, targets, count - 1);
    }
  }

  /** One pass of the first loop: one more temporary, in a row with those before. */
  method StageOne(host: Host, ghost before: Temps, ghost first: nat, ghost staged: nat) returns (ok: bool)
    requires host.Valid() && host.litter == {}
    requires host.nextTemp == first + staged && host.temps == before + Range(first, staged)
    modifies host`temps, host`nextTemp, host`litter, host.forward`tick, host.forward`met
    modifies host.removals`tick, host.removals`met
    ensures host.Valid() && host.nextTemp >= first + staged
    ensures host.forward.met == (old(host.forward.met) || !ok)
    ensures host.forward.tick <= old(host.forward.tick) + 2
    ensures ok ==> host.forward.tick == old(host.forward.tick) + 2 && host.litter == {}
    ensures ok ==> host.nextTemp == first + staged + 1 && host.temps == before + Range(first, staged + 1)
    ensures !ok ==> host.temps == before + Range(first, staged) + host.litter
    ensures !ok ==> NewLitter({}, host.litter, first + staged)
  {
    OneMoreInRange(before, first, staged);
    var temp := WriteStaged(host, host.forward);
    ok := temp.Some?;
  }

  /** First loop of the batch: snapshot every target and stage its new content. The temporaries
      are numbered consecutively from `first`. */
  method StageBatch(host: Host, targets: seq<Path>) returns (ok: bool, staged: nat, snapshots: seq<Option<File>>)
    requires host.Valid() && host.litter == {}
    modifies host`temps, host`nextTemp, host`litter, host.forward`tick, host.forward`met
    modifies host.removals`tick, host.removals`met
    ensures host.Valid() && host.nextTemp >= old(host.nextTemp) + staged
    ensures host.forward.met == (old(host.forward.met) || !ok)
    ensures host.forward.tick <= old(host.forward.tick) + 2 * |targets|
    ensures ok ==> host.forward.tick == old(host.forward.tick) + 2 * |targets|
    ensures staged <= |snapshots| <= |targets| && snapshots == SnapshotsOf(host.files, targets, |snapshots|)
    ensures host.temps == old(host.temps) + Range(old(host.nextTemp), staged) + host.litter
    ensures NewLitter({}, host.litter, old(host.nextTemp) + staged)
    ensures ok ==> staged == |targets| && host.litter == {}
  {
    staged, snapshots := 0, [];
    while staged < |targets|
      invariant staged == |snapshots| <= |targets|
      invariant host.Valid() && host.nextTemp == old(host.nextTemp) + staged && host.litter == {}
      invariant host.forward.met == old(host.forward.met) && host.forward.tick == old(host.forward.tick) + 2 * staged
      invariant snapshots == SnapshotsOf(host.files, targets, staged)
      invariant host.temps == old(host.temps) + Range(old(host.nextTemp), staged)
    {
      snapshots := snapshots + [Lookup(host.files, targets[staged])];
      ok := StageOne(host, old(host.temps), old(host.nextTemp), staged);
      if !ok {
        return;
      }
      staged := staged + 1;
    }
    ok := true;
  }

  lemma OneMorePublished(before: Files, targets: seq<Path>, texts: seq<string>, k: nat, files: Files)
    requires k < |targets| == |texts| && Distinct(targets)
    requires IsPublication(before, targets[..k], texts[..k], files)
    ensures IsPublication(before, targets[..k + 1], texts[..k + 1],
                          files[targets[k] := NewFile(before, targets[k], texts[k])])
  {
    assert targets[..k + 1] == targets[..k] + [targets[k]];
    assert targets[k] !in targets[..k];
  }

  /** Second loop: one rename per staged file. */
  method ReplaceAll(host: Host, targets: seq<Path>, texts: seq<string>, snapshots: seq<Option<File>>, first: nat)
    returns (ok: bool, published: nat)
    requires host.Valid() && |targets| == |texts| == |snapshots| && Distinct(targets)
    requires forall i :: 0 <= i < |snapshots| ==> snapshots[i] == Lookup(host.files, targets[i])
    requires Range(first, |targets|) <= host.temps && host.litter == {}
    modifies host`files, host`temps, host.forward`tick, host.forward`met
    ensures host.Valid() && published <= |targets| && (ok <==> published == |targets|)
    ensures host.forward.met == (old(host.forward.met) || !ok)
    ensures host.forward.tick == old(host.forward.tick) + published + if ok then 0 else 1
    ensures IsPublication(old(host.files), targets[..published], texts[..published], host.files)
    ensures host.temps == old(host.temps) - Range(first, published)
  {
    published := 0;
    while published < |targets|
      invariant published <= |targets| && host.Valid()
      invariant host.forward.met == old(host.forward.met) && host.forward.tick == old(host.forward.tick) + published
      invariant IsPublication(old(host.files), targets[..published], texts[..published], host.files)
      invariant host.temps == old(host.temps) - Range(first, published)
    {
      ghost var files := host.files;
      NextInRange(first, published, |targets|);
      var replaced := host.Replace(host.forward, first + published,
                                   StagedFile(snapshots[published], texts[published]), targets[published]);
      if !replaced {
        return false, published;
      }
      OneMorePublished(old(host.files), targets, texts, published, files);
      OneMoreInRange(old(host.temps), first, published);
      published := published + 1;
    }
    assert targets[..published] == targets && texts[..published] == texts;
    ok := true;
  }

  lemma NextInRange(first: nat, k: nat, count: nat)
    requires k < count
    ensures first + k in Range(first, count) && first + k !in Range(first, k) && Range(first, k) <= Range(first, count)
  {
    InRange(first, k);
    InRange(first, count);
  }

  /** From position `k` on, every published file is back to its snapshot, except stranded ones. */
  ghost predicate Undone(before: Files, published: seq<Path>, snapshots: seq<Option<File>>, k: nat, stranded: set<Path>,
                         after: Files)
    requires k <= |published| <= |snapshots|
  {
    && (forall p :: p !in published[k..] ==> Lookup(after, p) == Lookup(before, p))
    && (forall i :: k <= i < |published| ==>
          Lookup(after, published[i]) ==
          if published[i] in stranded then Lookup(before, published[i]) else snapshots[i])
  }

  lemma OneMoreUndone(before: Files, published: seq<Path>, snapshots: seq<Option<File>>, k: nat, stranded: set<Path>,
                      between: Files, after: Files, restored: bool)
    requires k < |published| <= |snapshots| && Distinct(published)
    requires Undone(before, published, snapshots, k + 1, stranded, between)
    requires SameOutside(after, between, {published[k]}) && published[k] !in stranded
    requires if restored then Lookup(after, published[k]) == snapshots[k] else after == between
    ensures Undone(before, published, snapshots, k, if restored then stranded else stranded + {published[k]}, after)
  {
    assert published[k..] == [published[k]] + published[k + 1..];
    assert published[k] !in published[k + 1..];
  }

  /** The undo loop: restores in reverse order, collecting the files whose restoration is refused instead of
      stopping at the first. */
  method UndoPublished(host: Host, faults: Oracle, published: seq<Path>, snapshots: seq<Option<File>>)
    returns (ghost stranded: set<Path>, complete: bool)
    requires host.Valid() && faults.Valid() && faults != host.removals
    requires |published| <= |snapshots| && Distinct(published)
    modifies host`files, host`temps, host`nextTemp, host`litter, faults`tick, faults`met
    modifies host.removals`tick, host.removals`met
    ensures host.Valid() && host.nextTemp >= old(host.nextTemp)
    ensures host.temps == old(host.temps) + host.litter && NewLitter(old(host.litter), host.litter, old(host.nextTemp))
    ensures faults.Valid() && faults.met == (old(faults.met) || !complete)
    ensures published != [] && published[|published| - 1] in old(host.files) ==> faults.tick > old(faults.tick)
    ensures Undone(old(host.files), published, snapshots, 0, stranded, host.files)
    ensures complete <==> stranded == {}
    ensures forall p :: p in stranded ==> p in published
  {
    complete, stranded := true, {};
    var k := |published|;
    while k > 0
      invariant 0 <= k <= |published| && host.Valid() && host.nextTemp >= old(host.nextTemp)
      invariant host.temps == old(host.temps) + host.litter
      invariant NewLitter(old(host.litter), host.litter, old(host.nextTemp))
      invariant faults.Valid() && faults.met == (old(faults.met) || !complete)
      invariant faults.tick >= old(faults.tick) && (k == |published| ==> host.files == old(host.files))
      invariant k < |published| && published[|published| - 1] in old(host.files) ==> faults.tick > old(faults.tick)
      invariant Undone(old(host.files), published, snapshots, k, stranded, host.files)
      invariant complete <==> stranded == {}
      invariant forall p :: p in stranded ==> p in published[k..]
    {
      k := k - 1;
      assert published[k..] == [published[k]] + published[k + 1..];
      assert published[k] !in published[k + 1..];
      ghost var between := host.files;
      var restored := RestoreSnapshot(host, faults, published[k], snapshots[k]);
      OneMoreUndone(old(host.files), published, snapshots, k, stranded, between, host.files, restored);
      complete := complete && restored;
      stranded := if restored then stranded else stranded + {published[k]};
    }
    assert published[0..] == published;
  }

  /** `finally`: the temporaries go away; the first refusal ends the loop with an error. */
  method DiscardStaged(host: Host, first: nat, count: nat) returns (ok: bool)
    requires host.Valid() && host.litter !! Range(first, count)
    modifies host`temps, host`litter, host.removals`tick, host.removals`met
    ensures host.Valid() && old(host.litter) <= host.litter <= old(host.litter) + Range(first, count)
    ensures ok <==> host.litter == old(host.litter)
    ensures ok ==> host.temps == old(host.temps) - Range(first, count)
    ensures old(host.temps) - Range(first, count) <= host.temps <= old(host.temps)
    ensures old(host.temps) !! Range(first, count) ==> ok
    ensures ok && Range(first, count) <= old(host.temps) ==> host.removals.tick == old(host.removals.tick) + count
  {
    for k := 0 to count
      invariant host.Valid() && host.litter == old(host.litter)
      invariant host.temps == old(host.temps) - Range(first, k)
      invariant Range(first, count) <= old(host.temps) ==> host.removals.tick == old(host.removals.tick) + k
    {
      NextInRange(first, k, count);
      OneMoreInRange(old(host.temps), first, k);
      ok := host.Discard(first + k);
      if !ok {
        return;
      }
    }
    ok := true;
  }

  /** Up to the `yield`: `staged` temporaries were written and the first `published` targets replaced. */
  method OpenBatch(host: Host, targets: seq<Path>, texts: seq<string>)
    returns (ok: bool, staged: nat, published: nat, snapshots: seq<Option<File>>)
    requires host.Valid() && |targets| == |texts| && Distinct(targets) && host.litter == {}
    modifies host`files, host`temps, host`nextTemp, host`litter, host.forward`tick, host.forward`met
    modifies host.removals`tick, host.removals`met
    ensures host.Valid() && host.nextTemp >= old(host.nextTemp) + staged
    ensures host.forward.met == (old(host.forward.met) || !ok)
    ensures published == 0 ==> host.forward.tick <= old(host.forward.tick) + 2 * |targets| + 1
    ensures ok ==> host.forward.tick == old(host.forward.tick) + 3 * |targets|
    ensures published <= staged <= |snapshots| <= |targets| && (ok ==> published == |targets|)
    ensures IsPublication(old(host.files), targets[..published], texts[..published], host.files)
    ensures forall i :: 0 <= i < |snapshots| ==> snapshots[i] == Lookup(old(host.files), targets[i])
    ensures old(host.temps) + host.litter <= host.temps <= old(host.temps) + Range(old(host.nextTemp), staged)
            + host.litter
    ensures NewLitter({}, host.litter, old(host.nextTemp) + staged)
    ensures ok ==> host.temps == old(host.temps) && host.litter == {}
  {
    var first := host.nextTemp;
    ok, staged, snapshots := StageBatch(host, targets);
    SnapshotsAre(host.files, targets, |snapshots|);
    published := 0;
    if ok {
      InRange(first, staged);
      ok, published := ReplaceAll(host, targets, texts, snapshots, first);
      InRange(first, published);
    }
  }

  /** From the `yield` on: undo what was published if the body failed, then drop the temporaries. `before` are
      the temporaries from before the batch. */
  method CloseBatch(host: Host, failed: bool, published: seq<Path>, snapshots: seq<Option<File>>, first: nat,
                    staged: nat, ghost before: Temps)
    returns (ghost stranded: set<Path>, raised: bool)
    requires host.Valid() && |published| <= |snapshots| && Distinct(published) && first + staged <= host.nextTemp
    requires !host.undoing.met && NewLitter({}, host.litter, first + staged) && forall n :: n in before ==> n < first
    requires before + host.litter <= host.temps <= before + Range(first, staged) + host.litter
    requires failed || host.temps == before
    modifies host`files, host`temps, host`nextTemp, host`litter, host.undoing`tick, host.undoing`met
    modifies host.removals`tick, host.removals`met
    ensures host.Valid() && host.nextTemp >= old(host.nextTemp)
    ensures host.undoing.met == (stranded != {}) && raised == failed
    ensures failed && published != [] && published[|published| - 1] in old(host.files) ==>
              host.undoing.tick > old(host.undoing.tick)
    ensures failed ==> Undone(old(host.files), published, snapshots, 0, stranded, host.files)
    ensures !failed ==> host.files == old(host.files) && host.litter == {} && !host.undoing.met
    ensures forall p :: p in stranded ==> p in published
    ensures OnlyLitterIsNew(before, first, host.temps, host.litter)
  {
    stranded := {};
    InRange(first, staged);
    if failed {
      var complete;
      stranded, complete := UndoPublished(host, host.undoing, published, snapshots);
    }
    var discarded := DiscardStaged(host, first, staged);
    raised := failed || !discarded;
  }

  /** A batch whose caller does nothing else to the disk: all or nothing, with a frame. It succeeds exactly when
      its caller does and no step forward met a fault. When it fails, the tree is the old one but for the files
      whose restoration was refused: there are some exactly when a step of the undoing met a fault, and exactly
      they carry their new content. */
  method PublishConfBatch(host: Host, targets: seq<Path>, texts: seq<string>, bodySucceeds: bool)
    returns (ok: bool, ghost stranded: set<Path>)
    requires host.Valid() && |targets| == |texts| && Distinct(targets)
    modifies host, host.forward, host.undoing, host.compensating, host.removals
    ensures host.Valid() && host.dids == old(host.dids) && host.runtime == old(host.runtime)
    ensures ok <==> bodySucceeds && !Falters(host.forward.schedule, old(host.forward.tick), host.forward.tick)
    ensures stranded == {} <==> !Falters(host.undoing.schedule, old(host.undoing.tick), host.undoing.tick)
    ensures ok ==> IsPublication(old(host.files), targets, texts, host.files)
    ensures !ok ==> IsRollback(old(host.files), targets, texts, stranded, host.files)
    ensures !ok && stranded == {} ==> host.files == old(host.files)
    ensures host.temps == old(host.temps) <==>
              !Falters(host.removals.schedule, old(host.removals.tick), host.removals.tick)
  {
    host.Begin();
    var first := host.nextTemp;
    var entered, staged, published, snapshots := OpenBatch(host, targets, texts);
    ghost var middle := host.files;
    var raised;
    stranded, raised := CloseBatch(host, !(entered && bodySucceeds), targets[..published], snapshots, first, staged,
                                   old(host.temps));
    ok := !raised;
    LitterTellsTheTruth(old(host.temps), first, host.temps, host.litter);
    assert entered ==> targets[..published] == targets && texts[..published] == texts;
    if raised {
      BatchUndone(old(host.files), targets, texts, published, snapshots, middle, stranded, host.files);
      if stranded == {} {
        SameEverywhere(host.files, old(host.files));
      }
    }
  }

  /** `after` is `before` but for the stranded ones of the targets, which carry their new content. */
  ghost predicate IsRollback(before: Files, targets: seq<Path>, texts: seq<string>, stranded: set<Path>, after: Files)
    requires |targets| == |texts|
  {
    && (forall i :: 0 <= i < |targets| && targets[i] in stranded ==>
          Lookup(after, targets[i]) == Some(NewFile(before, targets[i], texts[i])))
    && (forall p :: p in stranded ==> p in targets)
    && SameOutside(after, before, stranded)
  }

  lemma BatchUndone(before: Files, targets: seq<Path>, texts: seq<string>, published: nat, snapshots: seq<Option<File>>,
                    middle: Files, stranded: set<Path>, after: Files)
    requires published <= |snapshots| <= |targets| == |texts| && Distinct(targets)
    requires IsPublication(before, targets[..published], texts[..published], middle)
    requires forall i :: 0 <= i < |snapshots| ==> snapshots[i] == Lookup(before, targets[i])
    requires Undone(middle, targets[..published], snapshots, 0, stranded, after)
    requires forall p :: p in stranded ==> p in targets[..published]
    ensures IsRollback(before, targets, texts, stranded, after)
  {
    assert targets[..published][0..] == targets[..published];
    forall i | 0 <= i < |targets| && targets[i] in stranded
      ensures Lookup(after, targets[i]) == Some(NewFile(before, targets[i], texts[i]))
    {
      var j :| 0 <= j < published && targets[..published][j] == targets[i];
    }
    forall p | p !in stranded ensures Lookup(after, p) == Lookup(before, p) {
      if p in targets[..published] {
        var j :| 0 <= j < published && targets[..published][j] == p;
      } else {
        assert Lookup(middle, p) == Lookup(before, p);
      }
    }
  }
}
