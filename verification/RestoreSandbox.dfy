/** Offline restoration of a full snapshot: nine components are swapped by rename, and swapped
    back if any rename fails. */
module RestoreSandbox {
  import opened Oracles
  import opened Prelude

  /** A directory tree or file, as one opaque value. */
  datatype Tree = Tree(content: string)

  type Folder = map<string, Tree>

  const DIRECTORIES: seq<string> :=
    ["asterisk", "admin", "webphone", "provisioning", "recordings", "admin_data", "queue_api_data"]
  const FILES: seq<string> := ["docker-compose.yml", "prompt-base-pabx.md"]
  const ENTRIES: seq<string> := DIRECTORIES + FILES

  function At(folder: Folder, name: string): Option<Tree>
  {
    if name in folder then Some(folder[name]) else None
  }

  lemma EntriesAreDistinct()
    ensures Distinct(ENTRIES)
  {
    var first := ['a', 'a', 'w', 'p', 'r', 'a', 'q', 'd', 'p'];
    assert forall i :: 0 <= i < 9 ==> ENTRIES[i][0] == first[i];
    assert |ENTRIES[0]| == 8 && |ENTRIES[1]| == 5 && |ENTRIES[5]| == 10;
    assert |ENTRIES[3]| == 12 && |ENTRIES[8]| == 19;
  }

  /** Of the components, the first `left` are the restored ones, the `lost` ones are absent although there was an
      old one, and everything else is as before. */
  ghost predicate Partly(before: Folder, source: Folder, names: seq<string>, left: nat, lost: set<string>,
                         after: Folder)
    requires left <= |names|
  {
    && (forall i :: 0 <= i < left ==> names[i] in after && At(after, names[i]) == At(source, names[i]))
    && (forall name :: name in lost ==> name in names && name in before && name !in after)
    && (forall name :: name !in names[..left] && name !in lost ==> At(after, name) == At(before, name))
  }

  lemma NothingLeft(before: Folder, source: Folder, names: seq<string>, after: Folder)
    requires Partly(before, source, names, 0, {}, after)
    ensures after == before
  {
    assert forall name :: At(after, name) == At(before, name);
    forall name ensures name in after <==> name in before {
      assert At(after, name) == At(before, name);
    }
    forall name | name in after ensures after[name] == before[name] {
      assert At(after, name) == At(before, name);
    }
  }

  class Sandbox {
    var target: Folder
    var restored: Folder
    var previous: Folder
    /** The renames of the loop, and the steps of the handlers that undo them. */
    const forward: Oracle
    const undoing: Oracle

    constructor (target: Folder, restored: Folder, forward: nat -> Fault, undoing: nat -> Fault)
      ensures Valid() && this.target == target && this.restored == restored && previous == map[]
      ensures this.forward.schedule == forward && this.undoing.schedule == undoing
    {
      this.target, this.restored, previous := target, restored, map[];
      this.forward := new Oracle(forward);
      this.undoing := new Oracle(undoing);
    }

    ghost predicate Valid()
      reads forward, undoing
    {
      forward != undoing && forward.Valid() && undoing.Valid()
    }

    /** One pass of the loop: the old component steps aside, the restored one takes its place;
        if that fails the old one is put back before the error propagates. */
    method Swap(entry: string) returns (ok: bool, hadOld: bool, ghost lost: bool)
      requires Valid() && entry in restored && entry !in previous && !forward.met && !undoing.met
      modifies this, forward`tick, forward`met, undoing`tick, undoing`met
      ensures Valid() && hadOld == (entry in old(target)) && ok == !forward.met && lost == undoing.met
      ensures ok ==> !lost && target == old(target)[entry := old(restored)[entry]]
      ensures ok ==> restored == old(restored) - {entry}
      ensures ok ==> previous == if hadOld then old(previous)[entry := old(target)[entry]] else old(previous)
      ensures !ok ==> restored == old(restored)
      ensures !ok && !lost ==> target == old(target) && previous == old(previous)
      ensures !ok && lost ==>
                hadOld && target == old(target) - {entry} && previous == old(previous)[entry := old(target)[entry]]
    {
      hadOld, lost := entry in target, false;
      if hadOld {
        var aside := forward.Next();
        if !aside.Fine? {
          return false, hadOld, false;
        }
        previous := previous[entry := target[entry]];
        target := target - {entry};
      }
      var renamed := forward.Next();
      ok := renamed.Fine?;
      if ok {
        target := target[entry := restored[entry]];
        restored := restored - {entry};
      } else if hadOld {
        var back := undoing.Next();
        if back.Fine? {
          target := target[entry := previous[entry]];
          previous := previous - {entry};
        } else {
          lost := true;
        }
      }
    }

    /** Remove what was swapped in and put the old component back. */
    method SwapBack(entry: string, hadOld: bool) returns (ok: bool, ghost removed: bool)
      requires Valid() && entry in target && (hadOld <==> entry in previous)
      modifies this`target, this`previous, undoing`tick, undoing`met
      ensures Valid() && undoing.met == (old(undoing.met) || !ok)
      ensures ok ==> At(target, entry) == At(old(previous), entry) && entry !in previous
      ensures !ok && removed ==> hadOld && entry !in target
      ensures !ok && !removed ==> target == old(target)
      ensures forall name :: name != entry ==> At(target, name) == At(old(target), name)
      ensures forall name :: name != entry ==> At(previous, name) == At(old(previous), name)
      ensures !ok ==> previous == old(previous)
    {
      var gone := undoing.Next();
      ok, removed := gone.Fine?, gone.Fine?;
      if ok {
        target := target - {entry};
        if hadOld {
          var back := undoing.Next();
          ok := back.Fine?;
          if ok {
            target := target[entry := previous[entry]];
            previous := previous - {entry};
          }
        }
      }
    }

    /** `names[..k]` are swapped, with their old components set aside; the rest is as in
        `before`, and nothing else was set aside but `kept`. */
    ghost predicate SwappedUpTo(names: seq<string>, k: nat, before: Folder, source: Folder, kept: Folder)
      requires k <= |names|
      reads this`target, this`previous
    {
      && (forall i :: 0 <= i < k ==> At(target, names[i]) == At(source, names[i]) && names[i] in target
                                     && At(previous, names[i]) == At(before, names[i]))
      && (forall name :: name !in names[..k] ==>
          At(target, name) == At(before, name) && At(previous, name) == At(kept, name))
    }

    /** restore_sandbox after the archive was validated and unpacked into `restored`. Both that folder and the
        one that old components step aside to are temporary: they are gone at the end. It succeeds exactly when
        every component is in the snapshot and no rename fails. After a failure the sandbox is as it was, but for
        the first `left` components, which are still the restored ones, and the `lost` ones, whose old version
        could not be put back: there are some exactly when a step of the undoing was refused. */
    method Restore() returns (ok: bool, ghost left: nat, ghost lost: set<string>)
      requires Valid() && previous == map[]
      modifies this, forward, undoing
      ensures Valid() && previous == map[] && restored == map[]
      ensures ok <==> (forall e :: e in ENTRIES ==> e in old(restored))
                      && !Falters(forward.schedule, old(forward.tick), forward.tick)
      ensures left <= |ENTRIES| && Partly(old(target), old(restored), ENTRIES, left, lost, target)
      ensures ok ==> left == |ENTRIES| && lost == {}
      ensures !ok ==> (left == 0 && lost == {} <==> !Falters(undoing.schedule, old(undoing.tick), undoing.tick))
      ensures !ok && left == 0 && lost == {} ==> target == old(target)
    {
      forward.Begin();
      undoing.Begin();
      ok, left, lost := false, 0, {};
      var complete := IsComplete();
      if complete {
        EntriesAreDistinct();
        ok, left, lost := RestoreEntries(ENTRIES);
      }
      if !ok && left == 0 && lost == {} {
        NothingLeft(old(target), old(restored), ENTRIES, target);
      }
      previous, restored := map[], map[];
    }

    /** The checks that every component is in the snapshot. */
    method IsComplete() returns (complete: bool)
      ensures complete <==> forall e :: e in ENTRIES ==> e in restored
    {
      for k := 0 to |ENTRIES|
        invariant forall i :: 0 <= i < k ==> ENTRIES[i] in restored
      {
        if ENTRIES[k] !in restored {
          return false;
        }
      }
      return true;
    }

    /** One pass of the loop, seen from the whole: one more component is swapped, or none is, apart from an old
        component that could not be put back. */
    method SwapNext(names: seq<string>, k: nat, ghost before: Folder, ghost source: Folder)
      returns (ok: bool, hadOld: bool, ghost lost: bool)
      requires Valid() && !forward.met && !undoing.met && k < |names| && Distinct(names)
      requires names[k] in restored && At(restored, names[k]) == At(source, names[k])
      requires SwappedUpTo(names, k, before, source, map[])
      modifies this, forward`tick, forward`met, undoing`tick, undoing`met
      ensures Valid() && hadOld == (names[k] in before) && ok == !forward.met && lost == undoing.met
      ensures ok ==> !lost && SwappedUpTo(names, k + 1, before, source, map[]) && restored == old(restored) - {names[k]}
      ensures !ok && !lost ==> SwappedUpTo(names, k, before, source, map[])
      ensures !ok && lost ==>
                names[k] in before
                && SwappedUpTo(names, k, before - {names[k]}, source, map[names[k] := before[names[k]]])
    {
      assert names[..k + 1] == names[..k] + [names[k]] && names[k] !in names[..k];
      assert At(target, names[k]) == At(before, names[k]) && At(previous, names[k]) == None;
      ok, hadOld, lost := Swap(names[k]);
    }

    method RestoreEntries(names: seq<string>) returns (ok: bool, ghost left: nat, ghost lost: set<string>)
      requires Valid() && previous == map[] && !forward.met && !undoing.met
      requires Distinct(names) && forall e :: e in names ==> e in restored
      modifies this, forward`tick, forward`met, undoing`tick, undoing`met
      ensures Valid() && ok == !forward.met && left <= |names|
      ensures Partly(old(target), old(restored), names, left, lost, target)
      ensures ok ==> left == |names| && lost == {}
      ensures !ok ==> (left == 0 && lost == {} <==> !undoing.met)
    {
      var done: seq<bool> := [];
      ok, lost := true, {};
      while |done| < |names|
        invariant |done| <= |names| && ok && Valid() && !forward.met && !undoing.met
        invariant forall i :: 0 <= i < |done| ==> done[i] == (names[i] in old(target))
        invariant forall i :: |done| <= i < |names| ==>
                    names[i] in restored && At(restored, names[i]) == At(old(restored), names[i])
        invariant SwappedUpTo(names, |done|, old(target), old(restored), map[])
      {
        var k := |done|;
        var hadOld;
        ghost var gone;
        ok, hadOld, gone := SwapNext(names, k, old(target), old(restored));
        if !ok {
          ghost var baseline := if gone then old(target) - {names[k]} else old(target);
          ghost var kept := if gone then map[names[k] := old(target)[names[k]]] else map[];
          left, lost := UndoAll(names, done, baseline, old(restored), kept);
          if gone {
            AlsoLost(old(target), old(restored), names, left, lost, names[k], k, target);
            lost := lost + {names[k]};
          }
          return;
        }
        done := done + [hadOld];
      }
      left := |names|;
      assert names[..|names|] == names;
    }

    /** The outer handler: swap back what was done, last first; a refusal ends it. */
    method UndoAll(names: seq<string>, done: seq<bool>, ghost before: Folder, ghost source: Folder, ghost kept: Folder)
      returns (ghost left: nat, ghost lost: set<string>)
      requires Valid() && |done| <= |names| && Distinct(names)
      requires forall i :: 0 <= i < |done| ==> done[i] == (names[i] in before) && names[i] !in kept
      requires SwappedUpTo(names, |done|, before, source, kept)
      modifies this`target, this`previous, undoing`tick, undoing`met
      ensures Valid() && left <= |done| && Partly(before, source, names, left, lost, target)
      ensures undoing.met == (old(undoing.met) || left > 0 || lost != {})
    {
      var k := |done|;
      lost := {};
      while k > 0
        invariant 0 <= k <= |done| && Valid() && undoing.met == old(undoing.met)
        invariant SwappedUpTo(names, k, before, source, kept)
      {
        k := k - 1;
        assert names[..k + 1] == names[..k] + [names[k]] && names[k] !in names[..k];
        assert At(previous, names[k]) == At(before, names[k]);
        ghost var removed;
        var ok;
        ok, removed := SwapBack(names[k], done[k]);
        if !ok {
          return if removed then k else k + 1, if removed then {names[k]} else {};
        }
      }
      left := 0;
    }
  }

  lemma AlsoLost(before: Folder, source: Folder, names: seq<string>, left: nat, lost: set<string>, name: string, k: nat,
                 after: Folder)
    requires left <= k < |names| && names[k] == name && name in before && Distinct(names)
    requires Partly(before - {name}, source, names, left, lost, after)
    ensures Partly(before, source, names, left, lost + {name}, after)
  {
    assert name !in names[..left];
    assert At(after, name) == At(before - {name}, name);
  }
}
