/** The PABX host as the tenant wizard sees it: configuration files, the two JSON stores, the
    AstDB family `tenant-did`, and the configuration Asterisk last loaded. Every operation that
    the operating system or the network may refuse consults a schedule of faults. */
module Hosting {
  import opened Oracles
  import opened Prelude

  /** A file is known by its directory and name under the configuration root. */
  datatype Path =
    | Conf(dir: string, name: string)
    | Registry
    | Store

  datatype Tenant = Tenant(id: string, did: string, displayName: string)

  /** A dynamic extension; a record without a tenant belongs to t1. */
  datatype Extension = Extension(name: string, tenant: Option<string>, details: string)

  datatype Content =
    | Text(text: string)
    | Tenants(tenants: seq<Tenant>)
    | Extensions(extensions: seq<Extension>)

  datatype File = File(content: Content, mode: nat)

  type Files = map<Path, File>

  /** The numbers of the temporaries that exist. They carry names no configuration file may have, so they are
      kept apart; what is written to one is known to whoever holds it. */
  type Temps = set<nat>

  /** Everything about the host that a call may change, with the steps of each kind that were taken. */
  datatype World = World(files: Files, temps: Temps, dids: map<string, string>, runtime: Files, ticks: Ticks)

  datatype Ticks = Ticks(forward: nat, undoing: nat, compensating: nat, removals: nat)

  /** Which kinds of steps met a fault. */
  datatype Faults = Faults(forward: bool, undoing: bool, compensating: bool, removals: bool)

  const PUBLIC_MODE: nat := 420   // 0o644
  const PRIVATE_MODE: nat := 384  // 0o600

  function Lookup(files: Files, p: Path): Option<File>
  {
    if p in files then Some(files[p]) else None
  }

  /** Outside `except`, the two trees hold the same files. */
  ghost predicate SameOutside(a: Files, b: Files, except: set<Path>)
  {
    forall p :: p !in except ==> Lookup(a, p) == Lookup(b, p)
  }

  lemma SameEverywhere(a: Files, b: Files)
    requires SameOutside(a, b, {})
    ensures a == b
  {
    forall p ensures p in a <==> p in b {
      assert Lookup(a, p) == Lookup(b, p);
    }
    forall p | p in a ensures a[p] == b[p] {
      assert Lookup(a, p) == Lookup(b, p);
    }
  }

  /** What Asterisk reads: never a JSON store. */
  function ConfOf(files: Files): Files
  {
    map p | p in files && p.Conf? :: files[p]
  }

  lemma StoresAreNotRead(files: Files, path: Path, file: File)
    requires !path.Conf?
    ensures ConfOf(files[path := file]) == ConfOf(files)
  {
  }

  /** `count` consecutive temporaries. */
  ghost function Range(first: nat, count: nat): set<nat>
  {
    if count == 0 then {} else Range(first, count - 1) + {first + count - 1}
  }

  lemma {:induction false} InRange(first: nat, count: nat)
    ensures forall n :: n in Range(first, count) <==> first <= n < first + count
  {
    if count > 0 {
      InRange(first, count - 1);
    }
  }

  class Host {
    var files: Files
    var temps: Temps
    var nextTemp: nat
    var dids: map<string, string>
    var runtime: Files
    /** The steps of the operation itself, those of the undoing inside a context manager, whose faults are not
        reported as an incomplete rollback, those of the compensation, whose faults are, and the removals of
        temporaries. */
    const forward: Oracle
    const undoing: Oracle
    const compensating: Oracle
    const removals: Oracle
    /** Temporaries of the current call whose removal was refused: they are still there. */
    ghost var litter: set<nat>

    constructor (files: Files, dids: map<string, string>, runtime: Files,
                 forward: nat -> Fault, undoing: nat -> Fault, compensating: nat -> Fault, removals: nat -> Fault)
      ensures Valid() && fresh({this.forward, this.undoing, this.compensating, this.removals})
      ensures this.forward.schedule == forward && this.undoing.schedule == undoing
      ensures this.compensating.schedule == compensating && this.removals.schedule == removals
      ensures Now() == World(files, {}, dids, runtime, Ticks(0, 0, 0, 0))
    {
      this.files, this.dids, this.runtime := files, dids, runtime;
      temps, nextTemp, litter := {}, 0, {};
      this.forward := new Oracle(forward);
      this.undoing := new Oracle(undoing);
      this.compensating := new Oracle(compensating);
      this.removals := new Oracle(removals);
      new;
      this.removals.Begin();
    }

    ghost function Now(): World
      reads this, forward, undoing, compensating, removals
    {
      World(files, temps, dids, runtime, Ticks(forward.tick, undoing.tick, compensating.tick, removals.tick))
    }

    /** The faults that the schedules hold between two moments. */
    ghost function FaultsBetween(a: Ticks, b: Ticks): Faults
    {
      Faults(Falters(forward.schedule, a.forward, b.forward),
             Falters(undoing.schedule, a.undoing, b.undoing),
             Falters(compensating.schedule, a.compensating, b.compensating),
             Falters(removals.schedule, a.removals, b.removals))
    }

    /** The faults met since the call began. */
    ghost function Met(): Faults
      reads forward, undoing, compensating, removals
    {
      Faults(forward.met, undoing.met, compensating.met, removals.met)
    }

    ghost function Start(): Ticks
      reads forward, undoing, compensating, removals
    {
      Ticks(forward.start, undoing.start, compensating.start, removals.start)
    }

    /** The faults met are those that the schedules hold. */
    lemma MetAreScheduled()
      requires Valid()
      ensures Met() == FaultsBetween(Start(), Now().ticks)
    {
    }

    ghost predicate Valid()
      reads this`temps, this`nextTemp, this`litter, forward, undoing, compensating, removals
    {
      && forward != undoing && forward != compensating && forward != removals
      && undoing != compensating && undoing != removals && compensating != removals
      && forward.Valid() && undoing.Valid() && compensating.Valid() && removals.Valid()
      && (forall n :: n in temps ==> n < nextTemp) && litter <= temps && (litter == {} <==> !removals.met)
    }

    /** A call of the wizard begins: nothing has failed yet. */
    ghost method Begin()
      requires Valid()
      modifies this`litter, forward, undoing, compensating, removals
      ensures Valid() && litter == {} && Now() == old(Now())
      ensures Met() == Faults(false, false, false, false) && Start() == Now().ticks
    {
      litter := {};
      forward.Begin();
      undoing.Begin();
      compensating.Begin();
      removals.Begin();
    }

    /** unlink(missing_ok=True) of a file as the undoing of its publication. */
    method Unpublish(faults: Oracle, path: Path) returns (ok: bool)
      requires faults.Valid()
      modifies this`files, faults`tick, faults`met
      ensures faults.Valid() && faults.met == (old(faults.met) || !ok)
      ensures files == if ok then old(files) - {path} else old(files)
      ensures !ok ==> path in files
      ensures faults.tick == if path in old(files) then old(faults.tick) + 1 else old(faults.tick)
    {
      if path !in files {
        files := files - {path};
        return true;
      }
      var fault := faults.Next();
      ok := fault.Fine?;
      if ok {
        files := files - {path};
      }
    }

    /** unlink of a file as a step forward. */
    method Retire(path: Path) returns (ok: bool)
      requires forward.Valid() && path in files
      modifies this`files, forward`tick, forward`met
      ensures forward.Valid() && forward.met == (old(forward.met) || !ok) && forward.tick == old(forward.tick) + 1
      ensures files == if ok then old(files) - {path} else old(files)
    {
      var fault := forward.Next();
      ok := fault.Fine?;
      if ok {
        files := files - {path};
      }
    }

    /** unlink(missing_ok=True) of a temporary. */
    method Discard(temp: nat) returns (ok: bool)
      requires Valid() && temp !in litter
      modifies this`temps, this`litter, removals`tick, removals`met
      ensures Valid()
      ensures temps == if ok then old(temps) - {temp} else old(temps)
      ensures litter == if ok then old(litter) else old(litter) + {temp}
      ensures removals.tick == if temp in old(temps) then old(removals.tick) + 1 else old(removals.tick)
    {
      if temp !in temps {
        temps := temps - {temp};
        return true;
      }
      var fault := removals.Next();
      ok := fault.Fine?;
      if ok {
        temps := temps - {temp};
      } else {
        litter := litter + {temp};
      }
    }

    /** An empty temporary under a name nobody uses. */
    method CreateTemp(faults: Oracle) returns (temp: Option<nat>)
      requires Valid() && faults.Valid() && faults != removals
      modifies this`temps, this`nextTemp, faults`tick, faults`met
      ensures Valid() && nextTemp >= old(nextTemp)
      ensures faults.Valid() && faults.met == (old(faults.met) || temp.None?) && faults.tick == old(faults.tick) + 1
      ensures temp.None? ==> temps == old(temps) && nextTemp == old(nextTemp)
      ensures temp.Some? ==> temp.value == old(nextTemp) && nextTemp == old(nextTemp) + 1
      ensures temp.Some? ==> temp.value !in old(temps) && temps == old(temps) + {temp.value}
    {
      var fault := faults.Next();
      if !fault.Fine? {
        return None;
      }
      temp := Some(nextTemp);
      temps := temps + {nextTemp};
      nextTemp := nextTemp + 1;
    }

    /** fchmod, write and fsync of an open temporary. */
    method Fill(faults: Oracle, temp: nat) returns (ok: bool)
      requires faults.Valid() && temp in temps
      modifies faults`tick, faults`met
      ensures faults.Valid() && faults.met == (old(faults.met) || !ok) && faults.tick == old(faults.tick) + 1
    {
      var fault := faults.Next();
      ok := fault.Fine?;
    }

    /** link(2) of a temporary with this content: publishes without ever replacing an existing file. */
    method Link(temp: nat, file: File, target: Path) returns (ok: bool)
      requires forward.Valid() && temp in temps
      modifies this`files, forward`tick, forward`met
      ensures forward.Valid() && (ok ==> target !in old(files) && forward.met == old(forward.met))
      ensures target !in old(files) ==> forward.met == (old(forward.met) || !ok)
      ensures files == if ok then old(files)[target := file] else old(files)
    {
      var fault := forward.Next();
      ok := fault.Fine? && target !in files;
      if ok {
        files := files[target := file];
      }
    }

    /** rename(2) of a temporary with this content over its target. */
    method Replace(faults: Oracle, temp: nat, file: File, target: Path) returns (ok: bool)
      requires Valid() && faults.Valid() && faults != removals && temp in temps && temp !in litter
      modifies this`files, this`temps, faults`tick, faults`met
      ensures Valid()
      ensures faults.Valid() && faults.met == (old(faults.met) || !ok) && faults.tick == old(faults.tick) + 1
      ensures files == if ok then old(files)[target := file] else old(files)
      ensures temps == if ok then old(temps) - {temp} else old(temps)
    {
      var fault := faults.Next();
      ok := fault.Fine?;
      if ok {
        files := files[target := file];
        temps := temps - {temp};
      }
    }

    /** A JSON store saved atomically: replaced or untouched, and the caller may be told of a
        failure in either case. */
    method Save(faults: Oracle, path: Path, content: Content) returns (ok: bool)
      requires faults.Valid()
      modifies this`files, faults`tick, faults`met
      ensures faults.Valid() && faults.met == (old(faults.met) || !ok) && faults.tick == old(faults.tick) + 1
      ensures ok ==> files == old(files)[path := File(content, PRIVATE_MODE)]
      ensures !ok ==> files == old(files) || files == old(files)[path := File(content, PRIVATE_MODE)]
    {
      var fault := faults.Next();
      if !fault.Refused? {
        files := files[path := File(content, PRIVATE_MODE)];
      }
      ok := fault.Fine?;
    }

    /** Opening an AMI connection and logging in. */
    method Connect(faults: Oracle) returns (ok: bool)
      requires faults.Valid()
      modifies faults`tick, faults`met
      ensures faults.Valid() && faults.met == (old(faults.met) || !ok) && faults.tick == old(faults.tick) + 1
    {
      var fault := faults.Next();
      ok := fault.Fine?;
    }

    /** DBPut tenant-did/did := tenant; the reply may be lost after it was applied. */
    method RegisterDid(faults: Oracle, did: string, tenant: string) returns (ok: bool)
      requires faults.Valid()
      modifies this`dids, faults`tick, faults`met
      ensures faults.Valid() && faults.met == (old(faults.met) || !ok) && faults.tick == old(faults.tick) + 1
      ensures ok ==> dids == old(dids)[did := tenant]
      ensures !ok ==> dids == old(dids) || dids == old(dids)[did := tenant]
    {
      var fault := faults.Next();
      if !fault.Refused? {
        dids := dids[did := tenant];
      }
      ok := fault.Fine?;
    }

    /** DBDel tenant-did/did. */
    method UnregisterDid(faults: Oracle, did: string) returns (ok: bool)
      requires faults.Valid()
      modifies this`dids, faults`tick, faults`met
      ensures faults.Valid() && faults.met == (old(faults.met) || !ok) && faults.tick == old(faults.tick) + 1
      ensures ok ==> dids == old(dids) - {did}
      ensures !ok ==> dids == old(dids) || dids == old(dids) - {did}
    {
      var fault := faults.Next();
      if !fault.Refused? {
        dids := dids - {did};
      }
      ok := fault.Fine?;
    }

    /** The five reload commands, confirmed one by one. */
    method Reload(faults: Oracle) returns (ok: bool)
      requires faults.Valid()
      modifies this`runtime, faults`tick, faults`met
      ensures faults.Valid() && faults.met == (old(faults.met) || !ok) && faults.tick == old(faults.tick) + 1
      ensures ok ==> runtime == ConfOf(files)
      ensures !ok ==> runtime == old(runtime) || runtime == ConfOf(files)
    {
      var fault := faults.Next();
      if !fault.Refused? {
        runtime := ConfOf(files);
      }
      ok := fault.Fine?;
    }
  }
}
