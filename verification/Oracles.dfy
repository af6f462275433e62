/** The faults that the operating system or the network puts in the way of a sequence of steps. */
module Oracles {

  /** `Lost` is an operation that took effect although its caller is told it failed. */
  datatype Fault = Fine | Refused | Lost

  /** Some step from the `from`-th on and before the `to`-th meets a fault. */
  ghost predicate Falters(schedule: nat -> Fault, from: nat, to: nat)
  {
    exists k :: from <= k < to && !schedule(k).Fine?
  }

  /** The faults that one kind of steps meets. */
  class Oracle {
    const schedule: nat -> Fault
    var tick: nat
    /** When the current call began, and whether a step met a fault since. */
    ghost var start: nat
    ghost var met: bool

    constructor (schedule: nat -> Fault)
      ensures Valid() && this.schedule == schedule && tick == 0
    {
      this.schedule, tick, start, met := schedule, 0, 0, false;
    }

    ghost predicate Valid()
      reads this
    {
      start <= tick && (met <==> Falters(schedule, start, tick))
    }

    ghost method Begin()
      modifies this`start, this`met
      ensures Valid() && start == tick && !met
    {
      start, met := tick, false;
    }

    method Next() returns (fault: Fault)
      requires Valid()
      modifies this`tick, this`met
      ensures Valid() && tick == old(tick) + 1 && met == (old(met) || !fault.Fine?)
      ensures fault == schedule(old(tick))
    {
      fault := schedule(tick);
      tick := tick + 1;
      met := met || !fault.Fine?;
    }
  }
}
