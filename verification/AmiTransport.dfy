/** The AMI client as interleaved steps: many senders, one reader, any number of stop() calls.
    Each step is what one thread does while it holds a lock, or one write to a waiter record. */
module AmiTransport {
  import opened Prelude

  type ActionId = string
  type Block = map<string, string>

  /** Where a sender is in _send_action_and_wait after registering its waiter. */
  datatype Phase =
    | Registered            // before the check of `_running` under the send lock
    | Waiting               // past that check
    | Leaving(result: Result)  // in `finally`
    | Gone

  datatype Result = Answer(block: Block) | Failure

  /** Who will resolve a waiter: a history variable, kept beside the record. */
  datatype Owner = Nobody | TheTable | TheReader | TheFailer(f: nat)

  datatype Waiter = Waiter(id: ActionId, phase: Phase, response: Option<Block>, error: bool, ready: bool, owner: Owner)

  /** The thread that owns recv(). */
  datatype Reader = Reading | Holding(waiter: nat, block: Block) | Ended

  /** A call of _fail_pending by the reader or by stop(), from the moment `_running` was cleared.
      `marked` is the waiter whose error was written but whose event is not yet set. */
  datatype Failer = Cleared | Failing(todo: set<nat>, marked: Option<nat>)

  datatype Client = Client(
    running: bool,
    pending: map<ActionId, nat>,
    waiters: map<nat, Waiter>,
    used: map<ActionId, nat>,  // every id ever registered, and its waiter
    reader: Reader,
    failers: map<nat, Failer>)

  const CONNECTED: Client := Client(true, map[], map[], map[], Reading, map[])

  datatype Step =
    | Register(w: nat, id: ActionId)
    | CheckRunning(w: nat)
    | SendFails(w: nat)
    | TimesOut(w: nat)
    | TakesResult(w: nat)
    | Leaves(w: nat)
    | Dispatches(block: Block)
    | Writes
    | Sets
    | ReaderEnds(f: nat)
    | Stops(f: nat)
    | Sweeps(f: nat)
    | MarksError(f: nat, w: nat)
    | SetsFailed(f: nat)

  predicate IsPhase(s: Client, w: nat, p: Phase) { w in s.waiters && s.waiters[w].phase == p }

  /** Action ids are never reused: a fresh one for every registration. */
  predicate Enabled(s: Client, step: Step)
  {
    match step
    case Register(w, id) => w !in s.waiters && id !in s.used && id !in s.pending
    case CheckRunning(w) => IsPhase(s, w, Registered)
    case SendFails(w) => IsPhase(s, w, Waiting)
    case TimesOut(w) => IsPhase(s, w, Waiting) && !s.waiters[w].ready
    case TakesResult(w) => IsPhase(s, w, Waiting) && s.waiters[w].ready
    case Leaves(w) => w in s.waiters && s.waiters[w].phase.Leaving?
    case Dispatches(_) => s.reader.Reading?
    case Writes => s.reader.Holding? && s.reader.waiter in s.waiters && s.waiters[s.reader.waiter].response.None?
    case Sets => s.reader.Holding? && s.reader.waiter in s.waiters && s.waiters[s.reader.waiter].response.Some?
    case ReaderEnds(f) => s.reader.Reading? && f !in s.failers
    case Stops(f) => f !in s.failers
    case Sweeps(f) => f in s.failers && s.failers[f].Cleared?
    case MarksError(f, w) => f in s.failers && s.failers[f].Failing? && w in s.failers[f].todo
                             && s.failers[f].marked.None? && w in s.waiters
    case SetsFailed(f) => f in s.failers && s.failers[f].Failing? && s.failers[f].marked.Some?
                          && s.failers[f].marked.value in s.waiters
  }

  /** An action reply: not an event, with an ActionID and a Response. */
  predicate IsReply(block: Block)
  {
    && ("Event" in block ==> block["Event"] == "")
    && "ActionID" in block && block["ActionID"] != "" && "Response" in block
  }

  function Put(s: Client, w: nat, waiter: Waiter): Client
  {
    s.(waiters := s.waiters[w := waiter])
  }

  predicate SenderStep(step: Step)
  {
    step.Register? || step.CheckRunning? || step.SendFails? || step.TimesOut? || step.TakesResult? || step.Leaves?
  }

  predicate ReaderStep(step: Step) { step.Dispatches? || step.Writes? || step.Sets? }

  function DoSender(s: Client, step: Step): Client
    requires Enabled(s, step) && SenderStep(step)
  {
    match step
    case Register(w, id) =>
      Put(s, w, Waiter(id, Registered, None, false, false, TheTable))
        .(pending := s.pending[id := w], used := s.used[id := w])
    case CheckRunning(w) =>
      Put(s, w, s.waiters[w].(phase := if s.running then Waiting else Leaving(Failure)))
    case SendFails(w) => Put(s, w, s.waiters[w].(phase := Leaving(Failure)))
    case TimesOut(w) => Put(s, w, s.waiters[w].(phase := Leaving(Failure)))
    case TakesResult(w) =>
      var waiter := s.waiters[w];
      var result := if waiter.error || waiter.response.None? then Failure else Answer(waiter.response.value);
      Put(s, w, waiter.(phase := Leaving(result)))
    case Leaves(w) =>
      var waiter := s.waiters[w];
      Put(s, w, waiter.(phase := Gone, owner := if waiter.owner.TheTable? then Nobody else waiter.owner))
        .(pending := s.pending - {waiter.id})
  }

  function DoReader(s: Client, step: Step): Client
    requires Enabled(s, step) && ReaderStep(step)
  {
    match step
    case Dispatches(block) =>
      if IsReply(block) && block["ActionID"] in s.pending && s.pending[block["ActionID"]] in s.waiters then
        var w := s.pending[block["ActionID"]];
        Put(s, w, s.waiters[w].(owner := TheReader))
          .(pending := s.pending - {block["ActionID"]}, reader := Holding(w, block))
      else s
    case Writes => Put(s, s.reader.waiter, s.waiters[s.reader.waiter].(response := Some(s.reader.block)))
    case Sets =>
      Put(s, s.reader.waiter, s.waiters[s.reader.waiter].(ready := true, owner := Nobody)).(reader := Reading)
  }

  function DoFailer(s: Client, step: Step): Client
    requires Enabled(s, step) && !SenderStep(step) && !ReaderStep(step)
  {
    match step
    case ReaderEnds(f) => s.(running := false, reader := Ended, failers := s.failers[f := Cleared])
    case Stops(f) => s.(running := false, failers := s.failers[f := Cleared])
    case Sweeps(f) =>
      s.(pending := map[], failers := s.failers[f := Failing(s.pending.Values, None)],
         waiters := map w | w in s.waiters ::
           if s.waiters[w].owner.TheTable? then s.waiters[w].(owner := TheFailer(f)) else s.waiters[w])
    case MarksError(f, w) =>
      Put(s, w, s.waiters[w].(error := true)).(failers := s.failers[f := Failing(s.failers[f].todo - {w}, Some(w))])
    case SetsFailed(f) =>
      var w := s.failers[f].marked.value;
      Put(s, w, s.waiters[w].(ready := true, owner := Nobody))
        .(failers := s.failers[f := Failing(s.failers[f].todo, None)])
  }

  function Do(s: Client, step: Step): Client
    requires Enabled(s, step)
  {
    if SenderStep(step) then DoSender(s, step) else if ReaderStep(step) then DoReader(s, step) else DoFailer(s, step)
  }

  predicate Untouched(waiter: Waiter) { waiter.response.None? && !waiter.error && !waiter.ready }

  predicate InHand(s: Client, f: nat, w: nat)
  {
    f in s.failers && s.failers[f].Failing? && (w in s.failers[f].todo || s.failers[f].marked == Some(w))
  }

  /** The history variable is the truth: it names the only thread that can resolve the waiter. */
  ghost predicate OwnerIsTrue(s: Client, w: nat)
    requires w in s.waiters
  {
    var waiter := s.waiters[w];
    && waiter.id in s.used && s.used[waiter.id] == w
    && (waiter.owner.TheTable? <==> waiter.id in s.pending && s.pending[waiter.id] == w)
    && (waiter.owner.TheReader? <==> s.reader.Holding? && s.reader.waiter == w)
    && (forall f :: waiter.owner == TheFailer(f) <==> InHand(s, f, w))
  }

  /** What the record of a waiter may hold, by owner. */
  ghost predicate RecordIsRight(s: Client, w: nat)
    requires w in s.waiters
  {
    var waiter := s.waiters[w];
    && !(waiter.response.Some? && waiter.error)
    && (waiter.response.Some? ==> "ActionID" in waiter.response.value && waiter.response.value["ActionID"] == waiter.id)
    && (waiter.phase.Leaving? && waiter.phase.result.Answer? ==> waiter.response == Some(waiter.phase.result.block))
    && (waiter.ready ==> waiter.owner.Nobody? && (waiter.response.Some? || waiter.error))
    && (waiter.owner.TheTable? ==> Untouched(waiter) && !waiter.phase.Gone?)
    && (waiter.owner.TheReader? ==>
        !waiter.error && s.reader.Holding? && "ActionID" in s.reader.block && s.reader.block["ActionID"] == waiter.id)
    && (waiter.owner.TheFailer? ==> waiter.response.None?)
    && (waiter.owner.TheFailer? && waiter.owner.f in s.failers && s.failers[waiter.owner.f].Failing? ==>
          (waiter.error <==> w !in s.failers[waiter.owner.f].todo))
  }

  /** No clean-up has swept the table yet. */
  ghost predicate NobodyHasSwept(s: Client)
  {
    forall f :: f in s.failers ==> s.failers[f].Cleared?
  }

  /** A sender that still waits has somebody to resolve it, and nobody who waits is left in the table once any
      clean-up has swept it. */
  ghost predicate NotForgotten(s: Client, w: nat)
    requires w in s.waiters
  {
    var waiter := s.waiters[w];
    && ((waiter.phase.Registered? || waiter.phase.Waiting?) && !waiter.ready ==> !waiter.owner.Nobody?)
    && (waiter.phase.Waiting? && waiter.owner.TheTable? ==> NobodyHasSwept(s))
  }

  ghost predicate Shape(s: Client)
  {
    && (forall id :: id in s.pending ==> s.pending[id] in s.waiters && s.waiters[s.pending[id]].id == id)
    && (s.reader.Holding? ==> s.reader.waiter in s.waiters)
    && (forall f, w :: InHand(s, f, w) ==> w in s.waiters)
    && (forall f :: f in s.failers && s.failers[f].Failing? && s.failers[f].marked.Some? ==>
          s.failers[f].marked.value !in s.failers[f].todo)
    && (s.running ==> s.failers == map[])
    && (s.reader.Ended? ==> !s.running)
  }

  ghost predicate Inv(s: Client)
  {
    && Shape(s)
    && (forall w :: w in s.waiters ==> OwnerIsTrue(s, w))
    && (forall w :: w in s.waiters ==> RecordIsRight(s, w))
    && (forall w :: w in s.waiters ==> NotForgotten(s, w))
  }

  lemma RegisterKeepsInv(s: Client, w: nat, id: ActionId)
    requires Inv(s) && Enabled(s, Register(w, id))
    ensures Inv(Do(s, Register(w, id)))
  {
    var s' := DoSender(s, Register(w, id));
    assert forall f, v :: InHand(s', f, v) <==> InHand(s, f, v);
    forall v | v in s'.waiters ensures OwnerIsTrue(s', v) && RecordIsRight(s', v) && NotForgotten(s', v) {
      if v in s.waiters {
        assert OwnerIsTrue(s, v) && RecordIsRight(s, v) && NotForgotten(s, v);
      }
    }
  }

  lemma LeavingKeepsInv(s: Client, w: nat)
    requires Inv(s) && Enabled(s, Leaves(w))
    ensures Inv(Do(s, Leaves(w)))
  {
    var s' := DoSender(s, Leaves(w));
    assert forall f, v :: InHand(s', f, v) <==> InHand(s, f, v);
    assert OwnerIsTrue(s, w);
    forall v | v in s'.waiters ensures OwnerIsTrue(s', v) && RecordIsRight(s', v) && NotForgotten(s', v) {
      assert OwnerIsTrue(s, v) && RecordIsRight(s, v) && NotForgotten(s, v);
    }
  }

  lemma PhaseChangeKeepsInv(s: Client, w: nat, phase: Phase)
    requires Inv(s) && w in s.waiters && !phase.Gone? && !phase.Registered?
    requires phase.Waiting? ==> s.running && s.waiters[w].phase.Registered?
    requires phase.Leaving? && phase.result.Answer? ==> s.waiters[w].response == Some(phase.result.block)
    ensures Inv(Put(s, w, s.waiters[w].(phase := phase)))
  {
    var s' := Put(s, w, s.waiters[w].(phase := phase));
    assert forall f, v :: InHand(s', f, v) <==> InHand(s, f, v);
    forall v | v in s'.waiters ensures OwnerIsTrue(s', v) && RecordIsRight(s', v) && NotForgotten(s', v) {
      assert OwnerIsTrue(s, v) && RecordIsRight(s, v) && NotForgotten(s, v);
    }
  }

  /** The other steps of a sender change nothing but its own phase. */
  lemma SenderStepKeepsInv(s: Client, step: Step)
    requires Inv(s) && Enabled(s, step) && SenderStep(step) && !step.Register? && !step.Leaves?
    ensures Inv(Do(s, step))
  {
    PhaseChangeKeepsInv(s, step.w, DoSender(s, step).waiters[step.w].phase);
  }

  lemma DispatchKeepsInv(s: Client, block: Block)
    requires Inv(s) && Enabled(s, Dispatches(block))
    ensures Inv(DoReader(s, Dispatches(block)))
  {
    var s' := DoReader(s, Dispatches(block));
    assert forall f, w :: InHand(s', f, w) <==> InHand(s, f, w);
    forall w | w in s'.waiters ensures OwnerIsTrue(s', w) && RecordIsRight(s', w) && NotForgotten(s', w) {
      assert OwnerIsTrue(s, w) && RecordIsRight(s, w) && NotForgotten(s, w);
    }
  }

  lemma DeliveryKeepsInv(s: Client, step: Step)
    requires Inv(s) && Enabled(s, step) && (step.Writes? || step.Sets?)
    ensures Inv(DoReader(s, step))
  {
    var s' := DoReader(s, step);
    assert forall f, w :: InHand(s', f, w) <==> InHand(s, f, w);
    forall w | w in s'.waiters ensures OwnerIsTrue(s', w) && RecordIsRight(s', w) && NotForgotten(s', w) {
      assert OwnerIsTrue(s, w) && RecordIsRight(s, w) && NotForgotten(s, w);
    }
  }

  lemma ReaderStepKeepsInv(s: Client, step: Step)
    requires Inv(s) && Enabled(s, step) && ReaderStep(step)
    ensures Inv(Do(s, step))
  {
    if step.Dispatches? {
      DispatchKeepsInv(s, step.block);
    } else {
      DeliveryKeepsInv(s, step);
    }
  }

  lemma EndingKeepsInv(s: Client, step: Step)
    requires Inv(s) && Enabled(s, step) && (step.ReaderEnds? || step.Stops?)
    ensures Inv(Do(s, step))
  {
    var s' := Do(s, step);
    assert s'.failers[step.f].Cleared?;
    forall f, w ensures InHand(s', f, w) <==> InHand(s, f, w) {
    }
    forall w | w in s'.waiters ensures OwnerIsTrue(s', w) && RecordIsRight(s', w) && NotForgotten(s', w) {
      assert OwnerIsTrue(s, w) && RecordIsRight(s, w) && NotForgotten(s, w);
    }
  }

  lemma SweepKeepsInv(s: Client, f: nat)
    requires Inv(s) && Enabled(s, Sweeps(f))
    ensures Inv(Do(s, Sweeps(f)))
  {
    var s' := Do(s, Sweeps(f));
    forall w | w in s.waiters ensures s.waiters[w].owner.TheTable? <==> w in s.pending.Values {
      assert OwnerIsTrue(s, w);
    }
    forall g, w ensures InHand(s', g, w) <==> (if g == f then w in s.pending.Values else InHand(s, g, w)) {
    }
    forall w | w in s'.waiters ensures OwnerIsTrue(s', w) && RecordIsRight(s', w) && NotForgotten(s', w) {
      assert OwnerIsTrue(s, w) && RecordIsRight(s, w) && NotForgotten(s, w);
      assert !InHand(s, f, w);
    }
  }

  lemma FailureKeepsInv(s: Client, step: Step)
    requires Inv(s) && Enabled(s, step) && (step.MarksError? || step.SetsFailed?)
    ensures Inv(Do(s, step))
  {
    var s' := Do(s, step);
    var subject := if step.MarksError? then step.w else s.failers[step.f].marked.value;
    assert InHand(s, step.f, subject);
    forall g, w ensures InHand(s', g, w) <==> InHand(s, g, w) && !(step.SetsFailed? && g == step.f && w == subject) {
    }
    assert !NobodyHasSwept(s);
    forall w | w in s'.waiters ensures OwnerIsTrue(s', w) && RecordIsRight(s', w) && NotForgotten(s', w) {
      assert OwnerIsTrue(s, w) && RecordIsRight(s, w) && NotForgotten(s, w);
    }
  }

  lemma StepKeepsInv(s: Client, step: Step)
    requires Inv(s) && Enabled(s, step)
    ensures Inv(Do(s, step))
  {
    if step.Register? { RegisterKeepsInv(s, step.w, step.id); }
    else if step.Leaves? { LeavingKeepsInv(s, step.w); }
    else if SenderStep(step) { SenderStepKeepsInv(s, step); }
    else if ReaderStep(step) { ReaderStepKeepsInv(s, step); }
    else if step.Sweeps? { SweepKeepsInv(s, step.f); }
    else if step.ReaderEnds? || step.Stops? { EndingKeepsInv(s, step); }
    else { FailureKeepsInv(s, step); }
  }

  /** An interleaving: every step is enabled when its turn comes. */
  predicate Possible(steps: seq<Step>)
  {
    steps != [] ==> Possible(steps[..|steps| - 1]) && Enabled(After(steps[..|steps| - 1]), steps[|steps| - 1])
  }

  function After(steps: seq<Step>): Client
  {
    if steps == [] then CONNECTED else
    var s, last := After(steps[..|steps| - 1]), steps[|steps| - 1];
    if Enabled(s, last) then Do(s, last) else s
  }

  lemma {:induction false} ReachableInv(steps: seq<Step>)
    requires Possible(steps)
    ensures Inv(After(steps))
  {
    if steps != [] {
      ReachableInv(steps[..|steps| - 1]);
      StepKeepsInv(After(steps[..|steps| - 1]), steps[|steps| - 1]);
    }
  }

  /** In every interleaving a waiter gets a response or an error, never both; a response carries
      the ActionID it was registered under; and what a sender returns is its own response. */
  lemma OneOutcomePerWaiter(steps: seq<Step>, w: nat)
    requires Possible(steps) && w in After(steps).waiters
    ensures var waiter := After(steps).waiters[w];
            && !(waiter.response.Some? && waiter.error)
            && (waiter.response.Some? ==>
                  "ActionID" in waiter.response.value && waiter.response.value["ActionID"] == waiter.id)
            && (waiter.ready ==> waiter.response.Some? || waiter.error)
            && (waiter.phase.Leaving? && waiter.phase.result.Answer? ==>
                waiter.response == Some(waiter.phase.result.block))
  {
    ReachableInv(steps);
    assert RecordIsRight(After(steps), w);
  }

  /** A resolved record stays as it is; an unresolved one may be completed. */
  predicate Grows(before: Waiter, after: Waiter)
  {
    && (before.response.Some? ==> after.response == before.response)
    && (before.error ==> after.error)
    && (before.ready ==> after.ready && after.response == before.response && after.error == before.error)
  }

  lemma ReaderOnlyCompletes(s: Client, step: Step, w: nat)
    requires Inv(s) && Enabled(s, step) && ReaderStep(step) && w in s.waiters
    ensures w in DoReader(s, step).waiters && Grows(s.waiters[w], DoReader(s, step).waiters[w])
  {
    assert RecordIsRight(s, w) && OwnerIsTrue(s, w);
  }

  lemma FailerOnlyCompletes(s: Client, step: Step, w: nat)
    requires Inv(s) && Enabled(s, step) && !SenderStep(step) && !ReaderStep(step) && w in s.waiters
    ensures w in DoFailer(s, step).waiters && Grows(s.waiters[w], DoFailer(s, step).waiters[w])
  {
    assert RecordIsRight(s, w) && OwnerIsTrue(s, w);
    if step.MarksError? {
      assert InHand(s, step.f, step.w);
    }
  }

  lemma RecordsOnlyGrow(s: Client, step: Step, w: nat)
    requires Inv(s) && Enabled(s, step) && w in s.waiters
    ensures w in Do(s, step).waiters && Grows(s.waiters[w], Do(s, step).waiters[w])
  {
    if ReaderStep(step) { ReaderOnlyCompletes(s, step, w); }
    else if !SenderStep(step) { FailerOnlyCompletes(s, step, w); }
  }

  /** What was delivered is never replaced, and a failed waiter never gets an answer later. */
  lemma OutcomeIsFinal(steps: seq<Step>, step: Step, w: nat)
    requires Possible(steps) && Enabled(After(steps), step) && w in After(steps).waiters
    ensures w in Do(After(steps), step).waiters
    ensures var before, after := After(steps).waiters[w], Do(After(steps), step).waiters[w];
            && Grows(before, after)
            && (before.response.Some? ==> !after.error)
            && (before.error ==> after.response.None?)
  {
    ReachableInv(steps);
    RecordsOnlyGrow(After(steps), step, w);
    StepKeepsInv(After(steps), step);
    assert RecordIsRight(Do(After(steps), step), w);
  }

  /** Once the reader has ended and any clean-up has swept the table, a sender past the check of `_running` whom
      nobody has in hand any more does not wait unresolved: its event is set. */
  lemma NobodyWaitsAfterTheEnd(steps: seq<Step>, w: nat, f: nat)
    requires Possible(steps) && After(steps).reader.Ended?
    requires f in After(steps).failers && After(steps).failers[f].Failing?
    requires forall g :: !InHand(After(steps), g, w)
    requires IsPhase(After(steps), w, Waiting)
    ensures After(steps).waiters[w].ready
  {
    var s := After(steps);
    ReachableInv(steps);
    assert NotForgotten(s, w) && OwnerIsTrue(s, w);
  }

  /** Before that, whoever still waits unresolved is in the hands of a thread that will resolve
      it, or in the table while no clean-up has swept it. */
  lemma WaitingMeansInSomeonesHands(steps: seq<Step>, w: nat)
    requires Possible(steps) && IsPhase(After(steps), w, Waiting) && !After(steps).waiters[w].ready
    ensures var s := After(steps);
            || (w in s.pending.Values && NobodyHasSwept(s))
            || (s.reader.Holding? && s.reader.waiter == w)
            || (exists f :: InHand(s, f, w))
  {
    var s := After(steps);
    ReachableInv(steps);
    assert NotForgotten(s, w) && OwnerIsTrue(s, w);
    match s.waiters[w].owner
    case TheTable => assert s.pending[s.waiters[w].id] == w;
    case TheFailer(f) => assert InHand(s, f, w);
    case _ =>
  }
}
