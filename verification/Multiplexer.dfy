/** One stdio connection shared by many callers (src/upstream.rs): requests in flight, the
    reader task that routes responses, and what happens when the child goes away.

    Each critical section and each atomic access is one step; steps of different callers and
    of the reader interleave freely. The `Conn` class holds the shared half of a connection,
    and its methods are those sections. */
module Multiplexer {
  import opened Json

  /** A JSON-RPC response: a result or an error object. */
  datatype Reply = Result(result: Value) | Error(error: Value)

  // ----- the state callers and the reader share -----

  datatype Shared = Shared(nextId: nat, pending: set<nat>, dead: bool) {
    function Register(id: nat): Shared { this.(pending := pending + {id}) }
    function Remove(id: nat): Shared { this.(pending := pending - {id}) }
    function MarkDead(): Shared { this.(dead := true) }
    function Drained(): Shared { this.(pending := {}) }
  }

  class Conn {
    var nextId: nat
    var pending: set<nat>
    var dead: bool

    function View(): Shared
      reads this
    {
      Shared(nextId, pending, dead)
    }

    constructor ()
      ensures View() == Shared(0, {}, false)
    {
      nextId := 0;
      pending := {};
      dead := false;
    }

    method AllocateId() returns (id: nat)
      modifies this`nextId
      ensures id == old(nextId) + 1 && View() == old(View()).(nextId := id)
    {
      nextId := nextId + 1;
      id := nextId;
    }

    method Register(id: nat)
      modifies this`pending
      ensures View() == old(View()).Register(id)
    {
      pending := pending + {id};
    }

    /** The reader's lookup and a caller's withdrawal: the slot is gone either way. */
    method Remove(id: nat) returns (waiting: bool)
      modifies this`pending
      ensures waiting == (id in old(pending)) && View() == old(View()).Remove(id)
    {
      waiting := id in pending;
      pending := pending - {id};
    }

    method MarkDead()
      modifies this`dead
      ensures View() == old(View()).MarkDead()
    {
      dead := true;
    }

    method TakeAll() returns (taken: set<nat>)
      modifies this`pending
      ensures taken == old(pending) && View() == old(View()).Drained()
    {
      taken := pending;
      pending := {};
    }
  }

  // ----- callers, the reader, and their steps -----

  /** One caller's reply channel; `k` numbers the responses the reader has read. */
  datatype Channel = Open | Delivered(k: nat) | Dropped

  datatype Outcome = Answered(k: nat) | ClosedStdout | WriteError | TimedOut

  /** Where a call stands between two of its steps. */
  datatype Phase =
    | Allocated
    | Registered
    | WriteFailing
    | Written
    | Closing
    | Waiting
    | Expired
    | Finished(outcome: Outcome)

  datatype Call = Call(phase: Phase, channel: Channel)

  datatype Reader = Reading | Holding(id: nat, k: nat) | Exiting | Marked | Draining(taken: set<nat>) | Gone

  datatype State = State(shared: Shared, reader: Reader, calls: map<nat, Call>, heard: seq<(nat, Reply)>)

  datatype Step =
    | Begin
    | Register(id: nat)
    | WriteOk(id: nat)
    | WriteFail(id: nat)
    | MarkFailed(id: nat)
    | CheckDead(id: nat)
    | Close(id: nat)
    | Receive(id: nat)
    | Expire(id: nat)
    | Abandon(id: nat)
    | Hear(responseId: nat, reply: Reply)
    | Send
    | Stop
    | ReaderMarksDead
    | Drain
    | DropSenders

  const INITIAL := State(Shared(0, {}, false), Reading, map[], [])

  predicate AtPhase(s: State, id: nat, phase: Phase) {
    id in s.calls && s.calls[id].phase == phase
  }

  function Move(s: State, id: nat, phase: Phase): State
    requires id in s.calls
  {
    s.(calls := s.calls[id := s.calls[id].(phase := phase)])
  }

  function DropAll(calls: map<nat, Call>, taken: set<nat>): map<nat, Call> {
    map id | id in calls :: if id in taken && calls[id].channel == Open then calls[id].(channel := Dropped) else calls[id]
  }

  /** A step of a call; nothing happens when the call is not at that point. */
  function CallStep(s: State, step: Step): State {
    match step
    case Register(id) =>
      if AtPhase(s, id, Allocated) then Move(s, id, Registered).(shared := s.shared.Register(id)) else s
    case WriteOk(id) => if AtPhase(s, id, Registered) then Move(s, id, Written) else s
    case WriteFail(id) =>
      if AtPhase(s, id, Registered) then Move(s, id, WriteFailing).(shared := s.shared.Remove(id)) else s
    case MarkFailed(id) =>
      if AtPhase(s, id, WriteFailing) then Move(s, id, Finished(WriteError)).(shared := s.shared.MarkDead()) else s
    case CheckDead(id) =>
      if AtPhase(s, id, Written) then Move(s, id, if s.shared.dead then Closing else Waiting) else s
    case Close(id) =>
      if AtPhase(s, id, Closing) then Move(s, id, Finished(ClosedStdout)).(shared := s.shared.Remove(id)) else s
    case Receive(id) =>
      if AtPhase(s, id, Waiting) && s.calls[id].channel != Open then
        Move(s, id, Finished(if s.calls[id].channel.Delivered? then Answered(s.calls[id].channel.k) else ClosedStdout))
      else s
    case Expire(id) => if AtPhase(s, id, Waiting) then Move(s, id, Expired) else s
    case Abandon(id) =>
      if AtPhase(s, id, Expired) then Move(s, id, Finished(TimedOut)).(shared := s.shared.Remove(id)) else s
    case _ => s
  }

  /** A step of the reader. A response without a waiter is read and forgotten. */
  function ReaderStep(s: State, step: Step): State {
    match step
    case Hear(id, reply) =>
      if s.reader != Reading then s else
        var s' := s.(heard := s.heard + [(id, reply)]);
        if id in s.shared.pending then s'.(shared := s.shared.Remove(id), reader := Holding(id, |s.heard|)) else s'
    case Send =>
      if !s.reader.Holding? then s else
        var s', id := s.(reader := Reading), s.reader.id;
        if id in s.calls && s.calls[id].channel == Open && !s.calls[id].phase.Finished?
        then s'.(calls := s.calls[id := s.calls[id].(channel := Delivered(s.reader.k))])
        else s'
    case Stop => if s.reader == Reading then s.(reader := Exiting) else s
    case ReaderMarksDead => if s.reader == Exiting then s.(shared := s.shared.MarkDead(), reader := Marked) else s
    case Drain => if s.reader == Marked then s.(shared := s.shared.Drained(), reader := Draining(s.shared.pending)) else s
    case DropSenders => if s.reader.Draining? then s.(calls := DropAll(s.calls, s.reader.taken), reader := Gone) else s
    case _ => s
  }

  predicate IsReaderStep(step: Step) {
    step.Hear? || step.Send? || step.Stop? || step.ReaderMarksDead? || step.Drain? || step.DropSenders?
  }

  function Next(s: State, step: Step): State {
    if step.Begin? then
      var id := s.shared.nextId + 1;
      s.(shared := s.shared.(nextId := id), calls := s.calls[id := Call(Allocated, Open)])
    else if IsReaderStep(step) then ReaderStep(s, step)
    else CallStep(s, step)
  }

  ghost function Run(s: State, steps: seq<Step>): State {
    if steps == [] then s else Next(Run(s, steps[..|steps| - 1]), steps[|steps| - 1])
  }

  // ----- the invariant -----

  predicate InFlight(phase: Phase) {
    phase == Registered || phase == Written || phase == Closing || phase == Waiting || phase == Expired
  }

  /** Somebody still holds the sending half of this call's channel. */
  predicate HasSender(s: State, id: nat) {
    id in s.shared.pending || (s.reader.Holding? && s.reader.id == id) || (s.reader.Draining? && id in s.reader.taken)
  }

  /** What holds of each call. */
  ghost predicate CallOk(s: State, id: nat)
    requires id in s.calls
  {
    var c := s.calls[id];
    && id <= s.shared.nextId
    && (id in s.shared.pending ==> InFlight(c.phase))
    && (HasSender(s, id) ==> c.channel == Open && c.phase != Allocated)
    && (InFlight(c.phase) && c.channel == Open ==> HasSender(s, id))
    && (c.phase == Allocated ==> c.channel == Open)
    && (c.channel.Delivered? ==> c.channel.k < |s.heard| && s.heard[c.channel.k].0 == id)
    && (c.phase.Finished? && c.phase.outcome.Answered? ==> c.channel == Delivered(c.phase.outcome.k))
    && (s.reader.Draining? || s.reader.Gone? ==> id in s.shared.pending ==> c.phase != Waiting && c.phase != Expired)
  }

  ghost predicate SharedOk(s: State) {
    && (forall id :: id in s.shared.pending ==> id in s.calls)
    && (s.reader.Holding? ==> s.reader.id in s.calls && s.reader.id !in s.shared.pending
                              && s.reader.k < |s.heard| && s.heard[s.reader.k].0 == s.reader.id)
    && (s.reader.Draining? ==> forall id :: id in s.reader.taken ==> id in s.calls && id !in s.shared.pending)
    && (s.reader.Marked? || s.reader.Draining? || s.reader.Gone? ==> s.shared.dead)
  }

  ghost predicate Inv(s: State) {
    SharedOk(s) && forall id :: id in s.calls ==> CallOk(s, id)
  }

  lemma BeginKeepsInv(s: State)
    requires Inv(s)
    ensures Inv(Next(s, Begin))
  {
    var s' := Next(s, Begin);
    var newId := s.shared.nextId + 1;
    forall id | id in s.calls ensures id < newId { assert CallOk(s, id); }
    forall id | id in s'.calls ensures CallOk(s', id) {
      if id in s.calls { assert CallOk(s, id); }
    }
  }

  /** A call's step keeps its own call in order … */
  lemma OwnCallStaysOk(s: State, step: Step)
    requires Inv(s) && !step.Begin? && !IsReaderStep(step) && step.id in s.calls
    ensures CallOk(CallStep(s, step), step.id)
  {
    assert CallOk(s, step.id);
  }

  /** … and every other one. */
  lemma OtherCallStaysOk(s: State, step: Step, id: nat)
    requires Inv(s) && !step.Begin? && !IsReaderStep(step) && id in s.calls && id != step.id
    ensures var s' := CallStep(s, step); id in s'.calls && CallOk(s', id)
  {
    assert CallOk(s, id);
    var s' := CallStep(s, step);
    assert s'.calls[id] == s.calls[id] && (id in s'.shared.pending <==> id in s.shared.pending);
    assert s'.reader == s.reader && s'.heard == s.heard && s'.shared.nextId == s.shared.nextId;
    hide CallStep;
    assert HasSender(s', id) == HasSender(s, id);
  }

  lemma CallStepKeepsShared(s: State, step: Step)
    requires Inv(s) && !step.Begin? && !IsReaderStep(step)
    ensures SharedOk(CallStep(s, step)) && CallStep(s, step).calls.Keys == s.calls.Keys
  {
    if step.id in s.calls { assert CallOk(s, step.id); }
  }

  lemma CallStepKeepsInv(s: State, step: Step)
    requires Inv(s) && !step.Begin? && !IsReaderStep(step)
    ensures Inv(CallStep(s, step))
  {
    CallStepKeepsShared(s, step);
    var s' := CallStep(s, step);
    hide CallOk, SharedOk, CallStep;
    forall id | id in s'.calls ensures CallOk(s', id) {
      assert id in s'.calls.Keys;
      if id == step.id { OwnCallStaysOk(s, step); } else { OtherCallStaysOk(s, step, id); }
    }
  }

  lemma ReaderStepKeepsInv(s: State, step: Step)
    requires Inv(s) && IsReaderStep(step)
    ensures Inv(Next(s, step))
  {
    var s' := ReaderStep(s, step);
    forall id | id in s'.calls ensures CallOk(s', id) {
      assert CallOk(s, id);
    }
  }

  lemma StepKeepsInv(s: State, step: Step)
    requires Inv(s)
    ensures Inv(Next(s, step))
  {
    if step.Begin? {
      BeginKeepsInv(s);
    } else if IsReaderStep(step) {
      ReaderStepKeepsInv(s, step);
    } else {
      CallStepKeepsInv(s, step);
    }
  }

  lemma {:induction false} RunKeepsInv(steps: seq<Step>)
    ensures Inv(Run(INITIAL, steps))
  {
    if steps != [] {
      RunKeepsInv(steps[..|steps| - 1]);
      StepKeepsInv(Run(INITIAL, steps[..|steps| - 1]), steps[|steps| - 1]);
    }
  }

  // ----- nobody waits for a reader that is gone -----

  /** In every interleaving, once the reader has exited: a call that waits has its answer or
      its failure in hand, and an id still pending belongs to a caller that has yet to look
      at `dead`, or has looked and is withdrawing. */
  lemma NobodyLeftWaiting(steps: seq<Step>, id: nat)
    requires var s := Run(INITIAL, steps); s.reader == Gone && id in s.calls
    ensures var s := Run(INITIAL, steps);
      && (s.calls[id].phase == Waiting ==> s.calls[id].channel != Open)
      && (id in s.shared.pending ==> s.calls[id].phase in {Registered, Written, Closing})
      && (s.calls[id].phase == Written ==> Next(s, CheckDead(id)).calls[id].phase == Closing)
  {
    RunKeepsInv(steps);
    assert CallOk(Run(INITIAL, steps), id);
  }

  /** The next step a caller takes by itself, without its timer. */
  function OwnStep(s: State, id: nat): Step
    requires id in s.calls
  {
    match s.calls[id].phase
    case Allocated => Register(id)
    case Registered => WriteOk(id)
    case WriteFailing => MarkFailed(id)
    case Written => CheckDead(id)
    case Closing => Close(id)
    case Waiting => Receive(id)
    case Expired => Abandon(id)
    case Finished(_) => Receive(id)
  }

  function Distance(phase: Phase): nat {
    match phase
    case Allocated => 4
    case Registered => 3
    case Written => 2
    case Finished(_) => 0
    case _ => 1
  }

  /** How many steps of a run are the call's own next one, as it then stands. */
  ghost function OwnSteps(s: State, steps: seq<Step>, id: nat): nat
    decreases |steps|
  {
    if steps == [] then 0 else
      var before := steps[..|steps| - 1];
      var m := Run(s, before);
      OwnSteps(s, before, id) + if id in m.calls && steps[|steps| - 1] == OwnStep(m, id) then 1 else 0
  }

  /** With the reader gone no step at all takes a call further from its end, and its own step
      takes it nearer. */
  lemma NoStepGoesBack(s: State, step: Step, id: nat)
    requires Inv(s) && s.reader == Gone && id in s.calls
    ensures var s' := Next(s, step);
      && s'.reader == Gone && id in s'.calls && Distance(s'.calls[id].phase) <= Distance(s.calls[id].phase)
      && (step == OwnStep(s, id) && !s.calls[id].phase.Finished? ==> Distance(s'.calls[id].phase) < Distance(s.calls[id].phase))
  {
    assert CallOk(s, id);
    assert id <= s.shared.nextId;
  }

  /** Once the reader is gone, a call is finished in every continuation that gives it four
      turns, whoever else moves in between and whether or not its timer goes off. */
  lemma {:induction false} FourTurnsFinish(s: State, steps: seq<Step>, id: nat)
    requires Inv(s) && s.reader == Gone && id in s.calls
    ensures var s' := Run(s, steps);
      && Inv(s') && s'.reader == Gone && id in s'.calls
      && (Distance(s'.calls[id].phase) + OwnSteps(s, steps, id) <= Distance(s.calls[id].phase) || s'.calls[id].phase.Finished?)
    ensures OwnSteps(s, steps, id) >= 4 ==> Run(s, steps).calls[id].phase.Finished?
    decreases |steps|
  {
    if steps != [] {
      hide Next, Inv, OwnStep, CallOk;
      var n := |steps| - 1;
      FourTurnsFinish(s, steps[..n], id);
      var m := Run(s, steps[..n]);
      StepKeepsInv(m, steps[n]);
      NoStepGoesBack(m, steps[n], id);
    }
  }

  /** Every step of a run is the call's own next one. */
  ghost predicate AllOwn(s: State, steps: seq<Step>, id: nat)
    decreases |steps|
  {
    steps == [] || (id in s.calls && steps[0] == OwnStep(s, id) && AllOwn(Next(s, steps[0]), steps[1..], id))
  }

  /** And it has those turns to take: at most four steps of its own, with no timeout, bring it
      to its end without anybody else. */
  lemma {:induction false} CallFinishesAlone(s: State, id: nat) returns (steps: seq<Step>)
    requires Inv(s) && s.reader == Gone && id in s.calls
    ensures |steps| <= Distance(s.calls[id].phase) && (forall step :: step in steps ==> !step.Expire? && !IsReaderStep(step))
    ensures AllOwn(s, steps, id)
    ensures var s' := Run(s, steps); id in s'.calls && s'.calls[id].phase.Finished?
    decreases Distance(s.calls[id].phase)
  {
    if s.calls[id].phase.Finished? {
      steps := [];
    } else {
      hide Next, Inv;
      var step := OwnStep(s, id);
      OwnStepAdvances(s, id);
      StepKeepsInv(s, step);
      var rest := CallFinishesAlone(Next(s, step), id);
      steps := [step] + rest;
      RunFrom(s, step, rest);
    }
  }

  lemma OwnStepAdvances(s: State, id: nat)
    requires Inv(s) && s.reader == Gone && id in s.calls && !s.calls[id].phase.Finished?
    ensures var step, s' := OwnStep(s, id), Next(s, OwnStep(s, id));
      && !step.Expire? && !IsReaderStep(step) && s'.reader == Gone
      && id in s'.calls && Distance(s'.calls[id].phase) < Distance(s.calls[id].phase)
  {
    assert CallOk(s, id);
  }

  lemma {:induction false} RunFrom(s: State, step: Step, rest: seq<Step>)
    ensures Run(s, [step] + rest) == Run(Next(s, step), rest)
    decreases |rest|
  {
    if rest == [] {
      assert [step][..0] == [];
    } else {
      var n := |rest| - 1;
      RunFrom(s, step, rest[..n]);
      assert ([step] + rest)[..n + 1] == [step] + rest[..n];
    }
  }

  // ----- each response resolves its own call, once -----

  /** An answered call got a response that carried its id, and two calls never share one. */
  lemma AnswersBelongToTheirCalls(steps: seq<Step>, id: nat, id': nat)
    requires var s := Run(INITIAL, steps); id in s.calls && id' in s.calls
    ensures var s := Run(INITIAL, steps);
      && (forall k: nat :: s.calls[id].phase == Finished(Answered(k)) ==> k < |s.heard| && s.heard[k].0 == id)
      && (forall k: nat :: s.calls[id].phase == Finished(Answered(k)) && s.calls[id'].phase == Finished(Answered(k)) ==> id == id')
  {
    var s := Run(INITIAL, steps);
    RunKeepsInv(steps);
    assert CallOk(s, id) && CallOk(s, id');
  }

  /** The slot of `id` was taken and is gone. */
  predicate SlotGone(s: State, id: nat) {
    id in s.calls && s.calls[id].phase != Allocated && id !in s.shared.pending
  }

  /** From `s` to `s'` the slot stays gone, and what was decided about the call stands. */
  predicate StaysDecided(s: State, s': State, id: nat)
    requires SlotGone(s, id)
  {
    && SlotGone(s', id)
    && (s.calls[id].phase.Finished? ==> s'.calls[id].phase == s.calls[id].phase)
    && (s.calls[id].channel.Delivered? ==> s'.calls[id].channel == s.calls[id].channel)
  }

  lemma StepStaysDecided(s: State, step: Step, id: nat)
    requires Inv(s) && SlotGone(s, id)
    ensures StaysDecided(s, Next(s, step), id)
  {
    assert CallOk(s, id);
  }

  /** Once a call's slot is gone it never comes back, and an outcome, once reached, stands. */
  lemma {:induction false} SlotsAreNotReused(steps: seq<Step>, more: seq<Step>, id: nat)
    requires SlotGone(Run(INITIAL, steps), id)
    ensures StaysDecided(Run(INITIAL, steps), Run(INITIAL, steps + more), id)
    decreases |more|
  {
    if more == [] {
      assert steps + more == steps;
    } else {
      hide *;
      var n := |more| - 1;
      SlotsAreNotReused(steps, more[..n], id);
      RunMore(steps, more);
      RunKeepsInv(steps + more[..n]);
      var s, m := Run(INITIAL, steps), Run(INITIAL, steps + more[..n]);
      DecidedIsGone(s, m, id);
      StepStaysDecided(m, more[n], id);
      DecidedTransitive(s, m, Next(m, more[n]), id);
    }
  }

  lemma RunMore(steps: seq<Step>, more: seq<Step>)
    requires more != []
    ensures Run(INITIAL, steps + more) == Next(Run(INITIAL, steps + more[..|more| - 1]), more[|more| - 1])
  {
    assert (steps + more)[..|steps| + |more| - 1] == steps + more[..|more| - 1];
  }

  lemma DecidedIsGone(s: State, s': State, id: nat)
    requires SlotGone(s, id) && StaysDecided(s, s', id)
    ensures SlotGone(s', id)
  {}

  lemma DecidedTransitive(s: State, m: State, s': State, id: nat)
    requires SlotGone(s, id) && SlotGone(m, id) && StaysDecided(s, m, id) && StaysDecided(m, s', id)
    ensures StaysDecided(s, s', id)
  {}

  /** So a late or repeated response is read and forgotten, at any later time. */
  lemma LateResponseForgotten(steps: seq<Step>, more: seq<Step>, id: nat, reply: Reply)
    requires SlotGone(Run(INITIAL, steps), id)
    ensures var s := Run(INITIAL, steps + more);
      s.reader == Reading ==> Next(s, Hear(id, reply)) == s.(heard := s.heard + [(id, reply)])
  {
    SlotsAreNotReused(steps, more, id);
  }
}
