/** Respawning a stdio upstream whose child has died (`Upstream::connection` in
    src/upstream.rs): a fast path, one caller at a time inside, a second look, and a
    crash-loop guard of one second between starts.

    Connections are numbered; instants are milliseconds on a clock that does not go back. */
module Respawn {
  import opened Json

  const MIN_RESPAWN_INTERVAL: nat := 1000

  datatype Phase = Queued | Inside | Spawning | Got(conn: nat) | TooSoon | SpawnFailed

  datatype State = State(
    now: nat,
    lastSpawn: nat,
    installed: nat,
    dead: set<nat>,
    flight: Option<nat>,
    callers: map<nat, Phase>,
    nextConn: nat,
    retried: bool,
    starts: seq<nat>,
    childStarts: seq<nat>)

  datatype Step =
    | Tick(dt: nat)
    | Die(conn: nat)
    | Enter(c: nat)
    | Acquire(c: nat)
    | Decide(c: nat)
    | StartAgain(c: nat)
    | Finish(c: nat, ok: bool)

  /** The first connection is up at instant 0. Its child was started then or before, which can
      only lengthen the time to the next start. */
  const INITIAL := State(0, 0, 0, {}, None, map[], 1, false, [0], [0])

  predicate Live(s: State) { s.installed !in s.dead }

  predicate AtPhase(s: State, c: nat, phase: Phase) { c in s.callers && s.callers[c] == phase }

  function Move(s: State, c: nat, phase: Phase): State { s.(callers := s.callers[c := phase]) }

  /** `starts` records the first spawn and each decision to respawn; `childStarts` each process
      started for one. A legacy child found dead before its handshake is started once more. */
  function Next(legacy: bool, s: State, step: Step): State {
    match step
    case Tick(dt) => s.(now := s.now + dt)
    case Die(conn) => if conn < s.nextConn then s.(dead := s.dead + {conn}) else s
    case Enter(c) =>
      if c in s.callers then s
      else if Live(s) then Move(s, c, Got(s.installed)) else Move(s, c, Queued)
    case Acquire(c) =>
      if AtPhase(s, c, Queued) && s.flight.None? then Move(s, c, Inside).(flight := Some(c)) else s
    case Decide(c) =>
      if !AtPhase(s, c, Inside) then s
      else if Live(s) then Move(s, c, Got(s.installed)).(flight := None)
      else if s.now < s.lastSpawn + MIN_RESPAWN_INTERVAL then Move(s, c, TooSoon).(flight := None)
      else Move(s, c, Spawning).(lastSpawn := s.now, retried := false, starts := s.starts + [s.now], childStarts := s.childStarts + [s.now])
    case StartAgain(c) =>
      if AtPhase(s, c, Spawning) && legacy && !s.retried
      then s.(retried := true, childStarts := s.childStarts + [s.now]) else s
    case Finish(c, ok) =>
      if !AtPhase(s, c, Spawning) then s
      else if ok then Move(s, c, Got(s.nextConn)).(installed := s.nextConn, nextConn := s.nextConn + 1, flight := None)
      else Move(s, c, SpawnFailed).(flight := None)
  }

  ghost function Run(legacy: bool, steps: seq<Step>): State {
    if steps == [] then INITIAL
    else Next(legacy, Run(legacy, steps[..|steps| - 1]), steps[|steps| - 1])
  }

  ghost predicate Spaced(times: seq<nat>) {
    forall i, j :: 0 <= i < j < |times| ==> times[j] >= times[i] + MIN_RESPAWN_INTERVAL
  }

  /** Who may be where. */
  ghost predicate CallersOk(s: State) {
    && (forall c :: c in s.callers && (s.callers[c] == Inside || s.callers[c] == Spawning) ==> s.flight == Some(c))
    && (forall c :: c in s.callers && s.callers[c] == Spawning ==> !Live(s) && s.starts != [])
    && s.installed < s.nextConn
  }

  /** What has been started when. */
  ghost predicate TimesOk(legacy: bool, s: State) {
    && s.lastSpawn <= s.now
    && Spaced(s.starts) && (forall i :: 0 <= i < |s.starts| ==> s.starts[i] <= s.lastSpawn)
    && (!legacy ==> s.childStarts == s.starts)
    && |s.childStarts| <= 2 * |s.starts|
    && (!s.retried && s.starts != [] ==> |s.childStarts| <= 2 * |s.starts| - 1)
  }

  ghost predicate Inv(legacy: bool, s: State) {
    CallersOk(s) && TimesOk(legacy, s)
  }

  lemma StepKeepsCallersOk(legacy: bool, s: State, step: Step)
    requires Inv(legacy, s)
    ensures CallersOk(Next(legacy, s, step))
  {}

  lemma StepKeepsTimesOk(legacy: bool, s: State, step: Step)
    requires Inv(legacy, s)
    ensures TimesOk(legacy, Next(legacy, s, step))
  {
    if step.Decide? {
      DecideKeepsTimesOk(legacy, s, step.c);
    } else if step.StartAgain? {
    } else {
      hide Spaced;
    }
  }

  lemma DecideKeepsTimesOk(legacy: bool, s: State, c: nat)
    requires Inv(legacy, s)
    ensures TimesOk(legacy, Next(legacy, s, Decide(c)))
  {
    hide CallersOk;
  }

  lemma StepKeepsInv(legacy: bool, s: State, step: Step)
    requires Inv(legacy, s)
    ensures Inv(legacy, Next(legacy, s, step))
  {
    StepKeepsCallersOk(legacy, s, step);
    StepKeepsTimesOk(legacy, s, step);
  }

  lemma {:induction false} RunKeepsInv(legacy: bool, steps: seq<Step>)
    ensures Inv(legacy, Run(legacy, steps))
  {
    if steps != [] {
      RunKeepsInv(legacy, steps[..|steps| - 1]);
      StepKeepsInv(legacy, Run(legacy, steps[..|steps| - 1]), steps[|steps| - 1]);
    }
  }

  /** However callers interleave: at most one is spawning, the connection it will replace is
      dead, and any two spawns start at least a second apart. */
  lemma RespawnsAreExclusiveAndSpaced(legacy: bool, steps: seq<Step>)
    ensures var s := Run(legacy, steps);
      && (forall c, c' :: AtPhase(s, c, Spawning) && AtPhase(s, c', Spawning) ==> c == c')
      && (forall c, ok :: AtPhase(s, c, Spawning) && Next(legacy, s, Finish(c, ok)).installed != s.installed ==> s.installed in s.dead)
      && Spaced(s.starts) && |s.childStarts| <= 2 * |s.starts|
  {
    RunKeepsInv(legacy, steps);
  }

  /** Connection `n` is installed, and nobody is about to replace it. */
  ghost predicate Settled(s: State, n: nat, starts: nat) {
    && s.installed == n && (forall c :: !AtPhase(s, c, Spawning))
    && |s.starts| == starts && n < s.nextConn
  }

  lemma StepKeepsSettled(legacy: bool, s: State, step: Step, n: nat, starts: nat)
    requires Inv(legacy, s) && Settled(s, n, starts) && n !in s.dead
    ensures Settled(Next(legacy, s, step), n, starts)
  {}

  lemma DeadStaysDead(legacy: bool, s: State, step: Step)
    ensures s.dead <= Next(legacy, s, step).dead
  {}

  lemma {:induction false} RunStaysSettled(legacy: bool, steps: seq<Step>, i: nat, n: nat, starts: nat)
    requires i <= |steps| && Settled(Run(legacy, steps[..i]), n, starts) && n !in Run(legacy, steps).dead
    ensures Settled(Run(legacy, steps), n, starts)
    decreases |steps|
  {
    if i == |steps| {
      assert steps[..i] == steps;
    } else {
      hide Settled, Next, Inv;
      var m := |steps| - 1;
      assert steps[..m][..i] == steps[..i];
      DeadStaysDead(legacy, Run(legacy, steps[..m]), steps[m]);
      RunKeepsInv(legacy, steps[..m]);
      RunStaysSettled(legacy, steps[..m], i, n, starts);
      StepKeepsSettled(legacy, Run(legacy, steps[..m]), steps[m], n, starts);
    }
  }

  lemma FinishSettles(legacy: bool, s: State, c: nat)
    requires Inv(legacy, s) && AtPhase(s, c, Spawning)
    ensures Settled(Next(legacy, s, Finish(c, true)), s.nextConn, |s.starts|)
  {}

  /** A respawn is shared. Say that in some run caller `c` installs a connection at step `i`
      and that, any number of steps of anybody later, a caller inside decides while that
      connection lives: it takes the connection, and nothing was spawned since. */
  lemma QueuedCallersShareTheRespawn(legacy: bool, steps: seq<Step>, i: nat, c: nat, j: nat, waiter: nat)
    requires i < j < |steps| && steps[i] == Finish(c, true) && steps[j] == Decide(waiter)
    requires AtPhase(Run(legacy, steps[..i]), c, Spawning) && AtPhase(Run(legacy, steps[..j]), waiter, Inside)
    requires Run(legacy, steps[..i]).nextConn !in Run(legacy, steps[..j]).dead
    ensures var conn := Run(legacy, steps[..i]).nextConn;
      var after := Run(legacy, steps[..j + 1]);
      && AtPhase(after, waiter, Got(conn)) && after.installed == conn
      && |after.starts| == |Run(legacy, steps[..i]).starts|
  {
    var s, before := Run(legacy, steps[..i]), Run(legacy, steps[..j]);
    RunKeepsInv(legacy, steps[..i]);
    assert steps[..i + 1][..i] == steps[..i] && steps[..j + 1][..j] == steps[..j] && steps[..j][..i + 1] == steps[..i + 1];
    FinishSettles(legacy, s, c);
    RunStaysSettled(legacy, steps[..j], i + 1, s.nextConn, |s.starts|);
    assert Run(legacy, steps[..j + 1]) == Next(legacy, before, Decide(waiter));
  }

  /** The guard counts respawns, not processes: processes start a second apart in every run
      exactly when no child is a legacy one, which may be started twice in one respawn. */
  lemma ChildStartsSpacedIffModern(legacy: bool)
    ensures (forall steps :: Spaced(Run(legacy, steps).childStarts)) <==> !legacy
  {
    if legacy {
      var steps := [Tick(1000), Die(0), Enter(7), Acquire(7), Decide(7), StartAgain(7)];
      DoubleStart();
      var times := Run(legacy, steps).childStarts;
      assert times[2] < times[1] + MIN_RESPAWN_INTERVAL;
    } else {
      forall steps ensures Spaced(Run(legacy, steps).childStarts) { RunKeepsInv(legacy, steps); }
    }
  }

  lemma DoubleStart()
    ensures Run(true, [Tick(1000), Die(0), Enter(7), Acquire(7), Decide(7), StartAgain(7)]).childStarts == [0, 1000, 1000]
  {
    var steps := [Tick(1000), Die(0), Enter(7), Acquire(7), Decide(7), StartAgain(7)];
    assert steps[..6] == steps;
    hide Run;
    UpTo(steps, 0); UpTo(steps, 1); UpTo(steps, 2);
    var queued := Run(true, steps[..3]);
    assert queued == INITIAL.(now := 1000, dead := {0}, callers := map[7 := Queued]) by { NothingYet(steps); }
    UpTo(steps, 3); UpTo(steps, 4); UpTo(steps, 5);
    assert Run(true, steps[..5]).childStarts == [0, 1000];
  }

  lemma NothingYet(steps: seq<Step>)
    ensures Run(true, steps[..0]) == INITIAL
  {}

  lemma UpTo(steps: seq<Step>, n: nat)
    requires n < |steps|
    ensures Run(true, steps[..n + 1]) == Next(true, Run(true, steps[..n]), steps[n])
  {
    assert steps[..n + 1][..n] == steps[..n];
  }
}
