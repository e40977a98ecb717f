/** The per-tool circuit breaker (src/surface/breaker.rs), over every order of checks and
    results.

    Instants are nanoseconds. Results may come late, twice or never, and nothing is assumed
    about the clock unless a lemma says so. */
module Breaker {
  import opened Json

  const SECOND: nat := 1_000_000_000
  const STALE_PROBE_AFTER: nat := 180 * SECOND
  const YEAR: nat := 60 * 60 * 24 * 365 * SECOND
  const U32_MAX: nat := 0xFFFF_FFFF

  datatype Config = Config(consecutiveFailures: nat, cooldownS: nat)

  datatype Decision = Allow(probe: bool) | Block(failures: nat, retryInS: nat)

  datatype State = State(consecutive: nat, openUntil: Option<nat>, probeStarted: Option<nat>)

  const INITIAL := State(0, None, None)

  // ----- one event -----

  function Later(now: nat, since: nat): nat { if now >= since then now - since else 0 }

  function AtLeastOne(n: nat): nat { if n >= 1 then n else 1 }

  function Check(s: State, now: nat): (State, Decision) {
    match s.openUntil
    case None => (s, Allow(false))
    case Some(until) =>
      if now < until then (s, Block(s.consecutive, AtLeastOne((until - now) / SECOND)))
      else if s.probeStarted.Some? && Later(now, s.probeStarted.value) < STALE_PROBE_AFTER then (s, Block(s.consecutive, 1))
      else (s.(probeStarted := Some(now)), Allow(true))
  }

  /** When a breaker opened at `now` may probe; `horizon` is the last instant the clock can
      represent. */
  function ReopensAt(cfg: Config, now: nat, horizon: nat): nat {
    if now + cfg.cooldownS * SECOND <= horizon then now + cfg.cooldownS * SECOND else now + YEAR
  }

  function SaturatingIncrement(n: nat): nat { if n < U32_MAX then n + 1 else U32_MAX }

  function OnResult(s: State, cfg: Config, isError: bool, wasProbe: bool, now: nat, horizon: nat): State {
    var probe := if wasProbe then None else s.probeStarted;
    if !isError then State(0, None, probe)
    else
      var count := SaturatingIncrement(s.consecutive);
      State(count, if wasProbe || count >= cfg.consecutiveFailures then Some(ReopensAt(cfg, now, horizon)) else s.openUntil, probe)
  }

  class BreakerState {
    var consecutive: nat
    var openUntil: Option<nat>
    var probeStarted: Option<nat>

    function View(): State
      reads this
    {
      State(consecutive, openUntil, probeStarted)
    }

    constructor ()
      ensures View() == INITIAL
    {
      consecutive := 0;
      openUntil := None;
      probeStarted := None;
    }

    method CheckCall(now: nat) returns (d: Decision)
      modifies this`probeStarted
      ensures (View(), d) == Check(old(View()), now)
    {
      if openUntil.None? { return Allow(false); }
      var until := openUntil.value;
      if now < until { return Block(consecutive, AtLeastOne((until - now) / SECOND)); }
      if probeStarted.Some? {
        var stale := Later(now, probeStarted.value) >= STALE_PROBE_AFTER;
        if !stale { return Block(consecutive, 1); }
      }
      probeStarted := Some(now);
      d := Allow(true);
    }

    method RecordResult(cfg: Config, isError: bool, wasProbe: bool, now: nat, horizon: nat)
      modifies this
      ensures View() == OnResult(old(View()), cfg, isError, wasProbe, now, horizon)
    {
      if wasProbe { probeStarted := None; }
      if !isError {
        consecutive := 0;
        openUntil := None;
        return;
      }
      consecutive := SaturatingIncrement(consecutive);
      if wasProbe || consecutive >= cfg.consecutiveFailures {
        openUntil := Some(ReopensAt(cfg, now, horizon));
      }
    }
  }

  // ----- runs -----

  datatype Event = CheckEvent(now: nat) | ResultEvent(isError: bool, wasProbe: bool, now: nat)

  function Next(s: State, cfg: Config, e: Event, horizon: nat): State {
    match e
    case CheckEvent(now) => Check(s, now).0
    case ResultEvent(isError, wasProbe, now) => OnResult(s, cfg, isError, wasProbe, now, horizon)
  }

  ghost function Run(cfg: Config, events: seq<Event>, horizon: nat): State {
    if events == [] then INITIAL
    else Next(Run(cfg, events[..|events| - 1], horizon), cfg, events[|events| - 1], horizon)
  }

  /** Error results since the last success. */
  ghost function ErrorStreak(events: seq<Event>): nat {
    if events == [] then 0 else
      var before, e := ErrorStreak(events[..|events| - 1]), events[|events| - 1];
      if e.CheckEvent? then before else if e.isError then before + 1 else 0
  }

  /** In every reachable state the counter is the streak of errors, saturated, and a closed
      breaker is short of its threshold (a threshold of zero acts as one). */
  lemma {:induction false} ClosedMeansBelowThreshold(cfg: Config, events: seq<Event>, horizon: nat)
    ensures var s := Run(cfg, events, horizon);
      && s.consecutive == (if ErrorStreak(events) <= U32_MAX then ErrorStreak(events) else U32_MAX)
      && (s.openUntil.None? ==> s.consecutive < AtLeastOne(cfg.consecutiveFailures))
  {
    if events != [] { ClosedMeansBelowThreshold(cfg, events[..|events| - 1], horizon); }
  }

  /** Exactly when a call is let through, and exactly when it is the probe. */
  lemma AllowedIff(s: State, now: nat)
    ensures Check(s, now).1.Allow? <==>
      s.openUntil.None? ||
      (now >= s.openUntil.value && (s.probeStarted.None? || now >= s.probeStarted.value + STALE_PROBE_AFTER))
    ensures Check(s, now).1 == Allow(true) <==> Check(s, now).1.Allow? && s.openUntil.Some?
  {}

  predicate GrantsProbe(s: State, e: Event) {
    e.CheckEvent? && Check(s, e.now).1 == Allow(true)
  }

  ghost predicate ProbeResultBetween(events: seq<Event>, i: nat, j: nat) {
    exists k :: i < k < j <= |events| && events[k].ResultEvent? && events[k].wasProbe
  }

  /** After a grant and until a probe reports, the slot holds a start no earlier than the
      grant. */
  lemma {:induction false} SlotStaysClaimed(cfg: Config, events: seq<Event>, horizon: nat, i: nat, j: nat)
    requires i < j <= |events| && GrantsProbe(Run(cfg, events[..i], horizon), events[i])
    requires !ProbeResultBetween(events, i, j)
    ensures var s := Run(cfg, events[..j], horizon); s.probeStarted.Some? && s.probeStarted.value >= events[i].now
    decreases j
  {
    var m := j - 1;
    assert events[..j][..m] == events[..m] && events[..j][m] == events[m];
    if i < m {
      SlotStaysClaimed(cfg, events, horizon, i, m);
    }
  }

  /** Two probes with no probe result between them start at least 180 s apart, whatever else
      happened and whatever order the clock readings came in. */
  lemma ProbesSpaced(cfg: Config, events: seq<Event>, horizon: nat, i: nat, j: nat)
    requires i < j < |events|
    requires GrantsProbe(Run(cfg, events[..i], horizon), events[i]) && GrantsProbe(Run(cfg, events[..j], horizon), events[j])
    requires !ProbeResultBetween(events, i, j)
    ensures events[j].now >= events[i].now + STALE_PROBE_AFTER
  {
    SlotStaysClaimed(cfg, events, horizon, i, j);
  }

  // ----- an open breaker stays open for its cooldown -----

  predicate Trips(s: State, cfg: Config, e: Event) {
    e.ResultEvent? && e.isError && (e.wasProbe || SaturatingIncrement(s.consecutive) >= cfg.consecutiveFailures)
  }

  ghost predicate SuccessBetween(events: seq<Event>, i: nat, j: nat) {
    exists k :: i < k < j <= |events| && events[k].ResultEvent? && !events[k].isError
  }

  ghost predicate ClockForward(events: seq<Event>) {
    forall i, j :: 0 <= i < j < |events| ==> events[i].now <= events[j].now
  }

  /** With a clock that does not go back, nothing gets through from the trip until the
      cooldown ends, unless a success arrives. */
  lemma {:induction false} OpenUntilCooldown(cfg: Config, events: seq<Event>, horizon: nat, i: nat, j: nat)
    requires i < j <= |events| && ClockForward(events) && Trips(Run(cfg, events[..i], horizon), cfg, events[i])
    requires !SuccessBetween(events, i, j)
    requires forall k :: i <= k < j ==> events[k].now + cfg.cooldownS * SECOND <= horizon
    ensures var s := Run(cfg, events[..j], horizon);
      s.openUntil.Some? && s.openUntil.value >= events[i].now + cfg.cooldownS * SECOND
    ensures var s := Run(cfg, events[..j], horizon);
      forall now :: 0 <= now < events[i].now + cfg.cooldownS * SECOND ==> Check(s, now).1.Block?
    decreases j
  {
    var m := j - 1;
    assert events[..j][..m] == events[..m] && events[..j][m] == events[m];
    if i < m {
      OpenUntilCooldown(cfg, events, horizon, i, m);
      assert events[i].now <= events[m].now;
    }
  }

  /** No breaker is stuck: from any reachable state, some instant lets a call through, and so
      does every later one. */
  lemma NeverStuck(cfg: Config, events: seq<Event>, horizon: nat) returns (from: nat)
    ensures forall now :: now >= from ==> Check(Run(cfg, events, horizon), now).1.Allow?
    ensures var s := Run(cfg, events, horizon);
      from == (if s.openUntil.None? then 0
               else if s.probeStarted.None? || s.openUntil.value >= s.probeStarted.value + STALE_PROBE_AFTER then s.openUntil.value
               else s.probeStarted.value + STALE_PROBE_AFTER)
    ensures forall now :: 0 <= now < from ==> Check(Run(cfg, events, horizon), now).1.Block?
  {
    var s := Run(cfg, events, horizon);
    from := if s.openUntil.None? then 0
      else if s.probeStarted.None? || s.openUntil.value >= s.probeStarted.value + STALE_PROBE_AFTER then s.openUntil.value
      else s.probeStarted.value + STALE_PROBE_AFTER;
    forall now: nat ensures Check(s, now).1.Allow? <==> now >= from { AllowedIff(s, now); }
  }
}
