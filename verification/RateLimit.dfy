/** Token-bucket rate limits (src/surface/ratelimit.rs) and the tiers a call passes through
    (`rate_limited` in src/surface/dispatch.rs).

    Time is a real number of seconds, so tokens are real numbers too: rounding is not
    modelled. */
module RateLimit {
  import opened Json

  const MAX_BUCKETS: nat := 10_000
  const IDLE_EVICT_S: real := 600.0

  datatype Limit = Limit(calls: nat, perS: nat)

  datatype Bucket = Bucket(tokens: real, updated: real)

  type Table = map<string, Bucket>

  datatype Admission = Admitted | Refused(retryInS: nat)

  // ----- one bucket -----

  /** A limit of no calls, or over no time, counts as one. */
  function Capacity(l: Limit): (c: real)
    ensures c >= 1.0
  {
    if l.calls >= 1 then l.calls as real else 1.0
  }

  function Period(l: Limit): (p: real)
    ensures p >= 1.0
  {
    if l.perS >= 1 then l.perS as real else 1.0
  }

  function Rate(l: Limit): (r: real)
    ensures r > 0.0
  {
    Capacity(l) / Period(l)
  }

  /** Saturating, as the clock difference is. */
  function Elapsed(now: real, since: real): real {
    if now >= since then now - since else 0.0
  }

  function Smaller(x: real, y: real): real { if x <= y then x else y }

  function Refilled(b: Bucket, l: Limit, now: real): real {
    Smaller(b.tokens + Elapsed(now, b.updated) * Rate(l), Capacity(l))
  }

  function Ceil(x: real): int { -((-x).Floor) }

  function RetryAfter(tokens: real, l: Limit): nat {
    var s := Ceil((1.0 - tokens) / Rate(l));
    if s >= 1 then s else 1
  }

  // ----- the table -----

  /** Makes room for a new key when the table is full: idle buckets go first, then all. */
  function Evict(m: Table, key: string, now: real): Table {
    if |m| >= MAX_BUCKETS && key !in m then
      var kept := map k | k in m && Elapsed(now, m[k].updated) < IDLE_EVICT_S :: m[k];
      if |kept| >= MAX_BUCKETS then map[] else kept
    else m
  }

  function Entry(m: Table, key: string, l: Limit, now: real): Bucket {
    if key in m then m[key] else Bucket(Capacity(l), now)
  }

  function Taken(m: Table, key: string, l: Limit, now: real): (Table, Admission) {
    var room := Evict(m, key, now);
    var tokens := Refilled(Entry(room, key, l, now), l, now);
    if tokens >= 1.0 then (room[key := Bucket(tokens - 1.0, now)], Admitted)
    else (room[key := Bucket(tokens, now)], Refused(RetryAfter(tokens, l)))
  }

  function PutBack(b: Bucket, l: Limit, now: real): Bucket {
    Bucket(Smaller(b.tokens + Elapsed(now, b.updated) * Rate(l) + 1.0, Capacity(l)), now)
  }

  function Refunded(m: Table, key: string, l: Limit, now: real): Table {
    if key !in m then m else m[key := PutBack(m[key], l, now)]
  }

  class Buckets {
    var inner: Table

    constructor ()
      ensures inner == map[]
    {
      inner := map[];
    }

    method Take(key: string, limit: Limit, now: real) returns (r: Admission)
      modifies this
      ensures (inner, r) == Taken(old(inner), key, limit, now)
    {
      if |inner| >= MAX_BUCKETS && key !in inner {
        inner := map k | k in inner && Elapsed(now, inner[k].updated) < IDLE_EVICT_S :: inner[k];
        if |inner| >= MAX_BUCKETS { inner := map[]; }
      }
      var b := if key in inner then inner[key] else Bucket(Capacity(limit), now);
      var tokens := Refilled(b, limit, now);
      if tokens >= 1.0 {
        inner := inner[key := Bucket(tokens - 1.0, now)];
        r := Admitted;
      } else {
        inner := inner[key := Bucket(tokens, now)];
        r := Refused(RetryAfter(tokens, limit));
      }
    }

    method Refund(key: string, limit: Limit, now: real)
      modifies this
      ensures inner == Refunded(old(inner), key, limit, now)
    {
      if key in inner {
        inner := inner[key := PutBack(inner[key], limit, now)];
      }
    }
  }

  lemma StepBounded(m: Table, key: string, l: Limit, now: real)
    requires |m| <= MAX_BUCKETS
    ensures |Taken(m, key, l, now).0| <= MAX_BUCKETS && |Refunded(m, key, l, now)| <= MAX_BUCKETS
  {
    var room, b := Evict(m, key, now), Taken(m, key, l, now).0;
    assert key in room || |room| < MAX_BUCKETS;
    assert b.Keys == room.Keys + {key};
    assert Refunded(m, key, l, now).Keys == m.Keys;
  }

  // ----- retry-after -----

  lemma Grows(x: real, y: real, r: real)
    requires r > 0.0
    ensures x < y ==> x * r < y * r
    ensures x <= y ==> x * r <= y * r
  {}

  lemma CeilBounds(x: real)
    ensures Ceil(x) as real - 1.0 < x <= Ceil(x) as real
  {}

  /** A bucket short of one token fits a call exactly when the shortfall has had time to
      refill. */
  lemma FitsOnceRefilled(b: Bucket, l: Limit, later: real)
    requires later >= b.updated && b.tokens < 1.0
    ensures Refilled(b, l, later) >= 1.0 <==> later - b.updated >= (1.0 - b.tokens) / Rate(l)
  {
    hide Rate;
    var r := Rate(l);
    var need, waited := (1.0 - b.tokens) / r, later - b.updated;
    assert need * r == 1.0 - b.tokens;
    Grows(waited, need, r);
    Grows(need, waited, r);
    assert Elapsed(later, b.updated) * r == waited * r;
  }

  /** The answer to a call on `key` some whole number of seconds later. */
  function AskLater(m: Table, key: string, l: Limit, now: real, seconds: nat): Admission {
    Taken(m, key, l, now + seconds as real).1
  }

  /** A refusal names the least whole number of seconds, at least one, after which the call
      fits. */
  lemma RetryIsLeast(m: Table, key: string, l: Limit, now: real)
    requires Taken(m, key, l, now).1.Refused?
    ensures var (m', r) := Taken(m, key, l, now);
      && r.retryInS >= 1
      && (forall v: nat :: AskLater(m', key, l, now, v).Admitted? <==> v >= r.retryInS)
  {
    hide Refilled, Rate;
    var (m', r) := Taken(m, key, l, now);
    var b := m'[key];
    CeilBounds((1.0 - b.tokens) / Rate(l));
    forall v: nat ensures AskLater(m', key, l, now, v).Admitted? <==> v >= r.retryInS {
      FitsOnceRefilled(b, l, now + v as real);
      FitsOnceRefilled(b, l, now);
      NowIsTooSoon(b, l);
      assert v as real >= (1.0 - b.tokens) / Rate(l) <==> v >= r.retryInS;
    }
  }

  lemma NowIsTooSoon(b: Bucket, l: Limit)
    requires b.tokens < 1.0
    ensures (1.0 - b.tokens) / Rate(l) > 0.0
  {
    var need := (1.0 - b.tokens) / Rate(l);
    assert need * Rate(l) == 1.0 - b.tokens;
    Grows(need, 0.0, Rate(l));
  }

  lemma CeilAtMost(x: real, w: int)
    requires x <= w as real
    ensures Ceil(x) <= w
  {
    CeilBounds(x);
  }

  /** The wait is never longer than the limit's period, so it fits the program's 64 bits. */
  lemma RetryWithinPeriod(tokens: real, l: Limit)
    requires 0.0 <= tokens < 1.0
    ensures RetryAfter(tokens, l) <= if l.perS >= 1 then l.perS else 1
  {
    hide Rate, Capacity, Period, Ceil;
    NeedAtMostPeriod(tokens, (1.0 - tokens) / Rate(l), l);
    PeriodIsWhole(l);
    CeilAtMost((1.0 - tokens) / Rate(l), if l.perS >= 1 then l.perS else 1);
  }

  lemma NeedAtMostPeriod(tokens: real, need: real, l: Limit)
    requires 0.0 <= tokens && need == (1.0 - tokens) / Rate(l)
    ensures need <= Period(l)
  {
    var p, r := Period(l), Rate(l);
    assert p * r == Capacity(l) by { assert r == Capacity(l) / p; }
    hide Rate, Capacity, Period;
    assert need * r == 1.0 - tokens;
    Grows(p, need, r);
  }

  lemma PeriodIsWhole(l: Limit)
    ensures Period(l) == (if l.perS >= 1 then l.perS else 1) as real
  {}

  // ----- the admission bound -----

  datatype Op = TakeOp(key: string, limit: Limit, now: real) | RefundOp(key: string, limit: Limit, now: real)

  function Step(m: Table, op: Op): Table {
    match op
    case TakeOp(key, l, now) => Taken(m, key, l, now).0
    case RefundOp(key, l, now) => Refunded(m, key, l, now)
  }

  ghost function Run(m: Table, ops: seq<Op>): Table
    decreases |ops|
  {
    if ops == [] then m else Run(Step(m, ops[0]), ops[1..])
  }

  /** The table stays within its bound, over any run. */
  lemma TableBounded(ops: seq<Op>)
    ensures |Run(map[], ops)| <= MAX_BUCKETS
  {
    RunBounded(map[], ops);
  }

  lemma {:induction false} RunBounded(m: Table, ops: seq<Op>)
    requires |m| <= MAX_BUCKETS
    ensures |Run(m, ops)| <= MAX_BUCKETS
    decreases |ops|
  {
    if ops != [] {
      StepBounded(m, ops[0].key, ops[0].limit, ops[0].now);
      RunBounded(Step(m, ops[0]), ops[1..]);
    }
  }

  predicate Admits(m: Table, op: Op, key: string) {
    op.TakeOp? && op.key == key && Taken(m, key, op.limit, op.now).1.Admitted?
  }

  /** How many calls on `key` a run admits. */
  ghost function Admissions(m: Table, ops: seq<Op>, key: string): nat
    decreases |ops|
  {
    if ops == [] then 0
    else (if Admits(m, ops[0], key) then 1 else 0) + Admissions(Step(m, ops[0]), ops[1..], key)
  }

  ghost function Refunds(ops: seq<Op>, key: string): nat
    decreases |ops|
  {
    if ops == [] then 0 else (if ops[0].RefundOp? && ops[0].key == key then 1 else 0) + Refunds(ops[1..], key)
  }

  /** The readings taken for `key` lie between `s` and `t`. */
  ghost predicate Within(ops: seq<Op>, key: string, s: real, t: real) {
    s <= t && forall i :: 0 <= i < |ops| && ops[i].key == key ==> s <= ops[i].now <= t
  }

  /** How far readings for `key` go back altogether, in the order they take the lock. A caller
      reads the clock before it takes the lock, so they may. */
  ghost function Backward(previous: real, ops: seq<Op>, key: string): (drift: real)
    ensures drift >= 0.0
    decreases |ops|
  {
    if ops == [] then 0.0
    else if ops[0].key != key then Backward(previous, ops[1..], key)
    else Elapsed(previous, ops[0].now) + Backward(ops[0].now, ops[1..], key)
  }

  /** Where they never go back there is no drift. */
  lemma {:induction false} NoDriftInOrder(previous: real, ops: seq<Op>, key: string)
    requires forall i :: 0 <= i < |ops| ==> previous <= ops[i].now
    requires forall i, j :: 0 <= i < j < |ops| ==> ops[i].now <= ops[j].now
    ensures Backward(previous, ops, key) == 0.0
    decreases |ops|
  {
    if ops != [] {
      NoDriftInOrder(if ops[0].key == key then ops[0].now else previous, ops[1..], key);
    }
  }

  ghost predicate OneLimit(ops: seq<Op>, key: string, l: Limit) {
    forall i :: 0 <= i < |ops| && ops[i].key == key ==> ops[i].limit == l
  }

  /** The bucket of `key` is never dropped to make room. */
  ghost predicate NeverEvicted(m: Table, ops: seq<Op>, key: string)
    decreases |ops|
  {
    ops == [] || ((key in m ==> key in Step(m, ops[0])) && NeverEvicted(Step(m, ops[0]), ops[1..], key))
  }

  /** What `key` could spend at `now`. */
  ghost function Available(m: Table, key: string, l: Limit, now: real): real {
    if key in m then Refilled(m[key], l, now) else Capacity(l)
  }

  ghost predicate Sound(m: Table, key: string, l: Limit) {
    key in m ==> 0.0 <= m[key].tokens <= Capacity(l)
  }

  /** Refilled amounts: `x` at some instant, after refilling `gain`, with a cap. */
  function Capped(x: real, gain: real, cap: real): real { Smaller(x + gain, cap) }

  lemma CappedGrows(x: real, a: real, b: real, c: real, cap: real)
    requires a <= b + c && 0.0 <= c
    ensures Capped(x, a, cap) <= Capped(x, b, cap) + c
  {}

  function Gain(l: Limit, now: real, since: real): (g: real)
    ensures g >= 0.0
  {
    Grows(0.0, Elapsed(now, since), Rate(l));
    Elapsed(now, since) * Rate(l)
  }

  /** Gains add up, except that clock readings going back gain nothing. */
  lemma GainSplits(l: Limit, now: real, s: real, u: real)
    ensures Gain(l, now, u) <= Gain(l, s, u) + Gain(l, now, s)
  {
    var r, a, b, c := Rate(l), Elapsed(now, u), Elapsed(s, u), Elapsed(now, s);
    hide Rate;
    Grows(a, b + c, r);
    assert (b + c) * r == b * r + c * r;
  }

  lemma AvailableIs(m: Table, key: string, l: Limit, t: real)
    ensures Available(m, key, l, t) ==
      if key in m then Capped(m[key].tokens, Gain(l, t, m[key].updated), Capacity(l)) else Capacity(l)
  {}

  /** Between any two instants, in either direction, what is available grows by no more than
      the rate allows. */
  lemma AvailableGrows(m: Table, key: string, l: Limit, s: real, now: real)
    requires Sound(m, key, l)
    ensures 0.0 <= Available(m, key, l, now) <= Capacity(l)
    ensures Available(m, key, l, now) <= Available(m, key, l, s) + Gain(l, now, s)
  {
    AvailableIs(m, key, l, s);
    AvailableIs(m, key, l, now);
    hide Available, Gain;
    if key in m {
      var u := m[key].updated;
      GainSplits(l, now, s, u);
      CappedGrows(m[key].tokens, Gain(l, now, u), Gain(l, s, u), Gain(l, now, s), Capacity(l));
    }
  }

  lemma NoGain(l: Limit, now: real)
    ensures Gain(l, now, now) == 0.0
  {
    assert 0.0 * Rate(l) == 0.0;
  }

  /** What is available at any instant after a take on the key … */
  lemma AfterTake(m: Table, key: string, l: Limit, now: real, t: real)
    ensures var (m', r) := Taken(m, key, l, now);
      var spent := if r.Admitted? then 1.0 else 0.0;
      && key in m' && m'[key] == Bucket(Available(m, key, l, now) - spent, now)
      && (r.Admitted? <==> Available(m, key, l, now) >= 1.0)
      && Available(m', key, l, t) == Capped(Available(m, key, l, now) - spent, Gain(l, t, now), Capacity(l))
  {
    NoGain(l, now);
    if key !in m { assert key !in Evict(m, key, now); }
  }

  lemma CappedTwice(x: real, a: real, b: real, cap: real)
    requires a >= 0.0 && b >= 0.0
    ensures Smaller(x + a + b, cap) == Capped(Capped(x, a, cap), b, cap)
    ensures Capped(Capped(cap, a, cap), b, cap) == cap
  {}

  /** … and after a refund. */
  lemma AfterRefund(m: Table, key: string, l: Limit, now: real, t: real)
    ensures var m' := Refunded(m, key, l, now);
      && (key in m' <==> key in m)
      && (key in m ==> m'[key] == Bucket(Capped(Available(m, key, l, now), 1.0, Capacity(l)), now))
      && Available(m', key, l, t) == Capped(Capped(Available(m, key, l, now), 1.0, Capacity(l)), Gain(l, t, now), Capacity(l))
  {
    hide Rate, Capacity, Period, Elapsed, Available, Refilled;
    var m' := Refunded(m, key, l, now);
    AvailableIs(m, key, l, now);
    AvailableIs(m', key, l, t);
    CappedTwice(Capacity(l), 1.0, Gain(l, t, now), Capacity(l));
    if key in m {
      var b := m[key];
      assert m'[key] == Bucket(Smaller(b.tokens + Gain(l, now, b.updated) + 1.0, Capacity(l)), now);
      CappedTwice(b.tokens, Gain(l, now, b.updated), 1.0, Capacity(l));
    }
  }

  /** One operation changes what is available by exactly the call it admits or refunds. */
  lemma StepAccounts(m: Table, op: Op, key: string, l: Limit)
    requires Sound(m, key, l) && op.key == key && op.limit == l
    ensures Sound(Step(m, op), key, l)
    ensures Available(Step(m, op), key, l, op.now)
      <= Available(m, key, l, op.now) - (if Admits(m, op, key) then 1.0 else 0.0) + (if op.RefundOp? then 1.0 else 0.0)
  {
    hide Available, Taken, Refunded, Gain, Rate, Capacity, Period, Evict, Elapsed;
    AvailableGrows(m, key, l, op.now, op.now);
    AfterTake(m, key, l, op.now, op.now);
    AfterRefund(m, key, l, op.now, op.now);
    NoGain(l, op.now);
  }

  lemma OtherKeyUntouched(m: Table, op: Op, key: string)
    requires op.key != key && (key in m ==> key in Step(m, op))
    ensures key in Step(m, op) <==> key in m
    ensures key in m ==> Step(m, op)[key] == m[key]
  {}

  /** What a span of time refills. */
  function Allowance(l: Limit, span: real): real { span * Rate(l) }

  lemma AllowanceSplits(l: Limit, x: real, y: real)
    ensures Allowance(l, x + y) == Allowance(l, x) + Allowance(l, y)
    ensures x >= 0.0 ==> Allowance(l, x) >= 0.0
  {
    Grows(0.0, x, Rate(l));
  }

  lemma GainIsAllowance(l: Limit, now: real, since: real)
    ensures Gain(l, now, since) == Allowance(l, Elapsed(now, since))
  {}

  lemma {:induction false} AdmissionsFrom(m: Table, ops: seq<Op>, key: string, l: Limit, s: real, t: real)
    requires s <= t && (forall i :: 0 <= i < |ops| && ops[i].key == key ==> ops[i].now <= t)
    requires OneLimit(ops, key, l) && NeverEvicted(m, ops, key) && Sound(m, key, l)
    ensures Admissions(m, ops, key) as real
      <= Available(m, key, l, s) + Allowance(l, t - s + Backward(s, ops, key)) + Refunds(ops, key) as real
    decreases |ops|
  {
    hide Available, Allowance, Capacity, Sound, Step, Admits, Gain;
    AvailableGrows(m, key, l, s, s);
    var span := t - s + Backward(s, ops, key);
    if ops == [] {
      AllowanceSplits(l, span, 0.0);
    } else {
      var op, now := ops[0], ops[0].now;
      if op.key == key {
        AvailableGrows(m, key, l, s, now);
        StepAccounts(m, op, key, l);
        AdmissionsFrom(Step(m, op), ops[1..], key, l, now, t);
        var rest := t - now + Backward(now, ops[1..], key);
        assert span == Elapsed(now, s) + rest;
        AllowanceSplits(l, Elapsed(now, s), rest);
        GainIsAllowance(l, now, s);
      } else {
        OtherKeyUntouched(m, op, key);
        SameAvailable(m, Step(m, op), key, l, s);
        NotAdmitted(m, op, key);
        AdmissionsFrom(Step(m, op), ops[1..], key, l, s, t);
      }
    }
  }

  lemma SameAvailable(m: Table, m': Table, key: string, l: Limit, t: real)
    requires (key in m' <==> key in m) && (key in m ==> m'[key] == m[key])
    ensures Available(m', key, l, t) == Available(m, key, l, t) && (Sound(m, key, l) ==> Sound(m', key, l))
  {}

  lemma NotAdmitted(m: Table, op: Op, key: string)
    requires op.key != key
    ensures !Admits(m, op, key)
  {}

  /** From the start of the process on, every bucket is sound. */
  lemma {:induction false} RunIsSound(m: Table, ops: seq<Op>, key: string, l: Limit)
    requires OneLimit(ops, key, l) && NeverEvicted(m, ops, key) && Sound(m, key, l)
    ensures Sound(Run(m, ops), key, l)
    decreases |ops|
  {
    hide Step, Available;
    if ops != [] {
      var op := ops[0];
      if op.key == key {
        StepAccounts(m, op, key, l);
      } else {
        OtherKeyUntouched(m, op, key);
      }
      RunIsSound(Step(m, op), ops[1..], key, l);
    }
  }

  /** In any window of any run, the calls admitted on one key are at most its burst, plus what
      the window refills, plus what was refunded. Readings that go back stretch the window by
      as much as they do; in order they do not. */
  lemma WindowBound(before: seq<Op>, window: seq<Op>, key: string, l: Limit, s: real, t: real)
    requires Within(window, key, s, t) && OneLimit(before + window, key, l)
    requires NeverEvicted(map[], before, key) && NeverEvicted(Run(map[], before), window, key)
    ensures Admissions(Run(map[], before), window, key) as real
      <= Capacity(l) + Allowance(l, t - s + Backward(s, window, key)) + Refunds(window, key) as real
  {
    hide Available, Allowance, Rate, Capacity, Run, Gain;
    var m, ops := Run(map[], before), before + window;
    assert OneLimit(before, key, l) by {
      forall i | 0 <= i < |before| && before[i].key == key ensures before[i].limit == l { assert ops[i] == before[i]; }
    }
    assert OneLimit(window, key, l) by {
      forall i | 0 <= i < |window| && window[i].key == key ensures window[i].limit == l { assert ops[|before| + i] == window[i]; }
    }
    RunIsSound(map[], before, key, l);
    AdmissionsFrom(m, window, key, l, s, t);
    AvailableGrows(m, key, l, s, s);
  }

  // ----- the tiers of one call -----

  datatype Tier = Tier(key: string, limit: Limit, enforced: bool)

  datatype Limits = Limits(perCaller: Option<Limit>, perTool: Option<Limit>, reportOnly: bool)

  function Present(o: Option<Limit>, key: string, enforced: bool): seq<Tier> {
    match o case Some(l) => [Tier(key, l, enforced)] case None => []
  }

  /** The caller's budget, the caller's budget on this tool, then the tool's budget across
      all callers; report-only spares the first two. */
  function Tiers(limits: Limits, overlay: Option<Limit>, who: string, tool: string): seq<Tier> {
    Present(limits.perCaller, "caller:" + who, !limits.reportOnly)
      + Present(limits.perTool, "tool:" + who + ":" + tool, !limits.reportOnly)
      + Present(overlay, "overlay:" + tool, true)
  }

  ghost predicate DistinctKeys(tiers: seq<Tier>) {
    forall i, j :: 0 <= i < j < |tiers| ==> tiers[i].key != tiers[j].key
  }

  lemma TiersDistinct(limits: Limits, overlay: Option<Limit>, who: string, tool: string)
    ensures DistinctKeys(Tiers(limits, overlay, who, tool))
  {
    assert ("caller:" + who)[0] == 'c' && ("tool:" + who + ":" + tool)[0] == 't' && ("overlay:" + tool)[0] == 'o';
  }

  function RefundAll(m: Table, charged: seq<Tier>, now: real): Table
    decreases |charged|
  {
    if charged == [] then m
    else RefundAll(Refunded(m, charged[0].key, charged[0].limit, now), charged[1..], now)
  }

  /** Takes from each tier in turn; an enforced refusal puts back what was charged. */
  function Walk(m: Table, tiers: seq<Tier>, charged: seq<Tier>, now: real): (Table, Option<(Tier, nat)>)
    decreases |tiers|
  {
    if tiers == [] then (m, None)
    else
      var tier := tiers[0];
      var (m', r) := Taken(m, tier.key, tier.limit, now);
      match r
      case Admitted => Walk(m', tiers[1..], charged + [tier], now)
      case Refused(retry) =>
        if !tier.enforced then Walk(m', tiers[1..], charged, now)
        else (RefundAll(m', charged, now), Some((tier, retry)))
  }

  /** The first exhausted enforced limit, with its retry-after. */
  method RateLimited(buckets: Buckets, limits: Limits, overlay: Option<Limit>, who: string, tool: string, now: real)
    returns (r: Option<(Tier, nat)>)
    modifies buckets
    ensures (buckets.inner, r) == Walk(old(buckets.inner), Tiers(limits, overlay, who, tool), [], now)
  {
    var tiers := Tiers(limits, overlay, who, tool);
    var charged: seq<Tier> := [];
    for i := 0 to |tiers|
      invariant Walk(old(buckets.inner), tiers, [], now) == Walk(buckets.inner, tiers[i..], charged, now)
    {
      var tier := tiers[i];
      assert tiers[i..][0] == tier && tiers[i..][1..] == tiers[i + 1..];
      var admission := buckets.Take(tier.key, tier.limit, now);
      match admission {
        case Admitted => charged := charged + [tier];
        case Refused(retry) =>
          if tier.enforced {
            ghost var m := buckets.inner;
            for j := 0 to |charged|
              invariant RefundAll(m, charged, now) == RefundAll(buckets.inner, charged[j..], now)
            {
              assert charged[j..][1..] == charged[j + 1..];
              buckets.Refund(charged[j].key, charged[j].limit, now);
            }
            return Some((tier, retry));
          }
      }
    }
    r := None;
  }

  ghost function KeysOf(tiers: seq<Tier>): (keys: set<string>)
    ensures forall tier :: tier in tiers ==> tier.key in keys
    ensures forall k :: k in keys ==> exists tier :: tier in tiers && tier.key == k
  {
    set tier | tier in tiers :: tier.key
  }

  /** The bucket of a tier as refill alone leaves it; a bucket that did not exist is full. */
  ghost function RefilledOnly(m: Table, tier: Tier, now: real): Bucket {
    Bucket(Refilled(Entry(m, tier.key, tier.limit, now), tier.limit, now), now)
  }

  /** `m` came from `m0` by calls at `now` through `tiers`: the charged ones are one call
      down, every other bucket is untouched or merely refilled. */
  ghost predicate Charged(m0: Table, m: Table, tiers: seq<Tier>, charged: seq<Tier>, now: real) {
    && (forall k :: k in m0 ==> k in m)
    && (forall c :: c in charged ==> c in tiers && c.key in m && m[c.key] == Bucket(RefilledOnly(m0, c, now).tokens - 1.0, now))
    && (forall k :: k in m && (forall c :: c in charged ==> c.key != k) ==> CostsNothing(m0, m, tiers, k, now))
  }

  ghost predicate CostsNothing(m0: Table, m: Table, tiers: seq<Tier>, k: string, now: real)
    requires k in m
  {
    || (k in m0 && m[k] == m0[k])
    || exists tier :: tier in tiers && tier.key == k && m[k] == RefilledOnly(m0, tier, now)
  }

  ghost predicate Roomy(m: Table, tiers: seq<Tier>) {
    |m.Keys + KeysOf(tiers)| <= MAX_BUCKETS
  }

  /** Putting a charged call back leaves the bucket as refill alone does. */
  lemma RefundUndoesCharge(m0: Table, m: Table, c: Tier, now: real)
    requires c.key in m && m[c.key] == Bucket(RefilledOnly(m0, c, now).tokens - 1.0, now)
    ensures Refunded(m, c.key, c.limit, now) == m[c.key := RefilledOnly(m0, c, now)]
  {}

  lemma RefundRestores(m0: Table, m: Table, tiers: seq<Tier>, charged: seq<Tier>, now: real)
    requires Charged(m0, m, tiers, charged, now) && DistinctKeys(charged) && charged != []
    ensures Charged(m0, Refunded(m, charged[0].key, charged[0].limit, now), tiers, charged[1..], now)
  {
    hide Refunded, RefilledOnly;
    var c := charged[0];
    assert c in charged;
    RefundUndoesCharge(m0, m, c, now);
    var m' := Refunded(m, c.key, c.limit, now);
    assert charged == [c] + charged[1..];
    forall d | d in charged[1..] ensures d.key != c.key {
      var j :| 0 <= j < |charged[1..]| && charged[1..][j] == d;
      assert charged[0].key != charged[j + 1].key;
    }
    hide CostsNothing;
    forall k | k in m' && (forall d :: d in charged[1..] ==> d.key != k) ensures CostsNothing(m0, m', tiers, k, now) {
      if k == c.key {
        RefilledCostsNothing(m0, m', tiers, c, now);
      } else {
        assert forall d :: d in charged ==> d.key != k;
        SameCostsNothing(m0, m, m', tiers, k, now);
      }
    }
  }

  lemma {:induction false} RefundAllRestores(m0: Table, m: Table, tiers: seq<Tier>, charged: seq<Tier>, now: real)
    requires Charged(m0, m, tiers, charged, now) && DistinctKeys(charged)
    ensures Charged(m0, RefundAll(m, charged, now), tiers, [], now)
    decreases |charged|
  {
    if charged != [] {
      RefundRestores(m0, m, tiers, charged, now);
      RefundAllRestores(m0, Refunded(m, charged[0].key, charged[0].limit, now), tiers, charged[1..], now);
    }
  }

  /** A take that needs no eviction, on a bucket not yet touched. */
  lemma TakenWithRoom(m0: Table, m: Table, tier: Tier, now: real)
    requires tier.key in m || |m| < MAX_BUCKETS
    requires if tier.key in m then tier.key in m0 && m[tier.key] == m0[tier.key] else tier.key !in m0
    ensures var (m', r) := Taken(m, tier.key, tier.limit, now);
      var b := RefilledOnly(m0, tier, now);
      m' == m[tier.key := if r.Admitted? then Bucket(b.tokens - 1.0, now) else b]
  {}

  lemma TakeCharges(m0: Table, m: Table, tiers: seq<Tier>, charged: seq<Tier>, tier: Tier, now: real)
    requires Charged(m0, m, tiers, charged, now) && tier in tiers && Roomy(m0, tiers)
    requires forall c :: c in charged ==> c.key != tier.key
    requires tier.key in m ==> tier.key in m0 && m[tier.key] == m0[tier.key]
    ensures var (m', r) := Taken(m, tier.key, tier.limit, now);
      Charged(m0, m', tiers, if r.Admitted? then charged + [tier] else charged, now)
  {
    hide *;
    RoomForTier(m0, m, tiers, charged, tier, now);
    SeenBefore(m0, m, tiers, charged, tier, now);
    TakenWithRoom(m0, m, tier, now);
    if Taken(m, tier.key, tier.limit, now).1.Admitted? {
      ChargeOne(m0, m, tiers, charged, tier, now);
    } else {
      RefillOne(m0, m, tiers, charged, tier, now);
    }
  }

  lemma SeenBefore(m0: Table, m: Table, tiers: seq<Tier>, charged: seq<Tier>, tier: Tier, now: real)
    requires Charged(m0, m, tiers, charged, now)
    ensures tier.key in m0 ==> tier.key in m
  {}

  lemma ChargeOne(m0: Table, m: Table, tiers: seq<Tier>, charged: seq<Tier>, tier: Tier, now: real)
    requires Charged(m0, m, tiers, charged, now) && tier in tiers && forall c :: c in charged ==> c.key != tier.key
    ensures Charged(m0, m[tier.key := Bucket(RefilledOnly(m0, tier, now).tokens - 1.0, now)], tiers, charged + [tier], now)
  {
    hide RefilledOnly, CostsNothing;
    var m', charged' := m[tier.key := Bucket(RefilledOnly(m0, tier, now).tokens - 1.0, now)], charged + [tier];
    assert tier in charged' && forall c :: c in charged ==> c in charged';
    forall k | k in m' && (forall c :: c in charged' ==> c.key != k) ensures CostsNothing(m0, m', tiers, k, now) {
      SameCostsNothing(m0, m, m', tiers, k, now);
    }
  }

  lemma RefillOne(m0: Table, m: Table, tiers: seq<Tier>, charged: seq<Tier>, tier: Tier, now: real)
    requires Charged(m0, m, tiers, charged, now) && tier in tiers && forall c :: c in charged ==> c.key != tier.key
    ensures Charged(m0, m[tier.key := RefilledOnly(m0, tier, now)], tiers, charged, now)
  {
    hide RefilledOnly, CostsNothing;
    var m' := m[tier.key := RefilledOnly(m0, tier, now)];
    forall k | k in m' && (forall c :: c in charged ==> c.key != k) ensures CostsNothing(m0, m', tiers, k, now) {
      if k == tier.key {
        RefilledCostsNothing(m0, m', tiers, tier, now);
      } else {
        SameCostsNothing(m0, m, m', tiers, k, now);
      }
    }
  }

  lemma SameCostsNothing(m0: Table, m: Table, m': Table, tiers: seq<Tier>, k: string, now: real)
    requires k in m && k in m' && m'[k] == m[k] && CostsNothing(m0, m, tiers, k, now)
    ensures CostsNothing(m0, m', tiers, k, now)
  {}

  lemma RefilledCostsNothing(m0: Table, m: Table, tiers: seq<Tier>, tier: Tier, now: real)
    requires tier in tiers && tier.key in m && m[tier.key] == RefilledOnly(m0, tier, now)
    ensures CostsNothing(m0, m, tiers, tier.key, now)
  {}

  lemma RoomForTier(m0: Table, m: Table, tiers: seq<Tier>, charged: seq<Tier>, tier: Tier, now: real)
    requires Charged(m0, m, tiers, charged, now) && tier in tiers && Roomy(m0, tiers)
    ensures tier.key in m || |m| < MAX_BUCKETS
  {
    hide RefilledOnly, KeysOf;
    var all := m0.Keys + KeysOf(tiers);
    assert tier.key in all;
    forall k | k in m ensures k in all {
      if forall c :: c in charged ==> c.key != k { assert CostsNothing(m0, m, tiers, k, now); }
    }
    if tier.key !in m { SmallerSet(m.Keys, all); }
  }

  lemma SmallerSet(a: set<string>, b: set<string>)
    requires a < b
    ensures |a| < |b|
  {
    assert b == a + (b - a);
  }

  lemma {:induction false} WalkRestores(m0: Table, m: Table, all: seq<Tier>, n: nat, charged: seq<Tier>, now: real)
    requires n <= |all| && DistinctKeys(all) && Roomy(m0, all)
    requires Charged(m0, m, all, charged, now) && DistinctKeys(charged)
    requires forall c :: c in charged ==> c in all[..n]
    requires forall i :: n <= i < |all| ==> (all[i].key in m ==> all[i].key in m0 && m[all[i].key] == m0[all[i].key])
    ensures var (m', r) := Walk(m, all[n..], charged, now);
      r.Some? ==> r.value.0 in all && r.value.0.enforced && Charged(m0, m', all, [], now)
    decreases |all| - n
  {
    hide Taken, Charged, Roomy, RefundAll;
    if n < |all| {
      var tier := all[n];
      assert all[n..][0] == tier && all[n..][1..] == all[n + 1..];
      forall c | c in charged ensures c.key != tier.key {
        var i :| 0 <= i < n && all[..n][i] == c;
        assert all[i].key != all[n].key;
      }
      TakeCharges(m0, m, all, charged, tier, now);
      var (m', r) := Taken(m, tier.key, tier.limit, now);
      if r.Refused? && tier.enforced {
        RefundAllRestores(m0, m', all, charged, now);
      } else {
        assert all[..n + 1] == all[..n] + [tier];
        LaterUntouched(m0, m, all, n, now);
        WalkRestores(m0, m', all, n + 1, if r.Admitted? then charged + [tier] else charged, now);
      }
    }
  }

  lemma LaterUntouched(m0: Table, m: Table, all: seq<Tier>, n: nat, now: real)
    requires n < |all| && DistinctKeys(all)
    requires forall i :: n <= i < |all| ==> (all[i].key in m ==> all[i].key in m0 && m[all[i].key] == m0[all[i].key])
    ensures var m' := Taken(m, all[n].key, all[n].limit, now).0;
      forall i :: n < i < |all| ==> (all[i].key in m' ==> all[i].key in m0 && m'[all[i].key] == m0[all[i].key])
  {
    var m' := Taken(m, all[n].key, all[n].limit, now).0;
    forall i | n < i < |all| ensures all[i].key in m' ==> all[i].key in m0 && m'[all[i].key] == m0[all[i].key] {
      assert all[n].key != all[i].key;
    }
  }

  /** A refused call costs nothing. Whatever tiers are configured, and whether the first two
      are enforced or only reported, a refusal leaves every bucket untouched or exactly as
      refilling at that moment leaves it, and any bucket it created full. */
  lemma RefusalCostsNothing(m: Table, limits: Limits, overlay: Option<Limit>, who: string, tool: string, now: real)
    requires Roomy(m, Tiers(limits, overlay, who, tool))
    ensures var tiers := Tiers(limits, overlay, who, tool);
      var (m', r) := Walk(m, tiers, [], now);
      r.Some? ==>
        && r.value.0.enforced && (forall k :: k in m ==> k in m')
        && (forall k :: k in m' ==> CostsNothing(m, m', tiers, k, now))
        && (forall k :: k in m' && k !in m ==> exists tier :: tier in tiers && tier.key == k && m'[k] == Bucket(Capacity(tier.limit), now))
  {
    hide Walk, Tiers, Roomy;
    var tiers := Tiers(limits, overlay, who, tool);
    TiersDistinct(limits, overlay, who, tool);
    assert tiers[0..] == tiers;
    WalkRestores(m, m, tiers, 0, [], now);
  }
}
