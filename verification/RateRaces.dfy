/** The steps of several rate-limited calls mixed (`rate_limited` in src/surface/dispatch.rs:
    each take and each refund holds the lock of the bucket table by itself).

    "A refused call costs nothing" is a promise to the other callers: what remains of it, and
    exactly when it holds. */
module RateRaces {
  import opened Json
  import opened RateLimit

  // ----- a refused call among others -----

  /** Each take and refund holds the lock by itself, so the steps of several calls mix. `mine`
      marks those of one call. */
  datatype Turn = Turn(op: Op, mine: bool)

  function Everyone(turns: seq<Turn>): (ops: seq<Op>)
    ensures |ops| == |turns| && forall i :: 0 <= i < |turns| ==> ops[i] == turns[i].op
  {
    seq(|turns|, i requires 0 <= i < |turns| => turns[i].op)
  }

  /** The run in which that call was never made. */
  function Others(turns: seq<Turn>): seq<Op> {
    if turns == [] then [] else (if turns[0].mine then [] else [turns[0].op]) + Others(turns[1..])
  }

  /** The call gives back exactly what it took from `key`: `debt` is what it holds so far. */
  ghost predicate PaysBack(m: Table, turns: seq<Turn>, key: string, debt: nat)
    decreases |turns|
  {
    if turns == [] then debt == 0 else
      var op, m' := turns[0].op, Step(m, turns[0].op);
      if !turns[0].mine || op.key != key then PaysBack(m', turns[1..], key, debt)
      else if op.TakeOp? then PaysBack(m', turns[1..], key, debt + if Admits(m, op, key) then 1 else 0)
      else debt >= 1 && PaysBack(m', turns[1..], key, debt - 1)
  }

  /** No other call is answered differently on `key` for it. */
  ghost predicate NobodyElseNotices(m: Table, m': Table, turns: seq<Turn>, key: string)
    decreases |turns|
  {
    turns == [] ||
    var op := turns[0].op;
    if turns[0].mine then NobodyElseNotices(Step(m, op), m', turns[1..], key)
    else Admits(m, op, key) == Admits(m', op, key) && NobodyElseNotices(Step(m, op), Step(m', op), turns[1..], key)
  }

  /** `keys` has room for every bucket there is or will be, so none is evicted. */
  ghost predicate RoomFor(keys: set<string>, m: Table, turns: seq<Turn>) {
    |keys| <= MAX_BUCKETS && m.Keys <= keys && forall i :: 0 <= i < |turns| ==> turns[i].op.key in keys
  }

  /** `m` offers at least what `m'` does, short of `debt` calls, at every instant. */
  ghost predicate OffersAtLeast(m: Table, m': Table, key: string, l: Limit, debt: nat) {
    forall t: real :: Available(m, key, l, t) >= Available(m', key, l, t) - debt as real
  }

  lemma StepKeepsKeys(keys: set<string>, m: Table, op: Op)
    requires |keys| <= MAX_BUCKETS && m.Keys <= keys && op.key in keys
    ensures m.Keys <= Step(m, op).Keys <= keys
  {
    if op.key !in m { SmallerSet(m.Keys, keys); }
  }

  /** A step of somebody else, answered alike in both runs. */
  lemma AlikeStep(m: Table, m': Table, op: Op, key: string, l: Limit, debt: nat)
    requires OffersAtLeast(m, m', key, l, debt) && op.key == key && op.limit == l && Admits(m, op, key) == Admits(m', op, key)
    ensures OffersAtLeast(Step(m, op), Step(m', op), key, l, debt)
  {
    hide Available, Taken, Refunded, Gain, Rate, Capacity, Period, Evict, Elapsed;
    forall t: real ensures Available(Step(m, op), key, l, t) >= Available(Step(m', op), key, l, t) - debt as real {
      AfterTake(m, key, l, op.now, t);
      AfterTake(m', key, l, op.now, t);
      AfterRefund(m, key, l, op.now, t);
      AfterRefund(m', key, l, op.now, t);
      assert Available(m, key, l, op.now) >= Available(m', key, l, op.now) - debt as real;
    }
  }

  /** A step of the call itself: a charge deepens its debt by one, and a refund pays one off. */
  lemma OwnStep(m: Table, m': Table, op: Op, key: string, l: Limit, debt: nat, debt': nat)
    requires OffersAtLeast(m, m', key, l, debt) && op.key == key && op.limit == l && Sound(m', key, l)
    requires if op.TakeOp? then debt' == debt + (if Admits(m, op, key) then 1 else 0) else debt' + 1 == debt
    ensures OffersAtLeast(Step(m, op), m', key, l, debt')
  {
    hide Available, Taken, Refunded, Gain, Rate, Capacity, Period, Evict, Elapsed;
    forall t: real ensures Available(Step(m, op), key, l, t) >= Available(m', key, l, t) - debt' as real {
      AfterTake(m, key, l, op.now, t);
      AfterRefund(m, key, l, op.now, t);
      AvailableGrows(m', key, l, op.now, t);
      assert Available(m, key, l, op.now) >= Available(m', key, l, op.now) - debt as real;
    }
  }

  lemma OffersTheSame(m: Table, m': Table, n: Table, n': Table, key: string, l: Limit, debt: nat)
    requires OffersAtLeast(m, m', key, l, debt)
    requires (key in n <==> key in m) && (key in m ==> n[key] == m[key])
    requires (key in n' <==> key in m') && (key in m' ==> n'[key] == m'[key])
    ensures OffersAtLeast(n, n', key, l, debt)
  {
    hide Available;
    forall t: real ensures Available(n, key, l, t) >= Available(n', key, l, t) - debt as real {
      SameAvailable(m, n, key, l, t);
      SameAvailable(m', n', key, l, t);
      assert Available(m, key, l, t) >= Available(m', key, l, t) - debt as real;
    }
  }

  lemma {:induction false} OffersAtLeastThroughout(
      keys: set<string>, m: Table, m': Table, turns: seq<Turn>, key: string, l: Limit, debt: nat)
    requires RoomFor(keys, m, turns) && RoomFor(keys, m', turns) && OneLimit(Everyone(turns), key, l)
    requires Sound(m', key, l) && OffersAtLeast(m, m', key, l, debt)
    requires PaysBack(m, turns, key, debt) && NobodyElseNotices(m, m', turns, key)
    ensures OffersAtLeast(Run(m, Everyone(turns)), Run(m', Others(turns)), key, l, 0)
    decreases |turns|
  {
    hide OffersAtLeast, Step, Admits, Sound;
    if turns == [] {
      assert |Everyone(turns)| == 0;
    } else {
      var op, rest := turns[0].op, turns[1..];
      assert Everyone(turns)[0] == op && Everyone(turns)[1..] == Everyone(rest);
      assert if turns[0].mine then Others(turns) == Others(rest) else Others(turns)[0] == op && Others(turns)[1..] == Others(rest);
      StepKeepsKeys(keys, m, op);
      StepKeepsKeys(keys, m', op);
      assert forall i :: 0 <= i < |rest| ==> Everyone(rest)[i] == Everyone(turns)[i + 1];
      if op.key != key {
        OtherKeyUntouched(m, op, key);
        OtherKeyUntouched(m', op, key);
        OffersTheSame(m, m', Step(m, op), if turns[0].mine then m' else Step(m', op), key, l, debt);
        SameAvailable(m', Step(m', op), key, l, 0.0);
        OffersAtLeastThroughout(keys, Step(m, op), if turns[0].mine then m' else Step(m', op), rest, key, l, debt);
      } else if turns[0].mine {
        var debt' := if op.RefundOp? then debt - 1 else debt + if Admits(m, op, key) then 1 else 0;
        OwnStep(m, m', op, key, l, debt, debt');
        OffersAtLeastThroughout(keys, Step(m, op), m', rest, key, l, debt');
      } else {
        AlikeStep(m, m', op, key, l, debt);
        StepAccounts(m', op, key, l);
        OffersAtLeastThroughout(keys, Step(m, op), Step(m', op), rest, key, l, debt);
      }
    }
  }

  /** What is left of "a refused call costs nothing" when the steps of calls mix, whatever the
      order of clock readings: once it has paid back, every bucket offers at any instant at
      least what it would had the call never been made, unless meanwhile some other call was
      answered differently. */
  lemma RefusedAmongOthers(keys: set<string>, m: Table, turns: seq<Turn>, key: string, l: Limit, t: real)
    requires RoomFor(keys, m, turns) && OneLimit(Everyone(turns), key, l) && Sound(m, key, l)
    requires PaysBack(m, turns, key, 0) && NobodyElseNotices(m, m, turns, key)
    ensures Available(Run(m, Everyone(turns)), key, l, t) >= Available(Run(m, Others(turns)), key, l, t)
  {
    hide Available, Run, PaysBack, NobodyElseNotices, RoomFor;
    assert OffersAtLeast(m, m, key, l, 0);
    OffersAtLeastThroughout(keys, m, m, turns, key, l, 0);
  }

  // ----- when a held charge costs the others nothing -----

  /** The call's part on `key`, up to its refund there: one charge, and at the end the refund.
      `held` says whether it has been charged already. */
  ghost predicate ChargedOnce(m: Table, turns: seq<Turn>, key: string, held: bool)
    decreases |turns|
  {
    turns != [] &&
    var op, rest := turns[0].op, turns[1..];
    if !turns[0].mine || op.key != key then ChargedOnce(Step(m, op), rest, key, held)
    else if held then op.RefundOp? && rest == []
    else Admits(m, op, key) && ChargedOnce(Step(m, op), rest, key, true)
  }

  /** How often the others ask for `key`. */
  function Asked(turns: seq<Turn>, key: string): nat {
    if turns == [] then 0
    else (if !turns[0].mine && turns[0].op.TakeOp? && turns[0].op.key == key then 1 else 0) + Asked(turns[1..], key)
  }

  /** No other call is refused on `key` that would be admitted without it: `m` is the table
      with the call, `m'` the one without. */
  ghost predicate NobodyElseRefused(m: Table, m': Table, turns: seq<Turn>, key: string)
    decreases |turns|
  {
    turns == [] ||
    var op := turns[0].op;
    if turns[0].mine then NobodyElseRefused(Step(m, op), m', turns[1..], key)
    else (Admits(m', op, key) ==> Admits(m, op, key)) && NobodyElseRefused(Step(m, op), Step(m', op), turns[1..], key)
  }

  /** Neither with the call nor without it is the bucket of `key` dropped to make room. */
  ghost predicate NeverDropped(m: Table, m': Table, turns: seq<Turn>, key: string)
    decreases |turns|
  {
    turns == [] ||
    var op := turns[0].op;
    && (key in m ==> key in Step(m, op)) && (!turns[0].mine && key in m' ==> key in Step(m', op))
    && NeverDropped(Step(m, op), if turns[0].mine then m' else Step(m', op), turns[1..], key)
  }

  /** Nobody is refused on `key` for the call, and once it is over the bucket offers at every
      instant at least what it would without it. */
  ghost predicate Harmless(m: Table, m': Table, turns: seq<Turn>, key: string, l: Limit) {
    && NobodyElseRefused(m, m', turns, key)
    && OffersAtLeast(Run(m, Everyone(turns)), Run(m', Others(turns)), key, l, 0)
  }

  lemma HarmlessFrom(m: Table, m': Table, turns: seq<Turn>, key: string, l: Limit)
    requires turns != []
    ensures var op := turns[0].op;
      Harmless(m, m', turns, key, l) <==>
        && (!turns[0].mine ==> (Admits(m', op, key) ==> Admits(m, op, key)))
        && Harmless(Step(m, op), if turns[0].mine then m' else Step(m', op), turns[1..], key, l)
  {
    hide OffersAtLeast, Step, Admits;
    var op, rest := turns[0].op, turns[1..];
    assert Everyone(turns)[0] == op && Everyone(turns)[1..] == Everyone(rest);
    assert if turns[0].mine then Others(turns) == Others(rest) else Others(turns)[0] == op && Others(turns)[1..] == Others(rest);
  }

  lemma OneLimitFrom(turns: seq<Turn>, key: string, l: Limit)
    requires turns != [] && OneLimit(Everyone(turns), key, l)
    ensures turns[0].op.key == key ==> turns[0].op.limit == l
    ensures OneLimit(Everyone(turns[1..]), key, l)
  {
    var rest := turns[1..];
    assert turns[0].op == Everyone(turns)[0];
    assert forall i :: 0 <= i < |rest| ==> Everyone(rest)[i] == Everyone(turns)[i + 1];
  }

  /** Admitted with the call and refused without it: the one charge still covers that. */
  lemma GenerousStep(m: Table, m': Table, op: Op, key: string, l: Limit)
    requires op.key == key && op.limit == l && Admits(m, op, key) && op.TakeOp? && !Admits(m', op, key)
    ensures OffersAtLeast(Step(m, op), Step(m', op), key, l, 1)
  {
    hide Available, Taken, Refunded, Gain, Rate, Capacity, Period, Evict, Elapsed;
    forall t: real ensures Available(Step(m, op), key, l, t) >= Available(Step(m', op), key, l, t) - 1.0 {
      AfterTake(m, key, l, op.now, t);
      AfterTake(m', key, l, op.now, t);
    }
  }

  /** While the bucket has as many tokens as the others will ask for, with the charge already
      taken off, each of them is admitted. */
  lemma HeldStep(m: Table, m': Table, op: Op, key: string, l: Limit, asked: nat)
    requires Sound(m, key, l) && Sound(m', key, l) && OffersAtLeast(m, m', key, l, 1) && op.key == key && op.limit == l
    requires key in m && m[key].tokens >= asked as real && (op.TakeOp? ==> asked >= 1)
    ensures Admits(m', op, key) ==> Admits(m, op, key)
    ensures var n, n' := Step(m, op), Step(m', op);
      && Sound(n, key, l) && Sound(n', key, l) && OffersAtLeast(n, n', key, l, 1)
      && key in n && n[key].tokens >= asked as real - if op.TakeOp? then 1.0 else 0.0
  {
    hide Available, Taken, Refunded, Gain, Rate, Capacity, Period, Evict, Elapsed, OffersAtLeast;
    StepAccounts(m, op, key, l);
    StepAccounts(m', op, key, l);
    AvailableIs(m, key, l, op.now);
    AfterTake(m, key, l, op.now, op.now);
    AfterRefund(m, key, l, op.now, op.now);
    if Admits(m, op, key) == Admits(m', op, key) {
      AlikeStep(m, m', op, key, l, 1);
    } else {
      GenerousStep(m, m', op, key, l);
    }
  }

  lemma {:induction false} HeldInPeace(m: Table, m': Table, turns: seq<Turn>, key: string, l: Limit)
    requires ChargedOnce(m, turns, key, true) && NeverDropped(m, m', turns, key) && OneLimit(Everyone(turns), key, l)
    requires Sound(m, key, l) && Sound(m', key, l) && OffersAtLeast(m, m', key, l, 1)
    requires key in m && m[key].tokens >= Asked(turns, key) as real
    ensures Harmless(m, m', turns, key, l)
    decreases |turns|
  {
    hide OffersAtLeast, Step, Admits, Sound, Harmless, Everyone;
    var op, rest := turns[0].op, turns[1..];
    HarmlessFrom(m, m', turns, key, l);
    OneLimitFrom(turns, key, l);
    if op.key != key {
      OtherKeyUntouched(m, op, key);
      NotAdmitted(m', op, key);
      var n' := if turns[0].mine then m' else Step(m', op);
      if !turns[0].mine { OtherKeyUntouched(m', op, key); }
      OffersTheSame(m, m', Step(m, op), n', key, l, 1);
      SameAvailable(m, Step(m, op), key, l, 0.0);
      SameAvailable(m', n', key, l, 0.0);
      HeldInPeace(Step(m, op), n', rest, key, l);
    } else if turns[0].mine {
      OwnStep(m, m', op, key, l, 1, 0);
      NothingLeft(Step(m, op), m', key, l);
    } else {
      HeldStep(m, m', op, key, l, Asked(turns, key));
      HeldInPeace(Step(m, op), Step(m', op), rest, key, l);
    }
  }

  lemma NothingLeft(m: Table, m': Table, key: string, l: Limit)
    requires OffersAtLeast(m, m', key, l, 0)
    ensures Harmless(m, m', [], key, l)
  {
    hide OffersAtLeast;
    assert Everyone([]) == [];
  }

  /** When it is charged, the bucket has a token for each later request of the others, and one
      more. */
  ghost predicate Spare(m: Table, turns: seq<Turn>, key: string, l: Limit)
    decreases |turns|
  {
    turns == [] ||
    var op := turns[0].op;
    && (turns[0].mine && Admits(m, op, key) ==> Available(m, key, l, op.now) >= Asked(turns[1..], key) as real + 1.0)
    && Spare(Step(m, op), turns[1..], key, l)
  }

  ghost predicate SameBucket(m: Table, m': Table, key: string) {
    (key in m <==> key in m') && (key in m ==> m[key] == m'[key])
  }

  lemma SameBucketStep(m: Table, m': Table, op: Op, key: string, l: Limit)
    requires SameBucket(m, m', key) && op.key == key && op.limit == l
    ensures SameBucket(Step(m, op), Step(m', op), key) && Admits(m, op, key) == Admits(m', op, key)
  {
    hide Available, Taken, Refunded, Gain, Rate, Capacity, Period, Evict, Elapsed;
    SameAvailable(m, m', key, l, op.now);
    AfterTake(m, key, l, op.now, op.now);
    AfterTake(m', key, l, op.now, op.now);
    AfterRefund(m, key, l, op.now, op.now);
    AfterRefund(m', key, l, op.now, op.now);
  }

  lemma ChargeTaken(m: Table, m': Table, op: Op, key: string, l: Limit, asked: nat)
    requires SameBucket(m, m', key) && Sound(m, key, l) && op.key == key && op.limit == l && Admits(m, op, key)
    requires Available(m, key, l, op.now) >= asked as real + 1.0
    ensures Sound(Step(m, op), key, l) && Sound(m', key, l) && OffersAtLeast(Step(m, op), m', key, l, 1)
    ensures key in Step(m, op) && Step(m, op)[key].tokens >= asked as real
  {
    hide Available, Taken, Refunded, Gain, Rate, Capacity, Period, Evict, Elapsed;
    forall t: real ensures Available(m, key, l, t) >= Available(m', key, l, t) - 0.0 { SameAvailable(m, m', key, l, t); }
    OwnStep(m, m', op, key, l, 0, 1);
    StepAccounts(m, op, key, l);
    AfterTake(m, key, l, op.now, op.now);
  }

  /** A charge with tokens to spare is harmless, whatever the order of clock readings. */
  lemma {:induction false} SpareChargeIsHarmless(m: Table, m': Table, turns: seq<Turn>, key: string, l: Limit)
    requires ChargedOnce(m, turns, key, false) && NeverDropped(m, m', turns, key) && OneLimit(Everyone(turns), key, l)
    requires SameBucket(m, m', key) && Sound(m, key, l) && Spare(m, turns, key, l)
    ensures Harmless(m, m', turns, key, l)
    decreases |turns|
  {
    hide OffersAtLeast, Step, Admits, Sound, Harmless, Everyone, Available;
    var op, rest := turns[0].op, turns[1..];
    HarmlessFrom(m, m', turns, key, l);
    OneLimitFrom(turns, key, l);
    if op.key != key {
      OtherKeyUntouched(m, op, key);
      NotAdmitted(m', op, key);
      if !turns[0].mine { OtherKeyUntouched(m', op, key); }
      SameAvailable(m, Step(m, op), key, l, 0.0);
      SpareChargeIsHarmless(Step(m, op), if turns[0].mine then m' else Step(m', op), rest, key, l);
    } else if turns[0].mine {
      ChargeTaken(m, m', op, key, l, Asked(rest, key));
      HeldInPeace(Step(m, op), m', rest, key, l);
    } else {
      SameBucketStep(m, m', op, key, l);
      StepAccounts(m, op, key, l);
      SpareChargeIsHarmless(Step(m, op), Step(m', op), rest, key, l);
    }
  }

  /** A call charged on `key` at `now` and later given it back, and whatever the others do to
      that bucket in between. */
  ghost predicate Holds(m: Table, turns: seq<Turn>, key: string, l: Limit, now: real) {
    && turns != [] && turns[0] == Turn(TakeOp(key, l, now), true) && ChargedOnce(m, turns, key, false)
    && forall i :: 0 <= i < |turns| ==> turns[i].op.key == key && turns[i].op.limit == l
  }

  lemma {:induction false} OwnBucketKept(m: Table, m': Table, turns: seq<Turn>, key: string)
    requires forall i :: 0 <= i < |turns| ==> turns[i].op.key == key
    ensures NeverDropped(m, m', turns, key)
    decreases |turns|
  {
    if turns != [] {
      OwnBucketKept(Step(m, turns[0].op), if turns[0].mine then m' else Step(m', turns[0].op), turns[1..], key);
    }
  }

  /** The others take `n` times at `now`, and then the call gives back. */
  function Crowd(key: string, l: Limit, now: real, n: nat): (turns: seq<Turn>)
    ensures forall i :: 0 <= i < |turns| ==> turns[i].op.key == key && turns[i].op.limit == l
    ensures Asked(turns, key) == n
  {
    if n == 0 then [Turn(RefundOp(key, l, now), true)]
    else [Turn(TakeOp(key, l, now), false)] + Crowd(key, l, now, n - 1)
  }

  /** A crowd that would just use up the bucket meets the charge. */
  lemma {:induction false} CrowdNotices(m: Table, m': Table, key: string, l: Limit, now: real, n: nat)
    requires Available(m, key, l, now) < n as real <= Available(m', key, l, now) && n >= 1
    ensures ChargedOnce(m, Crowd(key, l, now, n), key, true)
    ensures !NobodyElseRefused(m, m', Crowd(key, l, now, n), key)
    decreases n
  {
    hide Available, Taken, Gain, Rate, Capacity, Period;
    var take, turns := TakeOp(key, l, now), Crowd(key, l, now, n);
    assert turns[1..] == Crowd(key, l, now, n - 1);
    AfterTake(m, key, l, now, now);
    AfterTake(m', key, l, now, now);
    CrowdIsHeld(m, key, l, now, n);
    if Admits(m, take, key) {
      NoGain(l, now);
      AvailableCapped(m, key, l, now);
      AvailableCapped(m', key, l, now);
      CrowdNotices(Step(m, take), Step(m', take), key, l, now, n - 1);
    }
  }

  lemma {:induction false} CrowdIsHeld(m: Table, key: string, l: Limit, now: real, n: nat)
    ensures ChargedOnce(m, Crowd(key, l, now, n), key, true)
    decreases n
  {
    hide Step;
    var turns := Crowd(key, l, now, n);
    if n > 0 {
      assert turns[1..] == Crowd(key, l, now, n - 1);
      CrowdIsHeld(Step(m, turns[0].op), key, l, now, n - 1);
    }
  }

  lemma AvailableCapped(m: Table, key: string, l: Limit, t: real)
    ensures Available(m, key, l, t) <= Capacity(l)
  {}

  /** Exactly when a charge that will be given back costs the others nothing, in whatever order
      clock readings come: with up to `n` requests for the bucket before the refund, nobody is
      refused for it, and the bucket afterwards offers no less, if and only if it has `n + 1`
      tokens when the charge is made. */
  lemma HeldChargeHarmlessIff(m: Table, key: string, l: Limit, now: real, n: nat)
    requires Sound(m, key, l) && Admits(m, TakeOp(key, l, now), key)
    ensures (forall turns :: Holds(m, turns, key, l, now) && Asked(turns, key) <= n ==> Harmless(m, m, turns, key, l))
      <==> Available(m, key, l, now) >= n as real + 1.0
  {
    hide Available, Harmless, Sound, OffersAtLeast, Taken;
    var charge := TakeOp(key, l, now);
    if Available(m, key, l, now) >= n as real + 1.0 {
      forall turns | Holds(m, turns, key, l, now) && Asked(turns, key) <= n ensures Harmless(m, m, turns, key, l) {
        SpareWhenHeld(m, turns, key, l, now, n);
      }
    } else {
      var k := Available(m, key, l, now).Floor;
      AfterTake(m, key, l, now, now);
      AvailableCapped(m, key, l, now);
      NoGain(l, now);
      var m' := Step(m, charge);
      CrowdNotices(m', m, key, l, now, k);
      var turns := [Turn(charge, true)] + Crowd(key, l, now, k);
      assert turns[1..] == Crowd(key, l, now, k);
      assert Holds(m, turns, key, l, now) && Asked(turns, key) <= n;
      assert !NobodyElseRefused(m, m, turns, key);
      assert !Harmless(m, m, turns, key, l) by { NotHarmless(m, turns, key, l); }
    }
  }

  lemma NotHarmless(m: Table, turns: seq<Turn>, key: string, l: Limit)
    requires !NobodyElseRefused(m, m, turns, key)
    ensures !Harmless(m, m, turns, key, l)
  {}

  lemma SpareWhenHeld(m: Table, turns: seq<Turn>, key: string, l: Limit, now: real, n: nat)
    requires Sound(m, key, l) && Holds(m, turns, key, l, now) && Asked(turns, key) <= n
    requires Available(m, key, l, now) >= n as real + 1.0
    ensures Harmless(m, m, turns, key, l)
  {
    hide Available, Harmless, Sound, OffersAtLeast, Taken, Step, Everyone;
    var op, rest := turns[0].op, turns[1..];
    OwnBucketKept(m, m, turns, key);
    assert OneLimit(Everyone(turns), key, l);
    OneLimitFrom(turns, key, l);
    ChargeTaken(m, m, op, key, l, Asked(rest, key));
    HeldInPeace(Step(m, op), m, rest, key, l);
    HarmlessFrom(m, m, turns, key, l);
  }

  // ----- calls through their tiers, step by step -----

  /** Where a call stands. Each take and each refund is one critical section. */
  datatype Phase =
    | Taking(left: seq<Tier>, charged: seq<Tier>)
    | Refunding(left: seq<Tier>, tier: Tier, retryInS: nat)
    | Through
    | TurnedAway(tier: Tier, retryInS: nat)

  /** A call reads the clock once, when it arrives. */
  datatype Call = Call(now: real, phase: Phase)

  datatype System = System(table: Table, calls: map<nat, Call>)

  datatype Event =
    | Arrive(id: nat, limits: Limits, overlay: Option<Limit>, who: string, tool: string, now: real)
    | Proceed(id: nat)

  function Onward(left: seq<Tier>, charged: seq<Tier>): Phase {
    if left == [] then Through else Taking(left, charged)
  }

  function GivingBack(left: seq<Tier>, tier: Tier, retryInS: nat): Phase {
    if left == [] then TurnedAway(tier, retryInS) else Refunding(left, tier, retryInS)
  }

  function NextOp(call: Call): Option<Op> {
    match call.phase
    case Taking(left, _) => if left == [] then None else Some(TakeOp(left[0].key, left[0].limit, call.now))
    case Refunding(left, _, _) => if left == [] then None else Some(RefundOp(left[0].key, left[0].limit, call.now))
    case _ => None
  }

  /** Where it stands after its next operation, which it finds the table `m` for. */
  function Decided(m: Table, call: Call): Phase
    requires NextOp(call).Some?
  {
    match call.phase
    case Taking(left, charged) =>
      (match Taken(m, left[0].key, left[0].limit, call.now).1
       case Admitted => Onward(left[1..], charged + [left[0]])
       case Refused(retry) =>
         if !left[0].enforced then Onward(left[1..], charged) else GivingBack(charged, left[0], retry))
    case Refunding(left, tier, retry) => GivingBack(left[1..], tier, retry)
  }

  function Next(sys: System, e: Event): System {
    match e
    case Arrive(id, limits, overlay, who, tool, now) =>
      if id in sys.calls then sys
      else sys.(calls := sys.calls[id := Call(now, Onward(Tiers(limits, overlay, who, tool), []))])
    case Proceed(id) =>
      if id !in sys.calls || NextOp(sys.calls[id]).None? then sys
      else
        var call := sys.calls[id];
        System(Step(sys.table, NextOp(call).value), sys.calls[id := call.(phase := Decided(sys.table, call))])
  }

  ghost function After(sys: System, events: seq<Event>): System
    decreases |events|
  {
    if events == [] then sys else After(Next(sys, events[0]), events[1..])
  }

  /** The operation an event carries out, if it carries one out. */
  function OpOf(sys: System, e: Event): Option<Op> {
    if e.Proceed? && e.id in sys.calls then NextOp(sys.calls[e.id]) else None
  }

  /** The operations of a run, with those of call `id` marked. */
  ghost function Trace(sys: System, events: seq<Event>, id: nat): seq<Turn>
    decreases |events|
  {
    if events == [] then []
    else
      var rest := Trace(Next(sys, events[0]), events[1..], id);
      match OpOf(sys, events[0])
      case Some(op) => [Turn(op, events[0].id == id)] + rest
      case None => rest
  }

  lemma {:induction false} TraceIsRun(sys: System, events: seq<Event>, id: nat)
    ensures After(sys, events).table == Run(sys.table, Everyone(Trace(sys, events, id)))
    decreases |events|
  {
    hide Step, Decided, Tiers;
    if events != [] {
      var rest := Trace(Next(sys, events[0]), events[1..], id);
      TraceIsRun(Next(sys, events[0]), events[1..], id);
      if OpOf(sys, events[0]).Some? {
        var turns := Trace(sys, events, id);
        assert turns[1..] == rest && Everyone(turns)[1..] == Everyone(rest);
      }
    }
  }

  // ----- with nobody in between -----

  function Turns(id: nat, n: nat): (events: seq<Event>)
    ensures |events| == n && forall i :: 0 <= i < n ==> events[i] == Proceed(id)
  {
    if n == 0 then [] else [Proceed(id)] + Turns(id, n - 1)
  }

  function Outcome(r: Option<(Tier, nat)>): Phase {
    match r case Some(refusal) => TurnedAway(refusal.0, refusal.1) case None => Through
  }

  lemma {:induction false} RefundsAlone(sys: System, id: nat, left: seq<Tier>, tier: Tier, retryInS: nat)
    requires id in sys.calls && sys.calls[id].phase == GivingBack(left, tier, retryInS)
    ensures var now := sys.calls[id].now;
      After(sys, Turns(id, |left|)) == System(RefundAll(sys.table, left, now), sys.calls[id := Call(now, TurnedAway(tier, retryInS))])
    decreases |left|
  {
    hide Refunded, Taken;
    if left == [] {
      assert sys.calls == sys.calls[id := sys.calls[id]];
    } else {
      var n, events := Next(sys, Proceed(id)), Turns(id, |left|);
      assert events[0] == Proceed(id) && events[1..] == Turns(id, |left| - 1);
      RefundsAlone(n, id, left[1..], tier, retryInS);
      assert n.calls[id := Call(sys.calls[id].now, TurnedAway(tier, retryInS))] == sys.calls[id := Call(sys.calls[id].now, TurnedAway(tier, retryInS))];
    }
  }

  lemma {:induction false} WalksAlone(sys: System, id: nat, left: seq<Tier>, charged: seq<Tier>) returns (n: nat)
    requires id in sys.calls && sys.calls[id].phase == Onward(left, charged)
    ensures var now := sys.calls[id].now;
      var (m', r) := Walk(sys.table, left, charged, now);
      After(sys, Turns(id, n)) == System(m', sys.calls[id := Call(now, Outcome(r))])
    decreases |left|
  {
    hide Refunded, Taken, RefundAll;
    if left == [] {
      n := 0;
      assert sys.calls == sys.calls[id := sys.calls[id]];
    } else {
      var next, now, tier := Next(sys, Proceed(id)), sys.calls[id].now, left[0];
      var r := Taken(sys.table, tier.key, tier.limit, now).1;
      if r.Refused? && tier.enforced {
        RefundsAlone(next, id, charged, tier, r.retryInS);
        n := |charged| + 1;
      } else {
        var k := WalksAlone(next, id, left[1..], if r.Admitted? then charged + [tier] else charged);
        n := k + 1;
      }
      assert Turns(id, n)[0] == Proceed(id) && Turns(id, n)[1..] == Turns(id, n - 1);
      var (m', o) := Walk(sys.table, left, charged, now);
      assert next.calls[id := Call(now, Outcome(o))] == sys.calls[id := Call(now, Outcome(o))];
    }
  }

  /** Its own turns alone take a call where `rate_limited` takes it in one piece. */
  lemma AloneIsRateLimited(sys: System, id: nat, limits: Limits, overlay: Option<Limit>, who: string, tool: string, now: real)
      returns (n: nat)
    requires id !in sys.calls
    ensures var (m', r) := Walk(sys.table, Tiers(limits, overlay, who, tool), [], now);
      After(sys, [Arrive(id, limits, overlay, who, tool, now)] + Turns(id, n)) == System(m', sys.calls[id := Call(now, Outcome(r))])
  {
    hide Walk, Tiers, Onward;
    var arrive, tiers := Arrive(id, limits, overlay, who, tool, now), Tiers(limits, overlay, who, tool);
    var next := Next(sys, arrive);
    n := WalksAlone(next, id, tiers, []);
    assert ([arrive] + Turns(id, n))[1..] == Turns(id, n);
    var o := Outcome(Walk(sys.table, tiers, [], now).1);
    assert next.calls[id := Call(now, o)] == sys.calls[id := Call(now, o)];
  }

  // ----- a refused call pays back -----

  function Count(tiers: seq<Tier>, key: string): nat {
    if tiers == [] then 0 else (if tiers[0].key == key then 1 else 0) + Count(tiers[1..], key)
  }

  lemma {:induction false} CountPlus(tiers: seq<Tier>, tier: Tier, key: string)
    ensures Count(tiers + [tier], key) == Count(tiers, key) + if tier.key == key then 1 else 0
  {
    var all := tiers + [tier];
    if tiers == [] {
      assert all == [tier] && all[1..] == [];
    } else {
      assert all[1..] == tiers[1..] + [tier];
      CountPlus(tiers[1..], tier, key);
    }
  }

  /** What a call holds of `key` that it will have to give back if it is refused. */
  function Owes(sys: System, id: nat, key: string): nat {
    if id !in sys.calls then 0
    else match sys.calls[id].phase
      case Taking(_, charged) => Count(charged, key)
      case Refunding(left, _, _) => Count(left, key)
      case _ => 0
  }

  lemma {:induction false} StandsStill(sys: System, events: seq<Event>, id: nat)
    requires id in sys.calls && NextOp(sys.calls[id]).None?
    ensures id in After(sys, events).calls && After(sys, events).calls[id] == sys.calls[id]
    decreases |events|
  {
    hide Step, Decided, Tiers;
    if events != [] { StandsStill(Next(sys, events[0]), events[1..], id); }
  }

  /** What one step of the call itself does to what it owes, short of getting through. */
  lemma OwnStepOwes(sys: System, id: nat, key: string)
    requires id in sys.calls && NextOp(sys.calls[id]).Some?
    ensures var op, sys' := NextOp(sys.calls[id]).value, Next(sys, Proceed(id));
      !sys'.calls[id].phase.Through? ==>
        if op.key != key then Owes(sys', id, key) == Owes(sys, id, key)
        else if op.TakeOp? then Owes(sys', id, key) == Owes(sys, id, key) + if Admits(sys.table, op, key) then 1 else 0
        else Owes(sys', id, key) + 1 == Owes(sys, id, key)
  {
    hide Taken, Step, Refunded;
    var phase, phase' := sys.calls[id].phase, Next(sys, Proceed(id)).calls[id].phase;
    assert phase' == Decided(sys.table, sys.calls[id]);
    assert Count([], key) == 0;
    match phase
    case Taking(left, charged) =>
      CountPlus(charged, left[0], key);
    case Refunding(left, _, _) =>
      assert Count(left, key) == (if left[0].key == key then 1 else 0) + Count(left[1..], key);
  }

  /** Whatever the others do in between: a call that ends refused has given back, on every
      bucket, exactly what it was charged. */
  lemma {:induction false} RefusedPaysBack(sys: System, events: seq<Event>, id: nat, key: string)
    requires id in After(sys, events).calls && After(sys, events).calls[id].phase.TurnedAway?
    ensures PaysBack(sys.table, Trace(sys, events, id), key, Owes(sys, id, key))
    decreases |events|
  {
    hide Step, Decided, Tiers, Admits;
    if events != [] {
      var e, sys' := events[0], Next(sys, events[0]);
      var rest := Trace(sys', events[1..], id);
      RefusedPaysBack(sys', events[1..], id, key);
      if OpOf(sys, e).Some? {
        var turns := Trace(sys, events, id);
        assert turns[1..] == rest;
        if e.id == id {
          OwnStepOwes(sys, id, key);
          if sys'.calls[id].phase.Through? { StandsStill(sys', events[1..], id); }
        }
      }
    }
  }

  // ----- every other call without it -----

  function Without(events: seq<Event>, id: nat): seq<Event> {
    if events == [] then [] else (if events[0].id == id then [] else [events[0]]) + Without(events[1..], id)
  }

  /** Up to the wait that a refusal names. */
  predicate SameCourse(c: Call, c': Call) {
    && c.now == c'.now
    && match (c.phase, c'.phase)
       case (Refunding(left, tier, _), Refunding(left', tier', _)) => left == left' && tier == tier'
       case (TurnedAway(tier, _), TurnedAway(tier', _)) => tier == tier'
       case _ => c.phase == c'.phase
  }

  ghost predicate OthersAlike(sys: System, sys': System, id: nat) {
    forall i :: i != id ==> (i in sys.calls <==> i in sys'.calls) && (i in sys.calls ==> SameCourse(sys.calls[i], sys'.calls[i]))
  }

  ghost predicate NobodyNotices(m: Table, m': Table, turns: seq<Turn>) {
    forall key :: NobodyElseNotices(m, m', turns, key)
  }

  lemma SameDecision(m: Table, m': Table, c: Call, c': Call)
    requires SameCourse(c, c') && NextOp(c).Some?
    requires Admits(m, NextOp(c).value, NextOp(c).value.key) == Admits(m', NextOp(c).value, NextOp(c).value.key)
    ensures NextOp(c') == NextOp(c) && SameCourse(c.(phase := Decided(m, c)), c'.(phase := Decided(m', c')))
  {
    hide Taken;
  }

  lemma NobodyNoticesFrom(m: Table, m': Table, turns: seq<Turn>)
    requires turns != [] && NobodyNotices(m, m', turns)
    ensures var op := turns[0].op;
      NobodyNotices(Step(m, op), if turns[0].mine then m' else Step(m', op), turns[1..])
      && (!turns[0].mine ==> Admits(m, op, op.key) == Admits(m', op, op.key))
  {
    hide Step, Admits;
    var op, rest := turns[0].op, turns[1..];
    var n, n' := Step(m, op), if turns[0].mine then m' else Step(m', op);
    assert NobodyElseNotices(m, m', turns, op.key);
    forall key ensures NobodyElseNotices(n, n', rest, key) {
      assert NobodyElseNotices(m, m', turns, key);
    }
  }

  lemma TableAfter(sys: System, e: Event)
    ensures Next(sys, e).table == match OpOf(sys, e) case Some(op) => Step(sys.table, op) case None => sys.table
  {}

  lemma OthersStep(sys: System, sys': System, e: Event, id: nat)
    requires OthersAlike(sys, sys', id)
    requires OpOf(sys, e).Some? && e.id != id ==>
      var op := OpOf(sys, e).value; Admits(sys.table, op, op.key) == Admits(sys'.table, op, op.key)
    ensures var n' := if e.id == id then sys' else Next(sys', e);
      && OthersAlike(Next(sys, e), n', id)
      && n'.table == if e.id != id && OpOf(sys, e).Some? then Step(sys'.table, OpOf(sys, e).value) else sys'.table
  {
    hide Step, Decided, Tiers, Admits;
    if e.id != id && OpOf(sys, e).Some? { SameDecision(sys.table, sys'.table, sys.calls[e.id], sys'.calls[e.id]); }
  }

  /** Where nobody is answered differently, taking the call out of the run leaves every other
      call its course, and the table is what their operations alone make of it. */
  lemma {:induction false} OthersGoTheSame(sys: System, sys': System, events: seq<Event>, id: nat)
    requires OthersAlike(sys, sys', id) && NobodyNotices(sys.table, sys'.table, Trace(sys, events, id))
    ensures OthersAlike(After(sys, events), After(sys', Without(events, id)), id)
    ensures After(sys', Without(events, id)).table == Run(sys'.table, Others(Trace(sys, events, id)))
    decreases |events|
  {
    hide Step, Next, OpOf, Admits, NobodyNotices, OthersAlike;
    if events != [] {
      var e, n := events[0], Next(sys, events[0]);
      var n' := if e.id == id then sys' else Next(sys', e);
      var turns, rest := Trace(sys, events, id), Trace(n, events[1..], id);
      assert if e.id == id then Without(events, id) == Without(events[1..], id)
        else Without(events, id)[0] == e && Without(events, id)[1..] == Without(events[1..], id);
      if OpOf(sys, e).Some? {
        assert turns[0] == Turn(OpOf(sys, e).value, e.id == id) && turns[1..] == rest;
        assert if turns[0].mine then Others(turns) == Others(rest) else Others(turns)[0] == turns[0].op && Others(turns)[1..] == Others(rest);
        NobodyNoticesFrom(sys.table, sys'.table, turns);
      }
      OthersStep(sys, sys', e, id);
      TableAfter(sys, e);
      OthersGoTheSame(n, n', events[1..], id);
    }
  }

  /** What is left of the promise for any refused call of any run: unless another call is
      answered differently meanwhile, every other call goes the way it goes without it, and
      every bucket offers at every instant at least what it would offer. */
  lemma RefusedCallCostsNothing(keys: set<string>, sys: System, events: seq<Event>, id: nat, key: string, l: Limit, t: real)
    requires id !in sys.calls && id in After(sys, events).calls && After(sys, events).calls[id].phase.TurnedAway?
    requires RoomFor(keys, sys.table, Trace(sys, events, id)) && OneLimit(Everyone(Trace(sys, events, id)), key, l)
    requires Sound(sys.table, key, l) && NobodyNotices(sys.table, sys.table, Trace(sys, events, id))
    ensures OthersAlike(After(sys, events), After(sys, Without(events, id)), id)
    ensures Available(After(sys, events).table, key, l, t) >= Available(After(sys, Without(events, id)).table, key, l, t)
  {
    hide Available, Run, RoomFor, Sound, OneLimit, Step, Next, PaysBack, NobodyElseNotices;
    var turns := Trace(sys, events, id);
    RefusedPaysBack(sys, events, id, key);
    TraceIsRun(sys, events, id);
    OthersGoTheSame(sys, sys, events, id);
    assert NobodyElseNotices(sys.table, sys.table, turns, key);
    RefusedAmongOthers(keys, sys.table, turns, key, l, t);
  }

  // ----- a refused call with tokens to spare -----

  predicate RefundsNow(sys: System, e: Event, id: nat, key: string) {
    e.id == id && OpOf(sys, e).Some? && OpOf(sys, e).value.RefundOp? && OpOf(sys, e).value.key == key
  }

  /** A run up to the moment call `id` gives back what it held of `key`. */
  ghost predicate EndsWithRefund(sys: System, events: seq<Event>, id: nat, key: string)
    decreases |events|
  {
    events != [] &&
    if |events| == 1 then RefundsNow(sys, events[0], id, key) else EndsWithRefund(Next(sys, events[0]), events[1..], id, key)
  }

  /** How often a call may still charge or refund `key`. */
  function Concerns(sys: System, id: nat, key: string): nat
    requires id in sys.calls
  {
    match sys.calls[id].phase
    case Taking(left, charged) => Count(left, key) + Count(charged, key)
    case Refunding(left, _, _) => Count(left, key)
    case _ => 0
  }

  lemma OwnStepConcerns(sys: System, id: nat, key: string)
    requires id in sys.calls && NextOp(sys.calls[id]).Some?
    ensures var op, sys' := NextOp(sys.calls[id]).value, Next(sys, Proceed(id));
      && Concerns(sys', id, key) <= Concerns(sys, id, key)
      && (op.key == key && (op.RefundOp? || !Admits(sys.table, op, key)) ==> Concerns(sys', id, key) < Concerns(sys, id, key))
  {
    hide Taken;
    var phase := sys.calls[id].phase;
    if phase.Taking? { CountPlus(phase.charged, phase.left[0], key); }
  }

  lemma OwesWhatConcerns(sys: System, id: nat, key: string)
    requires id in sys.calls
    ensures Owes(sys, id, key) <= Concerns(sys, id, key)
    ensures NextOp(sys.calls[id]).Some? && NextOp(sys.calls[id]).value.key == key ==>
      if NextOp(sys.calls[id]).value.TakeOp? then Owes(sys, id, key) < Concerns(sys, id, key) else Owes(sys, id, key) >= 1
  {}

  lemma {:induction false} NeverRefunds(sys: System, events: seq<Event>, id: nat, key: string)
    requires id in sys.calls && Concerns(sys, id, key) == 0
    ensures !EndsWithRefund(sys, events, id, key)
    decreases |events|
  {
    hide Step, Decided, Tiers;
    if events != [] {
      if events[0].id == id && OpOf(sys, events[0]).Some? { OwnStepConcerns(sys, id, key); }
      NeverRefunds(Next(sys, events[0]), events[1..], id, key);
    }
  }

  lemma {:induction false} CountDistinct(tiers: seq<Tier>, key: string)
    requires DistinctKeys(tiers)
    ensures Count(tiers, key) <= 1
    ensures Count(tiers, key) == 1 ==> exists i :: 0 <= i < |tiers| && tiers[i].key == key
  {
    if tiers != [] {
      var rest := tiers[1..];
      assert DistinctKeys(rest);
      CountDistinct(rest, key);
      if Count(rest, key) == 1 {
        var i :| 0 <= i < |rest| && rest[i].key == key;
        assert tiers[i + 1].key == key;
      }
    }
  }

  /** A call has one tier at most on each key, so in any run up to its refund of `key` it was
      charged there once, and gave back once. */
  lemma {:induction false} RefundComesOfOneCharge(sys: System, events: seq<Event>, id: nat, key: string)
    requires EndsWithRefund(sys, events, id, key) && (id in sys.calls ==> Concerns(sys, id, key) <= 1)
    ensures ChargedOnce(sys.table, Trace(sys, events, id), key, Owes(sys, id, key) == 1)
    decreases |events|
  {
    hide Step, Decided, Tiers, Admits;
    var e, sys', turns := events[0], Next(sys, events[0]), Trace(sys, events, id);
    if |events| == 1 {
      assert turns[1..] == [];
    } else {
      var rest := Trace(sys', events[1..], id);
      if e.Arrive? && e.id == id && id !in sys.calls {
        TiersDistinct(e.limits, e.overlay, e.who, e.tool);
        CountDistinct(Tiers(e.limits, e.overlay, e.who, e.tool), key);
      }
      if OpOf(sys, e).Some? {
        assert turns[1..] == rest;
        if e.id == id {
          OwnStepConcerns(sys, id, key);
          OwnStepOwes(sys, id, key);
          OwesWhatConcerns(sys, id, key);
          OwesWhatConcerns(sys', id, key);
          if Concerns(sys', id, key) == 0 { NeverRefunds(sys', events[1..], id, key); }
        }
      }
      RefundComesOfOneCharge(sys', events[1..], id, key);
    }
  }

  lemma {:induction false} RoomKeepsBuckets(keys: set<string>, m: Table, m': Table, turns: seq<Turn>, key: string)
    requires RoomFor(keys, m, turns) && RoomFor(keys, m', turns)
    ensures NeverDropped(m, m', turns, key)
    decreases |turns|
  {
    hide Step;
    if turns != [] {
      var op := turns[0].op;
      StepKeepsKeys(keys, m, op);
      StepKeepsKeys(keys, m', op);
      assert forall i :: 0 <= i < |turns[1..]| ==> turns[1..][i] == turns[i + 1];
      RoomKeepsBuckets(keys, Step(m, op), if turns[0].mine then m' else Step(m', op), turns[1..], key);
    }
  }

  /** The promise kept, on a condition on the bucket at the charge alone: in any run up to the
      moment a call gives back its charge on `key`, with a token to spare for each later
      request of the others, nobody was refused for it and the bucket offers no less. */
  lemma SpareCallCostsNothing(keys: set<string>, sys: System, events: seq<Event>, id: nat, key: string, l: Limit)
    requires id !in sys.calls && EndsWithRefund(sys, events, id, key)
    requires RoomFor(keys, sys.table, Trace(sys, events, id)) && OneLimit(Everyone(Trace(sys, events, id)), key, l)
    requires Sound(sys.table, key, l) && Spare(sys.table, Trace(sys, events, id), key, l)
    ensures Harmless(sys.table, sys.table, Trace(sys, events, id), key, l)
  {
    hide *;
    NotYetOwing(sys, id, key);
    RefundComesOfOneCharge(sys, events, id, key);
    RoomKeepsBuckets(keys, sys.table, sys.table, Trace(sys, events, id), key);
    ItsOwnBucket(sys.table, key);
    SpareChargeIsHarmless(sys.table, sys.table, Trace(sys, events, id), key, l);
  }

  lemma NotYetOwing(sys: System, id: nat, key: string)
    requires id !in sys.calls
    ensures Owes(sys, id, key) == 0
  {}

  lemma ItsOwnBucket(m: Table, key: string)
    ensures SameBucket(m, m, key)
  {}

  // ----- every other call, while charges are held -----

  /** On `key`, readings of the clock come in the order of the operations. */
  ghost predicate ReadInOrder(m: Table, turns: seq<Turn>, key: string)
    decreases |turns|
  {
    turns == [] ||
    var op := turns[0].op;
    (op.key == key && key in m ==> m[key].updated <= op.now) && ReadInOrder(Step(m, op), turns[1..], key)
  }

  ghost predicate NoRefundYet(turns: seq<Turn>) {
    forall i :: 0 <= i < |turns| ==> turns[i].mine ==> turns[i].op.TakeOp?
  }

  /** From its last reading on, the bucket offers the same with the call as without it. */
  ghost predicate Refreshed(m: Table, m': Table, key: string, l: Limit) {
    key in m && forall t: real :: t >= m[key].updated ==> Available(m, key, l, t) == Available(m', key, l, t)
  }

  /** With the call or without it, there is a token for each later request of the others. */
  ghost predicate Plenty(m: Table, m': Table, key: string, l: Limit, asked: nat) {
    && key in m && m[key].tokens >= asked as real
    && forall t: real :: t >= m[key].updated ==> Available(m', key, l, t) >= asked as real
  }

  /** What the call has done to a bucket so far: nothing, a refused take, or a charge. */
  ghost predicate Alike(m: Table, m': Table, key: string, l: Limit, asked: nat) {
    SameBucket(m, m', key) || Refreshed(m, m', key, l) || Plenty(m, m', key, l, asked)
  }

  lemma AvailableLater(m: Table, key: string, l: Limit, s: real, t: real)
    requires s <= t
    ensures Available(m, key, l, s) <= Available(m, key, l, t)
  {
    AvailableIs(m, key, l, s);
    AvailableIs(m, key, l, t);
    if key in m { Grows(Elapsed(s, m[key].updated), Elapsed(t, m[key].updated), Rate(l)); }
  }

  lemma AtLeastItsTokens(m: Table, key: string, l: Limit, t: real)
    requires Sound(m, key, l) && key in m
    ensures Available(m, key, l, t) >= m[key].tokens
  {
    hide Gain;
    AvailableIs(m, key, l, t);
  }

  /** Waiting in two pieces refills what waiting at once does. */
  lemma GainInPieces(l: Limit, u: real, s: real, t: real)
    requires u <= s <= t
    ensures Gain(l, t, u) == Gain(l, s, u) + Gain(l, t, s)
  {
    var r := Rate(l);
    hide Rate;
    assert (t - u) * r == (s - u) * r + (t - s) * r;
  }

  /** A refused take only brings the bucket up to date. */
  lemma RefusedTakeRefreshes(m: Table, op: Op, key: string, l: Limit, t: real)
    requires op.TakeOp? && op.key == key && op.limit == l && !Admits(m, op, key) && (key in m ==> m[key].updated <= op.now) && op.now <= t
    ensures key in Step(m, op) && Step(m, op)[key].updated == op.now
    ensures Available(Step(m, op), key, l, t) == Available(m, key, l, t)
  {
    hide Available, Taken, Refunded, Gain, Rate, Capacity, Period, Evict, Elapsed;
    AfterTake(m, key, l, op.now, t);
    AvailableIs(m, key, l, op.now);
    AvailableIs(m, key, l, t);
    if key in m {
      var b := m[key];
      GainInPieces(l, b.updated, op.now, t);
      CappedTwice(b.tokens, Gain(l, op.now, b.updated), Gain(l, t, op.now), Capacity(l));
    } else {
      FullAdmits(m, key, l, op.now);
    }
  }

  lemma FullAdmits(m: Table, key: string, l: Limit, now: real)
    requires key !in m
    ensures Available(m, key, l, now) >= 1.0
  {}

  /** After the same operation with the same on offer, the buckets are the same. */
  lemma SameOfferSameBucket(m: Table, m': Table, op: Op, key: string, l: Limit)
    requires op.key == key && op.limit == l && key in m && Available(m, key, l, op.now) == Available(m', key, l, op.now)
    ensures Admits(m, op, key) == Admits(m', op, key)
    ensures Refreshed(Step(m, op), Step(m', op), key, l)
  {
    hide Available, Taken, Refunded, Gain, Rate, Capacity, Period, Evict, Elapsed;
    AfterTake(m, key, l, op.now, op.now);
    AfterTake(m', key, l, op.now, op.now);
    AfterRefund(m, key, l, op.now, op.now);
    forall t: real ensures Available(Step(m, op), key, l, t) == Available(Step(m', op), key, l, t) {
      AfterTake(m, key, l, op.now, t);
      AfterTake(m', key, l, op.now, t);
      AfterRefund(m, key, l, op.now, t);
      AfterRefund(m', key, l, op.now, t);
    }
  }

  /** A request of another call finds plenty either way, and leaves enough for the rest. */
  lemma PlentyLeft(m: Table, m': Table, op: Op, key: string, l: Limit, asked: nat)
    requires op.key == key && op.limit == l && Sound(m, key, l) && Sound(m', key, l)
    requires Plenty(m, m', key, l, asked) && (op.TakeOp? ==> asked >= 1) && m[key].updated <= op.now
    ensures Admits(m, op, key) == Admits(m', op, key)
    ensures Plenty(Step(m, op), Step(m', op), key, l, if op.TakeOp? then asked - 1 else asked)
  {
    hide Available, Taken, Refunded, Gain, Rate, Capacity, Period, Evict, Elapsed;
    AtLeastItsTokens(m, key, l, op.now);
    AvailableGrows(m', key, l, op.now, op.now);
    AfterTake(m, key, l, op.now, op.now);
    AfterTake(m', key, l, op.now, op.now);
    AfterRefund(m, key, l, op.now, op.now);
    var left := if op.TakeOp? then asked - 1 else asked;
    forall t: real ensures Available(Step(m', op), key, l, t) >= left as real {
      AfterTake(m', key, l, op.now, t);
      AfterRefund(m', key, l, op.now, t);
    }
  }

  lemma OthersStepAlike(m: Table, m': Table, op: Op, key: string, l: Limit, asked: nat)
    requires op.key == key && op.limit == l && Sound(m, key, l) && Sound(m', key, l) && (key in m ==> m[key].updated <= op.now)
    requires Alike(m, m', key, l, asked) && (op.TakeOp? ==> asked >= 1)
    ensures Admits(m, op, key) == Admits(m', op, key)
    ensures Alike(Step(m, op), Step(m', op), key, l, if op.TakeOp? then asked - 1 else asked)
  {
    hide Step, Admits, Available, Sound;
    if SameBucket(m, m', key) {
      SameBucketStep(m, m', op, key, l);
    } else if Refreshed(m, m', key, l) {
      SameOfferSameBucket(m, m', op, key, l);
    } else {
      PlentyLeft(m, m', op, key, l, asked);
    }
  }

  /** The call itself: a refused take changes nothing from then on, and a charge leaves plenty. */
  lemma OwnTakeAlike(m: Table, m': Table, op: Op, key: string, l: Limit, asked: nat)
    requires op.TakeOp? && op.key == key && op.limit == l && Sound(m, key, l) && Sound(m', key, l) && (key in m ==> m[key].updated <= op.now)
    requires Alike(m, m', key, l, asked) && (Admits(m, op, key) ==> Available(m, key, l, op.now) >= asked as real + 1.0)
    ensures Alike(Step(m, op), m', key, l, asked)
  {
    hide Available, Taken, Refunded, Gain, Rate, Capacity, Period, Evict, Elapsed;
    var n := Step(m, op);
    AfterTake(m, key, l, op.now, op.now);
    if SameBucket(m, m', key) || Refreshed(m, m', key, l) {
      forall t: real | t >= op.now ensures Available(m, key, l, t) == Available(m', key, l, t) {
        if SameBucket(m, m', key) { SameAvailable(m, m', key, l, t); }
      }
      if Admits(m, op, key) {
        forall t: real | t >= op.now ensures Available(m', key, l, t) >= asked as real { AvailableLater(m, key, l, op.now, t); }
        assert Plenty(n, m', key, l, asked);
      } else {
        forall t: real | t >= op.now ensures Available(n, key, l, t) == Available(m', key, l, t) { RefusedTakeRefreshes(m, op, key, l, t); }
        assert Refreshed(n, m', key, l);
      }
    } else {
      AtLeastItsTokens(m, key, l, op.now);
      assert Plenty(n, m', key, l, asked);
    }
  }

  lemma AlikeElsewhere(m: Table, m': Table, n: Table, n': Table, key: string, l: Limit, asked: nat)
    requires Alike(m, m', key, l, asked) && SameBucket(m, n, key) && SameBucket(m', n', key)
    ensures Alike(n, n', key, l, asked)
  {
    hide Available;
    forall t: real ensures Available(n, key, l, t) == Available(m, key, l, t) && Available(n', key, l, t) == Available(m', key, l, t) {
      SameAvailable(m, n, key, l, t);
      SameAvailable(m', n', key, l, t);
    }
  }

  lemma {:induction false} SpareGoesUnnoticed(m: Table, m': Table, turns: seq<Turn>, key: string, l: Limit)
    requires NeverDropped(m, m', turns, key) && OneLimit(Everyone(turns), key, l) && NoRefundYet(turns)
    requires Sound(m, key, l) && Sound(m', key, l) && Spare(m, turns, key, l) && ReadInOrder(m, turns, key)
    requires Alike(m, m', key, l, Asked(turns, key))
    ensures NobodyElseNotices(m, m', turns, key)
    decreases |turns|
  {
    hide Step, Admits, Sound, Alike, Everyone, Available;
    if turns != [] {
      var op, rest := turns[0].op, turns[1..];
      var n, n' := Step(m, op), if turns[0].mine then m' else Step(m', op);
      OneLimitFrom(turns, key, l);
      assert forall i :: 0 <= i < |rest| ==> rest[i] == turns[i + 1];
      if op.key != key {
        OtherKeyUntouched(m, op, key);
        if !turns[0].mine { OtherKeyUntouched(m', op, key); }
        NotAdmitted(m, op, key);
        NotAdmitted(m', op, key);
        SameAvailable(m, n, key, l, 0.0);
        SameAvailable(m', n', key, l, 0.0);
        AlikeElsewhere(m, m', n, n', key, l, Asked(turns, key));
      } else {
        StepAccounts(m, op, key, l);
        if turns[0].mine {
          OwnTakeAlike(m, m', op, key, l, Asked(turns, key));
        } else {
          StepAccounts(m', op, key, l);
          OthersStepAlike(m, m', op, key, l, Asked(turns, key));
        }
      }
      SpareGoesUnnoticed(n, n', rest, key, l);
    }
  }

  /** While a call only charges, and every bucket it is charged on has tokens to spare then, every
      other call goes exactly the way it goes without it, whichever tiers it passes. Only
      readings on one bucket have to come in order. */
  lemma SpareCallChangesNobody(keys: set<string>, limits: string -> Limit, sys: System, events: seq<Event>, id: nat)
    requires id !in sys.calls && NoRefundYet(Trace(sys, events, id)) && RoomFor(keys, sys.table, Trace(sys, events, id))
    requires forall key ::
      && OneLimit(Everyone(Trace(sys, events, id)), key, limits(key)) && Sound(sys.table, key, limits(key))
      && Spare(sys.table, Trace(sys, events, id), key, limits(key)) && ReadInOrder(sys.table, Trace(sys, events, id), key)
    ensures OthersAlike(After(sys, events), After(sys, Without(events, id)), id)
  {
    hide Trace, After, Without, OthersAlike, OneLimit, Sound, Spare, ReadInOrder, RoomFor, NobodyElseNotices, Everyone;
    var turns := Trace(sys, events, id);
    forall key ensures NobodyElseNotices(sys.table, sys.table, turns, key) {
      assert OneLimit(Everyone(turns), key, limits(key)) && Spare(sys.table, turns, key, limits(key));
      RoomKeepsBuckets(keys, sys.table, sys.table, turns, key);
      ItsOwnBucket(sys.table, key);
      SpareGoesUnnoticed(sys.table, sys.table, turns, key, limits(key));
    }
    LikeItself(sys, id);
    OthersGoTheSame(sys, sys, events, id);
  }

  lemma LikeItself(sys: System, id: nat)
    ensures OthersAlike(sys, sys, id)
  {}

  const TWO_A_MINUTE := Limit(2, 60)

  function TakeAt(key: string, now: real): Op { TakeOp(key, TWO_A_MINUTE, now) }

  lemma FirstTake(key: string, now: real)
    ensures Step(map[], TakeAt(key, now)) == map[key := Bucket(1.0, now)] && Admits(map[], TakeAt(key, now), key)
    ensures Available(map[], key, TWO_A_MINUTE, now) == 2.0
  {}

  /** A minute refills a bucket of two a minute. */
  lemma TakeAfterAMinute(key: string, tokens: real)
    requires 0.0 <= tokens
    ensures var m := map[key := Bucket(tokens, 0.0)];
      Step(m, TakeAt(key, 60.0)) == map[key := Bucket(1.0, 60.0)] && Admits(m, TakeAt(key, 60.0), key)
  {
    var m := map[key := Bucket(tokens, 0.0)];
    assert Rate(TWO_A_MINUTE) == 2.0 / 60.0 && 60.0 * (2.0 / 60.0) == 2.0;
    assert Refilled(m[key], TWO_A_MINUTE, 60.0) == 2.0;
  }

  lemma LastTwo(key: string)
    ensures var m, n := map[key := Bucket(1.0, 60.0)], map[key := Bucket(0.0, 60.0)];
      && Step(m, TakeAt(key, 60.0)) == n && Admits(m, TakeAt(key, 60.0), key) && !Admits(n, TakeAt(key, 60.0), key)
      && Step(m, RefundOp(key, TWO_A_MINUTE, 0.0)) == map[key := Bucket(2.0, 0.0)]
  {}

  /** A charge, a request of another call a minute later, and the refund with its old reading. */
  function HeldAWhile(key: string): seq<Turn> {
    [Turn(TakeAt(key, 0.0), true), Turn(TakeAt(key, 60.0), false), Turn(RefundOp(key, TWO_A_MINUTE, 0.0), true)]
  }

  lemma HeldAWhileIs(key: string, m: Table)
    ensures var turns, charge, take, refund := HeldAWhile(key), TakeAt(key, 0.0), TakeAt(key, 60.0), RefundOp(key, TWO_A_MINUTE, 0.0);
      && Asked(turns, key) == 1 && Others(turns) == [take]
      && Run(m, Everyone(turns)) == Step(Step(Step(m, charge), take), refund)
      && Run(m, Others(turns)) == Step(m, take)
      && (Admits(m, charge, key) ==> ChargedOnce(m, turns, key, false))
  {
    hide Step, Admits;
    var turns, charge, take, refund := HeldAWhile(key), TakeAt(key, 0.0), TakeAt(key, 60.0), RefundOp(key, TWO_A_MINUTE, 0.0);
    var two, one := [Turn(take, false), Turn(refund, true)], [Turn(refund, true)];
    assert turns[1..] == two && two[1..] == one && one[1..] == [];
    assert Asked(one, key) == 0 && Asked(two, key) == 1;
    assert Others(one) == [] && Others(two) == [take] + [] == [take] && Others(turns) == [] + [take];
    assert Everyone(turns) == [charge, take, refund];
    assert [charge, take, refund][1..] == [take, refund] && [take, refund][1..] == [refund] && [refund][1..] == [] && [take][1..] == [];
    var m1, m2 := Step(m, charge), Step(Step(m, charge), take);
    assert Run(m2, [refund]) == Step(m2, refund) && Run(m1, [take, refund]) == Run(m2, [refund]);
    assert ChargedOnce(m2, one, key, true);
  }

  /** Why it stops at the refund. A refund with a reading from before another call's gives the
      bucket more than it would have, and then a call is admitted that would be refused
      without it, and may use up a later tier. */
  lemma RefundAdmitsAnother(key: string)
    ensures var turns, take := HeldAWhile(key), TakeAt(key, 60.0);
      var after, without := Run(map[], Everyone(turns)), Run(map[], Others(turns));
      && ChargedOnce(map[], turns, key, false) && Available(map[], key, TWO_A_MINUTE, 0.0) >= Asked(turns, key) as real + 1.0
      && Admits(after, take, key) && Admits(without, take, key)
      && Admits(Step(after, take), take, key) && !Admits(Step(without, take), take, key)
  {
    hide Step, Admits, Run, Everyone, Others, Asked, ChargedOnce, Available, HeldAWhile;
    HeldAWhileIs(key, map[]);
    FirstTake(key, 0.0);
    FirstTake(key, 60.0);
    TakeAfterAMinute(key, 1.0);
    TakeAfterAMinute(key, 2.0);
    LastTwo(key);
  }

  // ----- a run that breaks the promise -----

  const ONE_A_MINUTE := Limit(1, 60)

  const EMPTY := System(map[], map[])

  /** An enforced tier of one call a minute. */
  function Once(key: string): Tier { Tier(key, ONE_A_MINUTE, true) }

  lemma TakesTheOnlyOne(sys: System, id: nat, key: string, left: seq<Tier>, charged: seq<Tier>)
    requires id in sys.calls && sys.calls[id] == Call(0.0, Taking([Once(key)] + left, charged))
    requires key !in sys.table && |sys.table| < MAX_BUCKETS
    ensures Next(sys, Proceed(id)) ==
      System(sys.table[key := Bucket(0.0, 0.0)], sys.calls[id := Call(0.0, Onward(left, charged + [Once(key)]))])
  {
    assert ([Once(key)] + left)[1..] == left;
    assert Taken(sys.table, key, ONE_A_MINUTE, 0.0) == (sys.table[key := Bucket(0.0, 0.0)], Admitted);
  }

  lemma FindsItGone(sys: System, id: nat, key: string, left: seq<Tier>, charged: seq<Tier>) returns (retry: nat)
    requires id in sys.calls && sys.calls[id] == Call(0.0, Taking([Once(key)] + left, charged))
    requires key in sys.table && sys.table[key] == Bucket(0.0, 0.0)
    ensures Next(sys, Proceed(id)) == sys.(calls := sys.calls[id := Call(0.0, GivingBack(charged, Once(key), retry))])
  {
    hide RetryAfter;
    retry := RetryAfter(0.0, ONE_A_MINUTE);
    assert Taken(sys.table, key, ONE_A_MINUTE, 0.0) == (sys.table[key := Bucket(0.0, 0.0)], Refused(retry));
    assert sys.table[key := Bucket(0.0, 0.0)] == sys.table;
  }

  lemma GivesItBack(sys: System, id: nat, key: string, tier: Tier, retry: nat)
    requires id in sys.calls && sys.calls[id] == Call(0.0, GivingBack([Once(key)], tier, retry))
    requires key in sys.table && sys.table[key] == Bucket(0.0, 0.0)
    ensures Next(sys, Proceed(id)) ==
      System(sys.table[key := Bucket(1.0, 0.0)], sys.calls[id := Call(0.0, TurnedAway(tier, retry))])
  {
    assert Refunded(sys.table, key, ONE_A_MINUTE, 0.0) == sys.table[key := Bucket(1.0, 0.0)];
  }

  lemma Arrives(sys: System, id: nat, overlay: Option<Limit>, who: string, tool: string)
    requires id !in sys.calls && (overlay.Some? ==> overlay.value == ONE_A_MINUTE)
    ensures var tiers := [Once("caller:" + who)] + if overlay.Some? then [Once("overlay:" + tool)] else [];
      Next(sys, Arrive(id, Limits(Some(ONE_A_MINUTE), None, false), overlay, who, tool, 0.0))
        == sys.(calls := sys.calls[id := Call(0.0, Taking(tiers, []))])
  {
    var tiers := [Once("caller:" + who)] + if overlay.Some? then [Once("overlay:" + tool)] else [];
    assert Tiers(Limits(Some(ONE_A_MINUTE), None, false), overlay, who, tool) == tiers;
  }

  lemma AfterFirst(sys: System, e: Event, rest: seq<Event>)
    ensures After(sys, [e] + rest) == After(Next(sys, e), rest)
  {
    assert ([e] + rest)[1..] == rest;
  }

  const PER_CALLER := Limits(Some(ONE_A_MINUTE), None, false)

  function CallOfX(id: nat, who: string): Event { Arrive(id, PER_CALLER, Some(ONE_A_MINUTE), who, "x", 0.0) }

  function CallOfY(id: nat, who: string): Event { Arrive(id, PER_CALLER, None, who, "y", 0.0) }

  /** Each caller has one call a minute, and so has tool x. Caller b uses up tool x. Call 1, of
      caller a, is charged to its caller and about to be refused by tool x when call 2, of the
      same caller, asks for tool y. */
  function Contended(): seq<Event> {
    [CallOfX(0, "b")] + ([Proceed(0)] + ([Proceed(0)] +
      ([CallOfX(1, "a")] + ([Proceed(1)] + ([CallOfY(2, "a")] + ([Proceed(2)] + ([Proceed(1)] + ([Proceed(1)] + []))))))))
  }

  /** Once caller b's call is through. */
  const BUSY := System(map["caller:b" := Bucket(0.0, 0.0), "overlay:x" := Bucket(0.0, 0.0)], map[0 := Call(0.0, Through)])

  lemma FirstCall(rest: seq<Event>)
    ensures After(EMPTY, [CallOfX(0, "b")] + ([Proceed(0)] + ([Proceed(0)] + rest))) == After(BUSY, rest)
  {
    hide Tiers, Step, Decided, NextOp;
    var cb, ox := Once("caller:b"), Once("overlay:x");
    Arrives(EMPTY, 0, Some(ONE_A_MINUTE), "b", "x");
    assert "caller:" + "b" == "caller:b" && "overlay:" + "x" == "overlay:x";
    assert [ox] + [] == [ox] && [] + [cb] == [cb];
    var s1 := System(map[], map[0 := Call(0.0, Taking([cb] + [ox], []))]);
    var s2 := System(map["caller:b" := Bucket(0.0, 0.0)], map[0 := Call(0.0, Taking([ox] + [], [cb]))]);
    TakesTheOnlyOne(s1, 0, "caller:b", [ox], []);
    TakesTheOnlyOne(s2, 0, "overlay:x", [], [cb]);
    assert Next(EMPTY, CallOfX(0, "b")) == s1;
    assert Next(s1, Proceed(0)) == s2;
    assert Next(s2, Proceed(0)) == BUSY;
    AfterFirst(EMPTY, CallOfX(0, "b"), [Proceed(0)] + ([Proceed(0)] + rest));
    AfterFirst(s1, Proceed(0), [Proceed(0)] + rest);
    AfterFirst(s2, Proceed(0), rest);
  }

  /** With call 1, call 2 is refused. Call 1 is refused too, and gives its charge back. */
  lemma WithTheCall() returns (end: System)
    ensures end == After(BUSY, [CallOfX(1, "a")] + ([Proceed(1)] + ([CallOfY(2, "a")] + ([Proceed(2)] + ([Proceed(1)] + ([Proceed(1)] + []))))))
    ensures 1 in end.calls && end.calls[1].phase.TurnedAway? && end.calls[1].phase.tier == Once("overlay:x")
    ensures 2 in end.calls && end.calls[2].phase.TurnedAway? && end.calls[2].phase.tier == Once("caller:a")
    ensures "caller:a" in end.table && end.table["caller:a"] == Bucket(1.0, 0.0)
  {
    hide Tiers, Step, Decided, NextOp;
    var ca, ox, rest := Once("caller:a"), Once("overlay:x"), [Proceed(2)] + ([Proceed(1)] + ([Proceed(1)] + []));
    assert "caller:" + "a" == "caller:a" && "overlay:" + "x" == "overlay:x";
    assert [ox] + [] == [ox] && [ca] + [] == [ca] && [] + [ca] == [ca];
    Arrives(BUSY, 1, Some(ONE_A_MINUTE), "a", "x");
    var s1 := Next(BUSY, CallOfX(1, "a"));
    TakesTheOnlyOne(s1, 1, "caller:a", [ox], []);
    var s2 := Next(s1, Proceed(1));
    Arrives(s2, 2, None, "a", "y");
    var s3 := Next(s2, CallOfY(2, "a"));
    var r2 := FindsItGone(s3, 2, "caller:a", [], []);
    var s4 := Next(s3, Proceed(2));
    var r1 := FindsItGone(s4, 1, "overlay:x", [], [ca]);
    var s5 := Next(s4, Proceed(1));
    GivesItBack(s5, 1, "caller:a", ox, r1);
    end := Next(s5, Proceed(1));
    AfterFirst(s5, Proceed(1), []);
    AfterFirst(s4, Proceed(1), [Proceed(1)] + []);
    AfterFirst(s3, Proceed(2), [Proceed(1)] + ([Proceed(1)] + []));
    AfterFirst(s2, CallOfY(2, "a"), rest);
    AfterFirst(s1, Proceed(1), [CallOfY(2, "a")] + rest);
    AfterFirst(BUSY, CallOfX(1, "a"), [Proceed(1)] + ([CallOfY(2, "a")] + rest));
  }

  /** Without it, call 2 goes through. */
  lemma WithoutTheCall() returns (end: System)
    ensures end == After(BUSY, [CallOfY(2, "a")] + ([Proceed(2)] + []))
    ensures 2 in end.calls && end.calls[2].phase.Through?
  {
    hide Tiers, Step, Decided, NextOp;
    var ca := Once("caller:a");
    assert "caller:" + "a" == "caller:a" && [ca] + [] == [ca];
    Arrives(BUSY, 2, None, "a", "y");
    var s1 := Next(BUSY, CallOfY(2, "a"));
    TakesTheOnlyOne(s1, 2, "caller:a", [], []);
    end := Next(s1, Proceed(2));
    AfterFirst(s1, Proceed(2), []);
    AfterFirst(BUSY, CallOfY(2, "a"), [Proceed(2)] + []);
  }

  lemma WithoutFirst(e: Event, rest: seq<Event>, id: nat)
    ensures Without([e] + rest, id) == if e.id == id then Without(rest, id) else [e] + Without(rest, id)
  {
    assert ([e] + rest)[1..] == rest;
  }

  lemma WithoutNone(id: nat)
    ensures Without([], id) == []
  {}

  lemma ContendedWithout()
    ensures Without(Contended(), 1) == [CallOfX(0, "b")] + ([Proceed(0)] + ([Proceed(0)] + ([CallOfY(2, "a")] + ([Proceed(2)] + []))))
  {
    hide Without;
    var r2, r3 := [Proceed(1)] + ([Proceed(1)] + []), [CallOfX(1, "a")] + ([Proceed(1)] + ([CallOfY(2, "a")] + ([Proceed(2)] + ([Proceed(1)] + ([Proceed(1)] + [])))));
    WithoutFirst(CallOfX(0, "b"), [Proceed(0)] + ([Proceed(0)] + r3), 1);
    WithoutFirst(Proceed(0), [Proceed(0)] + r3, 1);
    WithoutFirst(Proceed(0), r3, 1);
    WithoutFirst(CallOfX(1, "a"), [Proceed(1)] + ([CallOfY(2, "a")] + ([Proceed(2)] + r2)), 1);
    WithoutFirst(Proceed(1), [CallOfY(2, "a")] + ([Proceed(2)] + r2), 1);
    WithoutFirst(CallOfY(2, "a"), [Proceed(2)] + r2, 1);
    WithoutFirst(Proceed(2), r2, 1);
    WithoutFirst(Proceed(1), [Proceed(1)] + [], 1);
    WithoutFirst(Proceed(1), [], 1);
    WithoutNone(1);
  }

  /** From the empty table: call 1 is refused and gives back all it took, and call 2 is refused
      for it; without call 1 it would go through. */
  lemma HeldChargeRefusesAnother()
    ensures var end, without := After(EMPTY, Contended()), After(EMPTY, Without(Contended(), 1));
      && 1 in end.calls && end.calls[1].phase.TurnedAway? && end.calls[1].phase.tier == Once("overlay:x")
      && 2 in end.calls && end.calls[2].phase.TurnedAway? && end.calls[2].phase.tier == Once("caller:a")
      && "caller:a" in end.table && end.table["caller:a"] == Bucket(1.0, 0.0)
      && 2 in without.calls && without.calls[2].phase.Through?
  {
    hide After, Without, CallOfX, CallOfY, Once;
    ContendedWithout();
    var end := WithTheCall();
    var without := WithoutTheCall();
    FirstCall([CallOfX(1, "a")] + ([Proceed(1)] + ([CallOfY(2, "a")] + ([Proceed(2)] + ([Proceed(1)] + ([Proceed(1)] + []))))));
    FirstCall([CallOfY(2, "a")] + ([Proceed(2)] + []));
  }
}
