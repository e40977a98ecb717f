/** The read cache on the call path (src/surface/cache.rs and `dispatch_reach` in
    src/surface/dispatch.rs): what may be cached, when it is served, and what a write drops.

    An upstream is a state it holds and a function of that state, the tool and the arguments
    that it would answer a clean call with. Calls run one at a time here; `CacheRaces` lets them
    overlap. */
module ReadCache {
  import opened Json
  import Canonical

  const READ_CACHE_MAX_ENTRIES: nat := 512

  /** What the catalog and the overlays say of a tool. */
  datatype Tool = Tool(upstream: nat, readOnly: Option<bool>, cacheable: Option<bool>)

  type Catalog = map<string, Tool>

  datatype Key = Key(tool: string, args: string)

  datatype Entry = Entry(at: nat, result: Value)

  type Entries = map<Key, Entry>

  type Answer = (Value, string, Value) -> Value

  /** An overlay's word goes first; otherwise the upstream must have said read-only. */
  function CacheAllowed(tool: Tool, ttl: nat): bool {
    ttl > 0 && match tool.cacheable case Some(c) => c case None => tool.readOnly == Some(true)
  }

  function IsRead(tool: Tool, ttl: nat): bool {
    tool.readOnly == Some(true) || CacheAllowed(tool, ttl)
  }

  function KeyOf(tool: string, args: Value): Key { Key(tool, Canonical.Canon(args)) }

  function Fresh(e: Entry, now: nat, ttl: nat): bool { now < e.at + ttl }

  function Unexpired(entries: Entries, now: nat, ttl: nat): Entries {
    map k | k in entries && Fresh(entries[k], now, ttl) :: entries[k]
  }

  function Stored(entries: Entries, key: Key, result: Value, now: nat, ttl: nat): Entries {
    var room :=
      if |entries| < READ_CACHE_MAX_ENTRIES then entries
      else if |Unexpired(entries, now, ttl)| < READ_CACHE_MAX_ENTRIES then Unexpired(entries, now, ttl)
      else map[];
    room[key := Entry(now, result)]
  }

  /** Entries of the written upstream go; an id the catalog does not know stays. */
  function Busted(entries: Entries, catalog: Catalog, upstream: nat): Entries {
    map k | k in entries && (k.tool !in catalog || catalog[k.tool].upstream != upstream) :: entries[k]
  }

  // ----- one call -----

  datatype Call = Call(tool: string, args: Value, now: nat)

  /** How an upstream call went: refused before it was sent, or sent, with its result, whether
      it is an error (unanswered calls are), whether its pages are partial, whether it is
      small enough to keep, and when the answer came. */
  datatype Response = NotSent | Sent(result: Value, isError: bool, partial: bool, small: bool, doneAt: nat)

  function Hit(entries: Entries, tool: Tool, call: Call, ttl: nat): Option<Value> {
    var key := KeyOf(call.tool, call.args);
    if CacheAllowed(tool, ttl) && key in entries && Fresh(entries[key], call.now, ttl) then Some(entries[key].result) else None
  }

  /** The cache after a call that missed and was sent. */
  function AfterCall(entries: Entries, catalog: Catalog, tool: Tool, call: Call, r: Response, ttl: nat): Entries
    requires r.Sent?
  {
    var kept :=
      if !r.isError && !r.partial && CacheAllowed(tool, ttl) && r.small
      then Stored(entries, KeyOf(call.tool, call.args), r.result, r.doneAt, ttl) else entries;
    if IsRead(tool, ttl) then kept else Busted(kept, catalog, tool.upstream)
  }

  class Cache {
    const catalog: Catalog
    const ttl: nat
    var entries: Entries

    constructor (catalog: Catalog, ttl: nat)
      ensures this.catalog == catalog && this.ttl == ttl && entries == map[]
    {
      this.catalog := catalog;
      this.ttl := ttl;
      entries := map[];
    }

    method Lookup(call: Call) returns (hit: Option<Value>)
      requires call.tool in catalog
      ensures hit == Hit(entries, catalog[call.tool], call, ttl)
    {
      if !CacheAllowed(catalog[call.tool], ttl) { return None; }
      var args := Canonical.CanonicalArgs(call.args);
      var key := Key(call.tool, args);
      hit := if key in entries && Fresh(entries[key], call.now, ttl) then Some(entries[key].result) else None;
    }

    method Store(key: Key, result: Value, now: nat)
      modifies this`entries
      ensures entries == Stored(old(entries), key, result, now, ttl)
    {
      if |entries| >= READ_CACHE_MAX_ENTRIES {
        entries := Unexpired(entries, now, ttl);
        if |entries| >= READ_CACHE_MAX_ENTRIES { entries := map[]; }
      }
      entries := entries[key := Entry(now, result)];
    }

    method BustUpstream(upstream: nat)
      modifies this`entries
      ensures entries == Busted(old(entries), catalog, upstream)
    {
      entries := map k | k in entries && (k.tool !in catalog || catalog[k.tool].upstream != upstream) :: entries[k];
    }

    /** The cache's part in a call, given how the upstream call would go if it is made. */
    method Dispatch(call: Call, r: Response) returns (served: Option<Value>)
      requires call.tool in catalog
      modifies this`entries
      ensures var tool := catalog[call.tool];
        if Hit(old(entries), tool, call, ttl).Some? then served == Hit(old(entries), tool, call, ttl) && entries == old(entries)
        else if r.NotSent? then served == None && entries == old(entries)
        else served == Some(r.result) && entries == AfterCall(old(entries), catalog, tool, call, r, ttl)
    {
      var tool := catalog[call.tool];
      served := Lookup(call);
      if served.Some? { return; }
      if r.NotSent? { return None; }
      if !r.isError && !r.partial && CacheAllowed(tool, ttl) && r.small {
        var args := Canonical.CanonicalArgs(call.args);
        Store(Key(call.tool, args), r.result, r.doneAt);
      }
      if !IsRead(tool, ttl) { BustUpstream(tool.upstream); }
      served := Some(r.result);
    }
  }

  // ----- runs -----

  /** The cache, and what each upstream holds. */
  datatype System = System(entries: Entries, world: map<nat, Value>)

  /** A call, how it goes, and what its upstream holds afterwards. */
  datatype Event = Event(call: Call, response: Response, after: Value)

  function HeldBy(sys: System, upstream: nat): Value {
    if upstream in sys.world then sys.world[upstream] else Null
  }

  function Next(catalog: Catalog, ttl: nat, sys: System, e: Event): System {
    if e.call.tool !in catalog then sys else
      var tool := catalog[e.call.tool];
      if Hit(sys.entries, tool, e.call, ttl).Some? || e.response.NotSent? then sys
      else System(AfterCall(sys.entries, catalog, tool, e.call, e.response, ttl), sys.world[tool.upstream := e.after])
  }

  ghost function Run(catalog: Catalog, ttl: nat, world: map<nat, Value>, events: seq<Event>): System {
    if events == [] then System(map[], world)
    else Next(catalog, ttl, Run(catalog, ttl, world, events[..|events| - 1]), events[|events| - 1])
  }

  /** What is asked of the upstreams: a read leaves them as they are, and a clean, complete
      read result is their answer. A write may do anything, also when it errors or goes
      unanswered, as long as it does it before its dispatch returns. */
  ghost predicate Plays(catalog: Catalog, ttl: nat, answer: Answer, sys: System, e: Event) {
    e.call.tool in catalog && e.response.Sent? && IsRead(catalog[e.call.tool], ttl) ==>
      var held := HeldBy(sys, catalog[e.call.tool].upstream);
      && e.after == held
      && (!e.response.isError && !e.response.partial ==> e.response.result == answer(held, e.call.tool, e.call.args))
  }

  ghost predicate AllPlay(catalog: Catalog, ttl: nat, answer: Answer, world: map<nat, Value>, events: seq<Event>) {
    forall i :: 0 <= i < |events| ==>
      Plays(catalog, ttl, answer, Run(catalog, ttl, world, events[..i]), events[i]) && Canonical.WellFormed(events[i].call.args)
  }

  /** Every entry is what its upstream would answer now. */
  ghost predicate Coherent(catalog: Catalog, answer: Answer, sys: System) {
    forall tool, args :: KeyOf(tool, args) in sys.entries && Canonical.WellFormed(args) ==>
      tool in catalog && sys.entries[KeyOf(tool, args)].result == answer(HeldBy(sys, catalog[tool].upstream), tool, args)
  }

  lemma StepStaysCoherent(catalog: Catalog, ttl: nat, answer: Answer, sys: System, e: Event)
    requires Coherent(catalog, answer, sys) && Plays(catalog, ttl, answer, sys, e) && Canonical.WellFormed(e.call.args)
    ensures Coherent(catalog, answer, Next(catalog, ttl, sys, e))
  {
    hide Canonical.Canon, Canonical.WellFormed;
    var sys' := Next(catalog, ttl, sys, e);
    forall tool, args | KeyOf(tool, args) in sys'.entries && Canonical.WellFormed(args)
      ensures tool in catalog && sys'.entries[KeyOf(tool, args)].result == answer(HeldBy(sys', catalog[tool].upstream), tool, args)
    {
      if KeyOf(tool, args) == KeyOf(e.call.tool, e.call.args) { Canonical.CanonInjective(args, e.call.args); }
    }
  }

  lemma {:induction false} RunIsCoherent(catalog: Catalog, ttl: nat, answer: Answer, world: map<nat, Value>, events: seq<Event>)
    requires AllPlay(catalog, ttl, answer, world, events)
    ensures Coherent(catalog, answer, Run(catalog, ttl, world, events))
  {
    if events != [] {
      var n := |events| - 1;
      forall i | 0 <= i < n
        ensures Plays(catalog, ttl, answer, Run(catalog, ttl, world, events[..n][..i]), events[..n][i])
      {
        assert events[..n][..i] == events[..i];
        assert Plays(catalog, ttl, answer, Run(catalog, ttl, world, events[..i]), events[i]);
      }
      RunIsCoherent(catalog, ttl, answer, world, events[..n]);
      assert Plays(catalog, ttl, answer, Run(catalog, ttl, world, events[..n]), events[n]);
      StepStaysCoherent(catalog, ttl, answer, Run(catalog, ttl, world, events[..n]), events[n]);
    }
  }

  /** Over every run from any state of the upstreams, whatever a hit serves is what the
      upstream would answer at that moment. */
  lemma HitsAreCurrent(catalog: Catalog, ttl: nat, answer: Answer, world: map<nat, Value>, events: seq<Event>, call: Call)
    requires AllPlay(catalog, ttl, answer, world, events) && call.tool in catalog && Canonical.WellFormed(call.args)
    ensures var sys := Run(catalog, ttl, world, events);
      var hit := Hit(sys.entries, catalog[call.tool], call, ttl);
      hit.Some? ==> hit.value == answer(HeldBy(sys, catalog[call.tool].upstream), call.tool, call.args)
  {
    RunIsCoherent(catalog, ttl, answer, world, events);
  }

  /** The cache stays within its bound. */
  lemma {:induction false} CacheBounded(catalog: Catalog, ttl: nat, world: map<nat, Value>, events: seq<Event>)
    ensures |Run(catalog, ttl, world, events).entries| <= READ_CACHE_MAX_ENTRIES
  {
    if events != [] {
      var n := |events| - 1;
      CacheBounded(catalog, ttl, world, events[..n]);
      var sys, e := Run(catalog, ttl, world, events[..n]), events[n];
      if e.call.tool in catalog && e.response.Sent? {
        var kept := Stored(sys.entries, KeyOf(e.call.tool, e.call.args), e.response.result, e.response.doneAt, ttl);
        StoredBounded(sys.entries, KeyOf(e.call.tool, e.call.args), e.response.result, e.response.doneAt, ttl);
        BustedSmaller(kept, catalog, catalog[e.call.tool].upstream);
        BustedSmaller(sys.entries, catalog, catalog[e.call.tool].upstream);
      }
    }
  }

  lemma StoredBounded(entries: Entries, key: Key, result: Value, now: nat, ttl: nat)
    requires |entries| <= READ_CACHE_MAX_ENTRIES
    ensures |Stored(entries, key, result, now, ttl)| <= READ_CACHE_MAX_ENTRIES
  {}

  lemma BustedSmaller(entries: Entries, catalog: Catalog, upstream: nat)
    ensures |Busted(entries, catalog, upstream)| <= |entries|
  {
    var kept := Busted(entries, catalog, upstream);
    assert kept.Keys <= entries.Keys;
    SubsetSmaller(kept.Keys, entries.Keys);
    assert |kept| == |kept.Keys| && |entries| == |entries.Keys|;
  }

  lemma SubsetSmaller(a: set<Key>, b: set<Key>)
    requires a <= b
    ensures |a| <= |b|
  {
    assert b == a + (b - a);
  }

  // ----- a write that lands late -----

  /** From `from` on, every hit is what the upstream would answer, if nothing else happens. */
  ghost predicate HitsCurrentFrom(catalog: Catalog, ttl: nat, answer: Answer, sys: System, from: nat) {
    forall call: Call :: call.now >= from && call.tool in catalog && Canonical.WellFormed(call.args) ==>
      HitIsCurrent(catalog, ttl, answer, sys, call)
  }

  ghost predicate HitIsCurrent(catalog: Catalog, ttl: nat, answer: Answer, sys: System, call: Call)
    requires call.tool in catalog
  {
    var tool := catalog[call.tool];
    var hit := Hit(sys.entries, tool, call, ttl);
    hit.Some? ==> hit.value == answer(HeldBy(sys, tool.upstream), call.tool, call.args)
  }

  /** At `from`, the cache would still serve an entry of this upstream. */
  ghost predicate ServesFrom(catalog: Catalog, ttl: nat, entries: Entries, upstream: nat, from: nat) {
    exists tool, args :: Serves(catalog, ttl, entries, upstream, from, tool, args)
  }

  ghost predicate Serves(catalog: Catalog, ttl: nat, entries: Entries, upstream: nat, from: nat, tool: string, args: Value) {
    && KeyOf(tool, args) in entries && Canonical.WellFormed(args) && tool in catalog && catalog[tool].upstream == upstream
    && CacheAllowed(catalog[tool], ttl) && Fresh(entries[KeyOf(tool, args)], from, ttl)
  }

  function Landed(sys: System, upstream: nat, after: Value): System {
    sys.(world := sys.world[upstream := after])
  }

  /** The assumption that a write acts before its dispatch returns is needed. One that was
      timed out and lands at `from` is harmless, for every way the upstream may answer, exactly
      when it changes nothing or the cache has nothing unexpired of that upstream to serve. */
  lemma LateWriteHarmlessIff(catalog: Catalog, ttl: nat, sys: System, upstream: nat, after: Value, from: nat)
    ensures (forall answer :: HitsCurrentFrom(catalog, ttl, answer, sys, from) ==>
               HitsCurrentFrom(catalog, ttl, answer, Landed(sys, upstream, after), from))
      <==> after == HeldBy(sys, upstream) || !ServesFrom(catalog, ttl, sys.entries, upstream, from)
  {
    if after == HeldBy(sys, upstream) || !ServesFrom(catalog, ttl, sys.entries, upstream, from) {
      forall answer | HitsCurrentFrom(catalog, ttl, answer, sys, from)
        ensures HitsCurrentFrom(catalog, ttl, answer, Landed(sys, upstream, after), from)
      {
        UnaffectedByWrite(catalog, ttl, answer, sys, upstream, after, from);
      }
    } else {
      var tool, args :| Serves(catalog, ttl, sys.entries, upstream, from, tool, args);
      var answer := Witness(catalog, ttl, sys, upstream, after, from, tool, args);
      assert HitsCurrentFrom(catalog, ttl, answer, sys, from) && !HitsCurrentFrom(catalog, ttl, answer, Landed(sys, upstream, after), from);
    }
  }

  lemma UnaffectedByWrite(catalog: Catalog, ttl: nat, answer: Answer, sys: System, upstream: nat, after: Value, from: nat)
    requires HitsCurrentFrom(catalog, ttl, answer, sys, from)
    requires after == HeldBy(sys, upstream) || !ServesFrom(catalog, ttl, sys.entries, upstream, from)
    ensures HitsCurrentFrom(catalog, ttl, answer, Landed(sys, upstream, after), from)
  {
    hide Canonical.Canon, Canonical.WellFormed;
    var sys' := Landed(sys, upstream, after);
    forall call: Call | call.now >= from && call.tool in catalog && Canonical.WellFormed(call.args)
      ensures HitIsCurrent(catalog, ttl, answer, sys', call)
    {
      assert HitIsCurrent(catalog, ttl, answer, sys, call);
      assert Hit(sys.entries, catalog[call.tool], call, ttl).Some? ==>
        Serves(catalog, ttl, sys.entries, catalog[call.tool].upstream, from, call.tool, call.args);
    }
  }

  /** What each cached key stands for, read from the cache itself. */
  ghost function AsCached(entries: Entries): Answer {
    (held, t, a) => if KeyOf(t, a) in entries then entries[KeyOf(t, a)].result else Null
  }

  /** An upstream that answers as cached, and otherwise once the write has landed. */
  lemma Witness(catalog: Catalog, ttl: nat, sys: System, upstream: nat, after: Value, from: nat, tool: string, args: Value)
      returns (answer: Answer)
    requires Serves(catalog, ttl, sys.entries, upstream, from, tool, args) && after != HeldBy(sys, upstream)
    ensures HitsCurrentFrom(catalog, ttl, answer, sys, from)
    ensures !HitsCurrentFrom(catalog, ttl, answer, Landed(sys, upstream, after), from)
  {
    hide Canonical.Canon, Canonical.WellFormed;
    var cached := sys.entries[KeyOf(tool, args)].result;
    var before := AsCached(sys.entries);
    answer := (held, t, a) => if held == after && t == tool && a == args then Array([cached]) else before(held, t, a);
    forall call: Call | call.now >= from && call.tool in catalog && Canonical.WellFormed(call.args)
      ensures HitIsCurrent(catalog, ttl, answer, sys, call)
    {}
    var sys', call := Landed(sys, upstream, after), Call(tool, args, from);
    assert Hit(sys'.entries, catalog[tool], call, ttl) == Some(cached);
    assert Array([cached]) != cached by { NotItsOwnElement(cached); }
    assert !HitIsCurrent(catalog, ttl, answer, sys', call);
  }

  lemma NotItsOwnElement(v: Value)
    ensures Array([v]) != v
  {
    assert v == [v][0];
    assert v < Array([v]);
  }

  /** Such a run: a write times out, a read is answered and cached, the write lands, and the
      next read is served what the upstream no longer holds. */
  lemma StaleHit(args: Value, before: Value, after: Value)
    requires Canonical.WellFormed(args) && before != after
    ensures var catalog := map["get" := Tool(0, Some(true), None), "put" := Tool(0, Some(false), None)];
      var answer: Answer := (held, tool, a) => held;
      var timedOut := Event(Call("put", args, 0), Sent(Null, true, false, true, 5), before);
      var read := Event(Call("get", args, 6), Sent(before, false, false, true, 7), before);
      var events, world := [timedOut, read], map[0 := before];
      var sys, next := Run(catalog, 60, world, events), Call("get", args, 8);
      && AllPlay(catalog, 60, answer, world, events)
      && Hit(Landed(sys, 0, after).entries, catalog["get"], next, 60) == Some(before)
      && answer(HeldBy(Landed(sys, 0, after), 0), "get", args) == after
  {
    hide Canonical.Canon, Canonical.WellFormed;
    var catalog := map["get" := Tool(0, Some(true), None), "put" := Tool(0, Some(false), None)];
    var answer: Answer := (held, tool, a) => held;
    var timedOut := Event(Call("put", args, 0), Sent(Null, true, false, true, 5), before);
    var read := Event(Call("get", args, 6), Sent(before, false, false, true, 7), before);
    var events, world := [timedOut, read], map[0 := before];
    assert events[..0] == [] && events[..1] == [timedOut] && [timedOut][..0] == [];
    var s0, s1 := Run(catalog, 60, world, []), Run(catalog, 60, world, [timedOut]);
    assert s1 == Next(catalog, 60, s0, timedOut) && s1.entries == map[] && HeldBy(s1, 0) == before;
    assert Run(catalog, 60, world, events) == Next(catalog, 60, s1, read);
    assert Plays(catalog, 60, answer, s0, timedOut) && Plays(catalog, 60, answer, s1, read);
    forall i | 0 <= i < |events| ensures Plays(catalog, 60, answer, Run(catalog, 60, world, events[..i]), events[i]) {
      assert i == 0 || i == 1;
    }
  }
}
