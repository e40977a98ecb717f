/** The read cache when calls overlap (`dispatch_reach` in src/surface/dispatch.rs): no lock is
    held while an upstream is awaited, so between the answer to a read and its store, and
    between the effect of a write and its bust, other calls run.

    A write may change what its upstream holds until it returns; which write landed when is
    part of the run, and what it changes is not. */
module CacheRaces {
  import opened Json
  import opened ReadCache
  import Canonical

  datatype Site = Site(catalog: Catalog, ttl: nat)

  /** What the upstreams hold at first, what one holds after a write has landed at a step, and
      how they answer. */
  datatype Conduct = Conduct(first: map<nat, Value>, effect: nat -> Value, answer: Answer)

  /** A call in flight: a read that missed, a read with its answer, and a write. `since` is the
      step of the answer, and `overtakenBy` the writes of its upstream that landed after it. It
      is outdated once a write of its upstream has returned, and lost if that one overtook it. */
  datatype Work =
    | Reading(tool: string, args: Value)
    | Answered(tool: string, args: Value, result: Value, since: nat, overtakenBy: set<nat>, outdated: bool, lost: bool)
    | Writing(tool: string, landed: bool)

  datatype State = State(entries: Entries, world: map<nat, Value>, work: map<nat, Work>, steps: nat)

  /** A call looks up and sends; a read is answered, with a result that may be kept (no error,
      whole and small) or not, and stores it; a write lands, and returns and busts. */
  datatype Event =
    | Start(id: nat, call: Call)
    | Reply(id: nat, keepable: bool)
    | Keep(id: nat, now: nat)
    | Land(id: nat)
    | Return(id: nat)

  function Holds(sys: State, upstream: nat): Value {
    if upstream in sys.world then sys.world[upstream] else Null
  }

  predicate Of(c: Site, tool: string, upstream: nat) {
    tool in c.catalog && c.catalog[tool].upstream == upstream
  }

  function Overtake(c: Site, work: map<nat, Work>, upstream: nat, writer: nat): map<nat, Work> {
    map i | i in work ::
      if work[i].Answered? && Of(c, work[i].tool, upstream) then work[i].(overtakenBy := work[i].overtakenBy + {writer}) else work[i]
  }

  function Outdate(c: Site, work: map<nat, Work>, upstream: nat, writer: nat): map<nat, Work> {
    map i | i in work ::
      if work[i].Answered? && Of(c, work[i].tool, upstream)
      then work[i].(outdated := true, lost := work[i].lost || writer in work[i].overtakenBy) else work[i]
  }

  function Started(c: Site, call: Call): Work
    requires call.tool in c.catalog
  {
    if IsRead(c.catalog[call.tool], c.ttl) then Reading(call.tool, call.args) else Writing(call.tool, false)
  }

  /** The entries after a read with its answer is done. */
  function Kept(c: Site, entries: Entries, w: Work, now: nat): Entries
    requires w.Answered?
  {
    if w.tool in c.catalog && CacheAllowed(c.catalog[w.tool], c.ttl)
    then Stored(entries, KeyOf(w.tool, w.args), w.result, now, c.ttl) else entries
  }

  function Begun(c: Site, sys: State, id: nat, call: Call): State {
    if id in sys.work || call.tool !in c.catalog || Hit(sys.entries, c.catalog[call.tool], call, c.ttl).Some? then sys
    else sys.(work := sys.work[id := Started(c, call)])
  }

  function Replied(c: Site, b: Conduct, sys: State, id: nat, keepable: bool): State {
    if id !in sys.work || !sys.work[id].Reading? || sys.work[id].tool !in c.catalog then sys
    else if !keepable then sys.(work := sys.work - {id})
    else
      var w := sys.work[id];
      var result := b.answer(Holds(sys, c.catalog[w.tool].upstream), w.tool, w.args);
      sys.(work := sys.work[id := Answered(w.tool, w.args, result, sys.steps, {}, false, false)])
  }

  function Finished(c: Site, sys: State, id: nat, now: nat): State {
    if id !in sys.work || !sys.work[id].Answered? then sys
    else sys.(entries := Kept(c, sys.entries, sys.work[id], now), work := sys.work - {id})
  }

  predicate Writes(c: Site, sys: State, id: nat) {
    id in sys.work && sys.work[id].Writing? && sys.work[id].tool in c.catalog
  }

  function Landed(c: Site, b: Conduct, sys: State, id: nat): State {
    if !Writes(c, sys, id) then sys
    else
      var u := c.catalog[sys.work[id].tool].upstream;
      sys.(world := sys.world[u := b.effect(sys.steps)], work := Overtake(c, sys.work, u, id)[id := sys.work[id].(landed := true)])
  }

  function Returned(c: Site, sys: State, id: nat): State {
    if !Writes(c, sys, id) then sys
    else
      var u := c.catalog[sys.work[id].tool].upstream;
      sys.(entries := Busted(sys.entries, c.catalog, u), work := Outdate(c, sys.work - {id}, u, id))
  }

  function Next(c: Site, b: Conduct, sys: State, e: Event): State {
    var sys' :=
      match e
      case Start(id, call) => Begun(c, sys, id, call)
      case Reply(id, keepable) => Replied(c, b, sys, id, keepable)
      case Keep(id, now) => Finished(c, sys, id, now)
      case Land(id) => Landed(c, b, sys, id)
      case Return(id) => Returned(c, sys, id);
    sys'.(steps := sys.steps + 1)
  }

  ghost function After(c: Site, b: Conduct, events: seq<Event>): State {
    if events == [] then State(map[], b.first, map[], 0)
    else Next(c, b, After(c, b, events[..|events| - 1]), events[|events| - 1])
  }

  // ----- hits in order -----

  predicate WritesTo(c: Site, sys: State, id: nat, upstream: nat) {
    Writes(c, sys, id) && Of(c, sys.work[id].tool, upstream)
  }

  /** At step `k` write `id` lands on this upstream … */
  ghost predicate Lands(c: Site, b: Conduct, events: seq<Event>, k: nat, id: nat, upstream: nat) {
    k < |events| && events[k] == Land(id) && WritesTo(c, After(c, b, events[..k]), id, upstream)
  }

  /** … and here it returns. */
  ghost predicate Returns(c: Site, b: Conduct, events: seq<Event>, k: nat, id: nat, upstream: nat) {
    k < |events| && events[k] == Return(id) && WritesTo(c, After(c, b, events[..k]), id, upstream)
  }

  ghost predicate LandedSince(c: Site, b: Conduct, events: seq<Event>, j: nat, id: nat, upstream: nat) {
    exists k :: j <= k < |events| && Lands(c, b, events, k, id, upstream)
  }

  /** Some write of this upstream has landed since step `j` and returned. */
  ghost predicate Missed(c: Site, b: Conduct, events: seq<Event>, j: nat, upstream: nat) {
    exists id, k, l :: j <= k < l < |events| && Lands(c, b, events, k, id, upstream) && Returns(c, b, events, l, id, upstream)
  }

  /** `value` is what the upstream would have answered after `j` steps, and no write that landed
      since then has returned. */
  ghost predicate Shows(c: Site, b: Conduct, events: seq<Event>, j: nat, tool: string, args: Value, value: Value) {
    && j <= |events| && tool in c.catalog
    && var u := c.catalog[tool].upstream;
       value == b.answer(Holds(After(c, b, events[..j]), u), tool, args) && !Missed(c, b, events, j, u)
  }

  /** A hit is in order when it shows the effect of every write that has returned. What it shows
      of those still under way is left open. */
  ghost predicate HitInOrder(c: Site, b: Conduct, events: seq<Event>, call: Call)
    requires call.tool in c.catalog
  {
    var hit := Hit(After(c, b, events).entries, c.catalog[call.tool], call, c.ttl);
    hit.Some? ==> exists j :: Shows(c, b, events, j, call.tool, call.args, hit.value)
  }

  ghost predicate HitsInOrder(c: Site, b: Conduct, events: seq<Event>) {
    forall call: Call :: call.tool in c.catalog && Canonical.WellFormed(call.args) ==> HitInOrder(c, b, events, call)
  }

  /** Every hit at every point of the run. */
  ghost predicate AlwaysInOrder(c: Site, b: Conduct, events: seq<Event>) {
    forall i :: 0 <= i <= |events| ==> HitsInOrder(c, b, events[..i])
  }

  ghost predicate WellFormedEvents(events: seq<Event>) {
    forall i :: 0 <= i < |events| && events[i].Start? ==> Canonical.WellFormed(events[i].call.args)
  }

  /** `e` stores the answer of a read. */
  predicate Stores(c: Site, sys: State, e: Event) {
    && e.Keep? && e.id in sys.work && sys.work[e.id].Answered?
    && sys.work[e.id].tool in c.catalog && CacheAllowed(c.catalog[sys.work[e.id].tool], c.ttl)
  }

  /** No answer is stored that a write overtook which has returned. */
  ghost predicate NoneLost(c: Site, b: Conduct, events: seq<Event>) {
    forall i :: 0 <= i < |events| ==> !StoresLost(c, After(c, b, events[..i]), events[i])
  }

  predicate StoresLost(c: Site, sys: State, e: Event) {
    Stores(c, sys, e) && sys.work[e.id].lost
  }

  // ----- one more step -----

  lemma AfterOneMore(c: Site, b: Conduct, events: seq<Event>, e: Event)
    ensures After(c, b, events + [e]) == Next(c, b, After(c, b, events), e)
    ensures forall k :: 0 <= k <= |events| ==> (events + [e])[..k] == events[..k]
  {
    assert (events + [e])[..|events|] == events;
  }

  lemma LandsOneMore(c: Site, b: Conduct, events: seq<Event>, e: Event, k: nat, id: nat, upstream: nat)
    ensures Lands(c, b, events + [e], k, id, upstream) <==>
      if k < |events| then Lands(c, b, events, k, id, upstream)
      else k == |events| && e == Land(id) && WritesTo(c, After(c, b, events), id, upstream)
    ensures Returns(c, b, events + [e], k, id, upstream) <==>
      if k < |events| then Returns(c, b, events, k, id, upstream)
      else k == |events| && e == Return(id) && WritesTo(c, After(c, b, events), id, upstream)
  {
    hide After, WritesTo;
    AfterOneMore(c, b, events, e);
    assert events[..|events|] == events;
  }

  lemma LandedSinceOneMore(c: Site, b: Conduct, events: seq<Event>, e: Event, j: nat, id: nat, upstream: nat)
    requires j <= |events|
    ensures LandedSince(c, b, events + [e], j, id, upstream) <==>
      LandedSince(c, b, events, j, id, upstream) || (e == Land(id) && WritesTo(c, After(c, b, events), id, upstream))
  {
    hide After, WritesTo, Lands;
    var more := events + [e];
    if LandedSince(c, b, events, j, id, upstream) {
      var k :| j <= k < |events| && Lands(c, b, events, k, id, upstream);
      LandsOneMore(c, b, events, e, k, id, upstream);
    }
    LandsOneMore(c, b, events, e, |events|, id, upstream);
    if LandedSince(c, b, more, j, id, upstream) {
      var k :| j <= k < |more| && Lands(c, b, more, k, id, upstream);
      LandsOneMore(c, b, events, e, k, id, upstream);
    }
  }

  lemma MissedOneMore(c: Site, b: Conduct, events: seq<Event>, e: Event, j: nat, upstream: nat)
    requires j <= |events|
    ensures Missed(c, b, events + [e], j, upstream) <==>
      Missed(c, b, events, j, upstream) ||
      (e.Return? && WritesTo(c, After(c, b, events), e.id, upstream) && LandedSince(c, b, events, j, e.id, upstream))
  {
    hide After, WritesTo, Lands, Returns;
    var more := events + [e];
    if Missed(c, b, events, j, upstream) {
      var id, k, l :| j <= k < l < |events| && Lands(c, b, events, k, id, upstream) && Returns(c, b, events, l, id, upstream);
      LandsOneMore(c, b, events, e, k, id, upstream);
      LandsOneMore(c, b, events, e, l, id, upstream);
    }
    if e.Return? && WritesTo(c, After(c, b, events), e.id, upstream) && LandedSince(c, b, events, j, e.id, upstream) {
      var k :| j <= k < |events| && Lands(c, b, events, k, e.id, upstream);
      LandsOneMore(c, b, events, e, k, e.id, upstream);
      LandsOneMore(c, b, events, e, |events|, e.id, upstream);
    }
    if Missed(c, b, more, j, upstream) {
      var id, k, l :| j <= k < l < |more| && Lands(c, b, more, k, id, upstream) && Returns(c, b, more, l, id, upstream);
      LandsOneMore(c, b, events, e, k, id, upstream);
      LandsOneMore(c, b, events, e, l, id, upstream);
    }
  }

  // ----- what a run keeps -----

  /** The flags of an answer say what happened to its upstream since it was given. */
  ghost predicate AnswerOk(c: Site, b: Conduct, events: seq<Event>, w: Work)
    requires w.Answered? && w.tool in c.catalog
  {
    var u := c.catalog[w.tool].upstream;
    && w.since <= |events|
    && w.result == b.answer(Holds(After(c, b, events[..w.since]), u), w.tool, w.args)
    && (forall id :: id in w.overtakenBy <==> LandedSince(c, b, events, w.since, id, u))
    && (w.lost <==> Missed(c, b, events, w.since, u))
    && (w.lost ==> w.outdated)
  }

  ghost predicate WorkOk(c: Site, b: Conduct, events: seq<Event>) {
    var sys := After(c, b, events);
    && sys.steps == |events|
    && forall id :: id in sys.work ==>
         var w := sys.work[id];
         w.tool in c.catalog && (!w.Writing? ==> Canonical.WellFormed(w.args)) && (w.Answered? ==> AnswerOk(c, b, events, w))
  }

  /** What a step makes of an answer that stays in flight. */
  function Seen(c: Site, sys: State, w: Work, e: Event): Work
    requires w.Answered? && w.tool in c.catalog
  {
    var u := c.catalog[w.tool].upstream;
    if e.Land? && WritesTo(c, sys, e.id, u) then w.(overtakenBy := w.overtakenBy + {e.id})
    else if e.Return? && WritesTo(c, sys, e.id, u) then w.(outdated := true, lost := w.lost || e.id in w.overtakenBy)
    else w
  }

  /** The work in flight after a step comes from the work before. */
  ghost predicate CameFrom(c: Site, b: Conduct, sys: State, e: Event, id: nat, w: Work) {
    if id in sys.work && sys.work[id].Answered? then sys.work[id].tool in c.catalog ==> w == Seen(c, sys, sys.work[id], e)
    else if w.Answered? then
      && e.Reply? && id in sys.work && sys.work[id].Reading? && w.tool == sys.work[id].tool && w.args == sys.work[id].args
      && w.tool in c.catalog
      && w == Answered(w.tool, w.args, b.answer(Holds(sys, c.catalog[w.tool].upstream), w.tool, w.args), sys.steps, {}, false, false)
    else if id in sys.work then w.tool == sys.work[id].tool && (w.Reading? ==> w == sys.work[id])
    else e.Start? && w.tool in c.catalog && (w.Reading? ==> w.args == e.call.args)
  }

  lemma WorkCameFrom(c: Site, b: Conduct, sys: State, e: Event, id: nat)
    requires id in Next(c, b, sys, e).work
    ensures CameFrom(c, b, sys, e, id, Next(c, b, sys, e).work[id])
  {
    hide Hit, Kept, IsRead, Busted;
  }

  lemma AnswerStaysOk(c: Site, b: Conduct, events: seq<Event>, e: Event, w: Work)
    requires w.Answered? && w.tool in c.catalog && AnswerOk(c, b, events, w)
    ensures AnswerOk(c, b, events + [e], Seen(c, After(c, b, events), w, e))
  {
    hide After, WritesTo, LandedSince, Missed;
    var u := c.catalog[w.tool].upstream;
    AfterOneMore(c, b, events, e);
    MissedOneMore(c, b, events, e, w.since, u);
    forall id ensures LandedSince(c, b, events + [e], w.since, id, u) <==>
        LandedSince(c, b, events, w.since, id, u) || (e == Land(id) && WritesTo(c, After(c, b, events), id, u))
    {
      LandedSinceOneMore(c, b, events, e, w.since, id, u);
    }
  }

  lemma NewAnswerOk(c: Site, b: Conduct, events: seq<Event>, e: Event, w: Work)
    requires w.Answered? && w.tool in c.catalog && e.Reply?
    requires w == Answered(w.tool, w.args, b.answer(Holds(After(c, b, events), c.catalog[w.tool].upstream), w.tool, w.args), |events|, {}, false, false)
    ensures AnswerOk(c, b, events + [e], w)
  {
    hide After;
    AfterOneMore(c, b, events, e);
    assert events[..|events|] == events;
  }

  lemma StepKeepsWork(c: Site, b: Conduct, events: seq<Event>, e: Event)
    requires WorkOk(c, b, events) && (e.Start? ==> Canonical.WellFormed(e.call.args))
    ensures WorkOk(c, b, events + [e])
  {
    hide Canonical.WellFormed, AnswerOk, Begun, Replied, Finished, Landed, Returned, WritesTo;
    var sys, sys' := After(c, b, events), After(c, b, events + [e]);
    AfterOneMore(c, b, events, e);
    forall id | id in sys'.work
      ensures var w := sys'.work[id];
        w.tool in c.catalog && (!w.Writing? ==> Canonical.WellFormed(w.args)) && (w.Answered? ==> AnswerOk(c, b, events + [e], w))
    {
      WorkCameFrom(c, b, sys, e, id);
      var w := sys'.work[id];
      if id in sys.work && sys.work[id].Answered? {
        AnswerStaysOk(c, b, events, e, sys.work[id]);
      } else if w.Answered? {
        NewAnswerOk(c, b, events, e, w);
      }
    }
  }

  lemma {:induction false} RunKeepsWork(c: Site, b: Conduct, events: seq<Event>)
    requires WellFormedEvents(events)
    ensures WorkOk(c, b, events)
  {
    hide AnswerOk, Next;
    if events != [] {
      var n := |events| - 1;
      assert events == events[..n] + [events[n]];
      RunKeepsWork(c, b, events[..n]);
      StepKeepsWork(c, b, events[..n], events[n]);
    }
  }

  // ----- what the cache keeps -----

  /** One entry, under a key of well-formed arguments. */
  ghost predicate EntryInOrder(c: Site, b: Conduct, events: seq<Event>, tool: string, args: Value, value: Value) {
    exists j :: Shows(c, b, events, j, tool, args, value)
  }

  ghost predicate EntriesInOrder(c: Site, b: Conduct, events: seq<Event>) {
    var entries := After(c, b, events).entries;
    forall tool, args :: KeyOf(tool, args) in entries && Canonical.WellFormed(args) ==>
      EntryInOrder(c, b, events, tool, args, entries[KeyOf(tool, args)].result)
  }

  /** What a step leaves in the cache was there before, unless it is the answer just stored. */
  lemma EntryCameFrom(c: Site, b: Conduct, sys: State, e: Event, key: Key)
    requires key in Next(c, b, sys, e).entries
    ensures var entry := Next(c, b, sys, e).entries[key];
      || (Stores(c, sys, e) && key == KeyOf(sys.work[e.id].tool, sys.work[e.id].args) && entry.result == sys.work[e.id].result)
      || (key in sys.entries && entry == sys.entries[key])
  {
    hide CacheAllowed, IsRead, KeyOf, Overtake, Outdate;
  }

  lemma BustLeavesNone(c: Site, b: Conduct, sys: State, e: Event, key: Key)
    requires key in Next(c, b, sys, e).entries && e.Return? && key.tool in c.catalog
    ensures !WritesTo(c, sys, e.id, c.catalog[key.tool].upstream)
  {}

  lemma OldEntryInOrder(c: Site, b: Conduct, events: seq<Event>, e: Event, tool: string, args: Value, value: Value)
    requires EntryInOrder(c, b, events, tool, args, value)
    requires tool in c.catalog ==> !(e.Return? && WritesTo(c, After(c, b, events), e.id, c.catalog[tool].upstream))
    ensures EntryInOrder(c, b, events + [e], tool, args, value)
  {
    hide After, WritesTo, Missed;
    var j :| Shows(c, b, events, j, tool, args, value);
    AfterOneMore(c, b, events, e);
    MissedOneMore(c, b, events, e, j, c.catalog[tool].upstream);
    assert Shows(c, b, events + [e], j, tool, args, value);
  }

  lemma NewEntryInOrder(c: Site, b: Conduct, events: seq<Event>, e: Event, args: Value)
    requires WorkOk(c, b, events)
    requires var sys := After(c, b, events);
      && Stores(c, sys, e) && !sys.work[e.id].lost && Canonical.WellFormed(args)
      && KeyOf(sys.work[e.id].tool, args) == KeyOf(sys.work[e.id].tool, sys.work[e.id].args)
    ensures var w := After(c, b, events).work[e.id];
      EntryInOrder(c, b, events + [e], w.tool, args, w.result)
  {
    hide Canonical.Canon, Canonical.WellFormed, After, Missed, CacheAllowed;
    var w := After(c, b, events).work[e.id];
    Canonical.CanonInjective(args, w.args);
    assert AnswerOk(c, b, events, w);
    assert Shows(c, b, events, w.since, w.tool, w.args, w.result);
    OldEntryInOrder(c, b, events, e, w.tool, w.args, w.result);
  }

  lemma StepKeepsEntries(c: Site, b: Conduct, events: seq<Event>, e: Event)
    requires WorkOk(c, b, events) && EntriesInOrder(c, b, events) && !StoresLost(c, After(c, b, events), e)
    ensures EntriesInOrder(c, b, events + [e])
  {
    hide Canonical.Canon, Canonical.WellFormed, WorkOk, Stores, Next, EntryInOrder, WritesTo;
    var sys := After(c, b, events);
    AfterOneMore(c, b, events, e);
    var entries := Next(c, b, sys, e).entries;
    forall tool, args | KeyOf(tool, args) in entries && Canonical.WellFormed(args)
      ensures EntryInOrder(c, b, events + [e], tool, args, entries[KeyOf(tool, args)].result)
    {
      var key := KeyOf(tool, args);
      EntryCameFrom(c, b, sys, e, key);
      if key in sys.entries && entries[key] == sys.entries[key] {
        if e.Return? && tool in c.catalog { BustLeavesNone(c, b, sys, e, key); }
        OldEntryInOrder(c, b, events, e, tool, args, entries[key].result);
      } else {
        NewEntryInOrder(c, b, events, e, args);
      }
    }
  }

  /** Over every run that stores no lost answer, each entry shows every write that has
      returned. */
  lemma {:induction false} RunKeepsEntries(c: Site, b: Conduct, events: seq<Event>)
    requires WellFormedEvents(events) && NoneLost(c, b, events)
    ensures EntriesInOrder(c, b, events)
  {
    hide EntryInOrder, WorkOk, Next, StoresLost;
    if events != [] {
      var n := |events| - 1;
      var before := events[..n];
      assert events == before + [events[n]];
      forall i | 0 <= i < n ensures !StoresLost(c, After(c, b, before[..i]), before[i]) { assert before[..i] == events[..i]; }
      RunKeepsEntries(c, b, before);
      RunKeepsWork(c, b, before);
      StepKeepsEntries(c, b, before, events[n]);
    }
  }

  lemma EntriesServe(c: Site, b: Conduct, events: seq<Event>)
    requires EntriesInOrder(c, b, events)
    ensures HitsInOrder(c, b, events)
  {
    hide Canonical.Canon, Canonical.WellFormed, Shows, After;
    forall call: Call | call.tool in c.catalog && Canonical.WellFormed(call.args) ensures HitInOrder(c, b, events, call) {
      var hit := Hit(After(c, b, events).entries, c.catalog[call.tool], call, c.ttl);
      if hit.Some? { assert EntryInOrder(c, b, events, call.tool, call.args, hit.value); }
    }
  }

  // ----- what does not depend on the upstreams -----

  predicate SameWork(w: Work, w': Work) {
    if w.Answered? && w'.Answered? then w.(result := Null) == w'.(result := Null) else w == w'
  }

  ghost predicate SameTimes(entries: Entries, entries': Entries) {
    entries.Keys == entries'.Keys && forall k :: k in entries ==> entries[k].at == entries'[k].at
  }

  ghost predicate SameWorks(work: map<nat, Work>, work': map<nat, Work>) {
    work.Keys == work'.Keys && forall id :: id in work ==> SameWork(work[id], work'[id])
  }

  /** The two runs differ in values alone. */
  ghost predicate SameShape(sys: State, sys': State) {
    SameTimes(sys.entries, sys'.entries) && SameWorks(sys.work, sys'.work) && sys.steps == sys'.steps
  }

  lemma StoredAtTheSameTimes(entries: Entries, entries': Entries, key: Key, r: Value, r': Value, now: nat, ttl: nat)
    requires SameTimes(entries, entries')
    ensures SameTimes(Stored(entries, key, r, now, ttl), Stored(entries', key, r', now, ttl))
  {
    assert Unexpired(entries, now, ttl).Keys == Unexpired(entries', now, ttl).Keys;
    assert |entries| == |entries.Keys| == |entries'|;
    assert |Unexpired(entries, now, ttl)| == |Unexpired(entries, now, ttl).Keys| == |Unexpired(entries', now, ttl)|;
  }

  lemma MarkedAlike(c: Site, work: map<nat, Work>, work': map<nat, Work>, upstream: nat, id: nat)
    requires SameWorks(work, work')
    ensures SameWorks(Overtake(c, work, upstream, id), Overtake(c, work', upstream, id))
    ensures SameWorks(Outdate(c, work, upstream, id), Outdate(c, work', upstream, id))
  {
    forall i | i in work
      ensures SameWork(Overtake(c, work, upstream, id)[i], Overtake(c, work', upstream, id)[i])
      ensures SameWork(Outdate(c, work, upstream, id)[i], Outdate(c, work', upstream, id)[i])
    {
      assert SameWork(work[i], work'[i]);
    }
  }

  lemma BustedAtTheSameTimes(entries: Entries, entries': Entries, catalog: Catalog, upstream: nat)
    requires SameTimes(entries, entries')
    ensures SameTimes(Busted(entries, catalog, upstream), Busted(entries', catalog, upstream))
  {}

  lemma ReplyKeepsShape(c: Site, b: Conduct, b': Conduct, sys: State, sys': State, id: nat, keepable: bool)
    requires SameShape(sys, sys')
    ensures SameShape(Replied(c, b, sys, id, keepable), Replied(c, b', sys', id, keepable))
  {
    hide SameTimes;
    assert id in sys.work ==> SameWork(sys.work[id], sys'.work[id]);
  }

  lemma KeepKeepsShape(c: Site, sys: State, sys': State, id: nat, now: nat)
    requires SameShape(sys, sys')
    ensures SameShape(Finished(c, sys, id, now), Finished(c, sys', id, now))
  {
    hide Stored, CacheAllowed, KeyOf, SameTimes;
    if id in sys.work && sys.work[id].Answered? {
      var w, w' := sys.work[id], sys'.work[id];
      assert SameWork(w, w');
      StoredAtTheSameTimes(sys.entries, sys'.entries, KeyOf(w.tool, w.args), w.result, w'.result, now, c.ttl);
    }
  }

  lemma LandKeepsShape(c: Site, b: Conduct, b': Conduct, sys: State, sys': State, id: nat)
    requires SameShape(sys, sys')
    ensures SameShape(Landed(c, b, sys, id), Landed(c, b', sys', id))
  {
    hide Overtake, SameTimes;
    assert id in sys.work ==> SameWork(sys.work[id], sys'.work[id]);
    if Writes(c, sys, id) { MarkedAlike(c, sys.work, sys'.work, c.catalog[sys.work[id].tool].upstream, id); }
  }

  lemma ReturnKeepsShape(c: Site, sys: State, sys': State, id: nat)
    requires SameShape(sys, sys')
    ensures SameShape(Returned(c, sys, id), Returned(c, sys', id))
  {
    hide Outdate, SameTimes, Busted;
    assert id in sys.work ==> SameWork(sys.work[id], sys'.work[id]);
    if Writes(c, sys, id) {
      var u := c.catalog[sys.work[id].tool].upstream;
      MarkedAlike(c, sys.work - {id}, sys'.work - {id}, u, id);
      BustedAtTheSameTimes(sys.entries, sys'.entries, c.catalog, u);
    }
  }

  lemma StepKeepsShape(c: Site, b: Conduct, b': Conduct, sys: State, sys': State, e: Event)
    requires SameShape(sys, sys')
    ensures SameShape(Next(c, b, sys, e), Next(c, b', sys', e))
  {
    hide Replied, Finished, Landed, Returned, IsRead, CacheAllowed, KeyOf;
    match e
    case Start(id, call) =>
    case Reply(id, keepable) => ReplyKeepsShape(c, b, b', sys, sys', id, keepable);
    case Keep(id, now) => KeepKeepsShape(c, sys, sys', id, now);
    case Land(id) => LandKeepsShape(c, b, b', sys, sys', id);
    case Return(id) => ReturnKeepsShape(c, sys, sys', id);
  }

  lemma {:induction false} RunsHaveTheSameShape(c: Site, b: Conduct, b': Conduct, events: seq<Event>)
    ensures SameShape(After(c, b, events), After(c, b', events))
  {
    hide Next;
    if events != [] {
      var n := |events| - 1;
      RunsHaveTheSameShape(c, b, b', events[..n]);
      StepKeepsShape(c, b, b', After(c, b, events[..n]), After(c, b', events[..n]), events[n]);
    }
  }

  lemma NoneLostWhateverTheConduct(c: Site, b: Conduct, b': Conduct, events: seq<Event>)
    requires NoneLost(c, b, events)
    ensures NoneLost(c, b', events)
  {
    hide After, IsRead, CacheAllowed;
    forall i | 0 <= i < |events| ensures !StoresLost(c, After(c, b', events[..i]), events[i]) {
      var sys, sys', id := After(c, b, events[..i]), After(c, b', events[..i]), events[i].id;
      RunsHaveTheSameShape(c, b, b', events[..i]);
      assert !StoresLost(c, sys, events[i]);
      assert id in sys'.work ==> SameWork(sys.work[id], sys'.work[id]);
    }
  }

  // ----- upstreams that tell every state apart -----

  function Nulls(n: nat): (s: seq<Value>)
    ensures |s| == n
  {
    if n == 0 then [] else Nulls(n - 1) + [Null]
  }

  /** Every landing leaves a state never seen before, and a read shows the whole state. */
  function Telling(): Conduct {
    Conduct(map[], (step: nat) => Array(Nulls(step + 1)), (held, tool, args) => held)
  }

  function Age(v: Value): nat { if v.Array? then |v.items| else 0 }

  /** What an upstream holds after a step: something new where a write lands. */
  lemma HoldsAfter(c: Site, b: Conduct, sys: State, e: Event, upstream: nat)
    ensures Holds(Next(c, b, sys, e), upstream) ==
      if e.Land? && WritesTo(c, sys, e.id, upstream) then b.effect(sys.steps) else Holds(sys, upstream)
  {
    hide Hit, Kept, IsRead, Busted, Overtake, Outdate;
  }

  lemma {:induction false} CountsSteps(c: Site, b: Conduct, events: seq<Event>)
    ensures After(c, b, events).steps == |events|
  {
    hide Begun, Replied, Finished, Landed, Returned;
    if events != [] { CountsSteps(c, b, events[..|events| - 1]); }
  }

  lemma EffectIsNew(step: nat)
    ensures Age(Telling().effect(step)) == step + 1
  {}

  /** The state of an upstream is never older than its last landing, nor newer than the run. */
  lemma {:induction false} Ages(c: Site, events: seq<Event>, upstream: nat)
    ensures Age(Holds(After(c, Telling(), events), upstream)) <= |events|
    ensures forall k, id :: Lands(c, Telling(), events, k, id, upstream) ==> Age(Holds(After(c, Telling(), events), upstream)) > k
  {
    hide Next, Age, Telling, WritesTo, Lands, Holds;
    var t := Telling();
    if events == [] {
      NothingHeld(upstream);
      NothingLands(c, upstream);
    } else {
      var n := |events| - 1;
      var before, e := events[..n], events[n];
      assert events == before + [e];
      AfterOneMore(c, t, before, e);
      Ages(c, before, upstream);
      CountsSteps(c, t, before);
      HoldsAfter(c, t, After(c, t, before), e, upstream);
      EffectIsNew(n);
      forall k, id | Lands(c, t, events, k, id, upstream) ensures Age(Holds(After(c, t, events), upstream)) > k {
        LandsOneMore(c, t, before, e, k, id, upstream);
      }
    }
  }

  lemma NothingHeld(upstream: nat)
    ensures Age(Holds(State(map[], Telling().first, map[], 0), upstream)) == 0
  {}

  lemma NothingLands(c: Site, upstream: nat)
    ensures forall k, id :: !Lands(c, Telling(), [], k, id, upstream)
  {}

  /** A value that the upstream no longer showed once a write had landed that has returned since
      is out of order. */
  lemma OutOfOrder(c: Site, b: Conduct, events: seq<Event>, call: Call, value: Value, id: nat, k: nat, l: nat)
    requires call.tool in c.catalog && Hit(After(c, b, events).entries, c.catalog[call.tool], call, c.ttl) == Some(value)
    requires var u := c.catalog[call.tool].upstream;
      && k < l < |events| && Lands(c, b, events, k, id, u) && Returns(c, b, events, l, id, u)
      && forall j :: k < j <= |events| ==> b.answer(Holds(After(c, b, events[..j]), u), call.tool, call.args) != value
    ensures !HitInOrder(c, b, events, call)
  {
    hide Hit, Lands, Returns, After, Holds;
    forall j: nat ensures !Shows(c, b, events, j, call.tool, call.args, value) {
      if j <= k { assert Missed(c, b, events, j, c.catalog[call.tool].upstream); }
    }
  }

  /** With upstreams that tell their states apart, a lost answer that is stored is a hit out of
      order at once. */
  lemma LostIsOutOfOrder(c: Site, events: seq<Event>, e: Event)
    requires WorkOk(c, Telling(), events) && StoresLost(c, After(c, Telling(), events), e)
    ensures !HitsInOrder(c, Telling(), events + [e])
  {
    hide Telling, Next, After, Lands, Returns, Holds, Age, Canonical.Canon, Canonical.WellFormed, Hit;
    var t := Telling();
    var w := After(c, t, events).work[e.id];
    var u, more := c.catalog[w.tool].upstream, events + [e];
    assert AnswerOk(c, t, events, w);
    var id, k, l :| w.since <= k < l < |events| && Lands(c, t, events, k, id, u) && Returns(c, t, events, l, id, u);
    AfterOneMore(c, t, events, e);
    LandsOneMore(c, t, events, e, k, id, u);
    LandsOneMore(c, t, events, e, l, id, u);
    StoredIsServed(c, t, After(c, t, events), e);
    forall j | k < j <= |more| ensures t.answer(Holds(After(c, t, more[..j]), u), w.tool, w.args) != w.result {
      LandsInPrefix(c, t, more, j, k, id, u);
      Ages(c, more[..j], u);
      Ages(c, events[..w.since], u);
      TellsAll(Holds(After(c, t, more[..j]), u), w.tool, w.args);
      TellsAll(Holds(After(c, t, events[..w.since]), u), w.tool, w.args);
    }
    var call := Call(w.tool, w.args, e.now);
    OutOfOrder(c, t, more, call, w.result, id, k, l);
    assert !HitInOrder(c, t, more, call);
  }

  lemma TellsAll(held: Value, tool: string, args: Value)
    ensures Telling().answer(held, tool, args) == held
  {}

  lemma LandsInPrefix(c: Site, b: Conduct, events: seq<Event>, j: nat, k: nat, id: nat, upstream: nat)
    requires k < j <= |events| && Lands(c, b, events, k, id, upstream)
    ensures Lands(c, b, events[..j], k, id, upstream)
  {
    assert events[..j][..k] == events[..k];
  }

  lemma StoredIsServed(c: Site, b: Conduct, sys: State, e: Event)
    requires Stores(c, sys, e)
    ensures var w := sys.work[e.id];
      Hit(Next(c, b, sys, e).entries, c.catalog[w.tool], Call(w.tool, w.args, e.now), c.ttl) == Some(w.result)
  {
    hide Canonical.Canon, IsRead;
  }

  /** Exactly when a run of overlapping calls serves nothing out of order, whatever its writes
      change and however its upstreams answer: if and only if it stores no answer that was
      overtaken by a write which has returned. The condition is the same for every conduct `b`
      of the upstreams. */
  lemma AlwaysInOrderIff(c: Site, b: Conduct, events: seq<Event>)
    requires WellFormedEvents(events)
    ensures (forall any :: AlwaysInOrder(c, any, events)) <==> NoneLost(c, b, events)
  {
    hide After, StoresLost, HitsInOrder, WorkOk;
    if NoneLost(c, b, events) {
      forall any ensures AlwaysInOrder(c, any, events) {
        NoneLostWhateverTheConduct(c, b, any, events);
        NoneLostIsInOrder(c, any, events);
      }
    } else {
      var t := Telling();
      assert !NoneLost(c, t, events) by { if NoneLost(c, t, events) { NoneLostWhateverTheConduct(c, t, b, events); } }
      var i :| 0 <= i < |events| && StoresLost(c, After(c, t, events[..i]), events[i]);
      RunKeepsWork(c, t, events[..i]);
      LostIsOutOfOrder(c, events[..i], events[i]);
      assert events[..i + 1] == events[..i] + [events[i]];
      assert !AlwaysInOrder(c, t, events);
    }
  }

  lemma NoneLostIsInOrder(c: Site, b: Conduct, events: seq<Event>)
    requires WellFormedEvents(events) && NoneLost(c, b, events)
    ensures AlwaysInOrder(c, b, events)
  {
    hide After, StoresLost, HitsInOrder, EntriesInOrder;
    forall i | 0 <= i <= |events| ensures HitsInOrder(c, b, events[..i]) {
      forall j | 0 <= j < i ensures !StoresLost(c, After(c, b, events[..i][..j]), events[..i][j]) {
        assert events[..i][..j] == events[..j];
      }
      RunKeepsEntries(c, b, events[..i]);
      EntriesServe(c, b, events[..i]);
    }
  }

  // ----- a condition the program could check -----

  /** No answer is stored after a bust of its upstream. */
  ghost predicate NoneOutdated(c: Site, b: Conduct, events: seq<Event>) {
    forall i :: 0 <= i < |events| ==>
      var sys := After(c, b, events[..i]); Stores(c, sys, events[i]) ==> !sys.work[events[i].id].outdated
  }

  /** It is enough that no bust of its upstream came between a read's answer and its store. */
  lemma NoneOutdatedIsInOrder(c: Site, b: Conduct, events: seq<Event>)
    requires WellFormedEvents(events) && NoneOutdated(c, b, events)
    ensures AlwaysInOrder(c, b, events)
  {
    hide After, AlwaysInOrder, WellFormedEvents, CacheAllowed;
    forall i | 0 <= i < |events| ensures !StoresLost(c, After(c, b, events[..i]), events[i]) {
      RunKeepsWork(c, b, events[..i]) by { PrefixWellFormed(events, i); }
    }
    NoneLostIsInOrder(c, b, events);
  }

  lemma PrefixWellFormed(events: seq<Event>, i: nat)
    requires WellFormedEvents(events) && i <= |events|
    ensures WellFormedEvents(events[..i])
  {}

  // ----- with no write under way -----

  /** A write of this upstream has landed and not returned. */
  ghost predicate InFlight(c: Site, sys: State, upstream: nat) {
    exists id :: WritesTo(c, sys, id, upstream) && sys.work[id].landed
  }

  lemma WriteGoesOn(c: Site, b: Conduct, sys: State, e: Event, id: nat, upstream: nat)
    requires WritesTo(c, sys, id, upstream) && e != Return(id)
    ensures WritesTo(c, Next(c, b, sys, e), id, upstream)
    ensures sys.work[id].landed || e == Land(id) ==> Next(c, b, sys, e).work[id].landed
  {
    hide Hit, Kept, IsRead, Busted;
  }

  /** A write that landed and of which nothing was missed is still under way. */
  lemma {:induction false} LandedIsUnderWay(c: Site, b: Conduct, events: seq<Event>, j: nat, id: nat, upstream: nat)
    requires j <= |events| && LandedSince(c, b, events, j, id, upstream) && !Missed(c, b, events, j, upstream)
    ensures InFlight(c, After(c, b, events), upstream)
    ensures WritesTo(c, After(c, b, events), id, upstream) && After(c, b, events).work[id].landed
    decreases |events|
  {
    hide Next, WritesTo, Lands, Returns;
    if j == |events| {
    } else {
      var n := |events| - 1;
      var before, e := events[..n], events[n];
      assert events == before + [e];
      AfterOneMore(c, b, before, e);
      LandedSinceOneMore(c, b, before, e, j, id, upstream);
      MissedOneMore(c, b, before, e, j, upstream);
      if LandedSince(c, b, before, j, id, upstream) { LandedIsUnderWay(c, b, before, j, id, upstream); }
      WriteGoesOn(c, b, After(c, b, before), e, id, upstream);
    }
  }

  lemma {:induction false} HeldSince(c: Site, b: Conduct, events: seq<Event>, j: nat, upstream: nat)
    requires j <= |events| && forall id :: !LandedSince(c, b, events, j, id, upstream)
    ensures Holds(After(c, b, events), upstream) == Holds(After(c, b, events[..j]), upstream)
    decreases |events|
  {
    hide Next, WritesTo, LandedSince, Holds;
    if j == |events| {
      assert events[..j] == events;
    } else {
      var n := |events| - 1;
      var before, e := events[..n], events[n];
      assert events == before + [e] && before[..j] == events[..j];
      AfterOneMore(c, b, before, e);
      forall id ensures !LandedSince(c, b, before, j, id, upstream) { LandedSinceOneMore(c, b, before, e, j, id, upstream); }
      LandedSinceOneMore(c, b, before, e, j, e.id, upstream);
      HeldSince(c, b, before, j, upstream);
      HoldsAfter(c, b, After(c, b, before), e, upstream);
    }
  }

  /** With no write of its upstream under way, a hit in order is what the upstream would answer
      now. */
  lemma InOrderIsCurrent(c: Site, b: Conduct, events: seq<Event>, call: Call)
    requires call.tool in c.catalog && HitInOrder(c, b, events, call) && !InFlight(c, After(c, b, events), c.catalog[call.tool].upstream)
    ensures var sys := After(c, b, events);
      var hit := Hit(sys.entries, c.catalog[call.tool], call, c.ttl);
      hit.Some? ==> hit.value == b.answer(Holds(sys, c.catalog[call.tool].upstream), call.tool, call.args)
  {
    hide After, Hit, InFlight, LandedSince, Missed, Holds;
    var u, hit := c.catalog[call.tool].upstream, Hit(After(c, b, events).entries, c.catalog[call.tool], call, c.ttl);
    if hit.Some? {
      var j :| Shows(c, b, events, j, call.tool, call.args, hit.value);
      forall id ensures !LandedSince(c, b, events, j, id, u) {
        if LandedSince(c, b, events, j, id, u) { LandedIsUnderWay(c, b, events, j, id, u); }
      }
      HeldSince(c, b, events, j, u);
    }
  }

  // ----- runs with a hit out of order -----

  function GetAndPut(): Site {
    Site(map["get" := Tool(0, Some(true), None), "put" := Tool(0, Some(false), None)], 60)
  }

  /** The upstream holds `before`, then what the first write makes of it, then what the second
      does, and a read shows what it holds. */
  function Rewritten(before: Value, first: Value, second: Value): Conduct {
    Conduct(map[0 := before], (step: nat) => if step < 5 then first else second, (held, tool, args) => held)
  }

  /** A read is answered … */
  function Read(args: Value): seq<Event> { [] + [Start(0, Call("get", args, 0))] + [Reply(0, true)] }

  /** … a write lands, returns and busts … */
  function Written(args: Value): seq<Event> { Read(args) + [Start(1, Call("put", args, 1))] + [Land(1)] + [Return(1)] }

  /** … and the read is stored; or a second write lands first. */
  function Overtaking(args: Value): seq<Event> { Written(args) + [Keep(0, 5)] }

  function OvertakingTwice(args: Value): seq<Event> {
    Written(args) + [Start(2, Call("put", args, 2))] + [Land(2)] + [Keep(0, 5)]
  }

  lemma ReadIsAnswered(args: Value, before: Value, first: Value, second: Value)
    ensures After(GetAndPut(), Rewritten(before, first, second), Read(args))
      == State(map[], map[0 := before], map[0 := Answered("get", args, before, 1, {}, false, false)], 2)
  {
    hide Canonical.Canon;
    var c, b, get := GetAndPut(), Rewritten(before, first, second), Call("get", args, 0);
    AfterOneMore(c, b, [], Start(0, get));
    AfterOneMore(c, b, [] + [Start(0, get)], Reply(0, true));
    assert After(c, b, [] + [Start(0, get)]) == State(map[], map[0 := before], map[0 := Reading("get", args)], 1);
  }

  lemma WriteStarts(args: Value, b: Conduct, sys: State, id: nat, w: Work)
    requires sys.work == map[0 := w] && sys.entries == map[] && id != 0
    ensures var sys' := Next(GetAndPut(), b, sys, Start(id, Call("put", args, id)));
      sys' == sys.(work := map[0 := w, id := Writing("put", false)], steps := sys.steps + 1)
  {
    hide Canonical.Canon;
  }

  lemma WriteLands(b: Conduct, sys: State, id: nat, w: Work)
    requires w.Answered? && w.tool == "get" && id != 0
    requires sys.work == map[0 := w, id := Writing("put", false)] && sys.entries == map[]
    ensures WritesTo(GetAndPut(), sys, id, 0)
    ensures var sys' := Next(GetAndPut(), b, sys, Land(id));
      && sys'.work == map[0 := w.(overtakenBy := w.overtakenBy + {id}), id := Writing("put", true)]
      && sys'.entries == map[] && Holds(sys', 0) == b.effect(sys.steps) && sys'.steps == sys.steps + 1
  {}

  lemma WriteReturns(b: Conduct, sys: State, id: nat, w: Work)
    requires w.Answered? && w.tool == "get" && id in w.overtakenBy && id != 0
    requires sys.work == map[0 := w, id := Writing("put", true)] && sys.entries == map[]
    ensures WritesTo(GetAndPut(), sys, id, 0)
    ensures var sys' := Next(GetAndPut(), b, sys, Return(id));
      && sys'.work == map[0 := w.(outdated := true, lost := true)] && sys'.entries == map[] && sys'.world == sys.world
      && sys'.steps == sys.steps + 1
  {}

  lemma ReadIsStored(args: Value, b: Conduct, sys: State, w: Work, rest: map<nat, Work>)
    requires 0 in sys.work && sys.work[0] == w && sys.work - {0} == rest && sys.entries == map[]
    requires w.Answered? && w.tool == "get" && w.args == args
    ensures var sys' := Next(GetAndPut(), b, sys, Keep(0, 5));
      && sys'.work == rest && sys'.entries == map[KeyOf("get", args) := Entry(5, w.result)] && sys'.world == sys.world
  {
    hide Canonical.Canon;
  }

  /** The write is over, and the read still has its old answer. */
  lemma WriteIsOver(args: Value, before: Value, first: Value, second: Value)
    ensures var c, b := GetAndPut(), Rewritten(before, first, second);
      var sys := After(c, b, Written(args));
      && sys.work == map[0 := Answered("get", args, before, 1, {1}, true, true)] && sys.entries == map[]
      && Holds(sys, 0) == first && sys.steps == 5 && |Written(args)| == 5
      && Lands(c, b, Written(args), 3, 1, 0) && Returns(c, b, Written(args), 4, 1, 0)
  {
    hide Canonical.Canon, After, Next, WritesTo, Lands, Returns;
    var c, b, put, w := GetAndPut(), Rewritten(before, first, second), Start(1, Call("put", args, 1)), Answered("get", args, before, 1, {}, false, false);
    var e2 := Read(args);
    var e3 := e2 + [put];
    var e4 := e3 + [Land(1)];
    assert Written(args) == e4 + [Return(1)] && |e2| == 2;
    ReadIsAnswered(args, before, first, second);
    AfterOneMore(c, b, e2, put);
    WriteStarts(args, b, After(c, b, e2), 1, w);
    AfterOneMore(c, b, e3, Land(1));
    WriteLands(b, After(c, b, e3), 1, w);
    AfterOneMore(c, b, e4, Return(1));
    WriteReturns(b, After(c, b, e4), 1, w.(overtakenBy := {} + {1}));
    LandsOneMore(c, b, e3, Land(1), 3, 1, 0);
    LandsOneMore(c, b, e4, Return(1), 3, 1, 0);
    LandsOneMore(c, b, e4, Return(1), 4, 1, 0);
    assert {} + {1} == {1};
  }

  /** What no write leaves is not held again once one has landed. */
  lemma {:induction false} NeverHeldAgain(c: Site, b: Conduct, events: seq<Event>, k: nat, id: nat, upstream: nat, former: Value)
    requires Lands(c, b, events, k, id, upstream) && forall step :: b.effect(step) != former
    ensures Holds(After(c, b, events), upstream) != former
    decreases |events|
  {
    hide Next, WritesTo, Lands, Holds;
    assert k < |events| by { LandsInside(c, b, events, k, id, upstream); }
    var n := |events| - 1;
    var before, e := events[..n], events[n];
    assert events == before + [e];
    AfterOneMore(c, b, before, e);
    LandsOneMore(c, b, before, e, k, id, upstream);
    HoldsAfter(c, b, After(c, b, before), e, upstream);
    if k < n { NeverHeldAgain(c, b, before, k, id, upstream, former); }
  }

  lemma LandsInside(c: Site, b: Conduct, events: seq<Event>, k: nat, id: nat, upstream: nat)
    requires Lands(c, b, events, k, id, upstream)
    ensures k < |events|
  {}

  /** A hit for what the first write replaced, once that write is over, is out of order. */
  lemma OldAnswerIsOutOfOrder(args: Value, b: Conduct, events: seq<Event>, before: Value, now: nat)
    requires |events| > 5 && Lands(GetAndPut(), b, events, 3, 1, 0) && Returns(GetAndPut(), b, events, 4, 1, 0)
    requires (forall step :: b.effect(step) != before) && forall held, tool, args :: b.answer(held, tool, args) == held
    requires Hit(After(GetAndPut(), b, events).entries, GetAndPut().catalog["get"], Call("get", args, now), 60) == Some(before)
    ensures !HitInOrder(GetAndPut(), b, events, Call("get", args, now))
  {
    hide After, Lands, Returns, Hit, Holds;
    var c := GetAndPut();
    forall j | 3 < j <= |events| ensures b.answer(Holds(After(c, b, events[..j]), 0), "get", args) != before {
      LandsInPrefix(c, b, events, j, 3, 1, 0);
      NeverHeldAgain(c, b, events[..j], 3, 1, 0, before);
    }
    OutOfOrder(c, b, events, Call("get", args, now), before, 1, 3, 4);
  }

  /** With nothing left in flight, every read until the entry expires is served what the
      upstream no longer holds. */
  lemma StaleStore(args: Value, before: Value, after: Value, now: nat)
    requires before != after && now < 65
    ensures var c, b := GetAndPut(), Rewritten(before, after, after);
      var sys, call := After(c, b, Overtaking(args)), Call("get", args, now);
      && sys.work == map[] && Hit(sys.entries, c.catalog["get"], call, c.ttl) == Some(before)
      && b.answer(Holds(sys, 0), "get", args) == after
      && !HitInOrder(c, b, Overtaking(args), call)
  {
    hide Canonical.Canon, After, Next, Written, Lands, Returns, HitInOrder;
    var c, b := GetAndPut(), Rewritten(before, after, after);
    var e5 := Written(args);
    WriteIsOver(args, before, after, after);
    AfterOneMore(c, b, e5, Keep(0, 5));
    var w := Answered("get", args, before, 1, {1}, true, true);
    assert After(c, b, e5).work - {0} == map[];
    ReadIsStored(args, b, After(c, b, e5), w, map[]);
    LandsOneMore(c, b, e5, Keep(0, 5), 3, 1, 0);
    LandsOneMore(c, b, e5, Keep(0, 5), 4, 1, 0);
    OldAnswerIsOutOfOrder(args, b, Overtaking(args), before, now);
  }

  /** A second write under way is no excuse: the first has returned, and reads are served what
      was there before it. */
  lemma StaleBehindAnother(args: Value, before: Value, first: Value, second: Value, now: nat)
    requires before != first && before != second && now < 65
    ensures var c, b := GetAndPut(), Rewritten(before, first, second);
      var sys, call := After(c, b, OvertakingTwice(args)), Call("get", args, now);
      && Holds(After(c, b, Written(args)), 0) == first && InFlight(c, sys, 0)
      && Hit(sys.entries, c.catalog["get"], call, c.ttl) == Some(before)
      && !HitInOrder(c, b, OvertakingTwice(args), call)
  {
    hide Canonical.Canon, After, Next, Written, Lands, Returns, HitInOrder;
    var c, b, put := GetAndPut(), Rewritten(before, first, second), Start(2, Call("put", args, 2));
    var w := Answered("get", args, before, 1, {1}, true, true);
    var e5 := Written(args);
    var e6 := e5 + [put];
    var e7 := e6 + [Land(2)];
    WriteIsOver(args, before, first, second);
    AfterOneMore(c, b, e5, put);
    WriteStarts(args, b, After(c, b, e5), 2, w);
    AfterOneMore(c, b, e6, Land(2));
    WriteLands(b, After(c, b, e6), 2, w);
    AfterOneMore(c, b, e7, Keep(0, 5));
    var w' := w.(overtakenBy := w.overtakenBy + {2});
    assert After(c, b, e7).work - {0} == map[2 := Writing("put", true)];
    ReadIsStored(args, b, After(c, b, e7), w', map[2 := Writing("put", true)]);
    StillLandsAndReturns(c, b, e5, put);
    StillLandsAndReturns(c, b, e6, Land(2));
    StillLandsAndReturns(c, b, e7, Keep(0, 5));
    assert WritesTo(c, After(c, b, OvertakingTwice(args)), 2, 0);
    OldAnswerIsOutOfOrder(args, b, OvertakingTwice(args), before, now);
  }

  lemma StillLandsAndReturns(c: Site, b: Conduct, events: seq<Event>, e: Event)
    requires |events| >= 5 && Lands(c, b, events, 3, 1, 0) && Returns(c, b, events, 4, 1, 0)
    ensures Lands(c, b, events + [e], 3, 1, 0) && Returns(c, b, events + [e], 4, 1, 0)
  {
    hide Lands, Returns;
    LandsOneMore(c, b, events, e, 3, 1, 0);
    LandsOneMore(c, b, events, e, 4, 1, 0);
  }
}
