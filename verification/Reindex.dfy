/** Re-indexing the catalog when upstreams change their tools (src/surface/catalog.rs, `vet`
    in src/surface.rs), over every interleaving of a refresh with the upstreams' own changes
    and announcements. A refresh is not cancelled once started.

    Assembling a catalog and vetting it are given as `Checks`; listing fingerprints do not
    collide. */
module Reindex {
  import opened Json

  const MIN_RECHECK: nat := 10_000
  const MAX_RECHECK: nat := 24 * 60 * 60 * 1000
  const RETRY_AFTER_FAILURE: nat := 30_000

  /** `rest` is what a definition holds beside its id, description and schema. */
  datatype Tool = Tool(id: string, description: string, schema: Value, rest: Value)

  type Listing = seq<Tool>

  datatype Catalog = Catalog(listings: seq<Listing>, derived: Value)

  /** Assembly from listings, which may fail, and the checks a catalog must pass. */
  datatype Checks = Checks(assemble: seq<Listing> -> Option<Value>, passes: Catalog -> bool) {
    function Built(listings: seq<Listing>): Option<Catalog> {
      match assemble(listings)
      case Some(derived) => if passes(Catalog(listings, derived)) then Some(Catalog(listings, derived)) else None
      case None => None
    }
  }

  /** What tells a real change from a re-list: each tool's id, description and schema, in any
      order. */
  ghost function Marks(listing: Listing): multiset<(string, string, Value)> {
    if listing == [] then multiset{}
    else Marks(listing[1..]) + multiset{(listing[0].id, listing[0].description, listing[0].schema)}
  }

  // ----- accepting new listings, one upstream at a time -----

  datatype Changed = Changed(idx: nat, listing: Listing, version: nat)

  function TryAccept(checks: Checks, base: Catalog, f: Changed): Option<Catalog>
    requires f.idx < |base.listings|
  {
    checks.Built(base.listings[f.idx := f.listing])
  }

  function AcceptAll(checks: Checks, base: Catalog, changed: seq<Changed>): Catalog
    requires forall i :: 0 <= i < |changed| ==> changed[i].idx < |base.listings|
    ensures |AcceptAll(checks, base, changed).listings| == |base.listings|
    decreases |changed|
  {
    if changed == [] then base
    else match TryAccept(checks, base, changed[0])
      case Some(c) => AcceptAll(checks, c, changed[1..])
      case None => AcceptAll(checks, base, changed[1..])
  }

  /** The upstreams whose new listing was refused, each against what had been accepted by then. */
  function Refused(checks: Checks, base: Catalog, changed: seq<Changed>): set<nat>
    requires forall i :: 0 <= i < |changed| ==> changed[i].idx < |base.listings|
    decreases |changed|
  {
    if changed == [] then {}
    else match TryAccept(checks, base, changed[0])
      case Some(c) => Refused(checks, c, changed[1..])
      case None => {changed[0].idx} + Refused(checks, base, changed[1..])
  }

  /** The loop over changed upstreams: each is assembled on top of the last accepted catalog,
      and a refused one is to be retried. */
  method AcceptChanged(checks: Checks, current: Catalog, changed: seq<Changed>) returns (accepted: Option<Catalog>, retry: set<nat>)
    requires forall i :: 0 <= i < |changed| ==> changed[i].idx < |current.listings|
    ensures AcceptAll(checks, current, changed) == (if accepted.Some? then accepted.value else current)
    ensures accepted.Some? ==> checks.Built(accepted.value.listings) == accepted
    ensures retry == Refused(checks, current, changed)
  {
    accepted := None;
    retry := {};
    for i := 0 to |changed|
      invariant var base := if accepted.Some? then accepted.value else current;
        && |base.listings| == |current.listings|
        && AcceptAll(checks, current, changed) == AcceptAll(checks, base, changed[i..])
        && Refused(checks, current, changed) == retry + Refused(checks, base, changed[i..])
      invariant accepted.Some? ==> checks.Built(accepted.value.listings) == accepted
    {
      var base := if accepted.Some? then accepted.value else current;
      assert changed[i..][0] == changed[i] && changed[i..][1..] == changed[i + 1..];
      match TryAccept(checks, base, changed[i]) {
        case Some(c) => accepted := Some(c);
        case None => retry := retry + {changed[i].idx};
      }
    }
  }

  /** The changed listings that are accepted, in turn. */
  function Accepted(checks: Checks, base: Catalog, changed: seq<Changed>): (accepted: seq<Changed>)
    requires forall i :: 0 <= i < |changed| ==> changed[i].idx < |base.listings|
    ensures forall i :: 0 <= i < |accepted| ==> accepted[i] in changed
    decreases |changed|
  {
    if changed == [] then []
    else match TryAccept(checks, base, changed[0])
      case Some(c) => [changed[0]] + Accepted(checks, c, changed[1..])
      case None => Accepted(checks, base, changed[1..])
  }

  /** Whatever the checks look at, refused listings leave no trace: without them the same
      catalog is served, nothing is refused, and all that were accepted still are. */
  lemma {:induction false} RefusedLeaveNoTrace(checks: Checks, base: Catalog, changed: seq<Changed>)
    requires forall i :: 0 <= i < |changed| ==> changed[i].idx < |base.listings|
    ensures var rest := Accepted(checks, base, changed);
      && (forall i :: 0 <= i < |rest| ==> rest[i].idx < |base.listings|)
      && AcceptAll(checks, base, rest) == AcceptAll(checks, base, changed)
      && Refused(checks, base, rest) == {}
      && Accepted(checks, base, rest) == rest
    ensures forall i :: 0 <= i < |changed| ==>
      changed[i] in Accepted(checks, base, changed) || changed[i].idx in Refused(checks, base, changed)
    decreases |changed|
  {
    if changed != [] {
      var rest := Accepted(checks, base, changed);
      match TryAccept(checks, base, changed[0])
      case Some(c) =>
        RefusedLeaveNoTrace(checks, c, changed[1..]);
        assert rest[1..] == Accepted(checks, c, changed[1..]);
        assert forall i :: 0 < i < |changed| ==> changed[i] == changed[1..][i - 1];
      case None =>
        RefusedLeaveNoTrace(checks, base, changed[1..]);
        assert forall i :: 0 < i < |changed| ==> changed[i] == changed[1..][i - 1];
    }
  }

  /** The checks look at each upstream's listing on its own. */
  ghost predicate Separable(checks: Checks, ok: (nat, Listing) -> bool) {
    forall listings: seq<Listing> :: checks.Built(listings).Some? <==> AllOk(ok, listings)
  }

  ghost predicate AllOk(ok: (nat, Listing) -> bool, listings: seq<Listing>) {
    forall i :: 0 <= i < |listings| ==> ok(i, listings[i])
  }

  ghost predicate DistinctUpstreams(changed: seq<Changed>) {
    forall i, j :: 0 <= i < j < |changed| ==> changed[i].idx != changed[j].idx
  }

  /** When they do, one upstream's refusal blocks nobody else: every changed listing that passes is served,
      every one that does not leaves its upstream as it was, and the others are untouched. */
  lemma {:induction false} RefusalsAreIndependent(checks: Checks, ok: (nat, Listing) -> bool, base: Catalog, changed: seq<Changed>)
    requires Separable(checks, ok) && AllOk(ok, base.listings) && DistinctUpstreams(changed)
    requires forall i :: 0 <= i < |changed| ==> changed[i].idx < |base.listings|
    ensures var served := AcceptAll(checks, base, changed).listings;
      && (forall i :: 0 <= i < |changed| ==>
            served[changed[i].idx] == if ok(changed[i].idx, changed[i].listing) then changed[i].listing else base.listings[changed[i].idx])
      && (forall u :: 0 <= u < |served| && (forall i :: 0 <= i < |changed| ==> changed[i].idx != u) ==> served[u] == base.listings[u])
    ensures forall i :: 0 <= i < |changed| ==>
      (changed[i].idx in Refused(checks, base, changed) <==> !ok(changed[i].idx, changed[i].listing))
    ensures forall u :: u in Refused(checks, base, changed) ==> exists i :: 0 <= i < |changed| && changed[i].idx == u
    decreases |changed|
  {
    if changed != [] {
      var f, rest := changed[0], changed[1..];
      var listings := base.listings[f.idx := f.listing];
      assert AllOk(ok, listings) <==> ok(f.idx, f.listing) by {
        if AllOk(ok, listings) { assert ok(f.idx, listings[f.idx]); }
      }
      var next := if ok(f.idx, f.listing) then checks.Built(listings).value else base;
      assert next.listings == if ok(f.idx, f.listing) then listings else base.listings;
      forall i, j | 0 <= i < j < |rest| ensures rest[i].idx != rest[j].idx { assert changed[i + 1].idx != changed[j + 1].idx; }
      RefusalsAreIndependent(checks, ok, next, rest);
      forall i | 0 < i < |changed| ensures changed[i].idx != f.idx && changed[i] == rest[i - 1] { assert changed[0].idx != changed[i].idx; }
    }
  }

  // ----- the whole state, step by step -----

  /** A refresh under way: upstreams still to list, the one being listed with the version it
      had when asked, listings that changed, and the catalog being built. */
  datatype Flight = Flight(todo: seq<nat>, asking: Option<(nat, nat)>, changed: seq<Changed>, next: Catalog)

  /** `versions[u]` is everything upstream u has offered, latest last; `announced[u]` the
      version it last announced. `asOf[u]` is the version the served listing was read from,
      and `nextAsOf[u]` the same for the catalog being built. `retrying[u]` says that the last
      attempt to list u failed or was refused. */
  datatype State = State(
    now: nat,
    versions: seq<seq<Listing>>,
    announced: seq<nat>,
    stale: seq<bool>,
    recheckAt: seq<Option<nat>>,
    retrying: seq<bool>,
    served: Catalog,
    asOf: seq<nat>,
    flight: Option<Flight>,
    nextAsOf: seq<nat>)

  datatype Step =
    | Tick(dt: nat)
    | Change(u: nat, listing: Listing)
    | Announce(u: nat)
    | Start
    | TakeStale
    | Listed(version: nat, ttlMs: Option<nat>)
    | ListFailed
    | Build
    | Finish

  predicate Due(s: State, u: nat)
    requires u < |s.stale| && u < |s.recheckAt|
  {
    s.stale[u] || (s.recheckAt[u].Some? && s.recheckAt[u].value <= s.now)
  }

  function DueFrom(s: State, u: nat): (due: seq<nat>)
    requires |s.stale| == |s.recheckAt| && u <= |s.stale|
    ensures forall i :: 0 <= i < |due| ==> u <= due[i] < |s.stale| && Due(s, due[i])
    ensures forall i, j :: 0 <= i < j < |due| ==> due[i] < due[j]
    decreases |s.stale| - u
  {
    if u == |s.stale| then [] else if Due(s, u) then [u] + DueFrom(s, u + 1) else DueFrom(s, u + 1)
  }

  /** When an upstream is next re-listed on its own word, within the floor and ceiling. */
  function RecheckFor(now: nat, ttlMs: Option<nat>): Option<nat> {
    match ttlMs
    case None => None
    case Some(ms) => Some(now + if ms < MIN_RECHECK then MIN_RECHECK else if ms > MAX_RECHECK then MAX_RECHECK else ms)
  }

  function RetryLater(s: State, u: nat): State
    requires u < |s.recheckAt| && u < |s.retrying|
  {
    s.(recheckAt := s.recheckAt[u := Some(s.now + RETRY_AFTER_FAILURE)], retrying := s.retrying[u := true])
  }

  ghost function Next(checks: Checks, s: State, step: Step): State
    requires Shaped(s)
  {
    match step
    case Tick(dt) => s.(now := s.now + dt)
    case Change(u, listing) => if u < Size(s) then s.(versions := s.versions[u := s.versions[u] + [listing]]) else s
    case Announce(u) =>
      if u < Size(s) then s.(stale := s.stale[u := true], announced := s.announced[u := |s.versions[u]| - 1]) else s
    case Start =>
      if s.flight.None? && DueFrom(s, 0) != []
      then s.(flight := Some(Flight(DueFrom(s, 0), None, [], s.served)), nextAsOf := s.asOf) else s
    case _ => match s.flight
      case None => s
      case Some(f) => FlightStep(checks, s, f, step)
  }

  ghost function FlightStep(checks: Checks, s: State, f: Flight, step: Step): State
    requires Shaped(s) && s.flight == Some(f)
  {
    match step
    case TakeStale =>
      if f.asking.Some? || f.todo == [] then s else
        var u := f.todo[0];
        s.(stale := s.stale[u := false], flight := Some(f.(todo := f.todo[1..], asking := Some((u, |s.versions[u]| - 1)))))
    case Listed(version, ttlMs) =>
      if f.asking.None? || !(f.asking.value.1 <= version < |s.versions[f.asking.value.0]|) then s else
        var u := f.asking.value.0;
        var listing, s' := s.versions[u][version], s.(recheckAt := s.recheckAt[u := RecheckFor(s.now, ttlMs)], retrying := s.retrying[u := false]);
        if Marks(listing) != Marks(s.served.listings[u])
        then s'.(flight := Some(f.(asking := None, changed := f.changed + [Changed(u, listing, version)])))
        else s'.(flight := Some(f.(asking := None)), asOf := s.asOf[u := version], nextAsOf := s.nextAsOf[u := version])
    case ListFailed =>
      if f.asking.None? then s else
        RetryLater(s, f.asking.value.0).(flight := Some(f.(asking := None)))
    case Build =>
      if f.asking.Some? || f.todo != [] || f.changed == [] then s else
        var e := f.changed[0];
        (match TryAccept(checks, f.next, e)
         case Some(c) => s.(flight := Some(f.(changed := f.changed[1..], next := c)), nextAsOf := s.nextAsOf[e.idx := e.version])
         case None =>
           RetryLater(s, e.idx).(flight := Some(f.(changed := f.changed[1..]))))
    case Finish =>
      if f.asking.Some? || f.todo != [] || f.changed != [] then s else s.(served := f.next, asOf := s.nextAsOf, flight := None)
    case _ => s
  }

  function Size(s: State): nat { |s.versions| }

  /** One slot for each upstream everywhere, and every upstream has offered something. */
  ghost predicate Shaped(s: State) {
    && |s.announced| == |s.stale| == |s.recheckAt| == |s.retrying| == |s.served.listings| == |s.asOf| == |s.nextAsOf| == Size(s)
    && (forall u :: 0 <= u < Size(s) ==> s.versions[u] != [])
    && (s.flight.Some? ==>
      var f := s.flight.value;
      && |f.next.listings| == Size(s)
      && (forall i :: 0 <= i < |f.todo| ==> f.todo[i] < Size(s))
      && (forall i :: 0 <= i < |f.changed| ==> f.changed[i].idx < Size(s))
      && (f.asking.Some? ==> f.asking.value.0 < Size(s)))
  }

  // ----- the invariant -----

  ghost predicate Vetted(checks: Checks, c: Catalog) {
    checks.Built(c.listings) == Some(c)
  }

  /** `listing` says what upstream u offered at `version`. */
  ghost predicate ReadFrom(s: State, u: nat, version: nat, listing: Listing)
    requires u < Size(s)
  {
    version < |s.versions[u]| && Marks(listing) == Marks(s.versions[u][version])
  }

  /** The last attempt went wrong, and the next is due soon. */
  predicate RetrySet(s: State, u: nat)
    requires u < |s.recheckAt| && u < |s.retrying|
  {
    s.retrying[u] && s.recheckAt[u].Some? && s.recheckAt[u].value <= s.now + RETRY_AFTER_FAILURE
  }

  /** What was announced is covered by `version`, or still to be picked up. */
  ghost predicate Covered(s: State, u: nat, version: nat)
    requires u < |s.announced| && u < |s.stale| && u < |s.recheckAt| && u < |s.retrying|
  {
    s.announced[u] <= version || s.stale[u] || RetrySet(s, u)
  }

  predicate BeingListed(f: Flight, u: nat) {
    (f.asking.Some? && f.asking.value.0 == u) || exists i :: 0 <= i < |f.changed| && f.changed[i].idx == u
  }

  ghost predicate ServedOk(checks: Checks, s: State)
    requires Shaped(s)
  {
    && Vetted(checks, s.served)
    && (forall u :: 0 <= u < Size(s) ==> s.announced[u] < |s.versions[u]| && ReadFrom(s, u, s.asOf[u], s.served.listings[u]))
    && (s.flight.None? ==> forall u :: 0 <= u < Size(s) ==> Covered(s, u, s.asOf[u]))
    && (forall u :: 0 <= u < Size(s) ==> s.recheckAt[u].Some? ==> s.recheckAt[u].value <= s.now + MAX_RECHECK)
  }

  ghost predicate FlightOk(checks: Checks, s: State)
    requires Shaped(s) && s.flight.Some?
  {
    var f := s.flight.value;
    && Vetted(checks, f.next)
    && (forall u :: 0 <= u < Size(s) ==> ReadFrom(s, u, s.nextAsOf[u], f.next.listings[u]))
    && (forall u :: 0 <= u < Size(s) && !BeingListed(f, u) ==> Covered(s, u, s.nextAsOf[u]))
    && (f.asking.Some? ==> var (u, v) := f.asking.value; v < |s.versions[u]| && (s.announced[u] <= v || s.stale[u]))
    && (forall i :: 0 <= i < |f.changed| ==> ChangedOk(s, f.changed[i]))
    && (f.todo != [] || f.asking.Some? ==> f.next == s.served && s.nextAsOf == s.asOf)
    && Disjoint(f)
  }

  ghost predicate ChangedOk(s: State, e: Changed)
    requires e.idx < Size(s) && e.idx < |s.announced| && e.idx < |s.stale|
  {
    ReadFrom(s, e.idx, e.version, e.listing) && (s.announced[e.idx] <= e.version || s.stale[e.idx])
  }

  /** An upstream is waiting, being listed, or changed: one of these, once. */
  ghost predicate Disjoint(f: Flight) {
    && (forall i, j :: 0 <= i < j < |f.todo| ==> f.todo[i] != f.todo[j])
    && DistinctUpstreams(f.changed)
    && (forall i, j :: 0 <= i < |f.todo| && 0 <= j < |f.changed| ==> f.todo[i] != f.changed[j].idx)
    && (f.asking.Some? ==>
      && (forall i :: 0 <= i < |f.todo| ==> f.todo[i] != f.asking.value.0)
      && (forall j :: 0 <= j < |f.changed| ==> f.changed[j].idx != f.asking.value.0))
  }

  ghost predicate Inv(checks: Checks, s: State) {
    Shaped(s) && ServedOk(checks, s) && (s.flight.Some? ==> FlightOk(checks, s))
  }

  lemma ChangeKeepsInv(checks: Checks, s: State, u: nat, listing: Listing)
    requires Inv(checks, s)
    ensures Inv(checks, Next(checks, s, Change(u, listing)))
  {
    hide Marks, Vetted, Disjoint;
    var s' := Next(checks, s, Change(u, listing));
    forall w, v, l | 0 <= w < Size(s) && ReadFrom(s, w, v, l) ensures ReadFrom(s', w, v, l) {}
    if s.flight.Some? {
      var f := s.flight.value;
      forall i | 0 <= i < |f.changed| ensures ChangedOk(s', f.changed[i]) { assert ChangedOk(s, f.changed[i]); }
    }
  }

  lemma AnnounceKeepsInv(checks: Checks, s: State, u: nat)
    requires Inv(checks, s)
    ensures Inv(checks, Next(checks, s, Announce(u)))
  {
    hide Marks, Vetted, Disjoint, ReadFrom;
    var s' := Next(checks, s, Announce(u));
    SameReadings(s, s');
    if s.flight.Some? {
      var f := s.flight.value;
      forall i | 0 <= i < |f.changed| ensures ChangedOk(s', f.changed[i]) { assert ChangedOk(s, f.changed[i]); }
    }
  }

  lemma SameReadings(s: State, s': State)
    requires s.versions == s'.versions
    ensures forall w, v, l :: 0 <= w < Size(s) ==> ReadFrom(s, w, v, l) == ReadFrom(s', w, v, l)
  {}

  lemma TickKeepsInv(checks: Checks, s: State, dt: nat)
    requires Inv(checks, s)
    ensures Inv(checks, Next(checks, s, Tick(dt)))
  {
    hide Marks, Vetted, Disjoint, ReadFrom;
    var s' := Next(checks, s, Tick(dt));
    SameReadings(s, s');
    if s.flight.Some? {
      var f := s.flight.value;
      forall i | 0 <= i < |f.changed| ensures ChangedOk(s', f.changed[i]) { assert ChangedOk(s, f.changed[i]); }
    }
  }

  lemma StartKeepsInv(checks: Checks, s: State)
    requires Inv(checks, s)
    ensures Inv(checks, Next(checks, s, Start))
  {
    hide Marks, Vetted;
  }

  lemma TakeStaleKeepsInv(checks: Checks, s: State)
    requires Inv(checks, s)
    ensures Inv(checks, Next(checks, s, TakeStale))
  {
    hide Marks, Vetted;
    var s' := Next(checks, s, TakeStale);
    if s' != s {
      var f, f' := s.flight.value, s'.flight.value;
      assert f.todo == [f.todo[0]] + f'.todo;
      forall i | 0 <= i < |f.changed| ensures ChangedOk(s', f.changed[i]) {
        assert ChangedOk(s, f.changed[i]) && f.todo[0] != f.changed[i].idx;
      }
      forall i, j | 0 <= i < j < |f'.todo| ensures f'.todo[i] != f'.todo[j] { assert f.todo[i + 1] != f.todo[j + 1]; }
    }
  }

  /** A re-list that says the same: what is served was read from it too. */
  lemma SameListingKeepsInv(checks: Checks, s: State, version: nat, ttlMs: Option<nat>)
    requires Inv(checks, s) && s.flight.Some? && s.flight.value.asking.Some?
    requires var (u, v) := s.flight.value.asking.value;
      v <= version < |s.versions[u]| && Marks(s.versions[u][version]) == Marks(s.served.listings[u])
    ensures Inv(checks, Next(checks, s, Listed(version, ttlMs)))
  {
    hide Marks, Vetted;
    var s', f, u := Next(checks, s, Listed(version, ttlMs)), s.flight.value, s.flight.value.asking.value.0;
    forall i | 0 <= i < |f.changed| ensures ChangedOk(s', f.changed[i]) { assert ChangedOk(s, f.changed[i]); }
    forall w | 0 <= w < Size(s) && !BeingListed(s'.flight.value, w) ensures Covered(s', w, s'.nextAsOf[w]) {
      if w != u { assert !BeingListed(f, w); }
    }
  }

  /** A re-list that says something new joins the listings to be built. */
  lemma NewListingKeepsInv(checks: Checks, s: State, version: nat, ttlMs: Option<nat>)
    requires Inv(checks, s) && s.flight.Some? && s.flight.value.asking.Some?
    requires var (u, v) := s.flight.value.asking.value;
      v <= version < |s.versions[u]| && Marks(s.versions[u][version]) != Marks(s.served.listings[u])
    ensures Inv(checks, Next(checks, s, Listed(version, ttlMs)))
  {
    hide Marks, Vetted;
    var s', f, u := Next(checks, s, Listed(version, ttlMs)), s.flight.value, s.flight.value.asking.value.0;
    var f' := s'.flight.value;
    var n := |f.changed|;
    assert f'.changed[n].idx == u && forall i :: 0 <= i < n ==> f'.changed[i] == f.changed[i];
    forall i | 0 <= i < |f'.changed| ensures ChangedOk(s', f'.changed[i]) {
      if i < n { assert ChangedOk(s, f.changed[i]); }
    }
    forall w | 0 <= w < Size(s) && !BeingListed(f', w) ensures Covered(s', w, s'.nextAsOf[w]) {
      assert w != u && !BeingListed(f, w);
    }
  }

  lemma ListedKeepsInv(checks: Checks, s: State, version: nat, ttlMs: Option<nat>)
    requires Inv(checks, s)
    ensures Inv(checks, Next(checks, s, Listed(version, ttlMs)))
  {
    if s.flight.Some? && s.flight.value.asking.Some? {
      var (u, v) := s.flight.value.asking.value;
      if v <= version < |s.versions[u]| {
        hide Inv, FlightStep;
        if Marks(s.versions[u][version]) == Marks(s.served.listings[u]) {
          SameListingKeepsInv(checks, s, version, ttlMs);
        } else {
          NewListingKeepsInv(checks, s, version, ttlMs);
        }
      }
    }
  }

  lemma ListFailedKeepsInv(checks: Checks, s: State)
    requires Inv(checks, s)
    ensures Inv(checks, Next(checks, s, ListFailed))
  {
    hide Marks, Vetted;
    var s' := Next(checks, s, ListFailed);
    if s' != s && s.flight.Some? && s.flight.value.asking.Some? {
      var f := s.flight.value;
      forall i | 0 <= i < |f.changed| ensures ChangedOk(s', f.changed[i]) { assert ChangedOk(s, f.changed[i]); }
    }
  }

  lemma RestDisjoint(f: Flight, f': Flight)
    requires Disjoint(f) && f.changed != [] && f'.changed == f.changed[1..] && f'.todo == f.todo && f'.asking == f.asking
    ensures Disjoint(f') && forall i :: 0 <= i < |f'.changed| ==> f'.changed[i].idx != f.changed[0].idx
  {
    assert forall i :: 0 <= i < |f'.changed| ==> f'.changed[i] == f.changed[i + 1];
    forall i, j | 0 <= i < j < |f'.changed| ensures f'.changed[i].idx != f'.changed[j].idx {
      assert f.changed[i + 1].idx != f.changed[j + 1].idx;
    }
    forall i | 0 <= i < |f'.changed| ensures f'.changed[i].idx != f.changed[0].idx { assert f.changed[0].idx != f.changed[i + 1].idx; }
  }

  lemma BuildKeepsInv(checks: Checks, s: State)
    requires Inv(checks, s)
    ensures Inv(checks, Next(checks, s, Build))
  {
    hide Marks, Disjoint;
    var s' := Next(checks, s, Build);
    if s' != s {
      var f, f', e := s.flight.value, s'.flight.value, s.flight.value.changed[0];
      assert ChangedOk(s, e) && f.changed == [e] + f'.changed;
      RestDisjoint(f, f');
      forall i | 0 <= i < |f'.changed| ensures ChangedOk(s', f'.changed[i]) {
        assert f'.changed[i] == f.changed[i + 1] && ChangedOk(s, f.changed[i + 1]);
      }
    }
  }

  lemma FinishKeepsInv(checks: Checks, s: State)
    requires Inv(checks, s)
    ensures Inv(checks, Next(checks, s, Finish))
  {
    hide Marks, Vetted;
  }

  lemma StepKeepsInv(checks: Checks, s: State, step: Step)
    requires Inv(checks, s)
    ensures Inv(checks, Next(checks, s, step))
  {
    match step
    case Start => StartKeepsInv(checks, s);
    case TakeStale => TakeStaleKeepsInv(checks, s);
    case Listed(version, ttlMs) => ListedKeepsInv(checks, s, version, ttlMs);
    case ListFailed => ListFailedKeepsInv(checks, s);
    case Build => BuildKeepsInv(checks, s);
    case Finish => FinishKeepsInv(checks, s);
    case Tick(dt) => TickKeepsInv(checks, s, dt);
    case Change(u, listing) => ChangeKeepsInv(checks, s, u, listing);
    case Announce(u) => AnnounceKeepsInv(checks, s, u);
  }

  // ----- what holds in every run -----

  /** The state `Surface::build` leaves, when the first catalog passes the checks. */
  ghost function Startup(now: nat, first: Catalog, ttls: seq<Option<nat>>): State
    requires |ttls| == |first.listings|
  {
    var n := |first.listings|;
    var zeros: seq<nat> := seq(n, _ => 0);
    State(now,
          seq(n, u requires 0 <= u < n => [first.listings[u]]),
          zeros,
          seq(n, _ => false),
          seq(n, u requires 0 <= u < n => RecheckFor(now, ttls[u])),
          seq(n, _ => false),
          first, zeros, None, zeros)
  }

  lemma StartupOk(checks: Checks, now: nat, first: Catalog, ttls: seq<Option<nat>>)
    requires |ttls| == |first.listings| && checks.Built(first.listings) == Some(first)
    ensures Inv(checks, Startup(now, first, ttls))
  {}

  ghost function Run(checks: Checks, s: State, steps: seq<Step>): (r: State)
    requires Inv(checks, s)
    ensures Inv(checks, r)
  {
    if steps == [] then s else
      var before := Run(checks, s, steps[..|steps| - 1]);
      StepKeepsInv(checks, before, steps[|steps| - 1]);
      Next(checks, before, steps[|steps| - 1])
  }

  /** In every run from startup: the served catalog is the assembly of its own listings and
      passed the checks; every re-list timer is due within a day; and when no refresh is under
      way, a change an upstream announced is served (or something later of that upstream's is),
      or is still flagged, or the last attempt to list it went wrong and the next is due within
      30 seconds. */
  lemma ServedIsVettedAndCurrent(checks: Checks, now: nat, first: Catalog, ttls: seq<Option<nat>>, steps: seq<Step>)
    requires |ttls| == |first.listings| && checks.Built(first.listings) == Some(first)
    ensures Inv(checks, Startup(now, first, ttls))
    ensures var s := Run(checks, Startup(now, first, ttls), steps);
      && Shaped(s) && checks.Built(s.served.listings) == Some(s.served)
      && (forall u :: 0 <= u < Size(s) ==> s.recheckAt[u].Some? ==> s.recheckAt[u].value <= s.now + MAX_RECHECK)
      && (s.flight.None? ==> forall u :: 0 <= u < Size(s) ==> s.stale[u] || RetrySet(s, u) || ServedFrom(s, u, s.announced[u]))
  {
    StartupOk(checks, now, first, ttls);
    hide Startup, Run;
    var s := Run(checks, Startup(now, first, ttls), steps);
    if s.flight.None? {
      forall u | 0 <= u < Size(s) ensures s.stale[u] || RetrySet(s, u) || ServedFrom(s, u, s.announced[u]) {
        assert ReadFrom(s, u, s.asOf[u], s.served.listings[u]) && Covered(s, u, s.asOf[u]);
      }
    }
  }

  /** What is served of upstream u says the same as something it offered no earlier than
      version `a`. */
  ghost predicate ServedFrom(s: State, u: nat, a: nat)
    requires Shaped(s) && u < Size(s)
  {
    exists v :: a <= v < |s.versions[u]| && Marks(s.served.listings[u]) == Marks(s.versions[u][v])
  }

  // ----- what a refresh brings -----

  predicate Waiting(f: Flight, u: nat) { exists i :: 0 <= i < |f.todo| && f.todo[i] == u }

  /** A refresh that u is due for is on its way to version `a` of it, or has got there, or has
      set a retry. */
  ghost predicate Aimed(s: State, u: nat, a: nat)
    requires Shaped(s) && u < Size(s)
  {
    && a < |s.versions[u]|
    && match s.flight
       case None => s.asOf[u] >= a || RetrySet(s, u)
       case Some(f) =>
         && (f.asking.Some? && f.asking.value.0 == u ==> f.asking.value.1 >= a)
         && (forall i :: 0 <= i < |f.changed| && f.changed[i].idx == u ==> f.changed[i].version >= a)
         && (Waiting(f, u) || BeingListed(f, u) || s.nextAsOf[u] >= a || RetrySet(s, u))
  }

  lemma StartAims(checks: Checks, s: State, u: nat, a: nat)
    requires Inv(checks, s) && u < Size(s) && a < |s.versions[u]| && s.flight.None?
    requires Due(s, u) || Aimed(s, u, a)
    ensures Next(checks, s, Start).flight.Some? ==> Aimed(Next(checks, s, Start), u, a)
  {
    hide Marks, Vetted, ReadFrom;
    if Due(s, u) { DueIsFound(s, 0, u); }
  }

  lemma {:induction false} DueIsFound(s: State, from: nat, u: nat)
    requires |s.stale| == |s.recheckAt| && from <= u < |s.stale| && Due(s, u)
    ensures exists i :: 0 <= i < |DueFrom(s, from)| && DueFrom(s, from)[i] == u
    decreases |s.stale| - from
  {
    var due := DueFrom(s, from);
    if from == u {
      assert due[0] == u;
    } else {
      DueIsFound(s, from + 1, u);
      var i :| 0 <= i < |DueFrom(s, from + 1)| && DueFrom(s, from + 1)[i] == u;
      if Due(s, from) { assert due[i + 1] == u; }
    }
  }

  lemma TakeStaleKeepsAimed(checks: Checks, s: State, u: nat, a: nat)
    requires Inv(checks, s) && u < Size(s) && Aimed(s, u, a)
    ensures Size(Next(checks, s, TakeStale)) == Size(s) && Aimed(Next(checks, s, TakeStale), u, a)
  {
    hide Marks, Vetted, ReadFrom, ChangedOk, ServedOk;
    var s' := Next(checks, s, TakeStale);
    if s' != s && s.flight.Some? {
      var f, f' := s.flight.value, s'.flight.value;
      if Waiting(f, u) {
        var i :| 0 <= i < |f.todo| && f.todo[i] == u;
        if i > 0 { assert f'.todo[i - 1] == u; }
      }
    }
  }

  /** What a listing that arrives for upstream w does: it joins the changed ones, or is noted as
      read. */
  ghost predicate TakenIn(s: State, s': State, w: nat, version: nat)
    requires Shaped(s) && Shaped(s') && s.flight.Some? && s'.flight.Some? && w < Size(s) && Size(s') == Size(s)
  {
    var f, f' := s.flight.value, s'.flight.value;
    && s'.versions == s.versions && s'.now == s.now && f'.todo == f.todo && f'.asking == None && f'.next == f.next
    && (forall v :: 0 <= v < Size(s) && v != w ==>
          s'.retrying[v] == s.retrying[v] && s'.recheckAt[v] == s.recheckAt[v] && s'.nextAsOf[v] == s.nextAsOf[v] && s'.asOf[v] == s.asOf[v])
    && ((|f'.changed| == |f.changed| + 1 && f'.changed[..|f.changed|] == f.changed
          && f'.changed[|f.changed|].idx == w && f'.changed[|f.changed|].version == version && s'.asOf == s.asOf && s'.nextAsOf == s.nextAsOf)
        || (f'.changed == f.changed && s'.asOf[w] == version && s'.nextAsOf[w] == version))
  }

  lemma ListedIsTakenIn(checks: Checks, s: State, version: nat, ttlMs: Option<nat>)
    requires Shaped(s) && s.flight.Some? && s.flight.value.asking.Some?
    requires var (w, v) := s.flight.value.asking.value; v <= version < |s.versions[w]|
    ensures var s' := Next(checks, s, Listed(version, ttlMs));
      && Shaped(s') && Size(s') == Size(s) && s'.flight.Some? && TakenIn(s, s', s.flight.value.asking.value.0, version)
  {
    hide Marks;
  }

  lemma ListedIgnored(checks: Checks, s: State, version: nat, ttlMs: Option<nat>)
    requires Shaped(s)
    requires s.flight.Some? && s.flight.value.asking.Some? ==>
      var (w, v) := s.flight.value.asking.value; !(v <= version < |s.versions[w]|)
    ensures Next(checks, s, Listed(version, ttlMs)) == s
  {}

  lemma ListedKeepsAimed(checks: Checks, s: State, version: nat, ttlMs: Option<nat>, u: nat, a: nat)
    requires Inv(checks, s) && u < Size(s) && Aimed(s, u, a)
    ensures Inv(checks, Next(checks, s, Listed(version, ttlMs))) && Size(Next(checks, s, Listed(version, ttlMs))) == Size(s)
    ensures Aimed(Next(checks, s, Listed(version, ttlMs)), u, a)
  {
    StepKeepsInv(checks, s, Listed(version, ttlMs));
    hide Next, FlightOk, ServedOk;
    if s.flight.Some? && s.flight.value.asking.Some?
      && s.flight.value.asking.value.1 <= version < |s.versions[s.flight.value.asking.value.0]| {
      ListedIsTakenIn(checks, s, version, ttlMs);
      TakenInKeepsAimed(s, Next(checks, s, Listed(version, ttlMs)), version, u, a);
    } else {
      ListedIgnored(checks, s, version, ttlMs);
    }
  }

  lemma TakenInKeepsAimed(s: State, s': State, version: nat, u: nat, a: nat)
    requires Shaped(s) && Shaped(s') && s.flight.Some? && s'.flight.Some? && s.flight.value.asking.Some? && Size(s') == Size(s)
    requires s.flight.value.asking.value.1 <= version && TakenIn(s, s', s.flight.value.asking.value.0, version)
    requires u < Size(s) && Aimed(s, u, a)
    ensures Aimed(s', u, a)
  {
    var f, f', w := s.flight.value, s'.flight.value, s.flight.value.asking.value.0;
    assert forall i :: 0 <= i < |f.changed| ==> f'.changed[i] == f.changed[i];
    assert |f'.changed| > |f.changed| ==> f'.changed[|f.changed|].idx == w;
  }

  lemma BuildKeepsAimed(checks: Checks, s: State, u: nat, a: nat)
    requires Inv(checks, s) && u < Size(s) && Aimed(s, u, a)
    ensures Size(Next(checks, s, Build)) == Size(s) && Aimed(Next(checks, s, Build), u, a)
  {
    hide Marks, Vetted, ReadFrom, ChangedOk, ServedOk;
    var s' := Next(checks, s, Build);
    if s' != s && s.flight.Some? {
      var f, f' := s.flight.value, s'.flight.value;
      assert f.changed == [f.changed[0]] + f'.changed;
      forall i | 0 < i < |f.changed| ensures f'.changed[i - 1] == f.changed[i] {}
      assert forall i :: 0 <= i < |f'.changed| ==> f'.changed[i] == f.changed[i + 1];
    }
  }

  lemma StartKeepsAimed(checks: Checks, s: State, u: nat, a: nat)
    requires Inv(checks, s) && u < Size(s) && Aimed(s, u, a)
    ensures Size(Next(checks, s, Start)) == Size(s) && Aimed(Next(checks, s, Start), u, a)
  {
    hide Marks, ServedOk, FlightOk, Aimed;
    if s.flight.None? && DueFrom(s, 0) != [] {
      ItsOwnVersion(s, u, a);
      StartAims(checks, s, u, a);
    }
  }

  lemma ItsOwnVersion(s: State, u: nat, a: nat)
    requires Shaped(s) && u < Size(s) && Aimed(s, u, a)
    ensures a < |s.versions[u]|
  {}

  lemma ListFailedKeepsAimed(checks: Checks, s: State, u: nat, a: nat)
    requires Inv(checks, s) && u < Size(s) && Aimed(s, u, a)
    ensures Size(Next(checks, s, ListFailed)) == Size(s) && Aimed(Next(checks, s, ListFailed), u, a)
  {
    hide ServedOk, FlightOk;
  }

  lemma FinishKeepsAimed(checks: Checks, s: State, u: nat, a: nat)
    requires Inv(checks, s) && u < Size(s) && Aimed(s, u, a)
    ensures Size(Next(checks, s, Finish)) == Size(s) && Aimed(Next(checks, s, Finish), u, a)
  {
    hide ServedOk, FlightOk;
  }

  /** Time passes, or an upstream changes or announces. */
  lemma OutsideKeepsAimed(checks: Checks, s: State, step: Step, u: nat, a: nat)
    requires Inv(checks, s) && u < Size(s) && Aimed(s, u, a) && (step.Tick? || step.Change? || step.Announce?)
    ensures Size(Next(checks, s, step)) == Size(s) && Aimed(Next(checks, s, step), u, a)
  {
    hide ServedOk, FlightOk, FlightStep;
  }

  lemma StepKeepsAimed(checks: Checks, s: State, step: Step, u: nat, a: nat)
    requires Inv(checks, s) && u < Size(s) && Aimed(s, u, a)
    ensures Inv(checks, Next(checks, s, step)) && Size(Next(checks, s, step)) == Size(s)
    ensures Aimed(Next(checks, s, step), u, a)
  {
    StepKeepsInv(checks, s, step);
    hide ServedOk, FlightOk, Next, Aimed;
    match step
    case Start => StartKeepsAimed(checks, s, u, a);
    case TakeStale => TakeStaleKeepsAimed(checks, s, u, a);
    case Listed(version, ttlMs) => ListedKeepsAimed(checks, s, version, ttlMs, u, a);
    case ListFailed => ListFailedKeepsAimed(checks, s, u, a);
    case Build => BuildKeepsAimed(checks, s, u, a);
    case Finish => FinishKeepsAimed(checks, s, u, a);
    case Tick(dt) => OutsideKeepsAimed(checks, s, step, u, a);
    case Change(v, listing) => OutsideKeepsAimed(checks, s, step, u, a);
    case Announce(v) => OutsideKeepsAimed(checks, s, step, u, a);
  }

  lemma {:induction false} RunStaysAimed(checks: Checks, s: State, steps: seq<Step>, i: nat, u: nat, a: nat)
    requires Inv(checks, s) && i <= |steps|
    requires var s' := Run(checks, s, steps[..i]); u < Size(s') && Aimed(s', u, a)
    ensures u < Size(Run(checks, s, steps)) && Aimed(Run(checks, s, steps), u, a)
    decreases |steps|
  {
    hide Next, Aimed, Inv;
    if i == |steps| {
      assert steps[..i] == steps;
    } else {
      var n := |steps| - 1;
      assert steps[..n][..i] == steps[..i];
      RunStaysAimed(checks, s, steps[..n], i, u, a);
      StepKeepsAimed(checks, Run(checks, s, steps[..n]), steps[n], u, a);
    }
  }

  /** Say that in some run a refresh starts at step `i` with upstream u due. At every later point
      with no refresh under way, what is served of u is no earlier than what u had announced
      by then, unless the last attempt to list it failed or was refused, and then the next is
      due within 30 seconds. */
  lemma RefreshServesWhatWasAnnounced(checks: Checks, s: State, steps: seq<Step>, i: nat, u: nat)
    requires Inv(checks, s) && i < |steps| && steps[i] == Start
    requires var s' := Run(checks, s, steps[..i]); s'.flight.None? && u < Size(s') && Due(s', u)
    ensures var before, after := Run(checks, s, steps[..i]), Run(checks, s, steps);
      after.flight.None? ==> u < Size(after) && (ServedFrom(after, u, before.announced[u]) || RetrySet(after, u))
  {
    hide Run, Next, FlightOk;
    var before, after := Run(checks, s, steps[..i]), Run(checks, s, steps);
    var a := before.announced[u];
    RunOneMore(checks, s, steps, i);
    DueIsFound(before, 0, u);
    StartBegins(checks, before);
    StartAims(checks, before, u, a);
    RunStaysAimed(checks, s, steps, i + 1, u, a);
    if after.flight.None? && after.asOf[u] >= a { assert ReadFrom(after, u, after.asOf[u], after.served.listings[u]); }
  }

  lemma RunOneMore(checks: Checks, s: State, steps: seq<Step>, i: nat)
    requires Inv(checks, s) && i < |steps|
    ensures Run(checks, s, steps[..i + 1]) == Next(checks, Run(checks, s, steps[..i]), steps[i])
  {
    assert steps[..i + 1][..i] == steps[..i];
  }

  lemma StartBegins(checks: Checks, s: State)
    requires Inv(checks, s) && s.flight.None? && DueFrom(s, 0) != []
    ensures Next(checks, s, Start).flight.Some? && Size(Next(checks, s, Start)) == Size(s)
  {}

  // ----- nothing served goes back -----

  /** What is being read is no earlier than what is served. */
  ghost predicate Forward(s: State)
    requires Shaped(s)
  {
    s.flight.Some? ==>
      var f := s.flight.value;
      && (forall u :: 0 <= u < Size(s) ==> s.nextAsOf[u] >= s.asOf[u])
      && (f.asking.Some? ==> f.asking.value.1 >= s.asOf[f.asking.value.0])
      && (forall i :: 0 <= i < |f.changed| ==> f.changed[i].version >= s.asOf[f.changed[i].idx])
  }

  ghost predicate NotBack(s: State, s': State)
    requires Shaped(s) && Shaped(s')
  {
    Size(s') == Size(s) && Forward(s') && forall u :: 0 <= u < Size(s) ==> s'.asOf[u] >= s.asOf[u]
  }

  lemma TakenInGoesForward(s: State, s': State, version: nat)
    requires Shaped(s) && Shaped(s') && s.flight.Some? && s'.flight.Some? && s.flight.value.asking.Some? && Size(s') == Size(s)
    requires s.flight.value.asking.value.1 <= version && TakenIn(s, s', s.flight.value.asking.value.0, version)
    requires Forward(s)
    requires var f := s.flight.value; forall i :: 0 <= i < |f.changed| ==> f.changed[i].idx != f.asking.value.0
    ensures NotBack(s, s')
  {
    var f, f', w := s.flight.value, s'.flight.value, s.flight.value.asking.value.0;
    assert forall u :: 0 <= u < Size(s) && u != w ==> s'.asOf[u] == s.asOf[u] && s'.nextAsOf[u] == s.nextAsOf[u];
    forall i | 0 <= i < |f'.changed| ensures f'.changed[i].version >= s'.asOf[f'.changed[i].idx] {
      if i < |f.changed| { assert f'.changed[i] == f.changed[i]; }
    }
  }

  lemma ListedGoesForward(checks: Checks, s: State, version: nat, ttlMs: Option<nat>)
    requires Inv(checks, s) && Forward(s)
    ensures Inv(checks, Next(checks, s, Listed(version, ttlMs))) && NotBack(s, Next(checks, s, Listed(version, ttlMs)))
  {
    StepKeepsInv(checks, s, Listed(version, ttlMs));
    hide Next, FlightOk, ServedOk;
    if s.flight.Some? && s.flight.value.asking.Some?
      && s.flight.value.asking.value.1 <= version < |s.versions[s.flight.value.asking.value.0]| {
      hide Inv, Forward, TakenIn, NotBack;
      ListedIsTakenIn(checks, s, version, ttlMs);
      NotAskedAgain(checks, s);
      TakenInGoesForward(s, Next(checks, s, Listed(version, ttlMs)), version);
    } else {
      ListedIgnored(checks, s, version, ttlMs);
    }
  }

  lemma NotAskedAgain(checks: Checks, s: State)
    requires Inv(checks, s) && s.flight.Some? && s.flight.value.asking.Some?
    ensures var f := s.flight.value; forall i :: 0 <= i < |f.changed| ==> f.changed[i].idx != f.asking.value.0
  {}

  lemma BuildGoesForward(checks: Checks, s: State)
    requires Inv(checks, s) && Forward(s)
    ensures Shaped(Next(checks, s, Build)) && NotBack(s, Next(checks, s, Build))
  {
    hide Marks, FlightOk, ServedOk;
    if s.flight.Some? && s.flight.value.changed != [] {
      var f := s.flight.value;
      assert forall i :: 0 <= i < |f.changed[1..]| ==> f.changed[1..][i] == f.changed[i + 1];
    }
  }

  lemma TakeStaleGoesForward(checks: Checks, s: State)
    requires Inv(checks, s) && Forward(s)
    ensures Shaped(Next(checks, s, TakeStale)) && NotBack(s, Next(checks, s, TakeStale))
  {
    hide Marks, FlightOk, Vetted, Covered;
    var s' := Next(checks, s, TakeStale);
    if s' != s {
      var u := s.flight.value.todo[0];
      assert ReadFrom(s, u, s.asOf[u], s.served.listings[u]);
    }
  }

  lemma OtherGoesForward(checks: Checks, s: State, step: Step)
    requires Inv(checks, s) && Forward(s) && !step.Listed? && !step.Build? && !step.TakeStale?
    ensures Shaped(Next(checks, s, step)) && NotBack(s, Next(checks, s, step))
  {
    hide Marks, FlightOk, ServedOk;
  }

  lemma StepGoesForward(checks: Checks, s: State, step: Step)
    requires Inv(checks, s) && Forward(s)
    ensures Inv(checks, Next(checks, s, step)) && NotBack(s, Next(checks, s, step))
  {
    StepKeepsInv(checks, s, step);
    hide Next, FlightOk, ServedOk, NotBack, Forward;
    match step
    case Listed(version, ttlMs) => ListedGoesForward(checks, s, version, ttlMs);
    case Build => BuildGoesForward(checks, s);
    case TakeStale => TakeStaleGoesForward(checks, s);
    case _ => OtherGoesForward(checks, s, step);
  }

  lemma {:induction false} RunGoesForward(checks: Checks, s: State, steps: seq<Step>, i: nat)
    requires Inv(checks, s) && s.flight.None? && i <= |steps|
    ensures var s', s'' := Run(checks, s, steps[..i]), Run(checks, s, steps);
      && Size(s') == Size(s'') == Size(s) && Forward(s'')
      && forall u :: 0 <= u < Size(s) ==> s''.asOf[u] >= s'.asOf[u]
    decreases |steps|
  {
    hide Next, Forward, FlightOk, ServedOk;
    if steps == [] {
      NoFlightIsForward(s);
    } else {
      var n := |steps| - 1;
      RunGoesForward(checks, s, steps[..n], if i <= n then i else n);
      StepGoesForward(checks, Run(checks, s, steps[..n]), steps[n]);
      if i <= n { assert steps[..n][..i] == steps[..i]; } else { assert steps[..i] == steps; }
    }
  }

  lemma NoFlightIsForward(s: State)
    requires Shaped(s) && s.flight.None?
    ensures Forward(s)
  {}

  /** Over every run from startup, the version each upstream is served at never goes back. */
  lemma ServedNeverGoesBack(checks: Checks, now: nat, first: Catalog, ttls: seq<Option<nat>>, steps: seq<Step>, i: nat)
    requires |ttls| == |first.listings| && checks.Built(first.listings) == Some(first) && i <= |steps|
    ensures Inv(checks, Startup(now, first, ttls))
    ensures var earlier, later := Run(checks, Startup(now, first, ttls), steps[..i]), Run(checks, Startup(now, first, ttls), steps);
      Size(earlier) == Size(later) &&
      forall u :: 0 <= u < Size(later) ==>
        && earlier.asOf[u] <= later.asOf[u]
        && ReadFrom(earlier, u, earlier.asOf[u], earlier.served.listings[u])
        && ReadFrom(later, u, later.asOf[u], later.served.listings[u])
  {
    StartupOk(checks, now, first, ttls);
    var s := Startup(now, first, ttls);
    assert s.flight.None?;
    hide Startup, Run, FlightOk, ReadFrom;
    RunGoesForward(checks, s, steps, i);
  }
}
