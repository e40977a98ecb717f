# min-mcp: a verified model

min-mcp is a proxy between an agent and many tool upstreams. Behind its input and output sit a number of data
algorithms and small state machines, and this project models those in Dafny and proves what they keep. One module
follows each source file or component:

| module | what it models |
|---|---|
| `Json`, `Text`, `FreshNames`, `Arrangements` | what the other modules share: JSON values, decimal numerals and splitting, the numbered-suffix loop, rearranged sequences |
| `Spec` | `$ref` expansion with a node budget, deepening one reference level at a time; unique operation ids |
| `Multiplexer`, `Respawn` | one stdio connection shared by many callers and a reader task; replacing a child that died |
| `AuditChain` | stamping, appending, resuming and verifying the audit log |
| `Canonical`, `ReadCache`, `CacheRaces` | cache keys; the coherence of the read cache, call by call and when calls overlap |
| `Project` | field projection, removal and writing along a path |
| `JsonText` | dropping insignificant whitespace from JSON text |
| `Minify` | fitting a schema into the display budget |
| `Calendar` | timestamps from unix seconds |
| `NearMiss`, `ExposedNames`, `UpstreamOrder` | suggestions for mistyped ids; the names tools are exposed under, and whether they depend on the order of upstreams |
| `RateLimit`, `RateRaces` | token buckets and the tiers of a call; the takes and refunds of several calls mixed |
| `Breaker`, `Paginate` | the circuit breaker; following a paginated list |
| `Reindex` | re-indexing the catalog while upstreams change their tools |
| `Wire`, `PathParams` | percent-encoding, header values, and filling path templates |

A computation is given as a function; the loop or the object that carries it out is a method or a class proved equal
to that function; and what the program is meant to guarantee is a lemma about the function. Concurrent parts are state
machines whose steps are the program's critical sections and atomic accesses, and their lemmas hold for every
interleaving.

## Where the program falls short of its own words

For each of these there is a lemma with the exact condition and one with an input that fails, and the model follows the
code.

- `resolve` is meant to keep a schema within 10,000 nodes. It does if and only if the node's outline, each reference
  counted once, and the exact count of the deepest fitting pass are both within it (`Spec.ResolvedSize`). The outline can
  be counted beforehand; the other count takes that pass itself. A condition on the input alone is there for 20,000 nodes,
  where references stand alone: the outline is within 10,000 or the node within 20,000. An array of 10,000 nulls comes
  back whole, at 10,001 nodes (`Spec.TooLargeComesBackWhole`); one of 6,000 references to another document fits and is
  12,001 nodes (`Spec.FittingYetLarger`).
- The audit log is stamped under one lock and appended under another. An honest log verifies if and only if lines were
  appended in the order they were stamped (`AuditChain.HonestLogVerifiesIffInOrder`), which two overtaking lines are not
  (`AuditChain.OvertakingBreaksTheLog`).
- The crash-loop guard promises a second between starts. It spaces respawns, but a legacy child found dead before its
  handshake is started again at once (`Respawn.ChildStartsSpacedIffModern`, `Respawn.DoubleStart`).
- A write that errors or times out also drops its upstream's cached reads, because it may have been committed all the
  same. One that commits only after its time-out is not covered: later hits are stale, for some upstream, if and only if
  it changes something and the cache still serves that upstream (`ReadCache.LateWriteHarmlessIff`, `ReadCache.StaleHit`).
- A write is meant to keep later reads from being served what it changed. When calls overlap, every hit shows the effect
  of every write of its upstream that has returned, whatever writes change and however upstreams answer, if and only if no
  answer is stored that was overtaken by a write which has returned (`CacheRaces.AlwaysInOrderIff`); with no write under
  way such a hit is what the upstream would answer now (`CacheRaces.InOrderIsCurrent`). A read answered before a write
  lands and stored after that write's bust is served until it expires (`CacheRaces.StaleStore`), also while another write
  is under way (`CacheRaces.StaleBehindAnother`). Not storing an answer when its upstream was busted since would be enough
  (`CacheRaces.NoneOutdatedIsInOrder`).
- `paginate` flags a list as possibly incomplete only after a failed request. The list is whole if and only if there is
  a whole listing and all its items lie before the page limit, the first page without items and the first repeated
  cursor (`Paginate.WholeIff`); each of these three can lose items without a word (`Paginate.UnreportedTruncation`,
  `Paginate.EmptyPageTruncation`, `Paginate.RepeatedCursorTruncation`).
- Exposed names are meant not to depend on the order of upstreams. They do not if and only if no two upstreams would take
  the same name if each came first (`UpstreamOrder.UpstreamOrderIff`). Two upstreams with three tools are enough for the
  order to matter (`UpstreamOrder.TwoUpstreamsWhoseOrderMatters`).
- Exposed names are meant to have at most 64 characters. They do if and only if every tool finds its preferred name free
  or comes after fewer tools that block its suffixes than there are suffixes that fit (`ExposedNames.NamesFitIff`). Up to
  998 tools always fit (`ExposedNames.NamesFitFewTools`), and 999 tools of one upstream need not
  (`ExposedNames.CrowdOverflows`).
- Timestamps are meant to be RFC 3339. They have its shape if and only if the second passed in is at least
  -62,167,219,200 and less than 253,402,300,800 (`Calendar.Rfc3339ShapeIffFourDigitYear`,
  `Calendar.ShapeLostOutsideTheRange`).
- Depth pruning follows `properties`, `items`, `anyOf`, `oneOf` and `allOf` only, so what lies behind another key that
  holds schemas is shown at any depth (`Minify.NotesAreTrue`, `Minify.BehindOtherKeysNothingIsPruned`).
- The order in which path parameters are filled in does not matter if and only if the template has no placeholder
  inside another (`PathParams.OrderFreeIff`, `PathParams.NestedExample`).
- A refused call is meant to cost nothing, and by itself it does not (`RateLimit.RefusalCostsNothing`). But each take and
  each refund locks for itself, so it holds charges for a while that it will give back. With up to n requests of others
  for a bucket in that time, nobody is refused for it and the bucket afterwards offers no less, in every such run, if and
  only if the bucket has n + 1 tokens when the charge is made (`RateRaces.HeldChargeHarmlessIff`,
  `RateRaces.SpareCallCostsNothing`). With one token, a second call of the same caller is refused for a first one that is
  refused itself and refunded (`RateRaces.HeldChargeRefusesAnother`).

## Model

| member | source | states |
|---|---|---|
| Spec.Expand | src/spec.rs:170-212 | one pass, on any spec, cyclic or not, ends; it returns exactly the pass's value when the budget covers its visits and nothing otherwise, and leaves budget and flag accordingly; `seen` has no repeats and one entry for each level |
| Spec.ExpandFields | src/spec.rs:197-201 | the same for the children of an object |
| Spec.ExpandItems | src/spec.rs:203-209 | the same for the elements of an array |
| Spec.Resolve | src/spec.rs:155-166 | the loop returns the deepest pass that fits, or the node when none does, although it stops early |
| Spec.Settled | src/spec.rs:157-164 | why it may stop: every pass it skips does not fit or gives the same |
| Spec.PassMonotone | src/spec.rs:147-154 | visits grow with the reference limit, and a pass no limit stopped equals every deeper pass |
| Spec.FittingSchemaIsWhole | src/spec.rs:152-154 | a schema that fits comes out as the pass at the longest allowed chain gives it, and equally as the first pass no limit stopped |
| Spec.TopLevelFieldsSurvive | src/spec.rs:153-154 | an object keeps exactly its top-level fields, whatever is cut |
| Spec.OmittedMarksTheCut | src/spec.rs:181-184 | a pass writes `$omitted` if and only if a limit short of the longest chain stopped it |
| Spec.OmittedIffBudgetCut | src/spec.rs:155-184 | the resolved schema has `$omitted` if and only if some pass fits and the longest does not |
| Spec.OutputBound | src/spec.rs:17-19 | where references stand alone, a pass returns at most two nodes for each visit |
| Spec.ResolvedSize | src/spec.rs:17-19 | the result is within the node budget if and only if the outline is and the exact count is; an outline over budget comes back as the node itself, larger still; where references stand alone, within twice the budget if and only if the outline fits or the node is within twice |
| Spec.VisitsOfOutline | src/spec.rs:170-207 | a pass that may follow nothing visits the outline of a node, each reference once, and no more than the node holds |
| Spec.ExactOutput | src/spec.rs:170-212 | on any spec a pass returns exactly its visits, plus what the references left standing hold, less the references followed |
| Spec.TooLargeComesBackWhole | src/spec.rs:155-166 | an array of 10,000 nulls is returned whole, one node over the budget |
| Spec.FittingYetLarger | src/spec.rs:155-180 | an array of 6,000 foreign references fits the budget and is 12,001 nodes |
| Spec.Disambiguate | src/spec.rs:126-137 | the loop over operation ids, in place, gives each the id its place in the list determines |
| Spec.UniqueIdsDistinct | src/spec.rs:120-125 | all ids end up distinct, and one no earlier operation took is left alone |
| FreshNames.FindFree | src/spec.rs:129-134 | the suffix loop ends with the first free number |
| Multiplexer.Conn.constructor | src/upstream.rs:312-320 | a new connection: no ids given, nobody waiting, alive |
| Multiplexer.Conn.AllocateId | src/upstream.rs:372 | the next id, and nothing else changes |
| Multiplexer.Conn.Register | src/upstream.rs:374 | the call's slot joins the pending ones |
| Multiplexer.Conn.Remove | src/upstream.rs:460 | the slot goes, and whether it was there is known |
| Multiplexer.Conn.MarkDead | src/upstream.rs:470 | the connection is dead |
| Multiplexer.Conn.TakeAll | src/upstream.rs:471 | the drain takes every pending slot |
| Multiplexer.StepKeepsInv | src/upstream.rs:371-482 | every step of any caller or the reader keeps the invariant: a call in flight with an open channel has somebody holding its sender |
| Multiplexer.RunKeepsInv | src/upstream.rs:371-482 | so does every interleaving from a fresh connection |
| Multiplexer.NobodyLeftWaiting | src/upstream.rs:382-391 | once the reader is gone, a waiting call has its outcome in hand, and an id still pending belongs to a caller before or at its check of `dead`, which sends it away |
| Multiplexer.NoStepGoesBack | src/upstream.rs:371-418 | once the reader is gone, no step of anyone takes a call further from its end, and its own takes it nearer |
| Multiplexer.FourTurnsFinish | src/upstream.rs:382-418 | then a call is finished in every continuation that gives it four turns, whoever else moves in between and whether or not its timer goes off |
| Multiplexer.CallFinishesAlone | src/upstream.rs:382-403 | and at most four steps, each its own next one and none of them its timer, bring it to its end with nobody else moving |
| Multiplexer.AnswersBelongToTheirCalls | src/upstream.rs:459-467 | an answer came in a response with the call's id, and no response answers two calls |
| Multiplexer.SlotsAreNotReused | src/upstream.rs:372-381 | a slot once gone never returns, and an outcome once reached stands |
| Multiplexer.LateResponseForgotten | src/upstream.rs:367-370 | a late or repeated response is read and changes nothing else |
| Respawn.RespawnsAreExclusiveAndSpaced | src/upstream.rs:538-569 | in every interleaving one caller spawns at a time, replaces a dead connection only, and respawns start a second apart |
| Respawn.QueuedCallersShareTheRespawn | src/upstream.rs:542-545 | in any run, a caller that decides at any later time while the installed connection lives takes it, and nothing was spawned since |
| Respawn.ChildStartsSpacedIffModern | src/upstream.rs:281-287 | processes, as opposed to respawns, start a second apart in every run if and only if the child is not a legacy one |
| Respawn.DoubleStart | src/upstream.rs:281-287 | a run in which a legacy child is started twice in one instant |
| AuditChain.Chain.constructor | src/audit_chain.rs:45-51 | a chain starts at number 1 after the genesis tag |
| AuditChain.Chain.ResumeFrom | src/audit_chain.rs:58-75 | the chain continues after the last line, or refuses an unreadable or unsigned one and stays as it was |
| AuditChain.Chain.Stamp | src/audit_chain.rs:78-89 | the line gets its number and tag, and the chain moves on by one |
| AuditChain.Verify | src/audit_chain.rs:167-205 | no failure if and only if no line is faulty; otherwise the one failure is the first faulty line with its reason |
| AuditChain.IdealMacExists | src/audit_chain.rs:98-108 | the idealised MAC the theorems ask for is no contradiction |
| AuditChain.IssuedAccepted | src/audit_chain.rs:58-108 | the lines of one unbroken chain are accepted, and resuming from them continues it |
| AuditChain.OrderlyStepKeepsChain | src/surface.rs:327-335 | a stamp, an append of the longest-waiting line and a restart each keep file and waiting lines one unbroken chain |
| AuditChain.HonestLogVerifiesIffInOrder | src/surface.rs:319-338 | over all runs of stamps, appends and restarts, the log verifies if and only if every append wrote the longest-waiting line |
| AuditChain.OvertakingBreaksTheLog | src/surface.rs:327-335 | two lines stamped and appended the other way round give a log that does not verify |
| AuditChain.PayloadInjective | src/audit_chain.rs:92-108 | the signed text determines the tag before, the number and the content |
| AuditChain.FaultlessLineIsIssued | src/audit_chain.rs:166-203 | after an agreed beginning, a line without fault is the issued one |
| AuditChain.VerdictFindsFirstChange | src/audit_chain.rs:166-205 | a log whose tags were all made by `stamp` is accepted if and only if it is a beginning of the issued one, and else is reported at the first line that differs; lines are compared by their parsed content, so key order or spacing alone is no difference |
| Canonical.CanonicalArgs | src/surface/cache.rs:15-48 | the writer produces the canonical text |
| Canonical.WriteFields | src/surface/cache.rs:18-31 | it appends the fields in key order to what was written before |
| Canonical.WriteItems | src/surface/cache.rs:32-41 | it appends the elements in turn |
| Canonical.CanonUnique | src/surface/cache.rs:15-48 | a value is read off the front of a text in one way only |
| Canonical.CanonInjective | src/surface/cache.rs:10-14 | two values have one text if and only if they are the same JSON up to key order |
| Json.SortedKeys | src/surface/cache.rs:19-20 | the keys, each once, in order |
| ReadCache.Cache.constructor | src/surface/dispatch.rs:153-160 | an empty cache |
| ReadCache.Cache.Lookup | src/surface/dispatch.rs:150-160 | a hit is an unexpired entry of a cacheable tool for the same arguments |
| ReadCache.Cache.Store | src/surface/dispatch.rs:281-289 | room is made by dropping expired entries, then all |
| ReadCache.Cache.BustUpstream | src/surface/cache.rs:53-62 | exactly the entries of the written upstream go |
| ReadCache.Cache.Dispatch | src/surface/dispatch.rs:150-300 | what is served and what the cache holds afterwards, for hits, calls not sent, clean, failed and partial results |
| ReadCache.StepStaysCoherent | src/surface/dispatch.rs:273-299 | any call keeps every entry equal to what its upstream would answer |
| ReadCache.RunIsCoherent | src/surface/dispatch.rs:145-300 | so does every run |
| ReadCache.HitsAreCurrent | src/surface/dispatch.rs:157-160 | over every run, a hit is what the upstream would answer now, after failed and unanswered writes too |
| ReadCache.CacheBounded | src/surface/dispatch.rs:282-288 | the cache never exceeds 512 entries |
| ReadCache.LateWriteHarmlessIff | src/surface/dispatch.rs:293-299 | a write landing after its dispatch leaves later hits current, however the upstream answers, if and only if it changes nothing or nothing unexpired and cacheable of its upstream is cached |
| ReadCache.StaleHit | src/surface/dispatch.rs:293-299 | a run in which a write times out, a read is cached, the write lands and the next hit is stale |
| CacheRaces.RunKeepsEntries | src/surface/dispatch.rs:197-299 | over every run of overlapping calls that stores no lost answer (one overtaken by a write that has returned), each entry is what its upstream would have answered at some point, and no write that landed after that point has returned |
| CacheRaces.NoneLostWhateverTheConduct | src/surface/dispatch.rs:277-299 | whether a run stores a lost answer does not depend on what writes change or upstreams answer |
| CacheRaces.LostIsOutOfOrder | src/surface/dispatch.rs:281-289 | where states can be told apart, a lost answer that is stored is a hit out of order at once |
| CacheRaces.AlwaysInOrderIff | src/surface/dispatch.rs:293-299 | with any calls awaited at the same time, every hit at every point shows every write of its upstream that has returned, for every conduct of the upstreams, if and only if no answer is stored that was overtaken by a write which has returned |
| CacheRaces.InOrderIsCurrent | src/surface/dispatch.rs:157-160 | with no landed write of its upstream under way, a hit in order is what the upstream would answer now |
| CacheRaces.NoneOutdatedIsInOrder | src/surface/dispatch.rs:281-299 | no bust of the upstream between a read's answer and its store is enough for that |
| CacheRaces.StaleStore | src/surface/dispatch.rs:281-299 | a read is answered, a write lands, returns and busts, the read is stored: with nothing in flight, every read until expiry is stale and out of order |
| CacheRaces.StaleBehindAnother | src/surface/dispatch.rs:281-299 | the same with a second write landed and still under way: what is served predates the first, which has returned |
| Project.ProjectPaths | src/project.rs:16-25 | the loop computes the projection |
| Project.MergeIsUpper | src/project.rs:175-206 | below a common bound, the merge is above both |
| Project.MergeIsLeast | src/project.rs:175-206 | and below every bound of both: it is the join, with null as bottom |
| Project.SubAntisymmetric | src/project.rs:13-15 | being a sub-structure is an order |
| Project.ProjectIsLeast | src/project.rs:13-25 | the projection is the least structure holding what the paths select |
| Project.ProjectHolds | src/project.rs:13-25 | and it holds each of those |
| Project.ProjectIsSub | src/project.rs:13-25 | it is a sub-structure of the input, arrays at full length and in place |
| Project.ProjectIgnoresOrder | src/project.rs:13-25 | the order of paths and repeats do not matter |
| Project.ProjectKeepsLeaves | src/project.rs:153-174 | a requested path reads from the projection what it reads from the input |
| Project.SelectMonotone | src/project.rs:153-174 | selection respects the order |
| Project.RemovePath | src/project.rs:36-63 | the recursion with its loop over elements removes what the definition removes |
| Project.PrunePaths | src/project.rs:30-34 | the loop removes path by path |
| Project.RemovedIsUnreachable | src/project.rs:36-63 | nothing on a removed path can be reached |
| Project.RemovalsCommute | src/project.rs:30-63 | two removals may be done in either order |
| Project.PrunedIsUnreachable | src/project.rs:27-34 | after pruning, nothing on any denied path can be reached, whatever was removed after it |
| Project.PruneIgnoresOrder | src/project.rs:27-34 | the order of denied paths and repeats do not matter |
| Project.SetThenGet | src/project.rs:98-141 | a write is read back if and only if no non-object stands in its way, and else changes nothing |
| Project.DefaultIsSetWhenAbsent | src/project.rs:102-123 | a default is a write where the path is absent, and nothing where it is present |
| JsonText.StripJsonWhitespace | src/backend.rs:323-345 | the loop drops exactly the whitespace outside strings |
| JsonText.StripKeepsTokens | src/backend.rs:320-322 | on valid JSON the tokens stay verbatim and the text stays valid |
| JsonText.StripIdempotent | src/backend.rs:311-312 | stripping again changes nothing, and the text never grows |
| JsonText.ValueSpaced | src/backend.rs:296-300 | valid JSON never has two bare words side by side, which is why no gap is needed |
| JsonText.CompactJsonTexts | src/backend.rs:301-318 | each block's text is replaced if and only if it is JSON and shrinks |
| JsonText.CompactBlockKeepsMeaning | src/backend.rs:295-318 | other fields stay, JSON keeps its tokens, prose every character, and compacting again changes nothing |
| Minify.CutIsLongest | src/surface/minify.rs:8-13 | a cut on a character boundary keeps exactly the prefixes that fit |
| Minify.BudgetTruncatedFitsIff | src/surface/minify.rs:126-133 | the cut text ends with its label and is within the budget if and only if text or label alone is |
| Minify.MinifySchema | src/surface/minify.rs:56-92 | trimming a node and then each child in place gives the minified schema, for either stage |
| Minify.MinifyChildren | src/surface/minify.rs:25-47 | the child schemas under a key are replaced where they stand, and names given by users are never looked at |
| Minify.PruneBelowDepth | src/surface/minify.rs:98-121 | pruning key by key gives the pruned schema |
| Minify.MinifiedReachesTheSame | src/surface/minify.rs:49-92 | a path leads somewhere in the minified schema if and only if it does in the original, and to the minified form of what it led to |
| Minify.NodeKeepsStructure | src/surface/minify.rs:77-81 | a node keeps its property names and every keyword that is not prose, `type` and `required` included |
| Minify.ProseIsCut | src/surface/minify.rs:49-55 | at every node the soft stage leaves no example and caps descriptions and enums, saying how many values are missing; the hard stage leaves no prose |
| Minify.PrunedReach | src/surface/minify.rs:94-97 | pruning takes away exactly the places behind too many levels of named fields, and leaves those behind keys it does not follow |
| Minify.PrunedNodeKeeps | src/surface/minify.rs:100-110 | a pruned node keeps its keywords, and where its properties went it says how many there were |
| Minify.PruneComposes | src/surface.rs:733-737 | for a lesser depth, pruning the pruned schema equals pruning the original |
| Minify.DetailsText | src/surface.rs:695-753 | degrading one copy in place gives the first of seven renderings that fits, or the last one cut, and never more than 20,000 bytes |
| Minify.NotesAreTrue | src/surface.rs:711-737 | each note holds of the schema it comes with: every field, or every field down to the depth with counts below |
| Minify.BehindOtherKeysNothingIsPruned | src/surface/minify.rs:94-121 | a schema whose nesting is all behind `additionalProperties` is not pruned at any depth |
| Calendar.CivilIsCalendarDate | src/surface/generators.rs:67-76 | every day number, negative ones included, gives a real Gregorian date, and that day's |
| Calendar.DayNumberInjective | src/surface/generators.rs:61-76 | different dates have different day numbers |
| Calendar.DayAfterIsNext | src/surface/generators.rs:61-76 | the next date has the next number |
| Calendar.CivilInvertsDayNumber | src/surface/generators.rs:61-76 | conversion and day count undo each other, and consecutive numbers give consecutive dates |
| Calendar.Iso8601RoundTrip | src/surface/generators.rs:63-78 | the text of any second reads back as that second, with a valid date and time of day |
| Calendar.Rfc3339ShapeIffFourDigitYear | src/surface/generators.rs:61-77 | the text has twenty characters and a four-digit year if and only if the second passed in lies between two given ones |
| Calendar.FourDigitYearIff | src/surface/generators.rs:63-76 | those two are the first second of year 0 and the first after year 9999 |
| Calendar.ShapeLostOutsideTheRange | src/surface/generators.rs:77 | one second outside on either side gives a fifth digit or a sign |
| NearMiss.EditDistance | src/surface/ids.rs:47-61 | the two-row table computes the recursive distance |
| NearMiss.LevIsAchieved | src/surface/ids.rs:45-47 | some edit script of that cost turns one text into the other |
| NearMiss.LevIsLeast | src/surface/ids.rs:45-47 | no script costs less |
| NearMiss.LevAtLeastLengthDifference | src/surface/ids.rs:30-33 | the distance is at least the length difference, so the prefilter loses nothing |
| NearMiss.ClosestMatches | src/surface/ids.rs:21-41 | the loop with its prefilter returns what ranking all eligible candidates gives |
| NearMiss.EligibleExactly | src/surface/ids.rs:17-20 | a candidate is eligible if and only if its distance is within the budget |
| NearMiss.BestAreBest | src/surface/ids.rs:39-40 | as many as there are up to n, in order, and none left out ranks before one taken |
| ExposedNames.Sanitize | src/surface/ids.rs:10-15 | allowed characters only, and room for the reserve |
| ExposedNames.ExposedNames | src/surface/catalog.rs:190-220 | the loops give the names the definition gives |
| ExposedNames.NameLeadsBack | src/surface/catalog.rs:200-218 | a tool's name leads back to it |
| ExposedNames.NamesDiffer | src/surface/catalog.rs:202-217 | and no two tools share one |
| ExposedNames.ExposedSize | src/surface/catalog.rs:200-219 | every tool has a name |
| ExposedNames.NameFitsIff | src/surface/ids.rs:5-15 | a name keeps to 64 allowed characters if and only if the preferred one is not taken or some suffix that fits is not |
| ExposedNames.NamesFitIff | src/surface/catalog.rs:200-217 | over a whole list, all names fit if and only if each tool finds its preferred name free or fewer earlier tools block suffixes of its base than fit, 998 for a base of 60 characters |
| ExposedNames.NamesFitIffFewRepeats | src/surface/catalog.rs:196-217 | where no tool prefers a name that looks numbered, if and only if each repeated preference comes after fewer than that many others with its base |
| ExposedNames.CrowdOverflows | src/surface/catalog.rs:203-213 | 999 tools of one upstream with distinct ids, the last of which gets a name of 65 characters |
| ExposedNames.NamesFitFewTools | src/surface/catalog.rs:203-208 | up to 998 tools always fit |
| ExposedNames.FirstGetsPreferred | src/surface/catalog.rs:200-202 | the first tool gets the name it prefers |
| ExposedNames.OrderIndependentIff | src/surface/catalog.rs:190-220 | the outcome is the same in every order of the single tools if and only if preferred names are distinct |
| UpstreamOrder.GrowApart | src/surface/catalog.rs:200-218 | an upstream whose own names are apart from those taken gets exactly the names it gets alone |
| UpstreamOrder.UpstreamOrderIff | src/surface/catalog.rs:185-189 | the outcome is the same in every order of the upstreams if and only if no two of them would take the same name if each came first |
| UpstreamOrder.AloneNames | src/surface/catalog.rs:200-218 | those names are the preferred ones, and numbered ones only for tools beaten to theirs by others of the same upstream |
| UpstreamOrder.SharedPreferenceMatters | src/surface/catalog.rs:185-189 | a preference two upstreams share always makes the order matter, and nothing else does where no upstream repeats a preference itself |
| UpstreamOrder.TwoUpstreamsWhoseOrderMatters | src/surface/catalog.rs:185-201 | two upstreams with three tools whose names depend on which comes first |
| RateLimit.Buckets.constructor | src/surface/ratelimit.rs:21-24 | no buckets |
| RateLimit.Buckets.Take | src/surface/ratelimit.rs:35-57 | eviction, refill, and a token spent or a refusal with its wait |
| RateLimit.Buckets.Refund | src/surface/ratelimit.rs:61-69 | refill and one token back, capped, on an existing bucket |
| RateLimit.TableBounded | src/surface/ratelimit.rs:15-18 | over any run the table never exceeds 10,000 buckets |
| RateLimit.RetryIsLeast | src/surface/ratelimit.rs:32-34 | the same call is admitted a whole number of seconds later if and only if at least the named number, one or more, has passed |
| RateLimit.RetryWithinPeriod | src/surface/ratelimit.rs:55 | the wait is at most the limit's period |
| RateLimit.WindowBound | src/surface/ratelimit.rs:32-57 | in any window of any run, admissions are at most burst, refill and refunds, the window counted longer by as much as clock readings go back |
| RateLimit.NoDriftInOrder | src/surface/ratelimit.rs:48-50 | readings in order go back by nothing |
| RateLimit.TiersDistinct | src/surface/dispatch.rs:376-396 | the tiers of one call use different buckets |
| RateLimit.RateLimited | src/surface/dispatch.rs:397-419 | the loop charges tier by tier and refunds on an enforced refusal, as one piece; `RateRaces.AloneIsRateLimited` ties it to the separate steps |
| RateLimit.RefundAllRestores | src/surface/dispatch.rs:414-416 | refunding undoes every charge |
| RateLimit.RefusalCostsNothing | src/surface/dispatch.rs:358-360 | with nobody in between, for all tiers and report-only settings, a refusal leaves every bucket as refill alone would, when none has to be evicted |
| RateRaces.HeldChargeHarmlessIff | src/surface/dispatch.rs:358-360 | clock readings in any order: a charge later given back leaves nobody refused and the bucket offering no less, for every run with at most n requests of others for it in between, if and only if the bucket has n + 1 tokens at the charge |
| RateRaces.AloneIsRateLimited | src/surface/dispatch.rs:397-419 | a call as separate takes and refunds ends, when only it moves, with the table and the answer that the loop gives in one piece |
| RateRaces.RefusedPaysBack | src/surface/dispatch.rs:414-416 | in any interleaving, a call that ends refused has given back on every bucket exactly what it was charged |
| RateRaces.RefundComesOfOneCharge | src/surface/dispatch.rs:376-417 | in any run up to its refund of a bucket, a call was charged there once, refunded once, and did nothing else there |
| RateRaces.SpareCallCostsNothing | src/surface/dispatch.rs:358-360 | in any run up to a refund, if the bucket had at the charge a token for each later request of the others and one more, nobody was refused for it and the bucket offers no less |
| RateRaces.SpareCallChangesNobody | src/surface/dispatch.rs:397-413 | while a call only charges, each bucket it is charged on having tokens to spare then, and readings on one bucket come in order, every other call goes exactly as in the run without it, over all its tiers |
| RateRaces.RefundAdmitsAnother | src/surface/ratelimit.rs:59-69 | after a harmless charge with tokens to spare, the refund with its old reading leaves more than there would be, and a call is admitted that would be refused |
| RateRaces.RefusedAmongOthers | src/surface/dispatch.rs:397-419 | operations that give back what they took, among any others, leave every bucket offering at least what it would without them, unless another was answered differently meanwhile |
| RateRaces.OthersGoTheSame | src/surface/dispatch.rs:397-419 | where nobody is answered differently, the run without the call takes every other call the same way |
| RateRaces.RefusedCallCostsNothing | src/surface/dispatch.rs:358-360 | both together, for a refused call of any run and the run without it |
| RateRaces.HeldChargeRefusesAnother | src/surface/dispatch.rs:397-419 | from an empty table: a call is charged to its caller, a second call of that caller is refused, the first is refused by its tool's own limit and refunded; without the first the second goes through |
| Breaker.BreakerState.constructor | src/surface/breaker.rs:33-41 | a closed breaker |
| Breaker.BreakerState.CheckCall | src/surface/breaker.rs:45-66 | the decision, and a claimed slot at most |
| Breaker.BreakerState.RecordResult | src/surface/breaker.rs:71-89 | the state after a result |
| Breaker.ClosedMeansBelowThreshold | src/surface/breaker.rs:68-83 | in every reachable state the counter is the saturated error streak, and closed means below the threshold |
| Breaker.SlotStaysClaimed | src/surface/breaker.rs:53-64 | until a probe reports, the slot holds a start no earlier than the grant |
| Breaker.ProbesSpaced | src/surface/breaker.rs:25-30 | two probes with no probe result between them are 180 s apart, late results and clock jumps included |
| Breaker.OpenUntilCooldown | src/surface/breaker.rs:49-52 | after a trip nothing passes until the cooldown ends, unless a success arrives |
| Breaker.NeverStuck | src/surface/breaker.rs:25-29 | from every reachable state, calls pass exactly from a known instant on |
| Paginate.Paginate | src/surface/dispatch.rs:427-515 | the loop reads the pages up to the first it cannot or will not take in, merges their items, and reports exactly a request it made and that failed |
| Paginate.MergedIsPrefix | src/surface/dispatch.rs:422-425 | the merged items are those of the first pages, once each and in order, within the limit, and where reading stops is determined |
| Paginate.WholeIff | src/surface/dispatch.rs:446-492 | for every first page, upstream and limit, the merged items are the whole listing if and only if there is one and all its items lie before the page limit, the first page without items and the first repeated cursor |
| Paginate.ReportedMeansNoListing | src/surface/dispatch.rs:466-483 | a reported failure means there is no whole listing, so nothing missing from an existing one is ever reported |
| Paginate.UnreportedTruncation | src/surface/dispatch.rs:446-446 | a listing cut at the page limit without a word |
| Paginate.EmptyPageTruncation | src/surface/dispatch.rs:486-488 | one cut at a page without items |
| Paginate.RepeatedCursorTruncation | src/surface/dispatch.rs:461-463 | one cut at a repeated cursor |
| Paginate.EmptyLastPageIsHarmless | src/surface/dispatch.rs:486-488 | an empty last page loses nothing |
| Reindex.AcceptChanged | src/surface/catalog.rs:313-335 | the loop accepts changed listings one on top of the other, what it accepts passed the checks, and exactly the refused upstreams are to be retried |
| Reindex.RefusedLeaveNoTrace | src/surface/catalog.rs:313-316 | whatever the checks are, without the refused listings the same catalog results |
| Reindex.RefusalsAreIndependent | src/surface/catalog.rs:313-316 | where the checks look at upstreams one by one, every good listing is served and every bad one leaves its upstream as it was |
| Reindex.StartupOk | src/surface.rs:139-250 | a vetted first catalog starts in the invariant |
| Reindex.StepKeepsInv | src/surface/catalog.rs:254-348 | every step of a refresh, and every change or announcement meanwhile, keeps it |
| Reindex.ServedIsVettedAndCurrent | src/surface/catalog.rs:273-343 | in every run the served catalog is the vetted assembly of its listings and every timer is due within a day; with no refresh under way, an announced change is served or flagged, or the last attempt failed or was refused and the next is due within 30 s |
| Reindex.RefreshServesWhatWasAnnounced | src/surface/catalog.rs:273-336 | after a refresh that starts with an upstream due, and ever after, what is served of it is no earlier than what it had announced by then, unless the last attempt failed or was refused and the next is due within 30 s |
| Reindex.ServedNeverGoesBack | src/surface/catalog.rs:273-343 | over every run, the version an upstream is served at never goes back |
| Wire.EncodePathSegment | src/exec.rs:59-74 | the loop encodes byte by byte, and the two dot segments whole |
| Wire.EncodedRoundTrip | src/exec.rs:56-74 | percent-decoding gives the value back |
| Wire.EncodedIsOneSegment | src/exec.rs:56-58 | the encoded text has unreserved characters and `%` only, and is not itself `.` or `..` |
| Wire.Base64RoundTrip | src/modern.rs:140 | decoding gives the bytes back |
| Wire.HeaderRoundTrip | src/modern.rs:128-142 | every value is read back from a field that is always safe, and is untouched if and only if it is safe and does not look encoded |
| PathParams.FillPath | src/exec.rs:217-231 | the loop's result; for a template without nested placeholders it is a path if and only if every placeholder's parameter is given |
| PathParams.FillAllIsAtOnce | src/exec.rs:221-227 | filling one by one is filling the template's own placeholders at once |
| PathParams.OrderFreeIff | src/exec.rs:222-226 | every order gives the same if and only if no placeholder is nested in another |
| PathParams.NestedExample | src/exec.rs:222-226 | a template where it does not |
| PathParams.FillingAddsNoDelimiter | src/exec.rs:217-220 | no value adds a delimiter to the path, and the number of segments stays the template's |

## Left out

- All network, process, TLS and file access, task scheduling, and the external engines for search ranking, jq, JWT and
  Vault: only the state they touch is modelled.
- The order of object keys. Objects are finite maps, so the audit log's dependence on keeping a line's key order, and
  the order of keys in any output, are not captured.
- Editing JSON trees in place: a tree is a value, and the methods of `Minify`, `Project` and `JsonText` return the edited
  tree. Default and write along a path are functions only.
- `f64` rounding in the rate limiter, where real numbers stand for it, and the eviction of a bucket, which
  `RateLimit.WindowBound`, `RateLimit.RefusalCostsNothing` and the lemmas of `RateRaces` about whole runs assume away as
  their statements say.
- Sequence numbers beyond 64 bits in the audit log, collisions of HMAC-SHA256 and of listing fingerprints, and the size
  limit that `Conn` ids share with `i64`.
- The ordering of relaxed atomic accesses: each is one step of an interleaving.
- Cancelling a task in the middle of an await, dropping a connection and aborting its reader.
- `Multiplexer`, `Respawn` and `Reindex` run as state machines on values; only the shared half of a connection is also a
  class.
- The recursion limit of the JSON parser that decides whether a text is JSON, and characters outside its input.
- The reading of a path string into segments, and renaming a key.
- Message texts, except where they are inside the budget: the labels and notes of `details_text`. Its envelope is a
  parameter, as are the normalisation of ids, assembling and vetting a catalog, and fetching a page.
- The details of composite workflows and of unknown ids, which are not under the display budget.
- Clock readings that go back, except for the rate limiter and the breaker, where nothing is assumed about them unless a
  lemma says so.
- Generators, preflight checks, patches, workflows, redirects, callers, secrets, configuration, lint, reports and the
  command line: short predicates and walkers without a property beyond their definition.
- Single-flight refreshes elsewhere in the program, which repeat the pattern of `Respawn`.
- What the HTTP client makes of a path after it is filled in, including how it normalises escaped dot segments.
- RateLimit.RateLimited: runs its takes and refunds as one step, although each takes the lock by itself; `RateRaces` has
  them as separate steps.
- RateLimit.RefusalCostsNothing: likewise; among the separate steps of several calls the exact condition is in
  `RateRaces.HeldChargeHarmlessIff`.
- RateRaces.RefusedAmongOthers: its condition compares the runs with and without the call; the one that can be checked at
  the charge is in `RateRaces.HeldChargeHarmlessIff` and `RateRaces.SpareCallCostsNothing`.
- RateRaces.RefusedCallCostsNothing: likewise.
- RateRaces.SpareCallChangesNobody: ends at the first refund. Afterwards another call may be admitted that would be
  refused without it (`RateRaces.RefundAdmitsAnother`) and charge later tiers, where a third finds less; what each bucket
  itself offers is in `RateRaces.SpareCallCostsNothing`.
- AuditChain.VerdictFindsFirstChange: asks of whoever presents the log that valid tags come from `stamp`, in place of
  unforgeability as a probability. Lines are compared by their parsed content, so a change of key order, which the tag
  over the kept order would catch, is no change here.
- Spec.OutputBound: the bound of two nodes for each visit does not hold where a reference object has further fields,
  which a cut or dangling reference returns unvisited; `Spec.ExactOutput` counts those too.
- ExposedNames.NamesFitIffFewRepeats: needs that no tool prefers a name that looks numbered; `ExposedNames.NamesFitIff`
  needs nothing, and counts the tools that hold such names.
- UpstreamOrder.UpstreamOrderIff: takes tools of different upstreams to have different ids.
- ReadCache.HitsAreCurrent: assumes that calls run one at a time, with a fixed catalog and no other writer. The program
  does overlap calls, as it holds no lock while it awaits an upstream (src/surface/dispatch.rs:199-202); what holds then
  is `CacheRaces.AlwaysInOrderIff`.
- CacheRaces.AlwaysInOrderIff: a read is answered at one instant, the merged pages of a paginated one too; the catalog is
  fixed, no write lands after it returned, and there is no other writer. While a write is under way, one read may show its
  effect and a later hit not yet.
- Respawn.ChildStartsSpacedIffModern: counts the first spawn as one start, although a legacy child that dies in its first
  probe is started twice there too.
