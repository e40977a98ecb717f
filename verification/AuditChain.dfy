/** Tamper evidence for the audit log (src/audit_chain.rs, and `log_event` in
    src/surface.rs).

    HMAC-SHA256 under the writer's key is a function passed in; what the theorems need of
    it is `Ideal`. A log is the file's non-blank lines, each either not JSON or the value it
    parses to. Lines are serialised by the canonical writer, so two lines that differ only
    in key order are the same line here. */
module AuditChain {
  import opened Json
  import Canonical
  import Text

  const GENESIS := "genesis"
  const UNIT_SEPARATOR: char := 0x1f as char
  const U64_LIMIT: nat := 0x1_0000_0000_0000_0000

  type Line = Option<Value>

  /** An idealised MAC: no collisions, and a tag never holds the field separator (tags are
      hexadecimal). */
  ghost predicate Ideal(hmac: string -> string) {
    && (forall p, q :: hmac(p) == hmac(q) ==> p == q)
    && (forall p :: UNIT_SEPARATOR !in hmac(p))
  }

  /** Such functions exist: spell each character with two, the separator specially. */
  lemma IdealMacExists()
    ensures exists hmac: string -> string :: Ideal(hmac)
  {
    var hmac := (p: string) => Spell(p);
    forall p, q | hmac(p) == hmac(q) ensures p == q {
      SpellInjective(p, q);
    }
    forall p ensures UNIT_SEPARATOR !in hmac(p) {
      SpellAvoidsSeparator(p);
    }
    assert Ideal(hmac);
  }

  function Spell(p: string): string {
    if p == [] then []
    else (if p[0] == UNIT_SEPARATOR then "b0" else ['a', p[0]]) + Spell(p[1..])
  }

  lemma {:induction false} SpellInjective(p: string, q: string)
    requires Spell(p) == Spell(q)
    ensures p == q
  {
    if p != [] && q != [] {
      assert Spell(p)[2..] == Spell(p[1..]) && Spell(q)[2..] == Spell(q[1..]);
      SpellInjective(p[1..], q[1..]);
      assert p == [p[0]] + p[1..] && q == [q[0]] + q[1..];
    }
  }

  lemma {:induction false} SpellAvoidsSeparator(p: string)
    ensures UNIT_SEPARATOR !in Spell(p)
  {
    if p != [] { SpellAvoidsSeparator(p[1..]); }
  }

  // ----- one line -----

  function AsU64(v: Option<Value>): Option<nat> {
    match v
    case Some(Number(l)) =>
      if l != [] && Text.AllDigits(l) && Text.ReadDecimal(l) < U64_LIMIT then Some(Text.ReadDecimal(l)) else None
    case _ => None
  }

  function AsStr(v: Option<Value>): Option<string> {
    match v
    case Some(String(s)) => Some(s)
    case _ => None
  }

  function SeqOf(v: Value): Option<nat> { AsU64(Get(v, "seq")) }

  function MacOf(v: Value): Option<string> { AsStr(Get(v, "mac")) }

  /** What the MAC covers of a line: everything but `mac`. */
  function Body(line: Value): Value {
    if line.Object? then Object(line.fields - {"mac"}) else line
  }

  function Payload(prev: string, number: nat, body: Value): string {
    prev + [UNIT_SEPARATOR] + (Text.Decimal(number) + [UNIT_SEPARATOR] + Canonical.Canon(body))
  }

  function MacFor(hmac: string -> string, prev: string, number: nat, line: Value): string {
    hmac(Payload(prev, number, Body(line)))
  }

  function Put(line: Value, key: string, v: Value): Value {
    if line.Object? then Object(line.fields[key := v]) else line
  }

  /** The line as `stamp` leaves it, and the MAC the next line will cover. */
  function StampLine(hmac: string -> string, prev: string, number: nat, line: Value): (Value, string) {
    var numbered := Put(line, "seq", Number(Text.Decimal(number)));
    var mac := MacFor(hmac, prev, number, numbered);
    (Put(numbered, "mac", String(mac)), mac)
  }

  // ----- the writer -----

  datatype Resumption = Resumed(nextSeq: nat, prevMac: string) | LastLineNotJson | Unsigned

  /** Where a chain stands after reading the log it will append to. */
  function Resume(log: seq<Line>): Resumption {
    if log == [] then Resumed(1, GENESIS)
    else match log[|log| - 1]
      case None => LastLineNotJson
      case Some(v) =>
        if SeqOf(v).Some? && MacOf(v).Some? then Resumed(SeqOf(v).value + 1, MacOf(v).value) else Unsigned
  }

  class Chain {
    const hmac: string -> string
    var nextSeq: nat
    var prevMac: string

    constructor (hmac: string -> string)
      ensures this.hmac == hmac && nextSeq == 1 && prevMac == GENESIS
    {
      this.hmac := hmac;
      nextSeq := 1;
      prevMac := GENESIS;
    }

    /** Picks up the log on disk; a refusal leaves the chain as it was. */
    method ResumeFrom(log: seq<Line>) returns (r: Resumption)
      requires nextSeq == 1 && prevMac == GENESIS
      modifies this
      ensures r == Resume(log)
      ensures r.Resumed? ==> nextSeq == r.nextSeq && prevMac == r.prevMac
      ensures !r.Resumed? ==> unchanged(this)
    {
      if log == [] { return Resumed(nextSeq, prevMac); }
      match log[|log| - 1] {
        case None => return LastLineNotJson;
        case Some(v) =>
          var seqNo, mac := SeqOf(v), MacOf(v);
          if seqNo.None? || mac.None? { return Unsigned; }
          nextSeq := seqNo.value + 1;
          prevMac := mac.value;
          return Resumed(nextSeq, prevMac);
      }
    }

    method Stamp(line: Value) returns (stamped: Value)
      modifies this
      ensures (stamped, prevMac) == StampLine(hmac, old(prevMac), old(nextSeq), line)
      ensures nextSeq == old(nextSeq) + 1
    {
      var seqNo := nextSeq;
      stamped := Put(line, "seq", Number(Text.Decimal(seqNo)));
      var mac := MacFor(hmac, prevMac, seqNo, stamped);
      stamped := Put(stamped, "mac", String(mac));
      nextSeq := seqNo + 1;
      prevMac := mac;
    }
  }

  // ----- the verifier -----

  datatype Reason = NotJson | NoSeqOrMac | SequenceJumped | MacMismatch

  datatype Verdict = Verdict(lines: nat, failures: seq<(nat, Reason)>)

  function Fault(hmac: string -> string, prev: string, expected: nat, line: Line): Option<Reason> {
    match line
    case None => Some(NotJson)
    case Some(v) =>
      if SeqOf(v).None? || MacOf(v).None? then Some(NoSeqOrMac)
      else if SeqOf(v).value != expected then Some(SequenceJumped)
      else if MacFor(hmac, prev, expected, v) != MacOf(v).value then Some(MacMismatch)
      else None
  }

  /** The MAC the i-th line should cover. */
  function PrevOf(log: seq<Line>, i: nat): string
    requires i <= |log|
  {
    if i == 0 then GENESIS
    else match log[i - 1]
      case Some(v) => (match MacOf(v) case Some(mac) => mac case None => "")
      case None => ""
  }

  function FaultAt(hmac: string -> string, log: seq<Line>, i: nat): Option<Reason>
    requires i < |log|
  {
    Fault(hmac, PrevOf(log, i), i + 1, log[i])
  }

  ghost predicate Accepts(hmac: string -> string, log: seq<Line>) {
    forall i :: 0 <= i < |log| ==> FaultAt(hmac, log, i).None?
  }

  /** `v` stops at the first faulty line and says which and why. */
  ghost predicate IsVerdict(hmac: string -> string, log: seq<Line>, v: Verdict) {
    && v.lines <= |log|
    && (v.failures == [] ==> v.lines == |log| && Accepts(hmac, log))
    && (v.failures != [] ==>
      && v.lines > 0
      && (forall i :: 0 <= i < v.lines - 1 ==> FaultAt(hmac, log, i).None?)
      && FaultAt(hmac, log, v.lines - 1).Some?
      && v.failures == [(v.lines, FaultAt(hmac, log, v.lines - 1).value)])
  }

  method Verify(hmac: string -> string, log: seq<Line>) returns (v: Verdict)
    ensures IsVerdict(hmac, log, v)
  {
    hide SeqOf, MacOf, MacFor;
    var prev, expected, lines := GENESIS, 1, 0;
    var failures: seq<(nat, Reason)> := [];
    for i := 0 to |log|
      invariant failures == [] && lines == i && expected == i + 1 && prev == PrevOf(log, i)
      invariant forall j :: 0 <= j < i ==> FaultAt(hmac, log, j).None?
    {
      lines := i + 1;
      match log[i] {
        case None =>
          failures := [(lines, NotJson)];
          break;
        case Some(v) =>
          var seqNo, mac := SeqOf(v), MacOf(v);
          if seqNo.None? || mac.None? {
            failures := [(lines, NoSeqOrMac)];
            break;
          }
          if seqNo.value != expected {
            failures := [(lines, SequenceJumped)];
            break;
          }
          if MacFor(hmac, prev, seqNo.value, v) != mac.value {
            failures := [(lines, MacMismatch)];
            break;
          }
          prev := mac.value;
          expected := seqNo.value + 1;
      }
    }
    v := Verdict(lines, failures);
  }

  // ----- an untouched log verifies -----

  predicate AllObjects(events: seq<Value>) {
    forall i :: 0 <= i < |events| ==> events[i].Object?
  }

  /** The lines one unbroken chain writes for `events`. */
  function Issued(hmac: string -> string, events: seq<Value>): (log: seq<Line>)
    ensures |log| == |events|
  {
    if events == [] then [] else
      var n := |events| - 1;
      var before := Issued(hmac, events[..n]);
      before + [Some(StampLine(hmac, PrevOf(before, n), n + 1, events[n]).0)]
  }

  lemma StampedLineFields(hmac: string -> string, prev: string, number: nat, line: Value)
    requires line.Object? && number < U64_LIMIT
    ensures var (v, mac) := StampLine(hmac, prev, number, line);
      && v.Object? && SeqOf(v) == Some(number) && MacOf(v) == Some(mac) && mac == MacFor(hmac, prev, number, v)
      && Fault(hmac, prev, number, Some(v)).None?
  {
    var (v, mac) := StampLine(hmac, prev, number, line);
    Text.ReadDecimalInverts(number);
    var numbered := Put(line, "seq", Number(Text.Decimal(number)));
    assert v.fields - {"mac"} == numbered.fields - {"mac"};
  }

  lemma {:induction false} IssuedAccepted(hmac: string -> string, events: seq<Value>)
    requires AllObjects(events) && |events| < U64_LIMIT
    ensures Accepts(hmac, Issued(hmac, events))
    ensures Resume(Issued(hmac, events)) == Resumed(|events| + 1, PrevOf(Issued(hmac, events), |events|))
  {
    hide Fault, StampLine, MacFor, SeqOf, MacOf;
    if events != [] {
      var n := |events| - 1;
      var log, before := Issued(hmac, events), Issued(hmac, events[..n]);
      IssuedAccepted(hmac, events[..n]);
      StampedLineFields(hmac, PrevOf(before, n), n + 1, events[n]);
      forall i | 0 <= i < |log| ensures FaultAt(hmac, log, i).None? {
        assert PrevOf(log, i) == PrevOf(before, i);
        if i < n { assert FaultAt(hmac, before, i).None?; }
      }
    }
  }

  /** A later part of the chain follows from the earlier part alone. */
  lemma {:induction false} IssuedPrefix(hmac: string -> string, events: seq<Value>, n: nat)
    requires n <= |events|
    ensures Issued(hmac, events)[..n] == Issued(hmac, events[..n])
    decreases |events|
  {
    if n == |events| {
      assert events[..n] == events;
    } else {
      var m := |events| - 1;
      IssuedPrefix(hmac, events[..m], n);
      assert events[..m][..n] == events[..n];
    }
  }

  // ----- stamping and appending as separate steps, with restarts -----

  /** The chain and the file are under separate locks: a stamped line waits before it
      reaches the file. */
  datatype Writer = Writer(alive: bool, nextSeq: nat, prevMac: string, waiting: seq<Value>, file: seq<Line>)

  datatype Step = StampStep(event: Value) | AppendStep(which: nat) | Restart

  function Next(hmac: string -> string, w: Writer, step: Step): Writer {
    match step
    case StampStep(event) =>
      if !w.alive then w else
        var (v, mac) := StampLine(hmac, w.prevMac, w.nextSeq, event);
        w.(nextSeq := w.nextSeq + 1, prevMac := mac, waiting := w.waiting + [v])
    case AppendStep(i) =>
      if !w.alive || i >= |w.waiting| then w
      else w.(waiting := w.waiting[..i] + w.waiting[i + 1..], file := w.file + [Some(w.waiting[i])])
    case Restart =>
      match Resume(w.file)
      case Resumed(nextSeq, prevMac) => Writer(true, nextSeq, prevMac, [], w.file)
      case _ => Writer(false, w.nextSeq, w.prevMac, [], w.file)
  }

  ghost function Run(hmac: string -> string, steps: seq<Step>): Writer {
    if steps == [] then Writer(true, 1, GENESIS, [], [])
    else Next(hmac, Run(hmac, steps[..|steps| - 1]), steps[|steps| - 1])
  }

  /** Every append took the line that had waited longest. */
  ghost predicate InOrder(hmac: string -> string, steps: seq<Step>) {
    forall i :: 0 <= i < |steps| ==> OrderlyAt(hmac, steps, i)
  }

  ghost predicate OrderlyAt(hmac: string -> string, steps: seq<Step>, i: nat)
    requires i < |steps|
  {
    steps[i].AppendStep? ==>
      var w := Run(hmac, steps[..i]);
      steps[i].which == 0 || !w.alive || steps[i].which >= |w.waiting|
  }

  predicate ObjectEvents(steps: seq<Step>) {
    forall i :: 0 <= i < |steps| && steps[i].StampStep? ==> steps[i].event.Object?
  }

  function Wrap(vs: seq<Value>): seq<Line> {
    seq(|vs|, i requires 0 <= i < |vs| => Some(vs[i]))
  }

  /** Writer `w` holds one unbroken chain: the file, then what is waiting. */
  ghost predicate Chained(hmac: string -> string, w: Writer, events: seq<Value>) {
    && w.alive && AllObjects(events)
    && w.file + Wrap(w.waiting) == Issued(hmac, events)
    && w.nextSeq == |events| + 1 && w.prevMac == PrevOf(Issued(hmac, events), |events|)
  }

  lemma StampKeepsChain(hmac: string -> string, w: Writer, events: seq<Value>, event: Value)
    requires Chained(hmac, w, events) && event.Object? && |events| + 1 < U64_LIMIT
    ensures Chained(hmac, Next(hmac, w, StampStep(event)), events + [event])
  {
    hide Fault, SeqOf, MacFor;
    var w', more := Next(hmac, w, StampStep(event)), events + [event];
    assert more[..|events|] == events;
    StampedLineFields(hmac, w.prevMac, w.nextSeq, event);
    assert Wrap(w'.waiting) == Wrap(w.waiting) + [Some(w'.waiting[|w.waiting|])];
    assert w'.file + Wrap(w'.waiting) == Issued(hmac, events) + [Some(w'.waiting[|w.waiting|])];
  }

  lemma OrderlyAppendKeepsChain(hmac: string -> string, w: Writer, events: seq<Value>)
    requires Chained(hmac, w, events) && w.waiting != []
    ensures Chained(hmac, Next(hmac, w, AppendStep(0)), events)
  {
    hide Issued, StampLine, PrevOf, Resume;
    var w' := Next(hmac, w, AppendStep(0));
    assert Wrap(w.waiting) == [Some(w.waiting[0])] + Wrap(w'.waiting);
  }

  lemma RestartKeepsChain(hmac: string -> string, w: Writer, events: seq<Value>)
    requires Chained(hmac, w, events) && |events| < U64_LIMIT
    ensures |w.file| <= |events|
    ensures Chained(hmac, Next(hmac, w, Restart), events[..|w.file|])
  {
    var n := |w.file|;
    assert |Wrap(w.waiting)| == |w.waiting|;
    IssuedPrefix(hmac, events, n);
    assert w.file == Issued(hmac, events)[..n];
    IssuedAccepted(hmac, events[..n]);
    assert w.file + Wrap([]) == w.file;
  }

  lemma OrderlyStepKeepsChain(hmac: string -> string, w: Writer, step: Step, events: seq<Value>) returns (events': seq<Value>)
    requires Chained(hmac, w, events) && |events| + 1 < U64_LIMIT
    requires step.StampStep? ==> step.event.Object?
    requires step.AppendStep? ==> step.which == 0 || step.which >= |w.waiting|
    ensures Chained(hmac, Next(hmac, w, step), events') && |events'| <= |events| + 1
  {
    hide Issued, StampLine, Wrap;
    match step {
      case StampStep(event) =>
        StampKeepsChain(hmac, w, events, event);
        events' := events + [event];
      case AppendStep(i) =>
        if i < |w.waiting| { OrderlyAppendKeepsChain(hmac, w, events); }
        events' := events;
      case Restart =>
        RestartKeepsChain(hmac, w, events);
        events' := events[..|w.file|];
    }
  }

  lemma {:induction false} OrderlyRunIsChained(hmac: string -> string, steps: seq<Step>) returns (events: seq<Value>)
    requires InOrder(hmac, steps) && ObjectEvents(steps) && |steps| < U64_LIMIT
    ensures Chained(hmac, Run(hmac, steps), events) && |events| <= |steps|
  {
    hide Next, Issued;
    if steps == [] {
      events := [];
      NewChain(hmac);
    } else {
      var n := |steps| - 1;
      forall i | 0 <= i < n ensures OrderlyAt(hmac, steps[..n], i) {
        assert steps[..n][..i] == steps[..i];
        assert OrderlyAt(hmac, steps, i);
      }
      events := OrderlyRunIsChained(hmac, steps[..n]);
      assert OrderlyAt(hmac, steps, n);
      events := OrderlyStepKeepsChain(hmac, Run(hmac, steps[..n]), steps[n], events);
    }
  }

  lemma NewChain(hmac: string -> string)
    ensures Chained(hmac, Run(hmac, []), [])
  {}

  /** An accepted log has an accepted beginning. */
  lemma AcceptedPrefix(hmac: string -> string, log: seq<Line>, start: seq<Line>)
    requires Accepts(hmac, log) && start <= log
    ensures Accepts(hmac, start)
  {
    forall i | 0 <= i < |start| ensures FaultAt(hmac, start, i).None? {
      assert FaultAt(hmac, log, i).None?;
    }
  }

  /** Writing a line ahead of an earlier one breaks the log. */
  lemma DisorderlyAppendBreaks(hmac: string -> string, w: Writer, events: seq<Value>, i: nat)
    requires Chained(hmac, w, events) && 0 < i < |w.waiting| && |events| < U64_LIMIT
    ensures !Accepts(hmac, Next(hmac, w, AppendStep(i)).file)
  {
    var log, n := Issued(hmac, events), |w.file|;
    assert |Wrap(w.waiting)| == |w.waiting|;
    assert log[n + i] == Wrap(w.waiting)[i] == Some(w.waiting[i]);
    IssuedAccepted(hmac, events);
    assert FaultAt(hmac, log, n + i).None?;
    var file' := Next(hmac, w, AppendStep(i)).file;
    assert file'[n] == Some(w.waiting[i]);
    assert FaultAt(hmac, file', n) == Some(SequenceJumped);
  }

  lemma {:induction false} FileGrows(hmac: string -> string, steps: seq<Step>, n: nat)
    requires n <= |steps|
    ensures Run(hmac, steps[..n]).file <= Run(hmac, steps).file
    decreases |steps|
  {
    if n == |steps| {
      assert steps[..n] == steps;
    } else {
      var m := |steps| - 1;
      FileGrows(hmac, steps[..m], n);
      assert steps[..m][..n] == steps[..n];
    }
  }

  lemma InOrderVerifies(hmac: string -> string, steps: seq<Step>)
    requires ObjectEvents(steps) && |steps| < U64_LIMIT && InOrder(hmac, steps)
    ensures Accepts(hmac, Run(hmac, steps).file)
  {
    var events := OrderlyRunIsChained(hmac, steps);
    hide *;
    IssuedAccepted(hmac, events);
    ChainedFile(hmac, Run(hmac, steps), events);
    AcceptedPrefix(hmac, Issued(hmac, events), Run(hmac, steps).file);
  }

  lemma ChainedFile(hmac: string -> string, w: Writer, events: seq<Value>)
    requires Chained(hmac, w, events)
    ensures w.file <= Issued(hmac, events) && AllObjects(events)
  {}

  /** A file that does not verify never will: lines are only added. */
  lemma RejectedForGood(hmac: string -> string, steps: seq<Step>, n: nat)
    requires n <= |steps| && !Accepts(hmac, Run(hmac, steps[..n]).file)
    ensures !Accepts(hmac, Run(hmac, steps).file)
  {
    hide *;
    FileGrows(hmac, steps, n);
    var file := Run(hmac, steps).file;
    if Accepts(hmac, file) { AcceptedPrefix(hmac, file, Run(hmac, steps[..n]).file); }
  }

  lemma RunStep(hmac: string -> string, steps: seq<Step>, i: nat)
    requires i < |steps|
    ensures Run(hmac, steps[..i + 1]) == Next(hmac, Run(hmac, steps[..i]), steps[i])
  {
    assert steps[..i + 1][..i] == steps[..i];
  }

  lemma DisorderRejected(hmac: string -> string, steps: seq<Step>)
    requires ObjectEvents(steps) && |steps| < U64_LIMIT && !InOrder(hmac, steps)
    ensures !Accepts(hmac, Run(hmac, steps).file)
  {
    hide *;
    var i := FirstDisorder(hmac, steps);
    var events := OrderlyRunIsChained(hmac, steps[..i]);
    DisorderlyAppendBreaks(hmac, Run(hmac, steps[..i]), events, steps[i].which);
    RunStep(hmac, steps, i);
    RejectedForGood(hmac, steps, i + 1);
  }

  /** Over every run of stamps, appends and restarts, the log on disk verifies exactly when
      each append wrote the longest-waiting line. */
  lemma HonestLogVerifiesIffInOrder(hmac: string -> string, steps: seq<Step>)
    requires ObjectEvents(steps) && |steps| < U64_LIMIT
    ensures Accepts(hmac, Run(hmac, steps).file) <==> InOrder(hmac, steps)
  {
    if InOrder(hmac, steps) {
      InOrderVerifies(hmac, steps);
    } else {
      DisorderRejected(hmac, steps);
    }
  }

  /** The shortest such run: two lines stamped, the second appended first. */
  lemma OvertakingBreaksTheLog(hmac: string -> string, a: Value, b: Value)
    requires a.Object? && b.Object?
    ensures var steps := [StampStep(a), StampStep(b), AppendStep(1), AppendStep(0)];
      |Run(hmac, steps).file| == 2 && !Accepts(hmac, Run(hmac, steps).file)
  {
    var steps := [StampStep(a), StampStep(b), AppendStep(1), AppendStep(0)];
    assert steps[..4] == steps;
    RunStep(hmac, steps, 0);
    RunStep(hmac, steps, 1);
    RunStep(hmac, steps, 2);
    RunStep(hmac, steps, 3);
    hide StampLine;
    assert |Run(hmac, steps[..2]).waiting| == 2;
    assert !OrderlyAt(hmac, steps, 2);
    DisorderRejected(hmac, steps);
  }

  lemma {:induction false} FirstDisorder(hmac: string -> string, steps: seq<Step>) returns (i: nat)
    requires !InOrder(hmac, steps) && ObjectEvents(steps)
    ensures i < |steps| && ObjectEvents(steps[..i]) && !OrderlyAt(hmac, steps, i) && InOrder(hmac, steps[..i])
    ensures var w := Run(hmac, steps[..i]); steps[i].AppendStep? && w.alive && 0 < steps[i].which < |w.waiting|
  {
    i := 0;
    while OrderlyAt(hmac, steps, i)
      invariant i < |steps| && forall j :: 0 <= j < i ==> OrderlyAt(hmac, steps, j)
      decreases |steps| - i
    {
      i := i + 1;
    }
    forall j | 0 <= j < i ensures OrderlyAt(hmac, steps[..i], j) {
      assert steps[..i][..j] == steps[..j];
      assert OrderlyAt(hmac, steps, j);
    }
  }

  // ----- a log that verifies was issued -----

  lemma SeparatedUnique(a: string, b: string, x: string, y: string)
    requires UNIT_SEPARATOR !in a && UNIT_SEPARATOR !in b
    requires a + [UNIT_SEPARATOR] + x == b + [UNIT_SEPARATOR] + y
    ensures a == b && x == y
  {
    var s, t := a + [UNIT_SEPARATOR] + x, b + [UNIT_SEPARATOR] + y;
    assert s[|a|] == UNIT_SEPARATOR && t[|b|] == UNIT_SEPARATOR;
    assert forall i :: 0 <= i < |a| ==> s[i] == a[i];
    assert forall i :: 0 <= i < |b| ==> t[i] == b[i];
    assert |a| == |b|;
    assert s[..|a|] == a && t[..|b|] == b && s[|a| + 1..] == x && t[|b| + 1..] == y;
  }

  /** The payload of a line determines the MAC before it, its number and its content. */
  lemma PayloadInjective(prev: string, number: nat, body: Value, prev': string, number': nat, body': Value)
    requires UNIT_SEPARATOR !in prev && UNIT_SEPARATOR !in prev'
    requires Canonical.WellFormed(body) && Canonical.WellFormed(body')
    requires Payload(prev, number, body) == Payload(prev', number', body')
    ensures prev == prev' && number == number' && body == body'
  {
    hide Canonical.Canon, Text.Decimal;
    var d, d' := Text.Decimal(number), Text.Decimal(number');
    var rest, rest' := d + [UNIT_SEPARATOR] + Canonical.Canon(body), d' + [UNIT_SEPARATOR] + Canonical.Canon(body');
    SeparatedUnique(prev, prev', rest, rest');
    assert UNIT_SEPARATOR !in d && UNIT_SEPARATOR !in d' by { assert !Text.IsDigit(UNIT_SEPARATOR); }
    SeparatedUnique(d, d', Canonical.Canon(body), Canonical.Canon(body'));
    Text.DecimalInjective(number, number');
    Canonical.CanonInjective(body, body');
  }

  function PayloadAt(log: seq<Line>, i: nat): string
    requires i < |log| && log[i].Some?
  {
    Payload(PrevOf(log, i), i + 1, Body(log[i].value))
  }

  /** Whoever wrote `log` could not sign: a valid tag on one of its lines is the tag of a
      payload that `stamp` signed when it issued `issued`. */
  ghost predicate Unforged(hmac: string -> string, issued: seq<Line>, log: seq<Line>) {
    forall i, p :: 0 <= i < |log| && log[i].Some? && MacOf(log[i].value) == Some(hmac(p)) ==>
      exists j :: 0 <= j < |issued| && issued[j].Some? && p == PayloadAt(issued, j)
  }

  ghost predicate AllWellFormed(log: seq<Line>) {
    forall i :: 0 <= i < |log| && log[i].Some? ==> Canonical.WellFormed(log[i].value)
  }

  /** Up to where the two logs agree. */
  ghost function Common(log: seq<Line>, issued: seq<Line>): (n: nat)
    ensures n <= |log| && n <= |issued| && log[..n] == issued[..n]
    ensures n < |log| && n < |issued| ==> log[n] != issued[n]
  {
    if log == [] || issued == [] || log[0] != issued[0] then 0
    else
      var n := Common(log[1..], issued[1..]);
      assert log[..n + 1] == [log[0]] + log[1..][..n] && issued[..n + 1] == [issued[0]] + issued[1..][..n];
      n + 1
  }

  /** After an agreed beginning, a line without fault is the issued one. */
  lemma FaultlessLineIsIssued(hmac: string -> string, issued: seq<Line>, log: seq<Line>, n: nat)
    requires Ideal(hmac) && Unforged(hmac, issued, log) && AllWellFormed(log) && AllWellFormed(issued)
    requires Accepts(hmac, issued) && n < |log| && n <= |issued| && log[..n] == issued[..n]
    requires FaultAt(hmac, log, n).None?
    ensures n < |issued| && log[n] == issued[n]
  {
    hide Payload, SeqOf, PrevOf;
    var v := log[n].value;
    var p := Payload(PrevOf(log, n), n + 1, Body(v));
    assert MacOf(v) == Some(hmac(p));
    var j :| 0 <= j < |issued| && issued[j].Some? && p == PayloadAt(issued, j);
    var u := issued[j].value;
    PrevAgrees(issued, log, n);
    TagsAreSeparatorFree(hmac, issued, n);
    TagsAreSeparatorFree(hmac, issued, j);
    PayloadInjective(PrevOf(log, n), n + 1, Body(v), PrevOf(issued, j), j + 1, Body(u));
    assert FaultAt(hmac, issued, j).None?;
    SameBodySameMac(v, u);
  }

  lemma PrevAgrees(issued: seq<Line>, log: seq<Line>, n: nat)
    requires n <= |log| && n <= |issued| && log[..n] == issued[..n]
    ensures PrevOf(log, n) == PrevOf(issued, n)
  {
    if n > 0 { assert log[..n][n - 1] == issued[..n][n - 1]; }
  }

  lemma TagsAreSeparatorFree(hmac: string -> string, log: seq<Line>, n: nat)
    requires Ideal(hmac) && Accepts(hmac, log) && n <= |log|
    ensures UNIT_SEPARATOR !in PrevOf(log, n)
  {
    if n > 0 { assert FaultAt(hmac, log, n - 1).None?; }
  }

  lemma SameBodySameMac(v: Value, u: Value)
    requires v.Object? && u.Object? && Body(v) == Body(u) && MacOf(v).Some? && MacOf(v) == MacOf(u)
    ensures v == u
  {
    forall k ensures (k in v.fields <==> k in u.fields) && (k in v.fields ==> v.fields[k] == u.fields[k]) {
      if k != "mac" {
        assert k in v.fields <==> k in Body(v).fields;
        assert k in u.fields <==> k in Body(u).fields;
        assert k in v.fields ==> v.fields[k] == Body(v).fields[k];
        assert k in u.fields ==> u.fields[k] == Body(u).fields[k];
      }
    }
    assert v.fields == u.fields;
  }

  lemma {:induction false} IssuedWellFormed(hmac: string -> string, events: seq<Value>)
    requires forall i :: 0 <= i < |events| ==> Canonical.WellFormed(events[i])
    ensures AllWellFormed(Issued(hmac, events))
  {
    if events != [] {
      var n := |events| - 1;
      IssuedWellFormed(hmac, events[..n]);
      var before := Issued(hmac, events[..n]);
      StampedWellFormed(hmac, PrevOf(before, n), n + 1, events[n]);
    }
  }

  lemma StampedWellFormed(hmac: string -> string, prev: string, number: nat, line: Value)
    requires Canonical.WellFormed(line)
    ensures Canonical.WellFormed(StampLine(hmac, prev, number, line).0)
  {
    hide MacFor;
    var numeral := Text.Decimal(number);
    assert Canonical.WellFormed(Number(numeral));
  }

  /** Tamper evidence. A log presented for verification is accepted exactly when it is a
      beginning of the issued one, and otherwise the one failure reported is at the first
      line that differs from what was issued. */
  lemma VerdictFindsFirstChange(hmac: string -> string, events: seq<Value>, log: seq<Line>, v: Verdict)
    requires Ideal(hmac) && AllObjects(events) && |events| < U64_LIMIT
    requires AllWellFormed(log) && forall i :: 0 <= i < |events| ==> Canonical.WellFormed(events[i])
    requires Unforged(hmac, Issued(hmac, events), log)
    requires IsVerdict(hmac, log, v)
    ensures v.failures == [] <==> log <= Issued(hmac, events)
    ensures v.failures != [] ==> v.lines == Common(log, Issued(hmac, events)) + 1
  {
    var issued := Issued(hmac, events);
    var n := Common(log, issued);
    IssuedAccepted(hmac, events);
    IssuedWellFormed(hmac, events);
    AgreedLinesFaultless(hmac, issued, log, n);
    hide Fault, FaultAt, PrevOf, Common;
    if n < |log| && FaultAt(hmac, log, n).None? {
      FaultlessLineIsIssued(hmac, issued, log, n);
      assert false;
    }
    assert log <= issued ==> forall i :: 0 <= i < |log| ==> log[i] == issued[i];
    assert n == |log| ==> log[..n] == log;
  }

  lemma AgreedLinesFaultless(hmac: string -> string, issued: seq<Line>, log: seq<Line>, n: nat)
    requires Accepts(hmac, issued) && n <= |log| && n <= |issued| && log[..n] == issued[..n]
    ensures forall i :: 0 <= i < n ==> FaultAt(hmac, log, i).None?
  {
    forall i | 0 <= i < n ensures FaultAt(hmac, log, i).None? {
      assert log[..n][i] == issued[..n][i] && log[..i] == log[..n][..i] == issued[..i];
      PrevAgrees(issued, log, i);
      assert FaultAt(hmac, issued, i).None?;
    }
  }
}
