/**
 The audit writer over whole runs: append, seal, rotation, crash at any point,
 and opening again, any number of times, under one key.

 A crash is the death of the process or of the machine: of each file it leaves a
 prefix that holds everything durable, more or less of it durable by then, and a
 file of which nothing was durable may be gone.
 */
module AuditWriter {
  import opened Wrappers
  import opened Layout
  import opened AuditFrame
  import opened AuditLines
  import opened AuditChain
  import opened AuditTamper
  import opened AuditText
  import R = AuditRecover

  /** A segment file, named by the number of its first batch. */
  datatype Seg = Seg(name: U64, file: R.File)

  datatype Mode =
    | Off
    | Recovering(phase: R.Phase)               // reading the newest segment left
    | Starting(head: Head)                     // about to create or truncate the next segment
    | Created(head: Head)                      // it is empty
    | Open(head: Head, pending: seq<Line>)
    | Sealing(head: Head, pending: seq<Line>)  // the trailer is written, not synced
    | Synced(head: Head)                       // it is

  /**
   `chain` is every batch sealed so far, `acked` every head a completed seal
   reported, and `loose` the batch of a writer that died when its trailer was
   written whole but not known to be durable.
   */
  datatype State = State(
    segs: seq<Seg>, asides: seq<R.File>, mode: Mode, chain: seq<Link>, acked: seq<Head>, loose: Option<seq<Line>>)

  const INITIAL: State := State([], [], Off, [], [], None)

  function Most<T>(s: seq<T>): seq<T>
    requires s != []
  {
    s[..|s| - 1]
  }

  function Last<T>(s: seq<T>): T
    requires s != []
  {
    s[|s| - 1]
  }

  /** Bytes written to the newest segment: not durable before the next sync. */
  function Write(segs: seq<Seg>, data: seq<byte>): seq<Seg>
    requires segs != []
  {
    var f := Last(segs).file;
    Most(segs) + [Seg(Last(segs).name, R.File(f.content + data, f.content + data, f.durable))]
  }

  function WithLast(segs: seq<Seg>, f: R.File): seq<Seg>
    requires segs != []
  {
    Most(segs) + [Seg(Last(segs).name, f)]
  }

  function NextHead(c: Suite, head: Head, records: seq<Line>): Head {
    Head(Succ(head.next), BatchHash(c, head, records))
  }

  // ---------------------------------------------------------------------------
  // Steps
  // ---------------------------------------------------------------------------

  /** Creates the next segment, or truncates the one of that name. */
  function Create(segs: seq<Seg>, name: U64): seq<Seg> {
    if segs != [] && Last(segs).name == name then WithLast(segs, R.File([], Last(segs).file.full, 0))
    else segs + [Seg(name, R.Fresh([]))]
  }

  /** Recovery of the newest segment, one step of it. */
  ghost predicate RecoverStep(c: Suite, s: State, t: State, phase: R.Phase)
    requires s.segs != []
  {
    var last := Last(s.segs);
    var plan := PlanOf(c, Number(last.name), last.file.content);
    if phase == R.Reading && plan.Refused? then t == s.(mode := Off)
    else if phase == R.Reading && plan.Forged? then
      t == (if plan.batches == 0 then s.(segs := Most(s.segs)) else s.(mode := Starting(plan.head)))
    else
      exists u :: R.Step(c, Number(last.name), R.State(Some(last.file), s.asides, phase), u) && t == RecoverTo(s, u)
  }

  /** A writer that continues from a segment takes every batch it accepted there for sealed. */
  function RecoverTo(s: State, u: R.State): State
    requires s.segs != []
  {
    var segs := if u.segment.Some? then WithLast(s.segs, u.segment.value) else Most(s.segs);
    if !u.phase.Finished? then s.(segs := segs, asides := u.asides, mode := Recovering(u.phase))
    else if u.phase.result.None? then s.(segs := segs, asides := u.asides, mode := Recovering(R.Reading))
    else s.(segs := segs, asides := u.asides, mode := Starting(u.phase.result.value),
            chain := s.chain + Links(s.loose), loose := None)
  }

  function Links(batch: Option<seq<Line>>): seq<Link> {
    match batch
    case None => []
    case Some(records) => [LinkFor(records)]
  }

  ghost predicate Step(c: Suite, w: Signer, s: State, t: State) {
    match s.mode
    case Off => t == s.(mode := Recovering(R.Reading))
    case Recovering(phase) =>
      if s.segs == [] then t == s.(mode := Starting(START)) else RecoverStep(c, s, t, phase)
    case Starting(head) => t == s.(segs := Create(s.segs, head.next), mode := Created(head))
    case Created(head) =>
      s.segs != [] && t == s.(segs := WithLast(s.segs, R.Fresh(Ended(HeaderLine(w, head)))), mode := Open(head, []))
    case Open(head, pending) =>
      && s.segs != []
      && (|| (exists line :: Loggable(c, line) && Appended(s, t, head, pending, line))
          || (&& pending != []
              && t == s.(segs := Write(s.segs, Ended(TrailerLine(c, w, head, pending))),
                  mode := Sealing(head, pending))))
    case Sealing(head, pending) =>
      var h := NextHead(c, head, pending);
      && s.segs != []
      && t == s.(segs := WithLast(s.segs, R.Durable(Last(s.segs).file.content)), mode := Synced(h),
                 chain := s.chain + [LinkFor(pending)], acked := s.acked + [h])
    case Synced(head) => t == s.(mode := Open(head, [])) || t == s.(mode := Starting(head))
  }

  /** One record is appended to the open batch. */
  ghost predicate Appended(s: State, t: State, head: Head, pending: seq<Line>, line: Line)
    requires s.segs != []
  {
    |pending| + 1 < TWO64 && t == s.(segs := Write(s.segs, Ended(line)), mode := Open(head, pending + [line]))
  }

  /**
   What a crash leaves of a file: a prefix, or, with a cut not yet durable,
   the cut file that may yet be whole again.
   */
  predicate Lasts(f: R.File, g: R.File) {
    R.Survives(f, g) && (g.full == g.content || (g.content == f.content && g.full == f.full))
  }

  /** What a crash leaves of files that stay. */
  ghost predicate AllLast(segs: seq<Seg>, after: seq<Seg>) {
    |after| == |segs|
    && forall i :: 0 <= i < |after| ==> after[i].name == segs[i].name && Lasts(segs[i].file, after[i].file)
  }

  /** The batch whose trailer is written and not known to be durable. */
  function Trailing(s: State): Option<seq<Line>> {
    if s.mode.Sealing? then Some(s.mode.pending) else s.loose
  }

  /** A crash: every file but one with nothing durable is still there, in part. */
  ghost predicate Crash(s: State, t: State) {
    && t.mode == Off && t.acked == s.acked && R.AsidesSurvive(s.asides, t.asides)
    && (AllLast(s.segs, t.segs) || (s.segs != [] && Last(s.segs).file.durable == 0 && AllLast(Most(s.segs), t.segs)))
    && CrashSeals(s, t)
  }

  /** A trailer that survived whole seals its batch once it is durable; until then the batch is loose. */
  ghost predicate CrashSeals(s: State, t: State) {
    if && Trailing(s).Some? && t.segs != [] && |t.segs| == |s.segs|
       && Last(t.segs).file.content == Last(s.segs).file.full then
      if Last(t.segs).file == R.Durable(Last(t.segs).file.content)
      then t.chain == s.chain + Links(Trailing(s)) && t.loose == None
      else t.chain == s.chain && t.loose == Trailing(s)
    else t.chain == s.chain && t.loose == None
  }

  ghost predicate IsRun(c: Suite, w: Signer, trace: seq<State>) {
    && trace != [] && trace[0] == INITIAL
    && forall i :: 0 <= i < |trace| - 1 ==> Step(c, w, trace[i], trace[i + 1]) || Crash(trace[i], trace[i + 1])
  }

  /**
   A writer continues from a segment that holds batches only once it is on
   disk as it reads. The source does not see to this: it makes a segment
   durable only after cutting it.
   */
  predicate Settles(s: State, t: State) {
    s.mode == Recovering(R.Reading) && s.segs != [] && t.mode.Starting? && t.mode.head.next != Last(s.segs).name ==>
      Last(s.segs).file == R.Durable(Last(s.segs).file.content)
  }

  /** No batch takes the last number there is, after which they start over. */
  predicate Numbered(s: State) {
    s.mode.Sealing? ==> Succ(s.mode.head.next) != 0
  }

  ghost predicate Settled(trace: seq<State>) {
    && (forall i :: 0 <= i < |trace| - 1 ==> Settles(trace[i], trace[i + 1]))
    && (forall i :: 0 <= i < |trace| ==> Numbered(trace[i]))
  }

  // ---------------------------------------------------------------------------
  // The invariant
  // ---------------------------------------------------------------------------

  /** Finished segments that hold exactly `chain`, durably. */
  predicate Closed(c: Suite, w: Signer, chain: seq<Link>, segs: seq<Seg>)
    decreases |segs|
  {
    if segs == [] then chain == []
    else
      var l := Last(segs);
      && l.name < |chain| && l.file == R.Durable(Text(c, w, chain, l.name))
      && Closed(c, w, chain[..l.name], Most(segs))
  }

  /** All segments but the newest are finished ones. */
  predicate Based(c: Suite, w: Signer, chain: seq<Link>, segs: seq<Seg>) {
    segs != [] && Last(segs).name <= |chain| && Closed(c, w, chain[..Last(segs).name], Most(segs))
  }

  /** A segment's text, then a tail. */
  predicate HasTail(c: Suite, w: Signer, chain: seq<Link>, name: U64, content: seq<byte>)
    requires name <= |chain|
  {
    var text := Text(c, w, chain, name);
    text <= content && Tail(c, content[|text|..])
  }

  /** What the newest segment can hold when no writer is running: its text and a tail, or a torn header. */
  predicate RestFile(c: Suite, w: Signer, chain: seq<Link>, name: U64, content: seq<byte>)
    requires name <= |chain|
  {
    HasTail(c, w, chain, name, content) || (name == |chain| && content <= HeaderLine(w, HeadAfter(c, chain)))
  }

  /** The newest file can only become what a segment at rest can hold. */
  predicate Steady(c: Suite, w: Signer, chain: seq<Link>, name: U64, f: R.File)
    requires name <= |chain|
  {
    && f.content <= f.full && f.durable <= |f.content|
    && (name < |chain| ==> |Text(c, w, chain, name)| <= f.durable)
    && RestFile(c, w, chain, name, f.full)
  }

  /** The log when no trailer is loose. */
  predicate Quiet(c: Suite, w: Signer, chain: seq<Link>, segs: seq<Seg>) {
    (segs == [] && chain == []) || (Based(c, w, chain, segs) && Steady(c, w, chain, Last(segs).name, Last(segs).file))
  }

  /** The log with a batch whose trailer is written whole but not known to be durable. */
  predicate Loose(c: Suite, w: Signer, chain: seq<Link>, segs: seq<Seg>, records: seq<Line>) {
    && records != [] && AllLoggable(c, records) && |records| < TWO64 && |chain| + 1 < TWO64
    && Based(c, w, chain, segs)
    && var l := Last(segs);
       && l.file.content == l.file.full == Text(c, w, chain + [LinkFor(records)], l.name)
       && l.file.durable <= |l.file.content|
       && (l.name < |chain| ==> |Text(c, w, chain, l.name)| <= l.file.durable)
  }

  predicate Rest(c: Suite, w: Signer, chain: seq<Link>, segs: seq<Seg>, loose: Option<seq<Line>>) {
    match loose
    case None => Quiet(c, w, chain, segs)
    case Some(records) => Loose(c, w, chain, segs, records)
  }

  /** The newest segment while a writer has it open. */
  predicate Writing(c: Suite, w: Signer, chain: seq<Link>, segs: seq<Seg>, more: seq<byte>) {
    && Based(c, w, chain, segs)
    && var l := Last(segs); var text := Text(c, w, chain, l.name);
       && l.file.content == l.file.full == text + more && l.file.durable <= |l.file.content|
       && (l.name < |chain| ==> |text| <= l.file.durable)
  }

  predicate RecoveringOk(c: Suite, w: Signer, chain: seq<Link>, segs: seq<Seg>, phase: R.Phase) {
    && Quiet(c, w, chain, segs) && segs != []
    && match phase
       case Reading => false
       case Copied(kept, end) => PlanIs(c, segs, kept, end)
       case Kept(kept, end) => PlanIs(c, segs, kept, end)
       case Cut(head) => head == HeadAfter(c, chain) && Last(segs).file.content == Text(c, w, chain, Last(segs).name)
       case Finished(_) => false
  }

  predicate PlanIs(c: Suite, segs: seq<Seg>, kept: Option<Head>, end: nat)
    requires segs != []
  {
    var p := PlanOf(c, Number(Last(segs).name), Last(segs).file.content);
    p.Leftover? && p.kept == kept && p.end == end
  }

  /** A sealed end: finished segments, or a newest one without a batch, which is about to be truncated. */
  predicate Clear(c: Suite, w: Signer, chain: seq<Link>, segs: seq<Seg>) {
    && Quiet(c, w, chain, segs)
    && (segs != [] && Last(segs).name < |chain| ==> Last(segs).file == R.Durable(Text(c, w, chain, Last(segs).name)))
  }

  predicate ModeOk(c: Suite, w: Signer, chain: seq<Link>, segs: seq<Seg>, mode: Mode, loose: Option<seq<Line>>) {
    if mode == Off || mode == Recovering(R.Reading) then Rest(c, w, chain, segs, loose)
    else
      && loose == None
      && match mode
         case Off => true
         case Recovering(phase) => RecoveringOk(c, w, chain, segs, phase)
         case Starting(head) => head == HeadAfter(c, chain) && Clear(c, w, chain, segs)
         case Created(head) =>
           && head == HeadAfter(c, chain) && segs != [] && Quiet(c, w, chain, segs)
           && Last(segs).name == |chain| && Last(segs).file.content == []
         case Open(head, pending) =>
           head == HeadAfter(c, chain) && AllLoggable(c, pending) && |pending| < TWO64
           && Writing(c, w, chain, segs, Flat(pending))
         case Sealing(head, pending) =>
           head == HeadAfter(c, chain) && pending != [] && AllLoggable(c, pending) && |pending| < TWO64
           && |chain| + 1 < TWO64
           && Writing(c, w, chain, segs, Flat(pending) + Ended(TrailerLine(c, w, head, pending)))
         case Synced(head) =>
           head == HeadAfter(c, chain) && Clear(c, w, chain, segs) && segs != [] && Last(segs).name < |chain|
  }

  /** A head some seal reported is on the chain. */
  predicate OnChain(c: Suite, chain: seq<Link>, h: Head) {
    h.next <= |chain| && HeadAfter(c, chain[..h.next]) == h
  }

  ghost predicate Inv(c: Suite, w: Signer, s: State) {
    && Written(c, s.chain) && ModeOk(c, w, s.chain, s.segs, s.mode, s.loose)
    && forall i :: 0 <= i < |s.acked| ==> OnChain(c, s.chain, s.acked[i])
  }

  // ---------------------------------------------------------------------------
  // Facts about the text
  // ---------------------------------------------------------------------------

  lemma WholePrefix<T>(s: seq<T>)
    ensures s[..|s|] == s
  {
  }

  lemma Position(c: Suite, chain: seq<Link>)
    requires |chain| < TWO64
    ensures HeadAfter(c, chain).next == |chain|
  {
    hide HeadAfter, Wrap;
    HeadCounts(c, chain);
    WrapSmall(|chain|);
  }

  lemma HeaderOnly(c: Suite, w: Signer, chain: seq<Link>)
    ensures Text(c, w, chain, |chain|) == Ended(HeaderLine(w, HeadAfter(c, chain)))
  {
    WholePrefix(chain);
    var h := HeaderLine(w, HeadAfter(c, chain));
    assert SegmentLines(c, w, chain, |chain|) == [h];
    FlatFirst(h, []);
    assert [h] + [] == [h] && Ended(h) + [] == Ended(h);
    hide HeadAfter;
  }

  lemma TailNone(c: Suite)
    ensures Tail(c, [])
  {
    NoLine([], []);
  }

  /** A sealed batch extends the text of its segment by its records and its trailer. */
  lemma TextExtends(c: Suite, w: Signer, chain: seq<Link>, first: nat, records: seq<Line>)
    requires first <= |chain|
    ensures Text(c, w, chain + [LinkFor(records)], first)
      == Text(c, w, chain, first) + (Flat(records) + Ended(TrailerLine(c, w, HeadAfter(c, chain), records)))
  {
    hide Flat, Body, HeadAfter, TrailerLine, Ended, SegmentLines, LinkFor;
    var all, trailer := chain + [LinkFor(records)], TrailerLine(c, w, HeadAfter(c, chain), records);
    LinesExtended(c, w, chain, first, records);
    FlatConcat(SegmentLines(c, w, chain, first), records + [trailer]);
    FlatExtends(records, trailer);
  }

  lemma LinesExtended(c: Suite, w: Signer, chain: seq<Link>, first: nat, records: seq<Line>)
    requires first <= |chain|
    ensures SegmentLines(c, w, chain + [LinkFor(records)], first)
      == SegmentLines(c, w, chain, first) + (records + [TrailerLine(c, w, HeadAfter(c, chain), records)])
  {
    hide Body, HeadAfter, TrailerLine, HeaderLine, Wrap;
    var all := chain + [LinkFor(records)];
    assert all[..|all| - 1] == chain && all[..first] == chain[..first] && all[|all| - 1].records == records;
    BodyLast(c, w, all, first);
    Assoc([HeaderLine(w, HeadAfter(c, chain[..first]))], Body(c, w, chain, first),
          records + [TrailerLine(c, w, HeadAfter(c, chain), records)]);
  }

  lemma WrittenExtends(c: Suite, chain: seq<Link>, records: seq<Line>)
    requires Written(c, chain) && |chain| + 1 < TWO64 && |records| < TWO64 && AllLoggable(c, records)
    ensures Written(c, chain + [LinkFor(records)])
  {
    hide AllLoggable, Wrap;
  }

  lemma HeadExtends(c: Suite, chain: seq<Link>, records: seq<Line>)
    requires Written(c, chain + [LinkFor(records)])
    ensures HeadAfter(c, chain + [LinkFor(records)]) == NextHead(c, HeadAfter(c, chain), records)
  {
    var all := chain + [LinkFor(records)];
    assert all[..|all| - 1] == chain;
    HeadOfLast(c, all);
  }

  /** Part of a tail is a tail. */
  lemma TailPrefix(c: Suite, lines: seq<Line>, torn: Line, p: seq<byte>)
    requires AllLoggable(c, lines) && Clean(torn) && p <= Flat(lines) + torn
    ensures Tail(c, p)
  {
    hide Split, Flat;
    assert AllClean(lines) by {
      assert forall i :: 0 <= i < |lines| ==> Loggable(c, lines[i]);
    }
    SplitPrefix(lines, torn, p);
    var q := Split(p).lines;
    forall i | 0 <= i < |q| ensures Loggable(c, q[i]) {
      assert q[i] == lines[i];
    }
  }

  lemma TailOfTail(c: Suite, tail: seq<byte>, p: seq<byte>)
    requires Tail(c, tail) && p <= tail
    ensures Tail(c, p)
  {
    hide Split, Flat, AllLoggable;
    SplitWhole(tail);
    TailPrefix(c, Split(tail).lines, Split(tail).torn, p);
  }

  lemma TextNotEmpty(c: Suite, w: Signer, chain: seq<Link>, first: nat)
    requires first <= |chain|
    ensures |Text(c, w, chain, first)| > 0
  {
    OwnNotEmpty(c, w, chain, first);
    hide Text;
  }

  // ---------------------------------------------------------------------------
  // Verification of a log at rest or being written
  // ---------------------------------------------------------------------------

  function Contents(segs: seq<Seg>): (r: seq<seq<byte>>)
    ensures |r| == |segs|
  {
    if segs == [] then [] else Contents(Most(segs)) + [Last(segs).file.content]
  }

  lemma {:induction false} VerifyClosed(c: Suite, e: Expect, w: Signer, chain: seq<Link>, segs: seq<Seg>)
    requires Works(c, w) && Written(c, chain) && Trusts(e, w) && Closed(c, w, chain, segs)
    ensures ReadUpTo(c, w, chain, |chain|, VerifyOlder(c, e, Contents(segs)))
    decreases |segs|
  {
    WholePrefix(chain);
    if segs == [] {
      assert LinksOf([]) == [];
    } else {
      var l := Last(segs);
      WrittenPrefix(c, chain, l.name);
      VerifyClosed(c, e, w, chain[..l.name], Most(segs));
      OlderVerifies(c, e, w, chain, segs);
    }
    hide ReadUpTo, VerifyOlder, Contents, Works, Written, Closed;
  }

  lemma OlderVerifies(c: Suite, e: Expect, w: Signer, chain: seq<Link>, segs: seq<Seg>)
    requires Works(c, w) && Written(c, chain) && Trusts(e, w) && segs != [] && Last(segs).name <= |chain|
    requires Last(segs).file.content == Text(c, w, chain, Last(segs).name)
    requires var name := Last(segs).name;
      ReadUpTo(c, w, chain[..name], name, VerifyOlder(c, e, Contents(Most(segs))))
    ensures ReadUpTo(c, w, chain, |chain|, VerifyOlder(c, e, Contents(segs)))
  {
    var l := Last(segs);
    var v := VerifyOlder(c, e, Contents(Most(segs)));
    assert Contents(segs)[..|segs| - 1] == Contents(Most(segs));
    assert VerifyOlder(c, e, Contents(segs)) == VerifySegment(c, e, v, l.file.content, false);
    hide VerifyOlder, Contents, Works, Written, HeadAfter, LinksOf, VerifySegment, Text;
    WholePrefix(chain[..l.name]);
    assert ReadUpTo(c, w, chain, l.name, v);
    TailNone(c);
    VerifyText(c, e, w, chain, l.name, [], v, false);
    assert Text(c, w, chain, l.name) + [] == Text(c, w, chain, l.name);
  }

  /** Records of a chain. */
  function Total(chain: seq<Link>): nat {
    if chain == [] then 0 else Total(chain[..|chain| - 1]) + |chain[|chain| - 1].records|
  }

  lemma {:induction false} RecordsAreTotal(accepted: seq<Sealed>)
    ensures Records(accepted) == Total(LinksOf(accepted))
  {
    if accepted == [] {
    } else {
      var most := accepted[..|accepted| - 1];
      RecordsAreTotal(most);
      assert LinksOf(accepted)[..|accepted| - 1] == LinksOf(most);
    }
  }

  /** The expected head is found when it is on the chain. */
  lemma AnchorHolds(c: Suite, e: Expect, chain: seq<Link>, segments: seq<seq<byte>>, v: Verify)
    requires segments != [] && v == VerifyAll(c, e, segments) && v.problems == 0 && !e.allowPruned
    requires LinksOf(v.accepted) == chain && |chain| < TWO64 && v.head.Some?
    requires e.head.Some? && OnChain(c, chain, e.head.value)
    ensures v.anchor == Some(true)
  {
    hide HeadAfter, LinksOf, Chained, VerifyOlder, VerifySegment;
    var older := segments[..|segments| - 1];
    OlderSound(c, e, older);
    SegmentSound(c, e, VerifyOlder(c, e, older), segments[|segments| - 1], true);
    assert Sound(c, e, v);
    assert Anchors(c, e.head.value, v.accepted, v.anchor);
    assert |v.accepted| == |chain|;
    assert v.anchor.Some? && v.anchor != Some(false);
    var seen := v.anchor.value;
    assert seen || v.anchor == Some(false);
  }

  /** What verification reports of a log: its chain, all of it, in order, up to its head, and nothing wrong. */
  ghost predicate Reports(c: Suite, e: Expect, chain: seq<Link>, segments: seq<seq<byte>>) {
    var r := ReportOf(c, e, segments, 0);
    && r.problems == 0 && r.head == Some(HeadAfter(c, chain)) && r.segments == |segments|
    && r.batches == |chain| && r.records == Total(chain)
    && (e.head.Some? ==> r.anchored)
    && segments != [] && LinksOf(Accepted(c, e, segments)) == chain
  }

  /** Finished segments and a newest one with a tail verify. */
  lemma LogVerifies(c: Suite, e: Expect, w: Signer, chain: seq<Link>, segs: seq<Seg>, visible: seq<byte>)
    requires Works(c, w) && Written(c, chain) && chain != [] && Trusts(e, w)
    requires Based(c, w, chain, segs) && HasTail(c, w, chain, Last(segs).name, visible)
    requires e.head.Some? ==> OnChain(c, chain, e.head.value)
    ensures Reports(c, e, chain, Contents(Most(segs)) + [visible])
  {
    assert segs != [];
    hide VerifyOlder, Contents, Works, HeadAfter, LinksOf, VerifySegment;
    hide Records, Recovered, Total, OnChain, Based, HasTail, VerifyAll;
    var segments := Contents(Most(segs)) + [visible];
    LogReads(c, e, w, chain, segs, visible);
    var x := VerifyAll(c, e, segments);
    WholePrefix(chain);
    assert |x.accepted| == |chain|;
    RecordsAreTotal(x.accepted);
    if e.head.Some? {
      AnchorHolds(c, e, chain, segments, x);
    }
  }

  lemma LogReads(c: Suite, e: Expect, w: Signer, chain: seq<Link>, segs: seq<Seg>, visible: seq<byte>)
    requires Works(c, w) && Written(c, chain) && Trusts(e, w)
    requires Based(c, w, chain, segs) && HasTail(c, w, chain, Last(segs).name, visible)
    ensures var x := VerifyAll(c, e, Contents(Most(segs)) + [visible]);
      ReadUpTo(c, w, chain, |chain|, x) && x.head == Some(HeadAfter(c, chain))
  {
    hide VerifyOlder, Contents, Works, Written, HeadAfter, LinksOf, VerifySegment, Text, Closed, Tail, Trusts;
    var name := Last(segs).name;
    var text := Text(c, w, chain, name);
    var segments := Contents(Most(segs)) + [visible];
    assert segments[..|segments| - 1] == Contents(Most(segs));
    WrittenPrefix(c, chain, name);
    VerifyClosed(c, e, w, chain[..name], Most(segs));
    var v := VerifyOlder(c, e, Contents(Most(segs)));
    WholePrefix(chain[..name]);
    assert ReadUpTo(c, w, chain, name, v);
    VerifyText(c, e, w, chain, name, visible[|text|..], v, true);
    assert text + visible[|text|..] == visible;
  }

  // ---------------------------------------------------------------------------
  // Steps keep the invariant
  // ---------------------------------------------------------------------------

  lemma TextRests(c: Suite, w: Signer, chain: seq<Link>, name: U64)
    requires name <= |chain|
    ensures HasTail(c, w, chain, name, Text(c, w, chain, name))
  {
    hide Text, Tail;
    var text := Text(c, w, chain, name);
    assert text[|text|..] == [];
    TailNone(c);
  }

  /** A segment that holds its batches and nothing else, durably. */
  lemma DurableSteady(c: Suite, w: Signer, chain: seq<Link>, name: U64)
    requires name <= |chain|
    ensures Steady(c, w, chain, name, R.Durable(Text(c, w, chain, name)))
  {
    TextRests(c, w, chain, name);
    hide Text, HasTail, HeadAfter, HeaderLine;
  }

  /** Finished segments are at rest. */
  lemma ClosedRests(c: Suite, w: Signer, chain: seq<Link>, segs: seq<Seg>)
    requires Closed(c, w, chain, segs)
    ensures Clear(c, w, chain, segs)
  {
    if segs != [] {
      DurableSteady(c, w, chain, Last(segs).name);
    }
    hide Text, Steady;
  }

  /**
   A part of a segment's text and a tail: past the text it is at rest, and short of it only a bare header was there.
   */
  lemma PartRests(c: Suite, w: Signer, chain: seq<Link>, name: U64, tail: seq<byte>, p: seq<byte>)
    requires name <= |chain| && p <= Text(c, w, chain, name) + tail
    requires |p| >= |Text(c, w, chain, name)| ==> Tail(c, p[|Text(c, w, chain, name)|..])
    requires |p| < |Text(c, w, chain, name)| ==> name == |chain|
    ensures RestFile(c, w, chain, name, p)
  {
    var text := Text(c, w, chain, name);
    hide Text, Tail, HeadAfter, HeaderLine;
    if |p| >= |text| {
      assert text <= p;
    } else {
      HeaderOnly(c, w, chain);
      assert p <= HeaderLine(w, HeadAfter(c, chain));
    }
  }

  /** What a segment at rest holds, cut anywhere behind its batches, is at rest. */
  lemma RestPrefix(c: Suite, w: Signer, chain: seq<Link>, name: U64, full: seq<byte>, p: seq<byte>)
    requires name <= |chain| && RestFile(c, w, chain, name, full) && p <= full
    requires name < |chain| ==> |Text(c, w, chain, name)| <= |p|
    ensures RestFile(c, w, chain, name, p)
  {
    hide Text, Tail, HeadAfter, HeaderLine;
    var text := Text(c, w, chain, name);
    if HasTail(c, w, chain, name, full) {
      var tail := full[|text|..];
      assert full == text + tail;
      if |p| >= |text| {
        assert p[|text|..] <= tail;
        TailOfTail(c, tail, p[|text|..]);
      }
      PartRests(c, w, chain, name, tail, p);
    } else {
      PrefixTrans(p, full, HeaderLine(w, HeadAfter(c, chain)));
    }
  }

  lemma PrefixTrans<T>(a: seq<T>, b: seq<T>, d: seq<T>)
    requires a <= b <= d
    ensures a <= d
  {
  }

  lemma SteadyReads(c: Suite, w: Signer, chain: seq<Link>, name: U64, f: R.File)
    requires name <= |chain| && Steady(c, w, chain, name, f)
    ensures RestFile(c, w, chain, name, f.content)
  {
    hide Text, RestFile;
    RestPrefix(c, w, chain, name, f.full, f.content);
  }

  lemma SameLast(segs: seq<Seg>)
    requires segs != []
    ensures WithLast(segs, Last(segs).file) == segs
  {
  }

  /** What opening finds in a segment at rest. */
  lemma RestPlan(c: Suite, w: Signer, chain: seq<Link>, name: U64, content: seq<byte>)
    requires Works(c, w) && Written(c, chain) && name <= |chain| && RestFile(c, w, chain, name, content)
    ensures var p := PlanOf(c, Number(name), content);
      if HasTail(c, w, chain, name, content) then
        var text := Text(c, w, chain, name);
        if content == text then p == Done(HeadAfter(c, chain))
        else p.Leftover? && p.kept == Some(HeadAfter(c, chain)) && p.end == |text|
      else name == |chain| && (if content == [] then p == Empty else p == Leftover(None, 0, 0))
  {
    hide Text, HeadAfter, Written, HeaderLine, Flat;
    if HasTail(c, w, chain, name, content) {
      hide Works;
      var text := Text(c, w, chain, name);
      var tail := content[|text|..];
      assert text + tail == content;
      PlanOfText(c, w, chain, name, tail);
    } else {
      HeaderClean(c, w, HeadAfter(c, chain));
      NoLine(content, HeaderLine(w, HeadAfter(c, chain)));
    }
  }

  lemma HeaderClean(c: Suite, w: Signer, head: Head)
    requires Works(c, w)
    ensures Clean(HeaderLine(w, head))
  {
  }

  /** Where reading the newest segment leads. */
  lemma ReadingTo(c: Suite, s: State, t: State)
    requires s.segs != [] && RecoverStep(c, s, t, R.Reading)
    requires var p := PlanOf(c, Number(Last(s.segs).name), Last(s.segs).file.content); !p.Refused? && !p.Forged?
    ensures match PlanOf(c, Number(Last(s.segs).name), Last(s.segs).file.content)
      case Empty => t == s.(segs := Most(s.segs), mode := Recovering(R.Reading))
      case Done(h) => t == s.(mode := Starting(h), chain := s.chain + Links(s.loose), loose := None)
      case Leftover(kept, end, _) => t == s.(asides := t.asides, mode := Recovering(R.Copied(kept, end)))
      case _ => true
  {
    hide PlanOf, LinkFor;
    SameLast(s.segs);
    var last := Last(s.segs);
    var u :| R.Step(c, Number(last.name), R.State(Some(last.file), s.asides, R.Reading), u) && t == RecoverTo(s, u);
  }

  lemma QuietReading(c: Suite, w: Signer, s: State, t: State)
    requires Works(c, w) && Inv(c, w, s) && s.mode == Recovering(R.Reading) && s.segs != [] && s.loose == None
    requires RecoverStep(c, s, t, R.Reading) && Settles(s, t)
    ensures ModeOk(c, w, s.chain, t.segs, t.mode, t.loose) && t.chain == s.chain && t.acked == s.acked
  {
    hide Text, HeadAfter, Written, PlanOf, Works, Steady;
    hide Closed, RecoverStep, OnChain, RestFile, HasTail, Settles, Clear;
    var last := Last(s.segs);
    SteadyReads(c, w, s.chain, last.name, last.file);
    RestPlan(c, w, s.chain, last.name, last.file.content);
    ReadingTo(c, s, t);
    assert s.chain + [] == s.chain;
    if t.mode.Starting? {
      DoneIsClear(c, w, s, t);
    } else if t.segs != s.segs {
      RemovedIsQuiet(c, w, s.chain, s.segs);
    }
  }

  lemma DoneIsClear(c: Suite, w: Signer, s: State, t: State)
    requires Written(c, s.chain) && Quiet(c, w, s.chain, s.segs) && s.segs != [] && s.mode == Recovering(R.Reading)
    requires t.mode == Starting(HeadAfter(c, s.chain)) && t.segs == s.segs && Settles(s, t)
    requires Last(s.segs).file.content == Text(c, w, s.chain, Last(s.segs).name)
    ensures Clear(c, w, s.chain, t.segs)
  {
    WrittenPosition(c, s.chain);
    hide Text, HeadAfter, Written, Steady, Closed;
  }

  lemma RemovedIsQuiet(c: Suite, w: Signer, chain: seq<Link>, segs: seq<Seg>)
    requires Based(c, w, chain, segs) && Last(segs).name == |chain|
    ensures Quiet(c, w, chain, Most(segs))
  {
    WholePrefix(chain);
    ClosedRests(c, w, chain, Most(segs));
    hide Closed, Steady;
  }

  /** A batch found loose is taken for sealed. */
  lemma LooseReading(c: Suite, w: Signer, s: State, t: State)
    requires Works(c, w) && Inv(c, w, s) && s.mode == Recovering(R.Reading) && s.segs != [] && s.loose.Some?
    requires RecoverStep(c, s, t, R.Reading)
    ensures t.chain == s.chain + [LinkFor(s.loose.value)] && t.acked == s.acked && t.loose == None && t.segs == s.segs
    ensures t.mode == Starting(HeadAfter(c, t.chain)) && Written(c, t.chain)
    ensures t.mode.head.next == |t.chain| > Last(s.segs).name
  {
    hide Text, HeadAfter, HeaderLine, PlanOf, Works, LinkFor, Closed, AllLoggable, RecoverStep, OnChain;
    var records, last := s.loose.value, Last(s.segs);
    var chain := s.chain + [LinkFor(records)];
    WrittenExtends(c, s.chain, records);
    hide Written;
    TailNone(c);
    PlanOfText(c, w, chain, last.name, []);
    assert Text(c, w, chain, last.name) + [] == Text(c, w, chain, last.name);
    ReadingTo(c, s, t);
    WrittenPosition(c, chain);
  }

  lemma WrittenPosition(c: Suite, chain: seq<Link>)
    requires Written(c, chain)
    ensures HeadAfter(c, chain).next == |chain|
  {
    Position(c, chain);
  }

  lemma LooseKeeps(c: Suite, w: Signer, s: State, t: State)
    requires Works(c, w) && Inv(c, w, s) && s.mode == Recovering(R.Reading) && s.segs != [] && s.loose.Some?
    requires RecoverStep(c, s, t, R.Reading) && Settles(s, t)
    ensures Inv(c, w, t) && s.chain <= t.chain
  {
    hide Text, HeadAfter, Works, LinkFor, Closed, Steady, Written, OnChain, RecoverStep, Loose;
    LooseReading(c, w, s, t);
    var records := s.loose.value;
    LooseSeals(c, w, s.chain, s.segs, records);
    AckedExtends(c, s, t, records);
    DurableSteady(c, w, t.chain, Last(s.segs).name);
  }

  /** With its trailer written, the newest segment is that of the longer chain. */
  lemma LooseSeals(c: Suite, w: Signer, chain: seq<Link>, segs: seq<Seg>, records: seq<Line>)
    requires Written(c, chain) && Loose(c, w, chain, segs, records)
    ensures var all := chain + [LinkFor(records)];
      && Written(c, all) && Based(c, w, all, segs) && Last(segs).name < |all|
      && Last(segs).file.content == Last(segs).file.full == Text(c, w, all, Last(segs).name)
  {
    hide Text, HeadAfter, LinkFor, Closed;
    WrittenExtends(c, chain, records);
    BasedExtends(c, w, chain, LinkFor(records), segs);
    hide Written, AllLoggable;
  }

  lemma AckedExtends(c: Suite, s: State, t: State, records: seq<Line>)
    requires forall i :: 0 <= i < |s.acked| ==> OnChain(c, s.chain, s.acked[i])
    requires t.acked == s.acked && t.chain == s.chain + [LinkFor(records)]
    ensures forall i :: 0 <= i < |t.acked| ==> OnChain(c, t.chain, t.acked[i])
  {
    forall i | 0 <= i < |t.acked| ensures OnChain(c, t.chain, t.acked[i]) {
      OnChainExtends(c, s.chain, LinkFor(records), s.acked[i]);
    }
  }

  lemma CopiedKeeps(c: Suite, w: Signer, s: State, t: State, phase: R.Phase)
    requires Works(c, w) && Inv(c, w, s) && s.mode == Recovering(phase) && s.segs != [] && phase != R.Reading
    requires RecoverStep(c, s, t, phase)
    ensures ModeOk(c, w, s.chain, t.segs, t.mode, t.loose) && t.chain == s.chain && t.acked == s.acked
  {
    hide Text, HeadAfter, Written, HeaderLine, PlanOf, Works, Tail, Closed, RestFile;
    var last := Last(s.segs);
    var text := Text(c, w, s.chain, last.name);
    SameLast(s.segs);
    assert s.chain + [] == s.chain;
    var u :| R.Step(c, Number(last.name), R.State(Some(last.file), s.asides, phase), u) && t == RecoverTo(s, u);
    if phase.Kept? {
      SteadyReads(c, w, s.chain, last.name, last.file);
      RestPlan(c, w, s.chain, last.name, last.file.content);
      if phase.kept.None? {
        WholePrefix(s.chain);
        ClosedRests(c, w, s.chain, Most(s.segs));
      } else {
        assert last.file.content[..phase.end] == text;
        PrefixTrans(text, last.file.content, last.file.full);
      }
    } else if phase.Cut? {
      DurableSteady(c, w, s.chain, last.name);
    }
  }

  lemma ClearCloses(c: Suite, w: Signer, chain: seq<Link>, segs: seq<Seg>)
    requires Clear(c, w, chain, segs) && (segs != [] ==> Last(segs).name < |chain|)
    ensures Closed(c, w, chain, segs)
  {
    hide Text, Steady;
  }

  lemma EmptySteady(c: Suite, w: Signer, chain: seq<Link>)
    requires |chain| < TWO64
    ensures Steady(c, w, chain, |chain|, R.Fresh([]))
  {
    hide Text, HeadAfter, HeaderLine;
  }

  lemma StartingKeeps(c: Suite, w: Signer, s: State, t: State)
    requires Inv(c, w, s) && s.mode.Starting? && Step(c, w, s, t)
    ensures ModeOk(c, w, s.chain, t.segs, t.mode, t.loose)
  {
    assert |s.chain| < TWO64;
    hide Text, HeadAfter, Closed, Written, OnChain, Steady, Clear;
    Position(c, s.chain);
    CreatedIsEmpty(c, w, s.chain, s.segs);
  }

  lemma CreatedIsEmpty(c: Suite, w: Signer, chain: seq<Link>, segs: seq<Seg>)
    requires Clear(c, w, chain, segs) && |chain| < TWO64
    ensures var after := Create(segs, |chain|);
      after != [] && Quiet(c, w, chain, after) && Last(after).name == |chain| && Last(after).file.content == []
  {
    hide Text, Closed, RestFile, HeadAfter, HeaderLine;
    var after := Create(segs, |chain|);
    WholePrefix(chain);
    if segs != [] && Last(segs).name == |chain| {
      assert Most(after) == Most(segs);
    } else {
      ClearCloses(c, w, chain, segs);
      EmptySteady(c, w, chain);
      assert Most(after) == segs;
    }
  }

  lemma CreatedKeeps(c: Suite, w: Signer, s: State, t: State)
    requires Inv(c, w, s) && s.mode.Created? && Step(c, w, s, t)
    ensures ModeOk(c, w, s.chain, t.segs, t.mode, t.loose)
  {
    hide Text, HeadAfter, HeaderLine, Works, Ended, Closed, Written, Steady;
    HeaderOnly(c, w, s.chain);
    assert Most(t.segs) == Most(s.segs);
    assert Flat([]) == [];
    assert Text(c, w, s.chain, |s.chain|) + [] == Text(c, w, s.chain, |s.chain|);
  }

  lemma AppendKeeps(c: Suite, w: Signer, s: State, t: State, line: Line)
    requires Inv(c, w, s) && s.mode.Open? && s.segs != [] && Loggable(c, line)
    requires Appended(s, t, s.mode.head, s.mode.pending, line)
    ensures ModeOk(c, w, s.chain, t.segs, t.mode, t.loose)
  {
    hide Text, HeadAfter, HeaderLine, Works, Ended, Closed, Written, Flat;
    assert Most(t.segs) == Most(s.segs);
    FlatExtends(s.mode.pending, line);
    Assoc(Text(c, w, s.chain, Last(s.segs).name), Flat(s.mode.pending), Ended(line));
  }

  lemma SealKeeps(c: Suite, w: Signer, s: State, t: State)
    requires Inv(c, w, s) && s.mode.Open? && s.segs != [] && Step(c, w, s, t) && t.mode.Sealing? && Numbered(t)
    ensures ModeOk(c, w, s.chain, t.segs, t.mode, t.loose)
  {
    hide Text, HeadAfter, HeaderLine, Works, Ended, Closed, Flat, TrailerLine;
    Position(c, s.chain);
    assert Most(t.segs) == Most(s.segs);
    var head, pending := s.mode.head, s.mode.pending;
    Assoc(Text(c, w, s.chain, Last(s.segs).name), Flat(pending), Ended(TrailerLine(c, w, head, pending)));
    hide Written, AllLoggable;
  }

  /** A chain that grows keeps what was built on it. */
  lemma BasedExtends(c: Suite, w: Signer, chain: seq<Link>, l: Link, segs: seq<Seg>)
    requires Based(c, w, chain, segs)
    ensures Based(c, w, chain + [l], segs)
  {
    assert (chain + [l])[..Last(segs).name] == chain[..Last(segs).name];
    hide Closed;
  }

  lemma OnChainExtends(c: Suite, chain: seq<Link>, l: Link, h: Head)
    requires OnChain(c, chain, h)
    ensures OnChain(c, chain + [l], h)
  {
    hide HeadAfter;
    assert (chain + [l])[..h.next] == chain[..h.next];
  }

  /** Between the write of a trailer and its sync the batch is loose. */
  lemma SealingIsLoose(c: Suite, w: Signer, s: State)
    requires Inv(c, w, s) && s.mode.Sealing?
    ensures Loose(c, w, s.chain, s.segs, s.mode.pending)
  {
    hide Text, HeadAfter, HeaderLine, Works, Ended, Closed, Flat, TrailerLine, LinkFor;
    TextExtends(c, w, s.chain, Last(s.segs).name, s.mode.pending);
    hide Written, AllLoggable;
  }

  lemma SyncKeeps(c: Suite, w: Signer, s: State, t: State)
    requires Inv(c, w, s) && s.mode.Sealing? && Step(c, w, s, t)
    ensures Inv(c, w, t)
  {
    hide Text, HeadAfter, HeaderLine, Works, Ended, Flat, TrailerLine, LinkFor, NextHead, Written, AllLoggable;
    SealingIsLoose(c, w, s);
    LooseSeals(c, w, s.chain, s.segs, s.mode.pending);
    HeadExtends(c, s.chain, s.mode.pending);
    DurableSteady(c, w, t.chain, Last(s.segs).name);
    assert Most(t.segs) == Most(s.segs) && Last(t.segs).name == Last(s.segs).name;
    NewHeadOnChain(c, t.chain, NextHead(c, s.mode.head, s.mode.pending));
    forall i | 0 <= i < |t.acked| ensures OnChain(c, t.chain, t.acked[i]) {
      if i < |s.acked| {
        OnChainExtends(c, s.chain, LinkFor(s.mode.pending), s.acked[i]);
      }
    }
    hide Closed, OnChain, Steady;
  }

  lemma NewHeadOnChain(c: Suite, chain: seq<Link>, h: Head)
    requires Written(c, chain) && HeadAfter(c, chain) == h
    ensures OnChain(c, chain, h)
  {
    Position(c, chain);
    WholePrefix(chain);
    hide HeadAfter;
  }

  lemma SyncedKeeps(c: Suite, w: Signer, s: State, t: State)
    requires Inv(c, w, s) && s.mode.Synced? && Step(c, w, s, t)
    ensures ModeOk(c, w, s.chain, t.segs, t.mode, t.loose)
  {
    hide Text, HeadAfter, HeaderLine, Works, Closed, Written, Steady;
    assert Flat([]) == [];
    assert Text(c, w, s.chain, Last(s.segs).name) + [] == Text(c, w, s.chain, Last(s.segs).name);
  }

  lemma StepKeeps(c: Suite, w: Signer, s: State, t: State)
    requires Works(c, w) && Inv(c, w, s) && Step(c, w, s, t) && Settles(s, t) && Numbered(t)
    ensures Inv(c, w, t) && s.chain <= t.chain
  {
    match s.mode {
      case Off => OffKeeps(c, w, s, t);
      case Recovering(phase) =>
        if s.segs == [] {
          NoneKeeps(c, w, s, t);
        } else if phase != R.Reading {
          CopiedKeeps(c, w, s, t, phase);
        } else if s.loose == None {
          QuietReading(c, w, s, t);
        } else {
          LooseKeeps(c, w, s, t);
        }
      case Starting(_) => StartingKeeps(c, w, s, t);
      case Created(_) => CreatedKeeps(c, w, s, t);
      case Open(head, pending) =>
        if t.mode.Sealing? {
          SealKeeps(c, w, s, t);
        } else {
          var line :| Loggable(c, line) && Appended(s, t, head, pending, line);
          AppendKeeps(c, w, s, t, line);
        }
      case Sealing(_, _) => SyncKeeps(c, w, s, t);
      case Synced(_) => SyncedKeeps(c, w, s, t);
    }
    hide ModeOk, Written, OnChain, RecoverStep, LinkFor, Settles;
  }

  lemma OffKeeps(c: Suite, w: Signer, s: State, t: State)
    requires Inv(c, w, s) && s.mode.Off? && Step(c, w, s, t)
    ensures ModeOk(c, w, s.chain, t.segs, t.mode, t.loose)
  {
    hide Rest;
  }

  lemma NoneKeeps(c: Suite, w: Signer, s: State, t: State)
    requires Inv(c, w, s) && s.mode.Recovering? && s.segs == [] && Step(c, w, s, t)
    ensures ModeOk(c, w, s.chain, t.segs, t.mode, t.loose)
  {
    hide Closed, Steady;
  }

  // ---------------------------------------------------------------------------
  // A crash leaves a log at rest
  // ---------------------------------------------------------------------------

  lemma DurableLasts(x: seq<byte>, g: R.File)
    requires Lasts(R.Durable(x), g)
    ensures g == R.Durable(x)
  {
    R.DurableSurvives(x, g);
  }

  lemma {:induction false} ClosedLasts(c: Suite, w: Signer, chain: seq<Link>, segs: seq<Seg>, after: seq<Seg>)
    requires Closed(c, w, chain, segs) && AllLast(segs, after)
    ensures after == segs
    decreases |segs|
  {
    assert |after| == |segs|;
    if segs != [] {
      ClosedMost(c, w, chain, segs);
      AllLastMost(segs, after);
      LastLasts(c, w, chain, segs, after);
    }
    hide Closed, AllLast;
    if segs == [] {
    } else {
      ClosedLasts(c, w, chain[..Last(segs).name], Most(segs), Most(after));
      SameEnds(segs, after);
    }
  }

  lemma ClosedMost(c: Suite, w: Signer, chain: seq<Link>, segs: seq<Seg>)
    requires segs != [] && Closed(c, w, chain, segs)
    ensures Last(segs).name < |chain| && Closed(c, w, chain[..Last(segs).name], Most(segs))
  {
  }

  lemma AllLastMost(segs: seq<Seg>, after: seq<Seg>)
    requires segs != [] && AllLast(segs, after)
    ensures AllLast(Most(segs), Most(after))
  {
    hide Lasts;
  }

  lemma SameEnds<T>(a: seq<T>, b: seq<T>)
    requires a != [] && b != [] && Most(a) == Most(b) && Last(a) == Last(b)
    ensures a == b
  {
    assert a == Most(a) + [Last(a)] && b == Most(b) + [Last(b)];
  }

  lemma LastLasts(c: Suite, w: Signer, chain: seq<Link>, segs: seq<Seg>, after: seq<Seg>)
    requires segs != [] && Closed(c, w, chain, segs) && AllLast(segs, after)
    ensures Last(after) == Last(segs)
  {
    hide Text;
    DurableLasts(Text(c, w, chain, Last(segs).name), Last(after).file);
  }

  /** With the older segments finished, a crash leaves them as they are. */
  lemma CrashBase(c: Suite, w: Signer, chain: seq<Link>, segs: seq<Seg>, after: seq<Seg>)
    requires Based(c, w, chain, segs) && AllLast(segs, after)
    ensures Based(c, w, chain, after) && Most(after) == Most(segs)
    ensures Last(after).name == Last(segs).name && Lasts(Last(segs).file, Last(after).file)
  {
    hide Closed, Lasts;
    AllLastMost(segs, after);
    ClosedLasts(c, w, chain[..Last(segs).name], Most(segs), Most(after));
  }

  /** A newest segment without a batch may be gone; the others then hold the chain. */
  lemma CrashGone(c: Suite, w: Signer, chain: seq<Link>, segs: seq<Seg>, after: seq<Seg>)
    requires Based(c, w, chain, segs) && AllLast(Most(segs), after) && Last(segs).name == |chain|
    ensures Quiet(c, w, chain, after)
  {
    hide Closed, AllLast;
    ClosedLasts(c, w, chain[..Last(segs).name], Most(segs), after);
    WholePrefix(chain);
    ClosedRests(c, w, chain, after);
  }

  lemma SteadyLasts(c: Suite, w: Signer, chain: seq<Link>, name: U64, f: R.File, g: R.File)
    requires name <= |chain| && Steady(c, w, chain, name, f) && Lasts(f, g)
    ensures Steady(c, w, chain, name, g)
  {
    hide Text, RestFile;
    RestPrefix(c, w, chain, name, f.full, g.full);
  }

  /** What is left of a quiet log is quiet. */
  lemma QuietCrash(c: Suite, w: Signer, s: State, t: State)
    requires Quiet(c, w, s.chain, s.segs) && Trailing(s) == None && Crash(s, t)
    ensures Quiet(c, w, s.chain, t.segs) && t.chain == s.chain && t.loose == None
  {
    if s.segs == [] {
      assert t.segs == [];
    } else {
      var l := Last(s.segs);
      TextNotEmpty(c, w, s.chain, l.name);
      if AllLast(s.segs, t.segs) {
        CrashBase(c, w, s.chain, s.segs, t.segs);
        SteadyLasts(c, w, s.chain, l.name, l.file, Last(t.segs).file);
      } else {
        CrashGone(c, w, s.chain, s.segs, t.segs);
      }
    }
    hide Text, Closed, RestFile, Lasts, AllLast;
  }

  /** A trailer cut anywhere before its newline seals nothing. */
  lemma TornTrailer(c: Suite, w: Signer, chain: seq<Link>, segs: seq<Seg>, records: seq<Line>, p: seq<byte>)
    requires Works(c, w) && Loose(c, w, chain, segs, records)
    requires p <= Last(segs).file.full && p != Last(segs).file.full && Last(segs).file.durable <= |p|
    ensures RestFile(c, w, chain, Last(segs).name, p)
  {
    var trailer := TrailerLine(c, w, HeadAfter(c, chain), records);
    assert Clean(trailer);
    hide Text, Tail, HeadAfter, HeaderLine, Closed, Flat, RestFile, AllLoggable, TrailerLine, Works, LinkFor;
    var text := Text(c, w, chain, Last(segs).name);
    TextExtends(c, w, chain, Last(segs).name, records);
    ShortOfNewline(text, Flat(records), trailer, p);
    if |p| >= |text| {
      assert p[|text|..] <= Flat(records) + trailer;
      TailPrefix(c, records, trailer, p[|text|..]);
    }
    PartRests(c, w, chain, Last(segs).name, Flat(records) + trailer, p);
  }

  lemma ShortOfNewline(text: seq<byte>, records: seq<byte>, line: Line, p: seq<byte>)
    requires p <= text + (records + Ended(line)) && p != text + (records + Ended(line))
    ensures p <= text + (records + line)
  {
    var whole := text + (records + line);
    assert text + (records + Ended(line)) == whole + [NL];
    assert |p| <= |whole|;
    assert p == (whole + [NL])[..|p|];
  }

  /** A crash that cuts a loose trailer leaves its batch open, and the log quiet. */
  lemma CutLoose(c: Suite, w: Signer, chain: seq<Link>, segs: seq<Seg>, records: seq<Line>, after: seq<Seg>)
    requires Works(c, w) && Loose(c, w, chain, segs, records) && AllLast(segs, after)
    requires Last(after).file.content != Last(segs).file.full
    ensures Quiet(c, w, chain, after)
  {
    CrashBase(c, w, chain, segs, after);
    var f, g := Last(segs).file, Last(after).file;
    assert g.content == g.full && g.content <= f.full && f.durable <= |g.content|;
    TornTrailer(c, w, chain, segs, records, g.content);
    hide Text, Closed, RestFile, Lasts, AllLast, Works, AllLoggable;
  }

  lemma LooseCrash(c: Suite, w: Signer, s: State, t: State, records: seq<Line>)
    requires Works(c, w) && Written(c, s.chain) && Loose(c, w, s.chain, s.segs, records)
    requires Trailing(s) == Some(records) && Crash(s, t)
    ensures Written(c, t.chain) && Rest(c, w, t.chain, t.segs, t.loose)
    ensures t.chain == s.chain || t.chain == s.chain + [LinkFor(records)]
  {
    var l := Last(s.segs);
    TextNotEmpty(c, w, s.chain, l.name);
    if !AllLast(s.segs, t.segs) {
      CrashGone(c, w, s.chain, s.segs, t.segs);
    } else if Last(t.segs).file.content != l.file.full {
      CutLoose(c, w, s.chain, s.segs, records, t.segs);
    } else {
      WholeTrailer(c, w, s, t, records);
    }
    hide Text, Closed, RestFile, Lasts, AllLast, Works, AllLoggable, LinkFor, Loose, Quiet;
  }

  lemma WholeTrailer(c: Suite, w: Signer, s: State, t: State, records: seq<Line>)
    requires Written(c, s.chain) && Loose(c, w, s.chain, s.segs, records) && AllLast(s.segs, t.segs)
    requires Trailing(s) == Some(records) && CrashSeals(s, t)
    requires Last(t.segs).file.content == Last(s.segs).file.full
    ensures Written(c, t.chain) && Rest(c, w, t.chain, t.segs, t.loose)
  {
    hide Text, Closed, RestFile, AllLast, AllLoggable, LinkFor, Written;
    CrashBase(c, w, s.chain, s.segs, t.segs);
    LooseSeals(c, w, s.chain, s.segs, records);
    var l := Last(t.segs);
    if l.file == R.Durable(l.file.content) {
      BasedExtends(c, w, s.chain, LinkFor(records), t.segs);
      DurableSteady(c, w, t.chain, l.name);
    }
  }

  /** In every mode but sealing, and with no batch loose, the log is quiet. */
  lemma ModeQuiet(c: Suite, w: Signer, s: State)
    requires Inv(c, w, s) && Trailing(s) == None
    ensures Quiet(c, w, s.chain, s.segs)
  {
    if s.mode.Open? {
      var text := Text(c, w, s.chain, Last(s.segs).name);
      var more := Flat(s.mode.pending);
      hide Text, Tail, Closed, Flat, HeadAfter, HeaderLine, Written, OnChain, AllLoggable;
      assert more + [] == more && (text + more)[|text|..] == more;
      TailPrefix(c, s.mode.pending, [], more);
      assert HasTail(c, w, s.chain, Last(s.segs).name, text + more);
    }
    hide Text, Tail, Closed, Flat, HeadAfter, HeaderLine, Written, OnChain, AllLoggable;
  }

  lemma CrashKeeps(c: Suite, w: Signer, s: State, t: State)
    requires Works(c, w) && Inv(c, w, s) && Crash(s, t)
    ensures Inv(c, w, t) && s.chain <= t.chain
  {
    if Trailing(s) == None {
      ModeQuiet(c, w, s);
      QuietCrash(c, w, s, t);
    } else {
      TrailingCrash(c, w, s, t);
    }
    hide Quiet, Loose, Written, OnChain, Crash, LinkFor, HeadAfter, Clear, Writing, RecoveringOk;
  }

  lemma TrailingCrash(c: Suite, w: Signer, s: State, t: State)
    requires Works(c, w) && Inv(c, w, s) && Crash(s, t) && Trailing(s).Some?
    ensures Inv(c, w, t) && s.chain <= t.chain
  {
    var records := Trailing(s).value;
    if s.mode.Sealing? {
      SealingIsLoose(c, w, s);
    }
    LooseCrash(c, w, s, t, records);
    if t.chain != s.chain {
      AckedExtends(c, s, t, records);
    }
    hide Quiet, Loose, Written, OnChain, CrashSeals, AllLast, LinkFor, HeadAfter, Clear, Writing, RecoveringOk;
  }

  // ---------------------------------------------------------------------------
  // Main results
  // ---------------------------------------------------------------------------

  lemma RunExtends(c: Suite, w: Signer, trace: seq<State>, t: State)
    requires IsRun(c, w, trace) && (Step(c, w, Last(trace), t) || Crash(Last(trace), t))
    ensures IsRun(c, w, trace + [t])
  {
    hide Step, Crash;
    var all := trace + [t];
    forall i | 0 <= i < |all| - 1 ensures Step(c, w, all[i], all[i + 1]) || Crash(all[i], all[i + 1]) {
      if i < |trace| - 1 {
        assert all[i] == trace[i] && all[i + 1] == trace[i + 1];
      } else {
        assert all[i] == Last(trace) && all[i + 1] == t;
      }
    }
  }

  lemma SettledExtends(trace: seq<State>, t: State)
    requires trace != [] && Settled(trace) && Settles(Last(trace), t) && Numbered(t)
    ensures Settled(trace + [t])
  {
    hide Settles, Numbered;
    var all := trace + [t];
    forall i | 0 <= i < |all| - 1 ensures Settles(all[i], all[i + 1]) {
      if i < |trace| - 1 {
        assert all[i] == trace[i] && all[i + 1] == trace[i + 1];
      } else {
        assert all[i] == Last(trace) && all[i + 1] == t;
      }
    }
  }

  lemma {:induction false} RunKeepsInv(c: Suite, w: Signer, trace: seq<State>, i: nat)
    requires Works(c, w) && IsRun(c, w, trace) && Settled(trace) && i < |trace|
    ensures Inv(c, w, trace[i])
  {
    if i == 0 {
    } else {
      hide Step, Crash, Inv, Settles, Numbered;
      RunKeepsInv(c, w, trace, i - 1);
      var s, t := trace[i - 1], trace[i - 1 + 1];
      if Step(c, w, s, t) {
        StepKeeps(c, w, s, t);
      } else {
        CrashKeeps(c, w, s, t);
      }
    }
  }

  /** What a completed seal, or a trailer that survived a crash, put on the chain stays there. */
  lemma {:induction false} ChainGrows(c: Suite, w: Signer, trace: seq<State>, i: nat, j: nat)
    requires Works(c, w) && IsRun(c, w, trace) && Settled(trace) && i <= j < |trace|
    ensures trace[i].chain <= trace[j].chain
  {
    hide Step, Crash, Inv;
    if i < j {
      ChainGrows(c, w, trace, i, j - 1);
      StepGrows(c, w, trace, j);
      PrefixTrans(trace[i].chain, trace[j - 1].chain, trace[j].chain);
    }
  }

  lemma StepGrows(c: Suite, w: Signer, trace: seq<State>, j: nat)
    requires Works(c, w) && IsRun(c, w, trace) && Settled(trace) && 0 < j < |trace|
    ensures trace[j - 1].chain <= trace[j].chain
  {
    hide Step, Crash, Inv, Settles, Numbered;
    RunKeepsInv(c, w, trace, j - 1);
    var s, t := trace[j - 1], trace[j - 1 + 1];
    if Step(c, w, s, t) {
      StepKeeps(c, w, s, t);
    } else {
      CrashKeeps(c, w, s, t);
    }
  }

  /** While a writer is open its newest segment holds at least its header and what was sealed in it. */
  lemma OpenShape(c: Suite, w: Signer, trace: seq<State>, i: nat)
    requires Works(c, w) && IsRun(c, w, trace) && Settled(trace) && i < |trace| && trace[i].mode.Open?
    ensures var s := trace[i];
      && s.segs != [] && Last(s.segs).name <= |s.chain|
      && Last(s.segs).file.content == Text(c, w, s.chain, Last(s.segs).name) + Flat(s.mode.pending)
  {
    RunKeepsInv(c, w, trace, i);
    hide Text, HeadAfter, Closed, Flat;
  }

  /**
   Over every run: once a writer is open and a batch was ever sealed,
   verification, of whatever part of the open batch has reached the file,
   reports no problem, counts exactly the sealed records in order and ends at
   the writer's head; and it passes through every head a seal ever reported.
   */
  lemma OpenLogVerifies(c: Suite, w: Signer, e: Expect, trace: seq<State>, i: nat, visible: seq<byte>)
    requires Works(c, w) && IsRun(c, w, trace) && Settled(trace) && i < |trace| && trace[i].mode.Open?
    requires trace[i].chain != []
    requires Trusts(e, w) && (e.head.Some? ==> e.head.value in trace[i].acked)
    requires trace[i].segs != [] && Last(trace[i].segs).name <= |trace[i].chain|
    requires Text(c, w, trace[i].chain, Last(trace[i].segs).name) <= visible <= Last(trace[i].segs).file.content
    ensures Reports(c, e, trace[i].chain, Contents(Most(trace[i].segs)) + [visible])
    ensures trace[i].mode.head == HeadAfter(c, trace[i].chain)
  {
    RunKeepsInv(c, w, trace, i);
    hide Text, Tail, HeadAfter, HeaderLine, Closed, Flat, Reports, Contents, Works, IsRun, OnChain, AllLoggable, Trusts;
    OpenHasTail(c, w, trace[i], visible);
    LogVerifies(c, e, w, trace[i].chain, trace[i].segs, visible);
  }

  lemma OpenHasTail(c: Suite, w: Signer, s: State, visible: seq<byte>)
    requires Inv(c, w, s) && s.mode.Open?
    requires Text(c, w, s.chain, Last(s.segs).name) <= visible <= Last(s.segs).file.content
    ensures HasTail(c, w, s.chain, Last(s.segs).name, visible)
  {
    hide Text, Tail, HeadAfter, HeaderLine, Closed, Flat, Written, OnChain, AllLoggable;
    var text := Text(c, w, s.chain, Last(s.segs).name);
    assert visible[|text|..] <= Flat(s.mode.pending) + [];
    TailPrefix(c, s.mode.pending, [], visible[|text|..]);
  }

  /**
   Whatever a directory holds: if it verifies with a head some seal of the
   run reported, nothing pruned, its batches before that head are the ones
   the writer sealed, byte for byte and in order, or a batch of the one
   collides with the same batch of the other.
   */
  lemma ReportedHeadFixesLog(c: Suite, w: Signer, e: Expect, trace: seq<State>, i: nat, segments: seq<seq<byte>>,
                             forged: nat)
    returns (k: nat)
    requires Works(c, w) && IsRun(c, w, trace) && Settled(trace) && i < |trace|
    requires e.head.Some? && e.head.value in trace[i].acked && !e.allowPruned
    requires ReportOf(c, e, segments, forged).problems == 0
    ensures segments != []
    ensures var n, links := e.head.value.next, LinksOf(Accepted(c, e, segments));
      && n <= |links| && n <= |trace[i].chain|
      && (links[..n] == trace[i].chain[..n] || CollideAt(c, links[..n], trace[i].chain[..n], k))
  {
    hide IsRun, Works, ModeOk, HeadAfter, LinksOf, ReportOf, Accepted, CollideAt;
    RunKeepsInv(c, w, trace, i);
    var chain, h := trace[i].chain, e.head.value;
    assert OnChain(c, chain, h);
    ReadableChain(c, chain, h.next);
    k := ExpectedHeadFixesLog(c, e, segments, forged, chain[..h.next]);
  }

  lemma ReadableChain(c: Suite, chain: seq<Link>, k: nat)
    requires Written(c, chain) && k <= |chain|
    ensures Readable(chain[..k])
  {
    hide Wrap, LinkFor;
    forall i | 0 <= i < k ensures AllClean(chain[i].records) {
      assert forall j :: 0 <= j < |chain[i].records| ==> Loggable(c, chain[i].records[j]);
    }
  }

  // ---------------------------------------------------------------------------
  // Missing batches
  // ---------------------------------------------------------------------------

  lemma {:induction false} ProblemsStay(c: Suite, e: Expect, v: Verify, lines: seq<Line>, k: nat)
    requires k <= |lines|
    ensures VerifyLines(c, e, v, lines[..k]).problems <= VerifyLines(c, e, v, lines).problems
    decreases |lines| - k
  {
    if k == |lines| {
      WholePrefix(lines);
    } else {
      ProblemsStay(c, e, v, lines, k + 1);
      LinesExtend(c, e, v, lines, k);
    }
    hide VerifyLines, Accepts;
  }

  /**
   A log that lost batches at the end of an older segment, or whole segments, does not verify, whatever its newest
   segment holds.
   */
  lemma MissingBatchesReported(c: Suite, e: Expect, w: Signer, chain: seq<Link>, older: seq<Seg>, k: nat,
                               newest: seq<byte>, first: nat, forged: nat)
    requires Works(c, w) && Written(c, chain) && Trusts(e, w) && k < first <= |chain|
    requires Closed(c, w, chain[..k], older) && Text(c, w, chain, first) <= newest
    ensures ReportOf(c, e, Contents(older) + [newest], forged).problems > 0
  {
    hide VerifyOlder, Contents, Works, HeadAfter, LinksOf, Text, Closed, Records, Recovered, Split;
    var segments := Contents(older) + [newest];
    assert segments[..|segments| - 1] == Contents(older);
    WrittenPrefix(c, chain, k);
    VerifyClosed(c, e, w, chain[..k], older);
    WholePrefix(chain[..k]);
    var v := VerifyOlder(c, e, Contents(older));
    Position(c, chain[..k]);
    hide Written, VerifyLines, Wrap;
    GapReported(c, e, w, chain, first, newest, v.(key := None, pending := []));
  }

  lemma GapReported(c: Suite, e: Expect, w: Signer, chain: seq<Link>, first: nat, newest: seq<byte>, v: Verify)
    requires Works(c, w) && Written(c, chain) && first <= |chain| && !e.allowPruned
    requires Text(c, w, chain, first) <= newest
    requires if v.head.Some? then v.head.value.next != first else first != 0
    ensures VerifyLines(c, e, v, Split(newest).lines).problems > v.problems
  {
    GapAtHeader(c, e, w, chain, first, v);
    hide Works, Written, HeadAfter, Text, Split, VerifyLines, VerifyLine, HeaderLine, SegmentLines, Body;
    var text := Text(c, w, chain, first);
    var tail := newest[|text|..];
    assert text + tail == newest;
    SplitText(c, w, chain, first, tail);
    var lines := Split(newest).lines;
    SegmentShape(c, w, chain, first);
    assert lines[0] == SegmentLines(c, w, chain, first)[0];
    LinesExtend(c, e, v, lines, 0);
    assert lines[..0] == [];
    LinesStart(c, e, v);
    ProblemsStay(c, e, v, lines, 1);
  }

  lemma GapAtHeader(c: Suite, e: Expect, w: Signer, chain: seq<Link>, first: nat, v: Verify)
    requires Works(c, w) && Written(c, chain) && first <= |chain| && !e.allowPruned
    requires if v.head.Some? then v.head.value.next != first else first != 0
    ensures VerifyLine(c, e, v, 0, HeaderLine(w, HeadAfter(c, chain[..first]))).problems > v.problems
  {
    hide Works, Written, HeadAfter, HeaderLine;
    OpensOwn(c, w, chain, first);
  }
}
