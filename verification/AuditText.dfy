/** What a writer writes for a chain of batches, and how it reads back: to the scan of a segment and to verification. */
module AuditText {
  import opened Wrappers
  import opened Layout
  import opened AuditFrame
  import opened AuditLines
  import opened AuditChain
  import opened AuditTamper
  import opened AuditAgree

  /** A signing key, and the rendering of control lines. */
  datatype Signer = Signer(key: Key, sign: Digest -> Sig, header: Header -> Line, trailer: Trailer -> Line)

  /** A header this writer renders: with a predecessor, and its own key. */
  predicate OwnHeader(w: Signer, h: Header) {
    h.prev.Some? && h.key == Some(w.key)
  }

  /** A trailer it renders: the current form, signed by its own key. */
  predicate OwnTrailer(w: Signer, t: Trailer) {
    && t.prev.Some? && t.hash.Some? && t.sig == Some(w.sign(t.hash.value))
    && !t.recovered && t.v == 2
  }

  /** Signatures check under the key, and the control lines it renders read back as what they were written for. */
  ghost predicate Works(c: Suite, w: Signer) {
    && (forall d :: c.verify(w.key, d, w.sign(d)))
    && (forall h :: OwnHeader(w, h) ==> Clean(w.header(h)) && c.classify(w.header(h)) == Segment(h))
    && (forall t :: OwnTrailer(w, t) ==> Clean(w.trailer(t)) && c.classify(w.trailer(t)) == Batch(t))
  }

  function HeaderLine(w: Signer, head: Head): Line {
    w.header(Header(head.next, Some(head.hash), Some(w.key)))
  }

  function BatchHash(c: Suite, head: Head, records: seq<Line>): Digest {
    c.hash(Frame(head.hash, head.next, V2(Wrap(|records|)), Flat(records)))
  }

  function TrailerFor(c: Suite, w: Signer, head: Head, records: seq<Line>): Trailer {
    var d := BatchHash(c, head, records);
    Trailer(head.next, Wrap(|records|), Some(head.hash), Some(d), Some(w.sign(d)), false, 2)
  }

  function TrailerLine(c: Suite, w: Signer, head: Head, records: seq<Line>): Line {
    w.trailer(TrailerFor(c, w, head, records))
  }

  /** A line `append` may be given: one record, without control keys. */
  predicate Loggable(c: Suite, line: Line) {
    Clean(line) && c.classify(line).Record?
  }

  predicate AllLoggable(c: Suite, lines: seq<Line>) {
    forall i :: 0 <= i < |lines| ==> Loggable(c, lines[i])
  }

  function LinkFor(records: seq<Line>): Link {
    Link(V2(Wrap(|records|)), records)
  }

  /** A chain this writer seals: the current form, records only, numbers within 64 bits. */
  predicate Written(c: Suite, chain: seq<Link>) {
    && |chain| < TWO64
    && forall i :: 0 <= i < |chain| ==>
         chain[i] == LinkFor(chain[i].records) && |chain[i].records| < TWO64 && AllLoggable(c, chain[i].records)
  }

  /** The batches of `chain` from position `first` on, line by line. */
  function Body(c: Suite, w: Signer, chain: seq<Link>, first: nat): seq<Line> {
    if |chain| <= first then []
    else
      var before, last := chain[..|chain| - 1], chain[|chain| - 1];
      Body(c, w, before, first) + (last.records + [TrailerLine(c, w, HeadAfter(c, before), last.records)])
  }

  function SegmentLines(c: Suite, w: Signer, chain: seq<Link>, first: nat): seq<Line>
    requires first <= |chain|
  {
    [HeaderLine(w, HeadAfter(c, chain[..first]))] + Body(c, w, chain, first)
  }

  function Text(c: Suite, w: Signer, chain: seq<Link>, first: nat): seq<byte>
    requires first <= |chain|
  {
    Flat(SegmentLines(c, w, chain, first))
  }

  /** What can follow the last sealed batch: records, and a torn line. */
  predicate Tail(c: Suite, tail: seq<byte>) {
    AllLoggable(c, Split(tail).lines)
  }

  // ---------------------------------------------------------------------------
  // To the scan
  // ---------------------------------------------------------------------------

  lemma AcceptsOwn(c: Suite, w: Signer, head: Head, records: seq<Line>)
    requires Works(c, w) && |records| < TWO64
    ensures Accepts(c, w.key, head, TrailerFor(c, w, head, records), records)
    ensures After(Sealed(head, w.key, TrailerFor(c, w, head, records), records)) ==
        Head(Succ(head.next), BatchHash(c, head, records))
    ensures LinkOf(Sealed(head, w.key, TrailerFor(c, w, head, records), records)) == LinkFor(records)
  {
    hide Frame, Flat, Wrap;
    WrapSmall(|records|);
  }

  lemma ScanOneMore(c: Suite, key: Key, head: Head, lines: seq<Line>, line: Line)
    ensures ScanLines(c, key, head, lines + [line]) == ScanLine(c, key, ScanLines(c, key, head, lines), line)
  {
    assert (lines + [line])[..|lines|] == lines;
  }

  lemma {:induction false} ScanRecords(c: Suite, key: Key, head: Head, lines: seq<Line>, records: seq<Line>)
    requires AllLoggable(c, records) && !ScanLines(c, key, head, lines).forged
    ensures var s := ScanLines(c, key, head, lines);
      ScanLines(c, key, head, lines + records) == s.(pending := s.pending + records)
  {
    hide ScanLines;
    var s := ScanLines(c, key, head, lines);
    if records == [] {
      assert lines + records == lines && s.pending + records == s.pending;
    } else {
      var most, last := records[..|records| - 1], records[|records| - 1];
      ScanRecords(c, key, head, lines, most);
      ScanOneMore(c, key, head, lines + most, last);
      assert lines + most + [last] == lines + records;
      assert s.pending + most + [last] == s.pending + records;
      assert Loggable(c, last);
    }
  }

  lemma ScanTrailer(c: Suite, w: Signer, head: Head, lines: seq<Line>)
    requires Works(c, w)
    requires !ScanLines(c, w.key, head, lines).forged && |ScanLines(c, w.key, head, lines).pending| < TWO64
    ensures var s := ScanLines(c, w.key, head, lines);
      var b := Sealed(s.head, w.key, TrailerFor(c, w, s.head, s.pending), s.pending);
      ScanLines(c, w.key, head, lines + [TrailerLine(c, w, s.head, s.pending)])
        == Scan(Head(Succ(s.head.next), BatchHash(c, s.head, s.pending)), s.sealed + |s.pending| + 1, [],
                s.accepted + [b], false)
  {
    var s := ScanLines(c, w.key, head, lines);
    assert OwnTrailer(w, TrailerFor(c, w, s.head, s.pending));
    hide ScanLines, Accepts, After, TrailerFor, BatchHash;
    AcceptsOwn(c, w, s.head, s.pending);
    ScanOneMore(c, w.key, head, lines, TrailerLine(c, w, s.head, s.pending));
  }

  lemma ScanBatch(c: Suite, w: Signer, start: Head, lines: seq<Line>, records: seq<Line>)
    requires Works(c, w) && |records| < TWO64 && AllLoggable(c, records)
    requires var s := ScanLines(c, w.key, start, lines); !s.forged && s.pending == []
    ensures var s := ScanLines(c, w.key, start, lines);
      var t := ScanLines(c, w.key, start, lines + (records + [TrailerLine(c, w, s.head, records)]));
      && t.head == Head(Succ(s.head.next), BatchHash(c, s.head, records))
      && t.sealed == s.sealed + |records| + 1 && t.pending == [] && !t.forged
      && LinksOf(t.accepted) == LinksOf(s.accepted) + [LinkFor(records)]
  {
    hide ScanLines, LinksOf, BatchHash, TrailerFor, Accepts, After, LinkOf, LinkFor, TrailerLine;
    var s := ScanLines(c, w.key, start, lines);
    ScanRecords(c, w.key, start, lines, records);
    assert [] + records == records;
    ScanTrailer(c, w, start, lines + records);
    var trailer := TrailerLine(c, w, s.head, records);
    assert lines + records + [trailer] == lines + (records + [trailer]);
    LinksExtend(s.accepted, Sealed(s.head, w.key, TrailerFor(c, w, s.head, records), records));
    AcceptsOwn(c, w, s.head, records);
  }

  lemma HeadOfLast(c: Suite, chain: seq<Link>)
    requires chain != [] && Written(c, chain)
    ensures var before, last := HeadAfter(c, chain[..|chain| - 1]), chain[|chain| - 1];
      HeadAfter(c, chain) == Head(Succ(before.next), BatchHash(c, before, last.records))
  {
    hide HeadAfter, Frame, Flat, Wrap, AllLoggable;
    HeadLast(c, chain);
  }

  lemma WrittenPrefix(c: Suite, chain: seq<Link>, k: nat)
    requires Written(c, chain) && k <= |chain|
    ensures Written(c, chain[..k])
  {
    hide LinkFor, AllLoggable;
  }

  /** What the scan of the batches from `first` on has to find. */
  ghost predicate ReadsBack(c: Suite, chain: seq<Link>, first: nat, lines: nat, s: Scan)
    requires first <= |chain|
  {
    && s.head == HeadAfter(c, chain) && s.sealed == lines && s.pending == [] && !s.forged
    && LinksOf(s.accepted) == chain[first..]
  }

  /** The scan of what was written leads to the head of the chain, over exactly its batches. */
  lemma {:induction false} ScanBody(c: Suite, w: Signer, chain: seq<Link>, first: nat)
    requires Works(c, w) && Written(c, chain) && first <= |chain|
    ensures var lines := Body(c, w, chain, first);
      ReadsBack(c, chain, first, |lines|, ScanLines(c, w.key, HeadAfter(c, chain[..first]), lines))
    decreases |chain|
  {
    if |chain| == first {
      assert chain[..first] == chain && chain[first..] == [];
    } else {
      var before, last := chain[..|chain| - 1], chain[|chain| - 1];
      assert before[..first] == chain[..first];
      WrittenPrefix(c, chain, |chain| - 1);
      ScanBody(c, w, before, first);
      BodyReadsBack(c, w, chain, first);
    }
    hide ReadsBack, ScanLines, Body, HeadAfter;
  }

  lemma BodyReadsBack(c: Suite, w: Signer, chain: seq<Link>, first: nat)
    requires Works(c, w) && Written(c, chain) && first < |chain|
    requires var before := chain[..|chain| - 1]; var lines := Body(c, w, before, first);
      ReadsBack(c, before, first, |lines|, ScanLines(c, w.key, HeadAfter(c, chain[..first]), lines))
    ensures var lines := Body(c, w, chain, first);
      ReadsBack(c, chain, first, |lines|, ScanLines(c, w.key, HeadAfter(c, chain[..first]), lines))
  {
    hide ScanLines, Body, HeadAfter, LinksOf, BatchHash, TrailerLine, LinkFor, Written, AllLoggable, Works;
    var before, last := chain[..|chain| - 1], chain[|chain| - 1];
    LastWritten(c, chain);
    BodyLast(c, w, chain, first);
    ScanBatch(c, w, HeadAfter(c, chain[..first]), Body(c, w, before, first), last.records);
    HeadOfLast(c, chain);
    assert before[first..] + [last] == chain[first..];
  }

  lemma LastWritten(c: Suite, chain: seq<Link>)
    requires chain != [] && Written(c, chain)
    ensures var last := chain[|chain| - 1];
      last == LinkFor(last.records) && |last.records| < TWO64 && AllLoggable(c, last.records)
  {
  }

  lemma BodyLast(c: Suite, w: Signer, chain: seq<Link>, first: nat)
    requires first < |chain|
    ensures var before, last := chain[..|chain| - 1], chain[|chain| - 1];
      Body(c, w, chain, first)
        == Body(c, w, before, first) + (last.records + [TrailerLine(c, w, HeadAfter(c, before), last.records)])
  {
  }

  lemma {:induction false} BodyClean(c: Suite, w: Signer, chain: seq<Link>, first: nat)
    requires Works(c, w) && Written(c, chain)
    ensures AllClean(Body(c, w, chain, first))
    decreases |chain|
  {
    if |chain| > first {
      var before, last := chain[..|chain| - 1], chain[|chain| - 1];
      WrittenPrefix(c, chain, |chain| - 1);
      BodyClean(c, w, before, first);
      LastWritten(c, chain);
      BatchClean(c, w, HeadAfter(c, before), last.records);
    }
  }

  lemma BatchClean(c: Suite, w: Signer, head: Head, records: seq<Line>)
    requires Works(c, w) && AllLoggable(c, records)
    ensures AllClean(records + [TrailerLine(c, w, head, records)])
  {
    assert OwnTrailer(w, TrailerFor(c, w, head, records));
    hide TrailerFor;
    assert forall i :: 0 <= i < |records| ==> Loggable(c, records[i]);
  }

  lemma SegmentClean(c: Suite, w: Signer, chain: seq<Link>, first: nat)
    requires Works(c, w) && Written(c, chain) && first <= |chain|
    ensures AllClean(SegmentLines(c, w, chain, first))
  {
    BodyClean(c, w, chain, first);
    hide Body, HeadAfter, Written;
  }

  /** A segment and its tail split into the lines of both. */
  lemma SplitText(c: Suite, w: Signer, chain: seq<Link>, first: nat, tail: seq<byte>)
    requires Works(c, w) && Written(c, chain) && first <= |chain|
    ensures var q := Split(tail);
      Split(Text(c, w, chain, first) + tail) == Parts(SegmentLines(c, w, chain, first) + q.lines, q.torn)
  {
    var lines, q := SegmentLines(c, w, chain, first), Split(tail);
    SegmentClean(c, w, chain, first);
    hide Split, Flat, SegmentLines, Works, Written;
    SplitWhole(tail);
    FlatConcat(lines, q.lines);
    Assoc(Flat(lines), Flat(q.lines), q.torn);
    SplitFlat(lines + q.lines, q.torn);
  }

  lemma OpensOwn(c: Suite, w: Signer, chain: seq<Link>, first: nat)
    requires Works(c, w) && Written(c, chain) && first <= |chain|
    ensures HeadAfter(c, chain[..first]).next == first
    ensures var h := HeaderLine(w, HeadAfter(c, chain[..first]));
      && Opens(c, Number(first), h)
      && c.classify(h) == Segment(Header(first, Some(HeadAfter(c, chain[..first]).hash), Some(w.key)))
  {
    hide HeadAfter, Wrap;
    HeadCounts(c, chain[..first]);
    WrapSmall(first);
  }

  /** The scan of a segment with a tail: the chain's head, and the tail's lines as the open batch. */
  ghost predicate ReadsWhole(c: Suite, chain: seq<Link>, first: nat, own: nat, more: seq<Line>, s: Scan)
    requires first <= |chain|
  {
    && s.head == HeadAfter(c, chain) && !s.forged && s.pending == more
    && 1 + s.sealed == own && LinksOf(s.accepted) == chain[first..]
  }

  lemma ScanText(c: Suite, w: Signer, chain: seq<Link>, first: nat, more: seq<Line>)
    requires Works(c, w) && Written(c, chain) && first <= |chain| && AllLoggable(c, more)
    ensures var own := SegmentLines(c, w, chain, first);
      && Opens(c, Number(first), (own + more)[0])
      && ReadsWhole(c, chain, first, |own|, more, ScanSegment(c, Number(first), own + more))
  {
    hide Body, ScanLines, HeadAfter, LinksOf, HeaderLine, Works, Written, SegmentLines, Wrap, ReadsWhole, AllLoggable;
    var at := HeadAfter(c, chain[..first]);
    var own, body := SegmentLines(c, w, chain, first), Body(c, w, chain, first);
    SegmentShape(c, w, chain, first);
    OpensOwn(c, w, chain, first);
    ScanMore(c, w, chain, first, more);
    var lines := own + more;
    assert lines[0] == HeaderLine(w, at);
    assert lines[1..] == body + more;
  }

  lemma SegmentShape(c: Suite, w: Signer, chain: seq<Link>, first: nat)
    requires first <= |chain|
    ensures var own := SegmentLines(c, w, chain, first);
      |own| == 1 + |Body(c, w, chain, first)| && own[1..] == Body(c, w, chain, first)
      && own[0] == HeaderLine(w, HeadAfter(c, chain[..first]))
  {
    hide Body, HeadAfter;
  }

  lemma ScanMore(c: Suite, w: Signer, chain: seq<Link>, first: nat, more: seq<Line>)
    requires Works(c, w) && Written(c, chain) && first <= |chain| && AllLoggable(c, more)
    ensures var body := Body(c, w, chain, first);
      ReadsWhole(c, chain, first, 1 + |body|, more, ScanLines(c, w.key, HeadAfter(c, chain[..first]), body + more))
  {
    hide Body, ScanLines, HeadAfter, LinksOf, Works, Written, AllLoggable;
    var body := Body(c, w, chain, first);
    ScanBody(c, w, chain, first);
    ScanRecords(c, w.key, HeadAfter(c, chain[..first]), body, more);
    assert [] + more == more;
  }

  /** Opening a log finds the chain's head in a segment, and whatever follows its batches left over. */
  lemma PlanOfText(c: Suite, w: Signer, chain: seq<Link>, first: nat, tail: seq<byte>)
    requires Works(c, w) && Written(c, chain) && first <= |chain| && Tail(c, tail)
    ensures var p := PlanOf(c, Number(first), Text(c, w, chain, first) + tail);
      if tail == [] then p == Done(HeadAfter(c, chain))
      else p.Leftover? && p.kept == Some(HeadAfter(c, chain)) && p.end == |Text(c, w, chain, first)|
  {
    assert |chain| < TWO64;
    hide Split, Flat, SegmentLines, Works, Written, ScanSegment;
    hide Opens, HeadAfter, LinksOf, Wrap, AllLoggable, PlanOf, End;
    var own, q := SegmentLines(c, w, chain, first), Split(tail);
    SplitText(c, w, chain, first, tail);
    ScanText(c, w, chain, first, q.lines);
    OwnNotEmpty(c, w, chain, first);
    OwnEnd(own, q.lines);
    PlanUnforged(c, Number(first), Text(c, w, chain, first) + tail);
  }

  lemma PlanUnforged(c: Suite, name: Name, data: seq<byte>)
    requires data != [] && Split(data).lines != [] && Opens(c, name, Split(data).lines[0])
    requires !ScanSegment(c, name, Split(data).lines).forged
    ensures var lines := Split(data).lines; var s := ScanSegment(c, name, lines);
      && 1 + s.sealed <= |lines|
      && PlanOf(c, name, data) == if End(lines, 1 + s.sealed) == |data| then Done(s.head)
                                  else Leftover(Some(s.head), End(lines, 1 + s.sealed), |s.pending|)
  {
    hide Split, ScanSegment, Opens, End;
    SealedWithin(c, name, Split(data).lines);
  }

  lemma OwnEnd(own: seq<Line>, more: seq<Line>)
    ensures End(own + more, |own|) == |Flat(own)|
  {
    hide Flat;
    assert (own + more)[..|own|] == own;
  }

  lemma OwnNotEmpty(c: Suite, w: Signer, chain: seq<Link>, first: nat)
    requires first <= |chain|
    ensures Text(c, w, chain, first) != []
  {
    FlatFirst(HeaderLine(w, HeadAfter(c, chain[..first])), Body(c, w, chain, first));
  }

  // ---------------------------------------------------------------------------
  // To verification
  // ---------------------------------------------------------------------------

  lemma {:induction false} LinksConcat(a: seq<Sealed>, b: seq<Sealed>)
    ensures LinksOf(a + b) == LinksOf(a) + LinksOf(b)
  {
    if b == [] {
      assert a + b == a;
    } else {
      var most, last := b[..|b| - 1], b[|b| - 1];
      LinksConcat(a, most);
      assert a + b == a + most + [last] && b == most + [last];
      LinksExtend(a + most, last);
      LinksExtend(most, last);
    }
  }

  /** Verification has read the chain up to `first` without a problem. */
  ghost predicate ReadUpTo(c: Suite, w: Signer, chain: seq<Link>, first: nat, v: Verify)
    requires first <= |chain|
  {
    && v.problems == 0 && LinksOf(v.accepted) == chain[..first]
    && (v.lastKey == None || v.lastKey == Some(w.key))
    && (v.head == Some(HeadAfter(c, chain[..first])) || (first == 0 && v.head == None))
  }

  predicate Trusts(e: Expect, w: Signer) {
    !e.allowPruned && (e.keys == [] || w.key in e.keys)
  }

  lemma HeaderFits(c: Suite, e: Expect, w: Signer, chain: seq<Link>, first: nat, v: Verify)
    requires Works(c, w) && Written(c, chain) && first <= |chain| && Trusts(e, w) && ReadUpTo(c, w, chain, first, v)
    ensures VerifyLine(c, e, v, 0, HeaderLine(w, HeadAfter(c, chain[..first]))).problems == 0
  {
    OpensOwn(c, w, chain, first);
    if first == 0 {
      assert chain[..0] == [];
      assert HeadAfter(c, []) == START;
    }
    hide HeadAfter, LinksOf, Works, Written;
  }

  /** Verifying a segment as written, with a tail only if it is the newest, counts its batches and finds no problem. */
  lemma VerifyText(c: Suite, e: Expect, w: Signer, chain: seq<Link>, first: nat, tail: seq<byte>, v: Verify,
                   newest: bool)
    requires Works(c, w) && Written(c, chain) && first <= |chain| && Trusts(e, w) && ReadUpTo(c, w, chain, first, v)
    requires Tail(c, tail) && (newest || tail == [])
    ensures var x := VerifySegment(c, e, v, Text(c, w, chain, first) + tail, newest);
      ReadUpTo(c, w, chain, |chain|, x) && x.head == Some(HeadAfter(c, chain))
  {
    hide Split, Flat, SegmentLines, Works, Written, HeadAfter, LinksOf, VerifyLines, Wrap, AllLoggable, Text;
    var q := Split(tail);
    SplitText(c, w, chain, first, tail);
    if tail == [] {
      NoLine([], []);
    }
    VerifyOwnLines(c, e, w, chain, first, q.lines, v.(key := None, pending := []));
    assert chain[..|chain|] == chain;
  }

  lemma VerifyOwnLines(c: Suite, e: Expect, w: Signer, chain: seq<Link>, first: nat, more: seq<Line>, v: Verify)
    requires Works(c, w) && Written(c, chain) && first <= |chain| && Trusts(e, w) && ReadUpTo(c, w, chain, first, v)
    requires AllLoggable(c, more) && v.pending == []
    ensures var x := VerifyLines(c, e, v, SegmentLines(c, w, chain, first) + more);
      && x.problems == 0 && x.head == Some(HeadAfter(c, chain)) && x.key == x.lastKey == Some(w.key)
      && x.pending == more
      && LinksOf(x.accepted) == chain
  {
    hide SegmentLines, Works, Written, ScanSegment, Opens, HeadAfter, LinksOf, VerifyLines, Wrap, AllLoggable, Trusts;
    var lines := SegmentLines(c, w, chain, first) + more;
    FirstLineFits(c, e, w, chain, first, v, lines);
    ScanText(c, w, chain, first, more);
    OpensOwn(c, w, chain, first);
    UnforgedVerifies(c, e, Number(HeadAfter(c, chain[..first]).next), v, lines);
    hide HeadOf;
    var s := ScanSegment(c, Number(HeadAfter(c, chain[..first]).next), lines);
    LinksConcat(v.accepted, s.accepted);
    assert chain[..first] + chain[first..] == chain;
  }

  lemma FirstLineFits(c: Suite, e: Expect, w: Signer, chain: seq<Link>, first: nat, v: Verify, lines: seq<Line>)
    requires Works(c, w) && Written(c, chain) && first <= |chain| && Trusts(e, w) && ReadUpTo(c, w, chain, first, v)
    requires SegmentLines(c, w, chain, first) <= lines
    ensures lines != [] && Opens(c, Number(first), lines[0])
    ensures v.head == None || v.head == Some(HeadOf(c.classify(lines[0]).header))
    ensures c.classify(lines[0]).header.key == Some(w.key)
    ensures VerifyLines(c, e, v, lines[..1]).problems == 0
  {
    assert lines[0] == HeaderLine(w, HeadAfter(c, chain[..first]));
    hide HeadAfter, Works, Written, SegmentLines, VerifyLine, VerifyLines, LinksOf;
    OpensOwn(c, w, chain, first);
    HeaderFits(c, e, w, chain, first, v);
    LinesExtend(c, e, v, lines, 0);
    LinesStart(c, e, v);
    assert lines[..0] == [];
  }
}
