/**
 Exactly which logs verification passes, said of the files themselves, whatever is
 expected of them: pinned keys or none, a pruned log or not, an expected head or
 none. A log with a problem is any other.
 */
module AuditExact {
  import opened Wrappers
  import opened Layout
  import opened AuditFrame
  import opened AuditLines
  import opened AuditChain
  import opened AuditAgree

  // ---------------------------------------------------------------------------
  // Segments that read without a problem
  // ---------------------------------------------------------------------------

  /** The segment starts with a complete header. */
  predicate Headed(c: Suite, data: seq<byte>) {
    var lines := Split(data).lines;
    && lines != [] && c.classify(lines[0]).Segment?
    && c.classify(lines[0]).header.prev.Some? && c.classify(lines[0]).header.key.Some?
  }

  function HeaderIn(c: Suite, data: seq<byte>): (h: Header)
    requires Headed(c, data)
    ensures h.prev.Some? && h.key.Some?
  {
    c.classify(Split(data).lines[0]).header
  }

  function KeyIn(c: Suite, data: seq<byte>): Key
    requires Headed(c, data)
  {
    HeaderIn(c, data).key.value
  }

  /** What the lines after the header scan to, from where and under the key the header names. */
  function ScanIn(c: Suite, data: seq<byte>): Scan
    requires Headed(c, data)
  {
    ScanLines(c, KeyIn(c, data), HeadOf(HeaderIn(c, data)), Split(data).lines[1..])
  }

  /** The segment has a header and only records and batches that follow; an older one ends with a batch. */
  predicate Reads(c: Suite, data: seq<byte>, newest: bool) {
    && Headed(c, data) && !ScanIn(c, data).forged
    && (newest || (Split(data).torn == [] && ScanIn(c, data).pending == []))
  }

  predicate KeyFits(e: Expect, last: Option<Key>, key: Key) {
    if e.keys != [] then key in e.keys else last == None || last == Some(key)
  }

  /** Where the first segment may start: at the start of the chain, or further on if the log may be pruned. */
  predicate Begins(e: Expect, at: Head) {
    at == START || (e.allowPruned && at.next != 0)
  }

  predicate Follows(e: Expect, before: Option<Head>, at: Head) {
    if before.Some? then before.value == at else Begins(e, at)
  }

  /** A problem once noted stays. */
  lemma {:induction false} ProblemsStay(c: Suite, e: Expect, v: Verify, lines: seq<Line>, k: nat)
    requires k <= |lines|
    ensures VerifyLines(c, e, v, lines).problems >= VerifyLines(c, e, v, lines[..k]).problems >= v.problems
  {
    hide Closes, After, Note, KeyProblems, JoinProblems;
    if k == |lines| {
      assert lines[..k] == lines;
      if k > 0 {
        ProblemsStay(c, e, v, lines[..k - 1], k - 1);
      }
    } else {
      var rest := lines[..|lines| - 1];
      ProblemsStay(c, e, v, rest, k);
      assert rest[..k] == lines[..k];
    }
  }

  /** A line after the header is at most one problem; a header or a line that is no record, trailer or header is one. */
  lemma LineProblems(c: Suite, e: Expect, v: Verify, index: nat, line: Line)
    requires index > 0
    ensures var w := VerifyLine(c, e, v, index, line);
      && v.problems <= w.problems <= v.problems + 1
      && (c.classify(line).Segment? || c.classify(line).Invalid? ==> w.problems == v.problems + 1)
      && (c.classify(line).Record? ==> w == v.(pending := v.pending + [line]))
      && (c.classify(line).Invalid? ==> w.pending == v.pending + [line])
  {
    hide Closes, After, Note;
  }

  /** Only the first line can give a segment its key. */
  lemma {:induction false} KeyFromFirst(c: Suite, e: Expect, v: Verify, lines: seq<Line>)
    requires lines != []
    ensures VerifyLines(c, e, v, lines).key == VerifyLines(c, e, v, lines[..1]).key
  {
    hide Closes, After, Note;
    if |lines| == 1 {
      assert lines[..1] == lines;
    } else {
      var rest := lines[..|lines| - 1];
      KeyFromFirst(c, e, v, rest);
      assert rest[..1] == lines[..1];
    }
  }

  lemma FirstLine(c: Suite, e: Expect, v: Verify, lines: seq<Line>)
    requires lines != []
    ensures VerifyLines(c, e, v, lines[..1]) == VerifyLine(c, e, v, 0, lines[0])
  {
    LinesExtend(c, e, v, lines, 0);
    assert lines[..0] == [];
    LinesStart(c, e, v);
  }

  /** A segment's header alone: one problem for a key that does not fit, one for a place that does not. */
  lemma HeaderExact(c: Suite, e: Expect, v: Verify, data: seq<byte>)
    requires Headed(c, data)
    ensures var w, h := VerifyLines(c, e, v, Split(data).lines[..1]), HeaderIn(c, data);
      && w.problems == v.problems + (if KeyFits(e, v.lastKey, KeyIn(c, data)) then 0 else 1)
                                  + (if Follows(e, v.head, HeadOf(h)) then 0 else 1)
      && w == VerifyHeader(e, v, h)
  {
    hide Split, VerifyLines, Note;
    FirstLine(c, e, v, Split(data).lines);
  }

  /** The state after a segment that is no problem. */
  ghost predicate ReadOver(c: Suite, e: Expect, v: Verify, data: seq<byte>, newest: bool, w: Verify)
    requires Headed(c, data)
  {
    var s, h := ScanIn(c, data), HeaderIn(c, data);
    && w.problems == v.problems && w.head == Some(s.head) && w.lastKey == h.key
    && w.accepted == v.accepted + s.accepted
    && w.firstNumber == (if v.head.None? then Some(h.number) else v.firstNumber)
    && w.anchor == Noted(e.head, if v.head.None? then Note(e.head, HeadOf(h), v.anchor) else v.anchor, s.accepted)
    && w.tail == (if newest then |s.pending| else v.tail)
  }

  lemma ReadsUnheaded(c: Suite, e: Expect, v: Verify, data: seq<byte>)
    requires !Headed(c, data) && v.key == None && v.pending == []
    ensures var w := VerifyLines(c, e, v, Split(data).lines); w.problems > v.problems || w.key == None
  {
    hide Split, VerifyBatch;
    var lines := Split(data).lines;
    if lines != [] {
      FirstLine(c, e, v, lines);
      KeyFromFirst(c, e, v, lines);
      ProblemsStay(c, e, v, lines, 1);
      hide VerifyLines;
      BatchKeepsKey(c, e, v);
    }
  }

  lemma BatchKeepsKey(c: Suite, e: Expect, v: Verify)
    ensures forall t :: v.head.Some? ==> VerifyBatch(c, e, v, t).key == v.key
  {
    hide Closes, After, Note;
  }

  /** The lines of a headed segment give no problem exactly if its header fits and the scan finds nothing forged. */
  lemma LinesExact(c: Suite, e: Expect, v: Verify, data: seq<byte>)
    requires Headed(c, data) && v.key == None && v.pending == []
    ensures var w, h := VerifyLines(c, e, v, Split(data).lines), HeaderIn(c, data);
      && w.problems >= v.problems
      && (w.problems == v.problems <==>
          KeyFits(e, v.lastKey, KeyIn(c, data)) && Follows(e, v.head, HeadOf(h)) && !ScanIn(c, data).forged)
      && (w.problems == v.problems ==> w.key.Some? && w.pending == ScanIn(c, data).pending
                                       && ReadOver(c, e, v, data, false, w))
  {
    hide Split, VerifyLines, ScanLines, Note, Noted;
    var lines, h := Split(data).lines, HeaderIn(c, data);
    HeaderExact(c, e, v, data);
    ProblemsStay(c, e, v, lines, 1);
    if KeyFits(e, v.lastKey, KeyIn(c, data)) && Follows(e, v.head, HeadOf(h)) {
      var name := Number(h.number);
      if ScanIn(c, data).forged {
        var j := ScanIsLeadingVerification(c, e, name, v, lines);
        ProblemsStay(c, e, v, lines, j + 1);
      } else {
        UnforgedVerifies(c, e, name, v, lines);
      }
    }
  }

  /** A segment is no problem exactly if it reads, its key fits, and its header continues the chain. */
  lemma SegmentExact(c: Suite, e: Expect, v: Verify, data: seq<byte>, newest: bool)
    ensures var w := VerifySegment(c, e, v, data, newest);
      && w.problems >= v.problems
      && (w.problems == v.problems <==>
          && Reads(c, data, newest) && KeyFits(e, v.lastKey, KeyIn(c, data))
          && Follows(e, v.head, HeadOf(HeaderIn(c, data))))
      && (w.problems == v.problems ==> ReadOver(c, e, v, data, newest, w))
  {
    hide Split, VerifyLines, ScanIn, Noted, Note, KeyFits, Follows;
    var torn := if Split(data).torn != [] && !newest then 1 else 0;
    var start := v.(key := None, pending := [], problems := v.problems + torn);
    ProblemsStay(c, e, start, Split(data).lines, 0);
    if Headed(c, data) {
      LinesExact(c, e, start, data);
    } else {
      ReadsUnheaded(c, e, start, data);
    }
  }

  // ---------------------------------------------------------------------------
  // Whole logs
  // ---------------------------------------------------------------------------

  predicate AllHeaded(c: Suite, segments: seq<seq<byte>>) {
    forall i :: 0 <= i < |segments| ==> Headed(c, segments[i])
  }

  /** Every segment reads; the last one as the newest of the log if `open`. */
  predicate AllRead(c: Suite, segments: seq<seq<byte>>, open: bool) {
    forall i :: 0 <= i < |segments| ==> Reads(c, segments[i], open && i == |segments| - 1)
  }

  /** The first header is where a log may begin, and each later one is where the segment before it ends. */
  predicate Joined(c: Suite, e: Expect, segments: seq<seq<byte>>)
    requires AllHeaded(c, segments)
  {
    && (segments != [] ==> Begins(e, HeadOf(HeaderIn(c, segments[0]))))
    && forall i :: 0 < i < |segments| ==> HeadOf(HeaderIn(c, segments[i])) == ScanIn(c, segments[i - 1]).head
  }

  /** Every segment is under a pinned key or, with none pinned, under the one key of the first. */
  predicate KeysHold(c: Suite, e: Expect, segments: seq<seq<byte>>)
    requires AllHeaded(c, segments)
  {
    if e.keys != [] then forall i :: 0 <= i < |segments| ==> KeyIn(c, segments[i]) in e.keys
    else forall i :: 0 <= i < |segments| ==> KeyIn(c, segments[i]) == KeyIn(c, segments[0])
  }

  predicate Whole(c: Suite, e: Expect, segments: seq<seq<byte>>, open: bool) {
    AllRead(c, segments, open) && AllHeaded(c, segments) && Joined(c, e, segments) && KeysHold(c, e, segments)
  }

  /** The batches of a log, in order. */
  function BatchesIn(c: Suite, segments: seq<seq<byte>>): seq<Sealed>
    requires AllHeaded(c, segments)
  {
    if segments == [] then []
    else BatchesIn(c, segments[..|segments| - 1]) + ScanIn(c, segments[|segments| - 1]).accepted
  }

  function LastKey(c: Suite, segments: seq<seq<byte>>): Option<Key>
    requires AllHeaded(c, segments)
  {
    if segments == [] then None else Some(KeyIn(c, segments[|segments| - 1]))
  }

  function LastHead(c: Suite, segments: seq<seq<byte>>): Option<Head>
    requires AllHeaded(c, segments)
  {
    if segments == [] then None else Some(ScanIn(c, segments[|segments| - 1]).head)
  }

  /** One more segment keeps a log whole exactly if it reads, its key fits and it continues the chain. */
  lemma WholeLast(c: Suite, e: Expect, segments: seq<seq<byte>>, open: bool)
    requires segments != []
    ensures var older, last := segments[..|segments| - 1], segments[|segments| - 1];
      Whole(c, e, segments, open) <==>
      && Whole(c, e, older, false) && Reads(c, last, open)
      && KeyFits(e, LastKey(c, older), KeyIn(c, last))
      && Follows(e, LastHead(c, older), HeadOf(HeaderIn(c, last)))
  {
    hide Reads, ScanIn, HeaderIn, Headed;
    var n := |segments| - 1;
    var older, last := segments[..n], segments[n];
    HeadedLast(c, segments);
    ReadLast(c, segments, open);
    if AllHeaded(c, segments) {
      JoinedLast(c, e, segments);
      KeysLast(c, e, segments);
    }
    if Reads(c, last, open) {
      ReadsHeaded(c, last, open);
    }
    hide AllRead, AllHeaded, Joined, KeysHold;
  }

  lemma ReadsHeaded(c: Suite, data: seq<byte>, newest: bool)
    requires Reads(c, data, newest)
    ensures Headed(c, data)
  {
  }

  lemma HeadedLast(c: Suite, segments: seq<seq<byte>>)
    requires segments != []
    ensures AllHeaded(c, segments) <==>
            AllHeaded(c, segments[..|segments| - 1]) && Headed(c, segments[|segments| - 1])
  {
    hide Headed;
    var n := |segments| - 1;
    assert forall i :: 0 <= i < n ==> segments[..n][i] == segments[i];
  }

  lemma ReadLast(c: Suite, segments: seq<seq<byte>>, open: bool)
    requires segments != []
    ensures AllRead(c, segments, open) <==>
            AllRead(c, segments[..|segments| - 1], false) && Reads(c, segments[|segments| - 1], open)
  {
    hide Reads;
    var n := |segments| - 1;
    assert forall i :: 0 <= i < n ==> segments[..n][i] == segments[i];
  }

  lemma JoinedLast(c: Suite, e: Expect, segments: seq<seq<byte>>)
    requires segments != [] && AllHeaded(c, segments) && AllHeaded(c, segments[..|segments| - 1])
    ensures var older, last := segments[..|segments| - 1], segments[|segments| - 1];
      Joined(c, e, segments) <==>
      Joined(c, e, older) && Follows(e, LastHead(c, older), HeadOf(HeaderIn(c, last)))
  {
    hide ScanIn, HeaderIn, Headed, Begins;
    var n := |segments| - 1;
    assert forall i :: 0 <= i < n ==> segments[..n][i] == segments[i];
  }

  lemma KeysLast(c: Suite, e: Expect, segments: seq<seq<byte>>)
    requires segments != [] && AllHeaded(c, segments) && AllHeaded(c, segments[..|segments| - 1])
    ensures var older, last := segments[..|segments| - 1], segments[|segments| - 1];
      KeysHold(c, e, segments) <==> KeysHold(c, e, older) && KeyFits(e, LastKey(c, older), KeyIn(c, last))
  {
    hide HeaderIn, Headed, KeyIn;
    var n := |segments| - 1;
    assert forall i :: 0 <= i < n ==> segments[..n][i] == segments[i];
  }

  /** Verification of a log, or of the segments before the newest. */
  function VerifyTo(c: Suite, e: Expect, segments: seq<seq<byte>>, open: bool): Verify {
    if segments == [] then UNREAD
    else VerifySegment(c, e, VerifyOlder(c, e, segments[..|segments| - 1]), segments[|segments| - 1], open)
  }

  /** The state after a log that is no problem, from its files. */
  ghost predicate StateOf(c: Suite, e: Expect, segments: seq<seq<byte>>, open: bool, v: Verify)
    requires AllHeaded(c, segments)
  {
    && v.head == LastHead(c, segments) && v.lastKey == LastKey(c, segments) && v.accepted == BatchesIn(c, segments)
    && if segments == [] then v.firstNumber == None && v.anchor == None && v.tail == 0
       else
         var first := HeaderIn(c, segments[0]);
         && v.firstNumber == Some(first.number)
         && v.anchor == Noted(e.head, Note(e.head, HeadOf(first), None), BatchesIn(c, segments))
         && v.tail == if open then |ScanIn(c, segments[|segments| - 1]).pending| else 0
  }

  lemma {:induction false} NotedConcat(expected: Option<Head>, seen: Option<bool>, a: seq<Sealed>, b: seq<Sealed>)
    ensures Noted(expected, seen, a + b) == Noted(expected, Noted(expected, seen, a), b)
  {
    hide Note, After;
    if b == [] {
      assert a + b == a;
    } else {
      var rest := b[..|b| - 1];
      assert (a + b)[..|a + b| - 1] == a + rest;
      NotedConcat(expected, seen, a, rest);
    }
  }

  lemma StateNext(c: Suite, e: Expect, segments: seq<seq<byte>>, open: bool, v: Verify, w: Verify)
    requires segments != [] && AllHeaded(c, segments) && AllHeaded(c, segments[..|segments| - 1])
    requires StateOf(c, e, segments[..|segments| - 1], false, v)
    requires ReadOver(c, e, v, segments[|segments| - 1], open, w)
    ensures StateOf(c, e, segments, open, w)
  {
    hide ScanIn, HeaderIn, Headed, Note, Noted;
    var n := |segments| - 1;
    var older := segments[..n];
    var accepted := ScanIn(c, segments[n]).accepted;
    if older == [] {
      assert [] + accepted == accepted;
    } else {
      var seen := Note(e.head, HeadOf(HeaderIn(c, segments[0])), None);
      NotedConcat(e.head, seen, BatchesIn(c, older), accepted);
    }
  }

  lemma {:induction false} LogExact(c: Suite, e: Expect, segments: seq<seq<byte>>, open: bool)
    ensures var v := VerifyTo(c, e, segments, open);
      && (v.problems == 0 <==> Whole(c, e, segments, open))
      && (v.problems == 0 ==> StateOf(c, e, segments, open, v))
    decreases |segments|
  {
    if segments == [] {
    } else {
      var older, last := segments[..|segments| - 1], segments[|segments| - 1];
      OlderIsTo(c, e, older);
      LogExact(c, e, older, false);
      hide VerifyOlder, VerifySegment, StateOf, ReadOver, Reads, KeyFits, Follows, ScanIn, HeaderIn, Headed;
      WholeLast(c, e, segments, open);
      var v := VerifyOlder(c, e, older);
      SegmentExact(c, e, v, last, open);
      if VerifyTo(c, e, segments, open).problems == 0 {
        LastOf(c, e, older, v);
        HeadedLast(c, segments);
        StateNext(c, e, segments, open, v, VerifyTo(c, e, segments, open));
      }
    }
  }

  lemma OlderIsTo(c: Suite, e: Expect, segments: seq<seq<byte>>)
    ensures VerifyOlder(c, e, segments) == VerifyTo(c, e, segments, false)
  {
  }

  lemma LastOf(c: Suite, e: Expect, segments: seq<seq<byte>>, v: Verify)
    requires AllHeaded(c, segments) && StateOf(c, e, segments, false, v)
    ensures v.head == LastHead(c, segments) && v.lastKey == LastKey(c, segments)
  {
  }

  // ---------------------------------------------------------------------------
  // The expected head
  // ---------------------------------------------------------------------------

  /** The positions a log goes through: where it begins, and after each batch. */
  function Positions(first: Head, accepted: seq<Sealed>): seq<Head> {
    if accepted == [] then [first]
    else Positions(first, accepted[..|accepted| - 1]) + [After(accepted[|accepted| - 1])]
  }

  predicate Passes(h: Head, positions: seq<Head>) {
    exists p :: p in positions && p.next == h.next
  }

  predicate Contradicts(h: Head, positions: seq<Head>) {
    exists p :: p in positions && p.next == h.next && p.hash != h.hash
  }

  /** The log goes through the position, and through no other of the same number. */
  predicate Anchored(h: Head, positions: seq<Head>) {
    Passes(h, positions) && !Contradicts(h, positions)
  }

  lemma {:induction false} NotedMeans(h: Head, first: Head, accepted: seq<Sealed>)
    ensures var seen, positions := Noted(Some(h), Note(Some(h), first, None), accepted), Positions(first, accepted);
      && (seen.Some? <==> Passes(h, positions))
      && (seen == Some(false) <==> Contradicts(h, positions))
  {
    hide After;
    if accepted == [] {
    } else {
      var n := |accepted| - 1;
      NotedMeans(h, first, accepted[..n]);
      PassesNext(h, Positions(first, accepted[..n]), After(accepted[n]));
    }
  }

  lemma PassesNext(h: Head, positions: seq<Head>, p: Head)
    ensures Passes(h, positions + [p]) <==> Passes(h, positions) || p.next == h.next
    ensures Contradicts(h, positions + [p]) <==> Contradicts(h, positions) || (p.next == h.next && p.hash != h.hash)
  {
    var all := positions + [p];
    assert p in all;
    assert forall q :: q in positions ==> q in all;
  }

  // ---------------------------------------------------------------------------
  // Main results
  // ---------------------------------------------------------------------------

  /** The log verification must pass, said of its files and of what is expected alone. */
  predicate CleanLog(c: Suite, e: Expect, segments: seq<seq<byte>>) {
    && segments != [] && Whole(c, e, segments, true) && BatchesIn(c, segments) != []
    && (e.head.Some? ==>
          Anchored(e.head.value, Positions(HeadOf(HeaderIn(c, segments[0])), BatchesIn(c, segments))))
  }

  /** What is reported of such a log. */
  function CleanReport(c: Suite, e: Expect, segments: seq<seq<byte>>): Report
    requires CleanLog(c, e, segments)
  {
    var last, batches := ScanIn(c, segments[|segments| - 1]), BatchesIn(c, segments);
    Report(|segments|, |batches|, Records(batches), Recovered(batches), Some(HeaderIn(c, segments[0]).number),
           Some(last.head), |last.pending|, e.head.Some?, 0)
  }

  /**
   Main result: verification reports no problem exactly if no file was set aside as forged and the log is clean, and
   then reports what the files say; a report with a problem gives no head.
   */
  lemma VerifiedExactly(c: Suite, e: Expect, segments: seq<seq<byte>>, forged: nat)
    ensures var r := ReportOf(c, e, segments, forged);
      && (r.problems == 0 <==> forged == 0 && CleanLog(c, e, segments))
      && (r.problems == 0 ==> r == CleanReport(c, e, segments))
      && (r.problems != 0 ==> r.head == None)
      && r.problems == ReportOf(c, e, segments, 0).problems + forged
  {
    if segments != [] {
      LogExact(c, e, segments, true);
      hide VerifySegment, VerifyOlder, Whole, BatchesIn, ScanIn, HeaderIn, Headed, Noted, Positions, Anchored;
      var v := VerifyAll(c, e, segments);
      if v.problems == 0 && e.head.Some? {
        WholeHeaded(c, e, segments);
        AnchorMeans(c, e, segments, v);
      }
    }
  }

  lemma WholeHeaded(c: Suite, e: Expect, segments: seq<seq<byte>>)
    requires Whole(c, e, segments, true)
    ensures AllHeaded(c, segments)
  {
  }

  lemma AnchorMeans(c: Suite, e: Expect, segments: seq<seq<byte>>, v: Verify)
    requires segments != [] && AllHeaded(c, segments) && StateOf(c, e, segments, true, v) && e.head.Some?
    ensures v.anchor == Some(true) <==>
            Anchored(e.head.value, Positions(HeadOf(HeaderIn(c, segments[0])), BatchesIn(c, segments)))
  {
    hide Noted, Note, Positions, BatchesIn, HeaderIn, Passes, Contradicts;
    var h, first := e.head.value, HeadOf(HeaderIn(c, segments[0]));
    assert v.anchor == Noted(Some(h), Note(Some(h), first, None), BatchesIn(c, segments));
    NotedMeans(h, first, BatchesIn(c, segments));
    assert v.anchor.Some? ==> v.anchor.value || v.anchor == Some(false);
  }

  /** The batches an old writer's recovery sealed, by their places. */
  function RecoveredAt(accepted: seq<Sealed>): set<nat> {
    set i | 0 <= i < |accepted| && accepted[i].trailer.recovered
  }

  lemma {:induction false} RecoveredCounts(accepted: seq<Sealed>)
    ensures Recovered(accepted) == |RecoveredAt(accepted)|
  {
    if accepted == [] {
      assert RecoveredAt(accepted) == {};
    } else {
      var n := |accepted| - 1;
      RecoveredCounts(accepted[..n]);
      assert RecoveredAt(accepted) == RecoveredAt(accepted[..n]) + if accepted[n].trailer.recovered then {n} else {};
    }
  }

  /** Beside what the lines gave, a head not reached and a log without a batch are one problem each. */
  lemma ReportCounts(c: Suite, e: Expect, segments: seq<seq<byte>>, forged: nat)
    requires segments != []
    ensures var r, v := ReportOf(c, e, segments, forged), VerifyAll(c, e, segments);
      && r.problems == v.problems + (if e.head.Some? && v.anchor != Some(true) then 1 else 0)
                       + (if v.accepted == [] then 1 else 0) + forged
      && r.batches == |v.accepted| && r.records == Records(v.accepted) && r.recovered == |RecoveredAt(v.accepted)|
      && r.anchored == (e.head.Some? && v.anchor == Some(true))
  {
    hide VerifySegment, VerifyOlder;
    RecoveredCounts(VerifyAll(c, e, segments).accepted);
  }

  /** The batches of a segment are under its header's key. */
  lemma {:induction false} ScanKeys(c: Suite, key: Key, head: Head, lines: seq<Line>)
    ensures forall b :: b in ScanLines(c, key, head, lines).accepted ==> b.key == key
  {
    hide Accepts, After;
    if lines == [] {
    } else {
      ScanKeys(c, key, head, lines[..|lines| - 1]);
    }
  }

  lemma SegmentKeys(c: Suite, data: seq<byte>)
    requires Headed(c, data)
    ensures forall b :: b in ScanIn(c, data).accepted ==> b.key == KeyIn(c, data)
  {
    ScanKeys(c, KeyIn(c, data), HeadOf(HeaderIn(c, data)), Split(data).lines[1..]);
  }

  lemma {:induction false} BatchKeys(c: Suite, segments: seq<seq<byte>>, key: Key)
    requires AllHeaded(c, segments) && forall i :: 0 <= i < |segments| ==> KeyIn(c, segments[i]) == key
    ensures forall b :: b in BatchesIn(c, segments) ==> b.key == key
  {
    hide Headed, HeaderIn, ScanIn;
    if segments == [] {
    } else {
      var n := |segments| - 1;
      BatchKeys(c, segments[..n], key);
      SegmentKeys(c, segments[n]);
    }
  }

  /** With no key pinned a log without a problem is under one key, headers and batches alike. */
  lemma UnpinnedOneKey(c: Suite, e: Expect, segments: seq<seq<byte>>, forged: nat)
    requires e.keys == [] && ReportOf(c, e, segments, forged).problems == 0
    ensures segments != [] && AllHeaded(c, segments)
    ensures forall i :: 0 <= i < |segments| ==> KeyIn(c, segments[i]) == KeyIn(c, segments[0])
    ensures forall b :: b in BatchesIn(c, segments) ==> b.key == KeyIn(c, segments[0])
  {
    hide ReportOf, KeyIn, BatchesIn;
    VerifiedExactly(c, e, segments, forged);
    BatchKeys(c, segments, KeyIn(c, segments[0]));
  }

  /** A header under another key than an earlier one's is always a problem unless keys are pinned. */
  lemma KeyChangeIsProblem(c: Suite, e: Expect, segments: seq<seq<byte>>, forged: nat, i: nat, j: nat)
    requires e.keys == [] && i < |segments| && j < |segments|
    requires Headed(c, segments[i]) && Headed(c, segments[j]) && KeyIn(c, segments[i]) != KeyIn(c, segments[j])
    ensures ReportOf(c, e, segments, forged).problems > 0
  {
    hide ReportOf, KeyIn, BatchesIn;
    if ReportOf(c, e, segments, forged).problems == 0 {
      UnpinnedOneKey(c, e, segments, forged);
    }
  }

  /**
   What a batch must show where it stands: the number and hash of its position, the count and hash of its records,
   and a signature of that hash. Only version 0, and version 2 unless written by recovery, say what the hash covers.
   */
  ghost predicate Checked(c: Suite, b: Sealed) {
    var t := b.trailer;
    && t.number == b.at.next && t.prev == Some(b.at.hash) && t.records == |b.records|
    && (t.v == 0 || (t.v == 2 && !t.recovered))
    && var form := if t.v == 0 then V1 else V2(|b.records|);
       && t.hash == Some(c.hash(Frame(b.at.hash, b.at.next, form, Flat(b.records))))
       && t.sig.Some? && c.verify(b.key, t.hash.value, t.sig.value)
  }

  /** The batches lead from `first` to `last`, each checking where the one before it ends. */
  ghost predicate Chain(c: Suite, first: Head, batches: seq<Sealed>, last: Head) {
    if batches == [] then first == last
    else
      var b := batches[|batches| - 1];
      && Chain(c, first, batches[..|batches| - 1], b.at) && Checked(c, b)
      && last == Head(Succ(b.at.next), b.trailer.hash.value)
  }

  lemma {:induction false} ChainConcat(c: Suite, first: Head, a: seq<Sealed>, middle: Head, b: seq<Sealed>, last: Head)
    requires Chain(c, first, a, middle) && Chain(c, middle, b, last)
    ensures Chain(c, first, a + b, last)
  {
    hide Checked;
    if b == [] {
      assert a + b == a;
    } else {
      var n := |b| - 1;
      ChainConcat(c, first, a, middle, b[..n], b[n].at);
      assert (a + b)[..|a| + n] == a + b[..n];
    }
  }

  lemma {:induction false} ScanChain(c: Suite, key: Key, head: Head, lines: seq<Line>)
    ensures Chain(c, head, ScanLines(c, key, head, lines).accepted, ScanLines(c, key, head, lines).head)
  {
    if lines == [] {
    } else {
      var before := ScanLines(c, key, head, lines[..|lines| - 1]);
      ScanChain(c, key, head, lines[..|lines| - 1]);
      hide Checked, Accepts, Chain;
      match c.classify(lines[|lines| - 1]) {
        case Batch(t) =>
          if !before.forged && Accepts(c, key, before.head, t, before.pending) {
            ChainNext(c, head, before.accepted, Sealed(before.head, key, t, before.pending));
          }
        case _ =>
      }
    }
  }

  lemma ChainNext(c: Suite, first: Head, batches: seq<Sealed>, b: Sealed)
    requires Chain(c, first, batches, b.at) && Accepts(c, b.key, b.at, b.trailer, b.records)
    ensures Chain(c, first, batches + [b], After(b))
  {
    hide Frame, Flat;
    assert (batches + [b])[..|batches|] == batches;
  }

  lemma {:induction false} LogChain(c: Suite, e: Expect, segments: seq<seq<byte>>)
    requires segments != [] && AllHeaded(c, segments) && Joined(c, e, segments)
    ensures Chain(c, HeadOf(HeaderIn(c, segments[0])), BatchesIn(c, segments), LastHead(c, segments).value)
  {
    hide Chain, Headed, ScanIn, Begins, HeaderIn;
    var n := |segments| - 1;
    var older, last := segments[..n], segments[n];
    var first := HeadOf(HeaderIn(c, segments[0]));
    SegmentChain(c, last);
    if n == 0 {
      assert older == [] && [] + ScanIn(c, last).accepted == ScanIn(c, last).accepted;
    } else {
      LogChain(c, e, older);
      ChainConcat(c, first, BatchesIn(c, older), LastHead(c, older).value, ScanIn(c, last).accepted,
                  ScanIn(c, last).head);
    }
  }

  lemma SegmentChain(c: Suite, data: seq<byte>)
    requires Headed(c, data)
    ensures Chain(c, HeadOf(HeaderIn(c, data)), ScanIn(c, data).accepted, ScanIn(c, data).head)
  {
    ScanChain(c, KeyIn(c, data), HeadOf(HeaderIn(c, data)), Split(data).lines[1..]);
  }

  /** The batches of a log without a problem lead, each checking where it stands, from its first header to its head. */
  lemma VerifiedChain(c: Suite, e: Expect, segments: seq<seq<byte>>, forged: nat)
    requires ReportOf(c, e, segments, forged).problems == 0
    ensures segments != [] && AllHeaded(c, segments) && ReportOf(c, e, segments, forged).head.Some?
    ensures Chain(c, HeadOf(HeaderIn(c, segments[0])), BatchesIn(c, segments),
                  ReportOf(c, e, segments, forged).head.value)
  {
    hide ReportOf, Chain, BatchesIn, ScanIn, HeaderIn, Headed;
    VerifiedExactly(c, e, segments, forged);
    LogChain(c, e, segments);
  }

  // ---------------------------------------------------------------------------
  // Damage
  // ---------------------------------------------------------------------------

  /** Where verification goes on after a trailer it does not accept: at the position the trailer states. */
  function Resumed(c: Suite, at: Head, t: Trailer, pending: seq<Line>): Head {
    var form := if t.v == 2 && !t.recovered then V2(t.records) else V1;
    Head(Succ(t.number),
         if t.hash.Some? then t.hash.value else c.hash(Frame(at.hash, t.number, form, Flat(pending))))
  }

  /** The scan of the lines from the `k`-th to before the `j`-th. */
  function ScanFrom(c: Suite, key: Key, at: Head, lines: seq<Line>, k: nat, j: nat): Scan
    requires k <= j <= |lines|
  {
    ScanLines(c, key, at, lines[k..j])
  }

  lemma ScanFromNext(c: Suite, key: Key, at: Head, lines: seq<Line>, k: nat, j: nat)
    requires k <= j < |lines|
    ensures var s := ScanFrom(c, key, at, lines, k, j);
      && ScanFrom(c, key, at, lines, k, j + 1) == ScanLine(c, key, s, lines[j])
      && (s.forged ==> ScanFrom(c, key, at, lines, k, j + 1).forged)
  {
    assert lines[k..j + 1][..j - k] == lines[k..j];
  }

  lemma {:induction false} TailAgrees(c: Suite, e: Expect, key: Key, at: Head, v: Verify, lines: seq<Line>, k: nat,
                                      j: nat)
    requires 0 < k <= j <= |lines| && !ScanFrom(c, key, at, lines, k, j).forged
    requires var x := VerifyLines(c, e, v, lines[..k]);
      x.head == Some(at) && x.key == Some(key) && x.pending == []
    ensures Agrees(e, VerifyLines(c, e, v, lines[..k]), ScanFrom(c, key, at, lines, k, j),
                   VerifyLines(c, e, v, lines[..j]))
  {
    var x := VerifyLines(c, e, v, lines[..k]);
    if j == k {
      assert lines[k..k] == [] && x.accepted + [] == x.accepted;
    } else {
      hide ScanFrom, VerifyLines, Agrees, VerifyLine, ScanLine;
      ScanFromNext(c, key, at, lines, k, j - 1);
      LinesExtend(c, e, v, lines, j - 1);
      TailAgrees(c, e, key, at, v, lines, k, j - 1);
      LineAgrees(c, e, key, x, ScanFrom(c, key, at, lines, k, j - 1), VerifyLines(c, e, v, lines[..j - 1]), j - 1,
                 lines[j - 1]);
    }
  }

  /**
   One bad batch is one problem: the batches that follow the position its trailer states are accepted, counted and
   lead on as if it had been good.
   */
  lemma DamageIsOneProblem(c: Suite, e: Expect, v: Verify, lines: seq<Line>, k: nat)
    requires 0 < k < |lines| && c.classify(lines[k]).Batch?
    requires var x := VerifyLines(c, e, v, lines[..k]); x.head.Some? && x.key.Some?
    requires var x := VerifyLines(c, e, v, lines[..k]);
      !Accepts(c, x.key.value, x.head.value, c.classify(lines[k]).trailer, x.pending)
    ensures var x, y := VerifyLines(c, e, v, lines[..k]), VerifyLines(c, e, v, lines);
      var at := Resumed(c, x.head.value, c.classify(lines[k]).trailer, x.pending);
      var s := ScanLines(c, x.key.value, at, lines[k + 1..]);
      !s.forged ==>
        && y.problems == x.problems + 1 && y.accepted == x.accepted + s.accepted
        && y.head == Some(s.head) && y.pending == s.pending
  {
    var x := VerifyLines(c, e, v, lines[..k]);
    LinesExtend(c, e, v, lines, k);
    var at := Resumed(c, x.head.value, c.classify(lines[k]).trailer, x.pending);
    assert lines[k + 1..|lines|] == lines[k + 1..] && lines[..|lines|] == lines;
    hide VerifyLines, Accepts, ScanLines, Frame, Flat;
    if !ScanLines(c, x.key.value, at, lines[k + 1..]).forged {
      TailAgrees(c, e, x.key.value, at, v, lines, k + 1, |lines|);
    }
  }

  // ---------------------------------------------------------------------------
  // What opening does with a segment
  // ---------------------------------------------------------------------------

  /** A forged line is one the scan has not accounted for. */
  lemma {:induction false} ForgedLeft(c: Suite, key: Key, head: Head, lines: seq<Line>)
    ensures var s := ScanLines(c, key, head, lines); s.forged ==> s.sealed + |s.pending| < |lines|
  {
    hide Accepts, After;
    if lines == [] {
    } else {
      var rest := lines[..|lines| - 1];
      ForgedLeft(c, key, head, rest);
      ScanCounts(c, key, head, rest);
    }
  }

  lemma FlatShorter(lines: seq<Line>, k: nat)
    requires k < |lines|
    ensures |Flat(lines[..k])| < |Flat(lines)|
  {
    FlatConcat(lines[..k], lines[k..]);
    assert lines[..k] + lines[k..] == lines;
    FlatConcat([lines[k]], lines[k + 1..]);
    assert [lines[k]] + lines[k + 1..] == lines[k..];
    assert Flat([lines[k]]) == Ended(lines[k]) + Flat([lines[k]][1..]);
  }

  /** What the scan left of a segment, and where its trusted bytes end. */
  lemma ScanEnds(c: Suite, name: Name, data: seq<byte>)
    requires Headed(c, data) && name == Number(HeaderIn(c, data).number)
    ensures var p, s := Split(data), ScanIn(c, data);
      && 1 + s.sealed <= |p.lines|
      && (!s.forged ==> 1 + s.sealed == |p.lines| - |s.pending|)
      && (End(p.lines, 1 + s.sealed) == |data| <==> !s.forged && s.pending == [] && p.torn == [])
  {
    var p, s := Split(data), ScanIn(c, data);
    var key, head := KeyIn(c, data), HeadOf(HeaderIn(c, data));
    SplitWhole(data);
    ScanCounts(c, key, head, p.lines[1..]);
    ForgedLeft(c, key, head, p.lines[1..]);
    hide ScanLines, Split, Flat;
    if 1 + s.sealed < |p.lines| {
      FlatShorter(p.lines, 1 + s.sealed);
    } else {
      assert p.lines[..1 + s.sealed] == p.lines;
    }
  }

  /**
   What opening does with a segment, of any bytes: an empty one is removed; one without a complete line is cut to
   nothing; one that does not start with the header its name asks for is refused; one with a line that is neither a
   record nor a batch that follows is forged; one that ends with its header or a batch is done; any other has
   leftovers, the unsealed lines after its last batch and the torn one.
   */
  lemma PlanExactly(c: Suite, name: Name, data: seq<byte>)
    ensures var plan, p := PlanOf(c, name, data), Split(data);
      if data == [] then plan == Empty
      else if p.lines == [] then plan == Leftover(None, 0, 0)
      else if !Headed(c, data) || name != Number(HeaderIn(c, data).number) then plan == Refused
      else
        var s := ScanIn(c, data);
        if s.forged then plan == Forged(s.head, |s.accepted|)
        else if s.pending == [] && p.torn == [] then plan == Done(s.head)
        else
          && |s.pending| < |p.lines|
          && plan == Leftover(Some(s.head), |Flat(p.lines[..|p.lines| - |s.pending|])|, |s.pending|)
  {
    if Headed(c, data) && name == Number(HeaderIn(c, data).number) {
      ScanEnds(c, name, data);
    }
    hide Split, ScanLines, Flat;
  }
}
