/** Opening a log moves over exactly the leading batches that verification accepts. */
module AuditAgree {
  import opened Wrappers
  import opened AuditLines
  import opened AuditChain

  /** Whether the expected position has been passed, and held, once the batches are read. */
  function Noted(expected: Option<Head>, seen: Option<bool>, accepted: seq<Sealed>): Option<bool> {
    if accepted == [] then seen
    else Note(expected, After(accepted[|accepted| - 1]), Noted(expected, seen, accepted[..|accepted| - 1]))
  }

  /** Verification has got from `v` to `w` without a problem, over what the scan `s` accepted. */
  predicate Agrees(e: Expect, v: Verify, s: Scan, w: Verify) {
    && w.head.Some? && w.anchor == Noted(e.head, v.anchor, s.accepted)
    && w == v.(head := Some(s.head), pending := s.pending, accepted := v.accepted + s.accepted, anchor := w.anchor)
  }

  /** While the scan finds nothing forged, the next line is forged to it exactly if it is a problem to verification. */
  lemma LineAgrees(c: Suite, e: Expect, key: Key, v: Verify, s: Scan, w: Verify, index: nat, line: Line)
    requires !s.forged && Agrees(e, v, s, w) && v.key == Some(key) && index > 0
    ensures var t, x := ScanLine(c, key, s, line), VerifyLine(c, e, w, index, line);
      if t.forged then x.problems == v.problems + 1 && t == s.(forged := true) else Agrees(e, v, t, x)
  {
    hide Closes, After, Note;
    match c.classify(line) {
      case Batch(t) =>
        var b := Sealed(s.head, key, t, s.pending);
        assert v.accepted + s.accepted + [b] == v.accepted + (s.accepted + [b]);
        assert (s.accepted + [b])[..|s.accepted|] == s.accepted;
      case _ =>
    }
  }

  lemma {:induction false} LinesAgree(c: Suite, e: Expect, key: Key, head: Head, v: Verify, lines: seq<Line>, k: nat)
    requires 1 <= k <= |lines| && !ScanLines(c, key, head, lines[1..k]).forged
    requires Agrees(e, VerifyLines(c, e, v, lines[..1]), Scan(head, 0, [], [], false), VerifyLines(c, e, v, lines[..1]))
    requires VerifyLines(c, e, v, lines[..1]).key == Some(key)
    ensures Agrees(e, VerifyLines(c, e, v, lines[..1]), ScanLines(c, key, head, lines[1..k]),
                   VerifyLines(c, e, v, lines[..k]))
  {
    if k == 1 {
      assert lines[1..1] == [];
    } else {
      hide ScanLines, VerifyLines, Agrees, VerifyLine;
      ScanExtends(c, key, head, lines, k - 1);
      LinesExtend(c, e, v, lines, k - 1);
      var s, w := ScanLines(c, key, head, lines[1..k - 1]), VerifyLines(c, e, v, lines[..k - 1]);
      LinesAgree(c, e, key, head, v, lines, k - 1);
      LineAgrees(c, e, key, VerifyLines(c, e, v, lines[..1]), s, w, k - 1, lines[k - 1]);
    }
  }

  /** Once a line is forged the scan stands still. */
  lemma ForgedSticks(c: Suite, key: Key, s: Scan, line: Line)
    ensures var t := ScanLine(c, key, s, line);
      && (s.forged ==> t == s)
      && (t.forged ==> t.accepted == s.accepted && t.head == s.head)
  {
    hide Accepts, After;
  }

  /** The scan of the lines before the `k`-th, after the header. */
  function ScanTo(c: Suite, key: Key, head: Head, lines: seq<Line>, k: nat): Scan
    requires 1 <= k <= |lines|
  {
    ScanLines(c, key, head, lines[1..k])
  }

  lemma ScanToNext(c: Suite, key: Key, head: Head, lines: seq<Line>, k: nat)
    requires 1 <= k < |lines|
    ensures var s, t := ScanTo(c, key, head, lines, k), ScanTo(c, key, head, lines, k + 1);
      && (s.forged ==> t == s)
      && (t.forged ==> t.accepted == s.accepted && t.head == s.head)
  {
    hide ScanLines, ScanLine;
    ScanExtends(c, key, head, lines, k);
    ForgedSticks(c, key, ScanTo(c, key, head, lines, k), lines[k]);
  }

  lemma ScanToNone(c: Suite, key: Key, head: Head, lines: seq<Line>)
    requires lines != []
    ensures !ScanTo(c, key, head, lines, 1).forged
  {
    assert lines[1..1] == [];
  }

  /** Where the scan stopped: at the first forged line, or at the end. */
  lemma {:induction false} StopsAt(c: Suite, key: Key, head: Head, lines: seq<Line>, k: nat) returns (j: nat)
    requires 1 <= k <= |lines|
    ensures 1 <= j <= k && !ScanTo(c, key, head, lines, j).forged
    ensures ScanTo(c, key, head, lines, k).forged <==> j < k
    ensures j < k ==> ScanTo(c, key, head, lines, j + 1).forged
    ensures ScanTo(c, key, head, lines, k).accepted == ScanTo(c, key, head, lines, j).accepted
    ensures ScanTo(c, key, head, lines, k).head == ScanTo(c, key, head, lines, j).head
  {
    hide ScanTo;
    if k == 1 {
      j := 1;
      ScanToNone(c, key, head, lines);
    } else {
      j := StopsAt(c, key, head, lines, k - 1);
      ScanToNext(c, key, head, lines, k - 1);
      if !ScanTo(c, key, head, lines, k).forged {
        j := k;
      }
    }
  }

  /**
   The scan of a segment accepts exactly the batches verification accepts
   before its first problem, from the same header and key, and ends at the
   same position; it calls a line forged exactly where that problem is.
   */
  lemma ScanIsLeadingVerification(c: Suite, e: Expect, name: Name, v: Verify, lines: seq<Line>) returns (j: nat)
    requires lines != [] && Opens(c, name, lines[0]) && v.pending == []
    requires v.head == None || v.head == Some(HeadOf(c.classify(lines[0]).header))
    ensures 1 <= j <= |lines|
    ensures var s := ScanSegment(c, name, lines);
      var first, w := VerifyLines(c, e, v, lines[..1]), VerifyLines(c, e, v, lines[..j]);
      && w.problems == first.problems
      && w.accepted == v.accepted + s.accepted && w.head == Some(s.head)
      && w.lastKey == w.key == Some(c.classify(lines[0]).header.key.value)
      && (s.forged <==> j < |lines|)
      && (!s.forged ==> w.pending == s.pending)
      && w.anchor == Noted(e.head, first.anchor, s.accepted)
      && w.firstNumber == first.firstNumber && w.tail == v.tail
      && (j < |lines| ==> VerifyLines(c, e, v, lines[..j + 1]).problems == first.problems + 1)
  {
    var h := c.classify(lines[0]).header;
    var key, head := h.key.value, HeadOf(h);
    var first := VerifyLines(c, e, v, lines[..1]);
    LinesExtend(c, e, v, lines, 0);
    assert lines[..0] == [];
    LinesStart(c, e, v);
    assert first == VerifyLine(c, e, v, 0, lines[0]);
    assert v.accepted + [] == v.accepted;
    hide ScanLines, VerifyLines, Closes, VerifyBatch;
    j := StopsAt(c, key, head, lines, |lines|);
    assert lines[1..|lines|] == lines[1..];
    LinesAgree(c, e, key, head, v, lines, j);
    if j < |lines| {
      ScanExtends(c, key, head, lines, j);
      LinesExtend(c, e, v, lines, j);
      LineAgrees(c, e, key, first, ScanLines(c, key, head, lines[1..j]), VerifyLines(c, e, v, lines[..j]), j, lines[j]);
    }
  }

  /** A segment in which the scan finds nothing forged is one verification reads without a problem after its header. */
  lemma UnforgedVerifies(c: Suite, e: Expect, name: Name, v: Verify, lines: seq<Line>)
    requires lines != [] && Opens(c, name, lines[0]) && v.pending == []
    requires v.head == None || v.head == Some(HeadOf(c.classify(lines[0]).header))
    requires !ScanSegment(c, name, lines).forged
    ensures var s, x := ScanSegment(c, name, lines), VerifyLines(c, e, v, lines);
      && x.problems == VerifyLines(c, e, v, lines[..1]).problems
      && x.accepted == v.accepted + s.accepted && x.head == Some(s.head) && x.pending == s.pending
      && x.key == x.lastKey == c.classify(lines[0]).header.key
      && x.anchor == Noted(e.head, VerifyLines(c, e, v, lines[..1]).anchor, s.accepted)
      && x.firstNumber == VerifyLines(c, e, v, lines[..1]).firstNumber && x.tail == v.tail
  {
    hide ScanSegment, VerifyLines;
    var j := ScanIsLeadingVerification(c, e, name, v, lines);
    assert lines[..j] == lines;
  }
}
