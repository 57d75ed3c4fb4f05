/**
 The signed audit log: what a trailer must satisfy to close a batch, the scan a
 writer makes of a segment when it opens a log, and verification.

 Hashing, signature checking and the parsing of a line are parameters.
 */
module AuditChain {
  import opened Wrappers
  import opened Layout
  import opened AuditFrame
  import opened AuditLines

  type Key = seq<byte>
  type Sig = seq<byte>

  /** Position of the chain: the number the next batch gets, and the hash it follows. */
  datatype Head = Head(next: U64, hash: Digest)

  const START: Head := Head(0, GENESIS)

  /** Parsed control lines; a field that is not well-formed hexadecimal, or not a key, is `None`. */
  datatype Header = Header(number: U64, prev: Option<Digest>, key: Option<Key>)

  datatype Trailer = Trailer(
    number: U64, records: U64, prev: Option<Digest>, hash: Option<Digest>, sig: Option<Sig>, recovered: bool, v: byte)

  datatype Kind = Segment(header: Header) | Batch(trailer: Trailer) | Record | Invalid

  datatype Suite = Suite(hash: seq<byte> -> Digest, verify: (Key, Digest, Sig) -> bool, classify: Line -> Kind)

  /** Name of a `.jsonl` file: a segment name is the number of its first batch. */
  datatype Name = Number(n: U64) | Other(text: string)

  /** Sequence numbers are 64-bit and wrap. */
  function Succ(n: U64): U64 {
    if n == 0xFFFF_FFFF_FFFF_FFFF then 0 else n + 1
  }

  /** The form a trailer claims; `None` for one no writer produces. */
  function FormOf(t: Trailer): Option<Form> {
    if t.v == 0 then Some(V1) else if t.v == 2 && !t.recovered then Some(V2(t.records)) else None
  }

  function TrailerHash(c: Suite, prev: Digest, t: Trailer, records: seq<byte>): Option<Digest> {
    match FormOf(t)
    case None => None
    case Some(form) => Some(c.hash(Frame(prev, t.number, form, records)))
  }

  /**
   A trailer closes a batch of `count` record lines at `head`: sequence, chaining, count, hash and signature all check.
   */
  predicate Closes(c: Suite, key: Key, head: Head, t: Trailer, records: seq<byte>, count: nat) {
    var computed := TrailerHash(c, head.hash, t, records);
    && computed.Some?
    && t.sig.Some? && c.verify(key, computed.value, t.sig.value)
    && t.number == head.next
    && t.prev == Some(head.hash)
    && t.records == count
    && t.hash == computed
  }

  predicate Accepts(c: Suite, key: Key, head: Head, t: Trailer, records: seq<Line>) {
    Closes(c, key, head, t, Flat(records), |records|)
  }

  /** A batch that was accepted, and where. */
  datatype Sealed = Sealed(at: Head, key: Key, trailer: Trailer, records: seq<Line>)

  function After(s: Sealed): Head {
    Head(Succ(s.trailer.number), UnwrapOr(s.trailer.hash, s.at.hash))
  }

  // ---------------------------------------------------------------------------
  // The scan of a segment when a log is opened
  // ---------------------------------------------------------------------------

  /** `sealed` counts the lines after the header that are part of accepted batches. */
  datatype Scan = Scan(head: Head, sealed: nat, pending: seq<Line>, accepted: seq<Sealed>, forged: bool)

  function ScanLine(c: Suite, key: Key, s: Scan, line: Line): Scan {
    if s.forged then s else
      match c.classify(line)
      case Record => s.(pending := s.pending + [line])
      case Batch(t) =>
        if Accepts(c, key, s.head, t, s.pending) then
          var b := Sealed(s.head, key, t, s.pending);
          Scan(After(b), s.sealed + |s.pending| + 1, [], s.accepted + [b], false)
        else s.(forged := true)
      case _ => s.(forged := true)
  }

  function ScanLines(c: Suite, key: Key, head: Head, lines: seq<Line>): Scan {
    if lines == [] then Scan(head, 0, [], [], false)
    else ScanLine(c, key, ScanLines(c, key, head, lines[..|lines| - 1]), lines[|lines| - 1])
  }

  /** What opening a log does with a segment. `end` is where its trusted bytes end. */
  datatype Plan =
    | Empty
    | Refused
    | Done(head: Head)
    | Forged(head: Head, batches: nat)
    | Leftover(kept: Option<Head>, end: nat, unsealed: nat)

  /** The header a segment must start with. */
  predicate Opens(c: Suite, name: Name, line: Line) {
    match c.classify(line)
    case Segment(h) => h.prev.Some? && h.key.Some? && name == Number(h.number)
    case _ => false
  }

  function HeadOf(h: Header): Head
    requires h.prev.Some?
  {
    Head(h.number, h.prev.value)
  }

  function ScanSegment(c: Suite, name: Name, lines: seq<Line>): Scan
    requires lines != [] && Opens(c, name, lines[0])
  {
    var h := c.classify(lines[0]).header;
    ScanLines(c, h.key.value, HeadOf(h), lines[1..])
  }

  /** Where the first `k` lines of a file end. */
  function End(lines: seq<Line>, k: nat): nat
    requires k <= |lines|
  {
    |Flat(lines[..k])|
  }

  function PlanOf(c: Suite, name: Name, data: seq<byte>): Plan {
    var lines := Split(data).lines;
    if data == [] then Empty
    else if lines == [] then Leftover(None, 0, 0)
    else if !Opens(c, name, lines[0]) then Refused
    else
      var s := ScanSegment(c, name, lines);
      SealedWithin(c, name, lines);
      var end := End(lines, 1 + s.sealed);
      if end == |data| then Done(s.head)
      else if s.forged then Forged(s.head, |s.accepted|)
      else Leftover(Some(s.head), end, |s.pending|)
  }

  /** The scan has accounted for every line it has read: sealed ones, then pending ones. */
  predicate Counts(s: Scan, lines: seq<Line>) {
    && s.sealed + |s.pending| <= |lines|
    && (!s.forged ==> s.sealed + |s.pending| == |lines|)
    && s.pending == lines[s.sealed..s.sealed + |s.pending|]
  }

  lemma ScanLineCounts(c: Suite, key: Key, s: Scan, lines: seq<Line>, line: Line)
    requires Counts(s, lines)
    ensures Counts(ScanLine(c, key, s, line), lines + [line])
  {
    hide Accepts, After;
    var all := lines + [line];
    assert all[s.sealed..s.sealed + |s.pending|] == lines[s.sealed..s.sealed + |s.pending|];
    assert !s.forged ==> all[s.sealed..] == s.pending + [line];
  }

  lemma {:induction false} ScanCounts(c: Suite, key: Key, head: Head, lines: seq<Line>)
    ensures Counts(ScanLines(c, key, head, lines), lines)
  {
    if lines == [] {
    } else {
      hide Counts, ScanLine;
      var rest, last := lines[..|lines| - 1], lines[|lines| - 1];
      ScanCounts(c, key, head, rest);
      ScanLineCounts(c, key, ScanLines(c, key, head, rest), rest, last);
      assert lines == rest + [last];
    }
  }

  lemma SealedWithin(c: Suite, name: Name, lines: seq<Line>)
    requires lines != [] && Opens(c, name, lines[0])
    ensures 1 + ScanSegment(c, name, lines).sealed <= |lines|
  {
    var h := c.classify(lines[0]).header;
    ScanCounts(c, h.key.value, HeadOf(h), lines[1..]);
  }

  lemma FlatPrefix(lines: seq<Line>, torn: Line, k: nat)
    requires k <= |lines|
    ensures Flat(lines[..k]) <= Flat(lines) + torn
    ensures (Flat(lines) + torn)[..|Flat(lines[..k])|] == Flat(lines[..k])
  {
    hide Flat;
    FlatConcat(lines[..k], lines[k..]);
    assert lines[..k] + lines[k..] == lines;
  }

  /** What recovery cuts off is inside the segment. */
  lemma EndInside(c: Suite, name: Name, data: seq<byte>)
    ensures PlanOf(c, name, data).Leftover? ==> PlanOf(c, name, data).end <= |data|
  {
    hide Split, ScanLines, Flat;
    var lines := Split(data).lines;
    SplitWhole(data);
    if lines != [] && Opens(c, name, lines[0]) {
      SealedWithin(c, name, lines);
      FlatPrefix(lines, Split(data).torn, 1 + ScanSegment(c, name, lines).sealed);
    }
  }

  // ---------------------------------------------------------------------------
  // Verification
  // ---------------------------------------------------------------------------

  /** What verification is told from outside the log. */
  datatype Expect = Expect(keys: seq<Key>, head: Option<Head>, allowPruned: bool)

  datatype Verify = Verify(
    head: Option<Head>, lastKey: Option<Key>, anchor: Option<bool>, firstNumber: Option<U64>,
    key: Option<Key>, pending: seq<Line>,
    accepted: seq<Sealed>, problems: nat, tail: nat)

  const UNREAD: Verify := Verify(None, None, None, None, None, [], [], 0, 0)

  function Note(expected: Option<Head>, at: Head, seen: Option<bool>): Option<bool> {
    if expected.Some? && expected.value.next == at.next
    then Some(UnwrapOr(seen, true) && expected.value.hash == at.hash) else seen
  }

  /** A segment under a key that is not expected: not pinned, or, with none pinned, not the one before. */
  function KeyProblems(e: Expect, last: Option<Key>, key: Key): nat {
    if e.keys != [] then (if key in e.keys then 0 else 1)
    else if last.Some? && last.value != key then 1 else 0
  }

  /** A first header that is not the start of the chain, or a later one that does not continue it. */
  function JoinProblems(e: Expect, before: Option<Head>, at: Head): nat {
    if before.Some? then (if before.value == at then 0 else 1)
    else if at.next != 0 then (if e.allowPruned then 0 else 1)
    else if at.hash != GENESIS then 1 else 0
  }

  function VerifyHeader(e: Expect, v: Verify, h: Header): Verify
    requires h.prev.Some? && h.key.Some?
  {
    Verify(Some(if v.head.None? then HeadOf(h) else v.head.value), h.key,
           if v.head.None? then Note(e.head, HeadOf(h), v.anchor) else v.anchor,
           if v.head.None? then Some(h.number) else v.firstNumber,
           h.key, v.pending, v.accepted,
           v.problems + KeyProblems(e, v.lastKey, h.key.value) + JoinProblems(e, v.head, HeadOf(h)), v.tail)
  }

  function VerifyBatch(c: Suite, e: Expect, v: Verify, t: Trailer): Verify
    requires v.head.Some?
  {
    var at := v.head.value;
    if v.key.Some? && Accepts(c, v.key.value, at, t, v.pending) then
      var b := Sealed(at, v.key.value, t, v.pending);
      v.(head := Some(After(b)), anchor := Note(e.head, After(b), v.anchor),
         accepted := v.accepted + [b], pending := [])
    else
      // Resynchronised on the stated position.
      var computed := UnwrapOr(TrailerHash(c, at.hash, t, Flat(v.pending)),
                               c.hash(Frame(at.hash, t.number, V1, Flat(v.pending))));
      v.(head := Some(Head(Succ(t.number), UnwrapOr(t.hash, computed))), pending := [], problems := v.problems + 1)
  }

  function VerifyLine(c: Suite, e: Expect, v: Verify, index: nat, line: Line): Verify {
    match c.classify(line)
    case Segment(h) =>
      if index != 0 || h.prev.None? || h.key.None? then v.(problems := v.problems + 1) else VerifyHeader(e, v, h)
    case Batch(t) =>
      if v.head.None? then v.(problems := v.problems + 1) else VerifyBatch(c, e, v, t)
    case Record => v.(pending := v.pending + [line])
    case Invalid => v.(pending := v.pending + [line], problems := v.problems + 1)
  }

  function VerifyLines(c: Suite, e: Expect, v: Verify, lines: seq<Line>): Verify {
    if lines == [] then v
    else VerifyLine(c, e, VerifyLines(c, e, v, lines[..|lines| - 1]), |lines| - 1, lines[|lines| - 1])
  }

  function VerifySegment(c: Suite, e: Expect, v: Verify, data: seq<byte>, newest: bool): Verify {
    var p := Split(data);
    var torn := if p.torn != [] && !newest then 1 else 0;
    var w := VerifyLines(c, e, v.(key := None, pending := [], problems := v.problems + torn), p.lines);
    var unsealed := if w.pending != [] && !newest then 1 else 0;
    w.(problems := w.problems + (if w.key.None? then 1 else 0) + unsealed,
       tail := if newest then |w.pending| else w.tail)
  }

  /** All segments but the newest. */
  function VerifyOlder(c: Suite, e: Expect, segments: seq<seq<byte>>): Verify {
    if segments == [] then UNREAD
    else VerifySegment(c, e, VerifyOlder(c, e, segments[..|segments| - 1]), segments[|segments| - 1], false)
  }

  function VerifyAll(c: Suite, e: Expect, segments: seq<seq<byte>>): Verify
    requires segments != []
  {
    VerifySegment(c, e, VerifyOlder(c, e, segments[..|segments| - 1]), segments[|segments| - 1], true)
  }

  datatype Report = Report(
    segments: nat, batches: nat, records: nat, recovered: nat, firstNumber: Option<U64>, head: Option<Head>,
    tail: nat, anchored: bool, problems: nat)

  function Records(accepted: seq<Sealed>): nat {
    if accepted == [] then 0
    else Records(accepted[..|accepted| - 1]) + |accepted[|accepted| - 1].records|
  }

  function Recovered(accepted: seq<Sealed>): nat {
    if accepted == [] then 0
    else Recovered(accepted[..|accepted| - 1]) + if accepted[|accepted| - 1].trailer.recovered then 1 else 0
  }

  /** The verdict over the whole log; each file moved aside as forged is one more problem. */
  function Finish(e: Expect, v: Verify, segments: nat, forged: nat): Report {
    var anchored := e.head.Some? && v.anchor == Some(true);
    var problems := v.problems + (if e.head.Some? && !anchored then 1 else 0)
                    + (if v.accepted == [] then 1 else 0) + forged;
    Report(segments, |v.accepted|, Records(v.accepted), Recovered(v.accepted), v.firstNumber,
           if problems == 0 then v.head else None, v.tail, anchored, problems)
  }

  function ReportOf(c: Suite, e: Expect, segments: seq<seq<byte>>, forged: nat): Report {
    if segments == [] then Report(0, 0, 0, 0, None, None, 0, false, 1 + forged)
    else Finish(e, VerifyAll(c, e, segments), |segments|, forged)
  }

  // ---------------------------------------------------------------------------
  // The code
  // ---------------------------------------------------------------------------

  lemma {:induction false} ForgedStays(c: Suite, key: Key, head: Head, lines: seq<Line>, i: nat)
    requires i <= |lines| && ScanLines(c, key, head, lines[..i]).forged
    ensures ScanLines(c, key, head, lines) == ScanLines(c, key, head, lines[..i])
    decreases |lines| - i
  {
    if i == |lines| {
      assert lines[..i] == lines;
    } else {
      assert lines[..i + 1][..i] == lines[..i];
      ForgedStays(c, key, head, lines, i + 1);
    }
  }

  lemma ScanExtends(c: Suite, key: Key, head: Head, lines: seq<Line>, i: nat)
    requires 1 <= i < |lines|
    ensures ScanLines(c, key, head, lines[1..i + 1]) == ScanLine(c, key, ScanLines(c, key, head, lines[1..i]), lines[i])
  {
    var upto := lines[1..i + 1];
    assert upto[..|upto| - 1] == lines[1..i];
  }

  lemma LineEnds(lines: seq<Line>, i: nat)
    requires i < |lines|
    ensures End(lines, i + 1) == End(lines, i) + |lines[i]| + 1
  {
    assert lines[..i + 1] == lines[..i] + [lines[i]];
    FlatExtends(lines[..i], lines[i]);
  }

  /** The scanning loop of `recover`, over bytes and offsets. */
  method ReadSegment(c: Suite, name: Name, data: seq<byte>) returns (plan: Plan)
    ensures plan == PlanOf(c, name, data)
  {
    if data == [] {
      return Empty;
    }
    var lines := Split(data).lines;
    if lines == [] {
      return Leftover(None, 0, 0);
    }
    if !Opens(c, name, lines[0]) {
      return Refused;
    }
    var h := c.classify(lines[0]).header;
    var end, head, batches, unsealed, forged := ScanLoop(c, h.key.value, HeadOf(h), lines);
    assert end == End(lines, 1 + ScanSegment(c, name, lines).sealed);
    if end == |data| {
      return Done(head);
    }
    if forged {
      return Forged(head, batches);
    }
    return Leftover(Some(head), end, unsealed);
  }

  /** One complete line: the new position and open batch, whether it closed a batch, whether it is forged. */
  method ReadLine(c: Suite, key: Key, line: Line, at: Head, open: seq<byte>, count: nat, ghost s: Scan)
    returns (head: Head, pending: seq<byte>, unsealed: nat, closed: bool, forged: bool)
    requires !s.forged && at == s.head && open == Flat(s.pending) && count == |s.pending|
    ensures var t := ScanLine(c, key, s, line);
      && head == t.head && pending == Flat(t.pending) && unsealed == |t.pending| && forged == t.forged
      && |t.accepted| == |s.accepted| + (if closed then 1 else 0)
      && t.sealed == (if closed then s.sealed + count + 1 else s.sealed)
      && (!forged ==> t.sealed + |t.pending| == s.sealed + |s.pending| + 1)
  {
    hide TrailerHash, Succ, Ended;
    FlatExtends(s.pending, line);
    head, pending, unsealed, closed, forged := at, open, count, false, false;
    match c.classify(line) {
      case Batch(t) =>
        closed := Closes(c, key, at, t, open, count);
        if closed {
          head := Head(Succ(t.number), TrailerHash(c, at.hash, t, open).value);
          pending, unsealed := [], 0;
        } else {
          forged := true;
        }
      case Record =>
        pending, unsealed := open + Ended(line), count + 1;
      case _ =>
        forged := true;
    }
  }

  /** The first `k` lines end at byte `offset`. */
  predicate Ends(lines: seq<Line>, k: nat, offset: nat) {
    k <= |lines| && offset == End(lines, k)
  }

  lemma EndsNext(lines: seq<Line>, k: nat, offset: nat)
    requires Ends(lines, k, offset) && k < |lines|
    ensures Ends(lines, k + 1, offset + |lines[k]| + 1)
  {
    LineEnds(lines, k);
  }

  lemma EndsThere(lines: seq<Line>, k: nat, offset: nat)
    requires Ends(lines, k, offset)
    ensures k <= |lines| && offset == End(lines, k)
  {
  }

  /** `s` is what the lines before the `i`-th, after the header, scan to. */
  ghost predicate ScannedTo(c: Suite, key: Key, start: Head, lines: seq<Line>, i: nat, s: Scan) {
    && InStep(lines, i, s) && s == ScanLines(c, key, start, lines[1..i])
  }

  predicate InStep(lines: seq<Line>, i: nat, s: Scan) {
    1 <= i <= |lines| && 1 + s.sealed <= i && (!s.forged ==> s.sealed + |s.pending| + 1 == i)
  }

  lemma ScannedNone(c: Suite, key: Key, start: Head, lines: seq<Line>)
    requires lines != []
    ensures var s := Scan(start, 0, [], [], false); ScannedTo(c, key, start, lines, 1, s) && InStep(lines, 1, s)
  {
    assert lines[1..1] == [];
  }

  lemma ScannedNext(c: Suite, key: Key, start: Head, lines: seq<Line>, i: nat, s: Scan)
    requires ScannedTo(c, key, start, lines, i, s) && i < |lines| && !s.forged
    ensures var t := ScanLine(c, key, s, lines[i]);
            ScannedTo(c, key, start, lines, i + 1, t) && InStep(lines, i + 1, t)
  {
    ScanExtends(c, key, start, lines, i);
    hide ScanLines, Accepts, After;
  }

  lemma ScannedAll(c: Suite, key: Key, start: Head, lines: seq<Line>, i: nat, s: Scan)
    requires ScannedTo(c, key, start, lines, i, s) && (i == |lines| || s.forged)
    ensures s == ScanLines(c, key, start, lines[1..])
  {
    hide ScanLines;
    assert lines[1..i] == lines[1..][..i - 1];
    if s.forged {
      ForgedStays(c, key, start, lines[1..], i - 1);
    } else {
      assert lines[1..i] == lines[1..];
    }
  }

  method ScanLoop(c: Suite, key: Key, start: Head, lines: seq<Line>)
    returns (sealedEnd: nat, head: Head, batches: nat, unsealed: nat, forged: bool)
    requires lines != []
    ensures var s := ScanLines(c, key, start, lines[1..]);
      && 1 + s.sealed <= |lines| && sealedEnd == End(lines, 1 + s.sealed)
      && head == s.head && batches == |s.accepted| && unsealed == |s.pending| && forged == s.forged
  {
    ghost var s := Scan(start, 0, [], [], false);
    var offset: nat := |lines[0]| + 1;
    assert End(lines, 0) == 0;
    LineEnds(lines, 0);
    assert Ends(lines, 1, offset);
    ScannedNone(c, key, start, lines);
    assert Flat([]) == [];
    hide ScanLines, ScanLine, Flat, Ends, ScannedTo;
    sealedEnd, head, batches, unsealed, forged := offset, start, 0, 0, false;
    var pending: seq<byte> := [];
    var i := 1;
    while i < |lines| && !forged
      invariant ScannedTo(c, key, start, lines, i, s) && InStep(lines, i, s)
      invariant Ends(lines, i, offset) && Ends(lines, 1 + s.sealed, sealedEnd)
      invariant head == s.head && batches == |s.accepted| && forged == s.forged
      invariant pending == Flat(s.pending) && unsealed == |s.pending|
    {
      var line := lines[i];
      EndsNext(lines, i, offset);
      ScannedNext(c, key, start, lines, i, s);
      var closed;
      head, pending, unsealed, closed, forged := ReadLine(c, key, line, head, pending, unsealed, s);
      s := ScanLine(c, key, s, line);
      offset := offset + |line| + 1;
      if closed {
        sealedEnd, batches := offset, batches + 1;
      }
      i := i + 1;
    }
    ScannedAll(c, key, start, lines, i, s);
    EndsThere(lines, 1 + s.sealed, sealedEnd);
  }

  /** Verification, segment by segment and line by line. */
  method VerifySegments(c: Suite, e: Expect, segments: seq<seq<byte>>, forged: nat) returns (r: Report)
    ensures r == ReportOf(c, e, segments, forged)
  {
    if segments == [] {
      return Report(0, 0, 0, 0, None, None, 0, false, 1 + forged);
    }
    hide VerifyOlder, VerifySegment;
    var v := UNREAD;
    assert segments[..0] == [];
    OlderStart(c, e);
    for i := 0 to |segments| - 1
      invariant v == VerifyOlder(c, e, segments[..i])
    {
      OlderExtends(c, e, segments, i);
      v := VerifyOne(c, e, v, segments[i], false);
    }
    v := VerifyOne(c, e, v, segments[|segments| - 1], true);
    return Finish(e, v, |segments|, forged);
  }

  lemma OlderStart(c: Suite, e: Expect)
    ensures VerifyOlder(c, e, []) == UNREAD
  {
  }

  lemma OlderExtends(c: Suite, e: Expect, segments: seq<seq<byte>>, i: nat)
    requires i < |segments|
    ensures VerifyOlder(c, e, segments[..i + 1]) ==
        VerifySegment(c, e, VerifyOlder(c, e, segments[..i]), segments[i], false)
  {
    assert segments[..i + 1][..i] == segments[..i];
  }

  method VerifyOne(c: Suite, e: Expect, v: Verify, data: seq<byte>, newest: bool) returns (w: Verify)
    ensures w == VerifySegment(c, e, v, data, newest)
  {
    hide VerifyLines, VerifyLine;
    var p := Split(data);
    ghost var start := v.(key := None, pending := [],
                          problems := v.problems + if p.torn != [] && !newest then 1 else 0);
    w := v.(key := None, pending := []);
    if p.torn != [] && !newest {
      w := w.(problems := w.problems + 1);
    }
    assert p.lines[..0] == [];
    LinesStart(c, e, w);
    for i := 0 to |p.lines|
      invariant w == VerifyLines(c, e, start, p.lines[..i])
    {
      LinesExtend(c, e, start, p.lines, i);
      w := VerifyLine(c, e, w, i, p.lines[i]);
    }
    assert p.lines[..|p.lines|] == p.lines;
    if w.key.None? {
      w := w.(problems := w.problems + 1);
    }
    if w.pending != [] && !newest {
      w := w.(problems := w.problems + 1);
    }
    if newest {
      w := w.(tail := |w.pending|);
    }
  }

  lemma LinesStart(c: Suite, e: Expect, v: Verify)
    ensures VerifyLines(c, e, v, []) == v
  {
  }

  lemma LinesExtend(c: Suite, e: Expect, v: Verify, lines: seq<Line>, i: nat)
    requires i < |lines|
    ensures VerifyLines(c, e, v, lines[..i + 1]) == VerifyLine(c, e, VerifyLines(c, e, v, lines[..i]), i, lines[i])
  {
    assert lines[..i + 1][..i] == lines[..i];
  }
}
