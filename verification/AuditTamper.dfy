/**
 What a successful verification proves about a log. Hashing is not assumed to be
 free of collisions, which no hash is: each theorem says what it says, or names two
 batches of the logs in question whose framings differ and have the same hash.
 */
module AuditTamper {
  import opened Wrappers
  import opened Layout
  import opened AuditFrame
  import opened AuditLines
  import opened AuditChain

  const TWO64: nat := 0x1_0000_0000_0000_0000

  // ---------------------------------------------------------------------------
  // Histories and their heads
  // ---------------------------------------------------------------------------

  /** A batch as the hash covers it. */
  datatype Link = Link(form: Form, records: seq<Line>)

  /** The chain position after a history of batches. */
  function HeadAfter(c: Suite, links: seq<Link>): Head {
    if links == [] then START
    else
      var before, last := HeadAfter(c, links[..|links| - 1]), links[|links| - 1];
      Head(Succ(before.next), c.hash(Frame(before.hash, before.next, last.form, Flat(last.records))))
  }

  predicate Readable(links: seq<Link>) {
    forall i :: 0 <= i < |links| ==> AllClean(links[i].records)
  }

  ghost predicate Collide(c: Suite, x: seq<byte>, y: seq<byte>) {
    x != y && c.hash(x) == c.hash(y)
  }

  /** What the hash of batch `i` of a history covers. */
  function FrameAt(c: Suite, links: seq<Link>, i: nat): seq<byte>
    requires i < |links|
  {
    var before := HeadAfter(c, links[..i]);
    Frame(before.hash, before.next, links[i].form, Flat(links[i].records))
  }

  /** Batch `i` of the two histories is framed differently and hashes the same. */
  ghost predicate CollideAt(c: Suite, a: seq<Link>, b: seq<Link>, i: nat) {
    i < |a| && i < |b| && Collide(c, FrameAt(c, a, i), FrameAt(c, b, i))
  }

  /** A count as a 64-bit number. */
  function Wrap(n: nat): U64 {
    if n < TWO64 then n else Wrap(n - TWO64)
  }

  lemma WrapSmall(n: nat)
    requires n < TWO64
    ensures Wrap(n) == n
  {
  }

  lemma {:induction false} WrapSucc(n: nat)
    ensures Wrap(n + 1) == Succ(Wrap(n))
  {
    if n >= TWO64 {
      WrapSucc(n - TWO64);
    }
  }

  lemma HeadLast(c: Suite, links: seq<Link>)
    requires links != []
    ensures var before, last := HeadAfter(c, links[..|links| - 1]), links[|links| - 1];
      HeadAfter(c, links) ==
      Head(Succ(before.next), c.hash(Frame(before.hash, before.next, last.form, Flat(last.records))))
  {
  }

  lemma {:induction false} HeadCounts(c: Suite, links: seq<Link>)
    ensures HeadAfter(c, links).next == Wrap(|links|)
  {
    if links == [] {
    } else {
      HeadLast(c, links);
      hide HeadAfter, Wrap, Succ;
      HeadCounts(c, links[..|links| - 1]);
      WrapSucc(|links| - 1);
    }
  }

  /** One head has one history: form, records and order; or the two collide at some batch, and agree after it. */
  lemma {:induction false} HeadDetermines(c: Suite, a: seq<Link>, b: seq<Link>) returns (i: nat)
    requires HeadAfter(c, a) == HeadAfter(c, b) && |a| < TWO64 && |b| < TWO64 && Readable(a) && Readable(b)
    ensures |a| == |b|
    ensures a == b || (CollideAt(c, a, b, i) && a[i + 1..] == b[i + 1..])
    decreases |a|
  {
    hide HeadAfter, FrameAt, Collide;
    HeadCounts(c, a);
    HeadCounts(c, b);
    assert |a| == |b|;
    if a == [] {
      i := 0;
    } else {
      var n := |a| - 1;
      i := n;
      if !Collide(c, FrameAt(c, a, n), FrameAt(c, b, n)) {
        LastDetermines(c, a, b);
        i := HeadDetermines(c, a[..n], b[..n]);
        SameLastLink(c, a, b, n, i);
      }
    }
  }

  /** Where two histories with the same last batch differ, or collide, is before it. */
  lemma SameLastLink(c: Suite, a: seq<Link>, b: seq<Link>, n: nat, i: nat)
    requires |a| == |b| == n + 1 && a[n] == b[n]
    requires a[..n] == b[..n] || (CollideAt(c, a[..n], b[..n], i) && a[..n][i + 1..] == b[..n][i + 1..])
    ensures a == b || (CollideAt(c, a, b, i) && a[i + 1..] == b[i + 1..])
  {
    hide FrameAt, Collide;
    assert a == a[..n] + [a[n]] && b == b[..n] + [b[n]];
    if a[..n] != b[..n] {
      FrameOfPrefix(c, a, n, i);
      FrameOfPrefix(c, b, n, i);
      assert a[i + 1..] == a[..n][i + 1..] + [a[n]] && b[i + 1..] == b[..n][i + 1..] + [b[n]];
    }
  }

  lemma FrameOfPrefix(c: Suite, links: seq<Link>, n: nat, i: nat)
    requires i < n <= |links|
    ensures FrameAt(c, links[..n], i) == FrameAt(c, links, i)
  {
    hide HeadAfter;
    assert links[..n][..i] == links[..i];
  }

  lemma LastDetermines(c: Suite, a: seq<Link>, b: seq<Link>)
    requires HeadAfter(c, a) == HeadAfter(c, b) && 0 < |a| == |b| < TWO64 && Readable(a) && Readable(b)
    requires !Collide(c, FrameAt(c, a, |a| - 1), FrameAt(c, b, |a| - 1))
    ensures a[|a| - 1] == b[|a| - 1] && HeadAfter(c, a[..|a| - 1]) == HeadAfter(c, b[..|a| - 1])
  {
    hide HeadAfter, Frame, Flat;
    var n := |a| - 1;
    var p, q := HeadAfter(c, a[..n]), HeadAfter(c, b[..n]);
    HeadLast(c, a);
    HeadLast(c, b);
    FrameInjective(p.hash, p.next, a[n].form, Flat(a[n].records), q.hash, q.next, b[n].form, Flat(b[n].records));
    FlatInjective(a[n].records, b[n].records);
  }

  // ---------------------------------------------------------------------------
  // What verification without a problem has seen
  // ---------------------------------------------------------------------------

  function LinkOf(s: Sealed): Link {
    Link(UnwrapOr(FormOf(s.trailer), V1), s.records)
  }

  function LinksOf(accepted: seq<Sealed>): (r: seq<Link>)
    ensures |r| == |accepted|
  {
    if accepted == [] then []
    else LinksOf(accepted[..|accepted| - 1]) + [LinkOf(accepted[|accepted| - 1])]
  }

  lemma {:induction false} LinksOfPrefix(accepted: seq<Sealed>, k: nat)
    requires k <= |accepted|
    ensures LinksOf(accepted[..k]) == LinksOf(accepted)[..k]
  {
    if k == |accepted| {
      assert accepted[..k] == accepted;
    } else {
      var rest := accepted[..|accepted| - 1];
      LinksOfPrefix(rest, k);
      assert rest[..k] == accepted[..k];
    }
  }

  /** Batch `i` was accepted where the ones before it lead. */
  ghost predicate ChainedAt(c: Suite, accepted: seq<Sealed>, i: nat)
    requires i < |accepted|
  {
    && Accepts(c, accepted[i].key, accepted[i].at, accepted[i].trailer, accepted[i].records)
    && AllClean(accepted[i].records)
    && accepted[i].at == HeadAfter(c, LinksOf(accepted[..i]))
  }

  ghost predicate Chained(c: Suite, accepted: seq<Sealed>) {
    forall i :: 0 <= i < |accepted| ==> ChainedAt(c, accepted, i)
  }

  lemma LinksExtend(accepted: seq<Sealed>, b: Sealed)
    ensures LinksOf(accepted + [b]) == LinksOf(accepted) + [LinkOf(b)]
  {
    assert (accepted + [b])[..|accepted|] == accepted;
  }

  lemma AfterExtends(c: Suite, accepted: seq<Sealed>, b: Sealed)
    requires Accepts(c, b.key, b.at, b.trailer, b.records) && b.at == HeadAfter(c, LinksOf(accepted))
    ensures After(b) == HeadAfter(c, LinksOf(accepted + [b]))
  {
    hide HeadAfter, LinksOf, Frame, Flat;
    LinksExtend(accepted, b);
    var all := LinksOf(accepted + [b]);
    HeadLast(c, all);
    assert all[..|all| - 1] == LinksOf(accepted);
  }

  lemma ChainedExtends(c: Suite, accepted: seq<Sealed>, b: Sealed)
    requires Chained(c, accepted) && Accepts(c, b.key, b.at, b.trailer, b.records) && AllClean(b.records)
    requires b.at == HeadAfter(c, LinksOf(accepted))
    ensures Chained(c, accepted + [b]) && After(b) == HeadAfter(c, LinksOf(accepted + [b]))
  {
    AfterExtends(c, accepted, b);
    var all := accepted + [b];
    forall i | 0 <= i < |all| ensures ChainedAt(c, all, i) {
      if i < |accepted| {
        ChainedAtStays(c, accepted, b, i);
      } else {
        assert all[..i] == accepted;
      }
    }
    hide HeadAfter, LinksOf, Accepts, After, AllClean, ChainedAt;
  }

  lemma ChainedAtStays(c: Suite, accepted: seq<Sealed>, b: Sealed, i: nat)
    requires i < |accepted| && ChainedAt(c, accepted, i)
    ensures ChainedAt(c, accepted + [b], i)
  {
    hide HeadAfter, LinksOf, Accepts, AllClean;
    assert (accepted + [b])[..i] == accepted[..i];
  }

  /** The position has been noted if it is the expected one, and an anchor that holds is on the chain. */
  ghost predicate Anchors(c: Suite, h: Head, accepted: seq<Sealed>, anchor: Option<bool>) {
    && (h.next <= |accepted| ==> anchor.Some?)
    && (anchor == Some(true) ==> h.next <= |accepted| && HeadAfter(c, LinksOf(accepted)[..h.next]) == h)
    && (anchor == Some(false) && |accepted| < TWO64 ==>
          h.next <= |accepted| && HeadAfter(c, LinksOf(accepted)[..h.next]) != h)
  }

  ghost predicate Sound(c: Suite, e: Expect, v: Verify) {
    v.problems == 0 ==>
      && Chained(c, v.accepted) && AllClean(v.pending)
      && (v.head.None? ==> v.accepted == [] && v.anchor.None?)
      && (v.head.Some? ==> v.head.value == HeadAfter(c, LinksOf(v.accepted)))
      && (v.head.Some? && e.head.Some? ==> Anchors(c, e.head.value, v.accepted, v.anchor))
      && (e.keys != [] ==> KeysPinned(e, v))
  }

  predicate KeysPinned(e: Expect, v: Verify) {
    && (forall i :: 0 <= i < |v.accepted| ==> v.accepted[i].key in e.keys)
    && (v.key.Some? ==> v.key.value in e.keys)
  }

  lemma NoteStart(c: Suite, h: Head)
    ensures Anchors(c, h, [], Note(Some(h), START, None))
  {
    assert LinksOf([])[..0] == [];
  }

  lemma NoteNext(c: Suite, h: Head, accepted: seq<Sealed>, b: Sealed, anchor: Option<bool>)
    requires Anchors(c, h, accepted, anchor) && After(b) == HeadAfter(c, LinksOf(accepted + [b]))
    ensures Anchors(c, h, accepted + [b], Note(Some(h), After(b), anchor))
  {
    hide HeadAfter, After, LinksOf, Wrap;
    var all := accepted + [b];
    HeadCounts(c, LinksOf(all));
    if h.next <= |accepted| {
      LinksOfPrefix(all, |accepted|);
      if |all| < TWO64 {
        WrapSmall(|all|);
      }
      assert all[..|accepted|] == accepted;
      assert LinksOf(all)[..h.next] == LinksOf(accepted)[..h.next];
    } else {
      NotYet(h.next, |all|);
      assert LinksOf(all)[..|all|] == LinksOf(all);
    }
  }

  /** A position not passed yet is reached when the count is its number. */
  lemma NotYet(n: U64, count: nat)
    requires n >= count
    ensures Wrap(count) == n <==> count == n
  {
  }

  lemma HeaderSound(c: Suite, e: Expect, v: Verify, h: Header)
    requires Sound(c, e, v) && !e.allowPruned && h.prev.Some? && h.key.Some?
    ensures Sound(c, e, VerifyHeader(e, v, h))
  {
    var w := VerifyHeader(e, v, h);
    assert HeadAfter(c, LinksOf([])) == START;
    hide HeadAfter, LinksOf, Chained, Anchors, Note;
    if w.problems == 0 && v.head.None? {
      assert w.head == Some(START);
      if e.head.Some? {
        NoteStart(c, e.head.value);
      }
    }
  }

  lemma BatchSound(c: Suite, e: Expect, v: Verify, t: Trailer)
    requires Sound(c, e, v) && v.head.Some?
    ensures Sound(c, e, VerifyBatch(c, e, v, t))
  {
    hide HeadAfter, LinksOf, Chained, Anchors, Note, After, Accepts;
    if VerifyBatch(c, e, v, t).problems == 0 {
      var b := Sealed(v.head.value, v.key.value, t, v.pending);
      ChainedExtends(c, v.accepted, b);
      if e.head.Some? {
        NoteNext(c, e.head.value, v.accepted, b, v.anchor);
      }
    }
  }

  lemma LineSound(c: Suite, e: Expect, v: Verify, index: nat, line: Line)
    requires Sound(c, e, v) && !e.allowPruned && Clean(line)
    ensures Sound(c, e, VerifyLine(c, e, v, index, line))
  {
    match c.classify(line) {
      case Segment(h) =>
        if index == 0 && h.prev.Some? && h.key.Some? {
          HeaderSound(c, e, v, h);
        }
      case Batch(t) =>
        if v.head.Some? {
          BatchSound(c, e, v, t);
        }
      case _ =>
    }
    hide HeadAfter, LinksOf, Chained, Anchors, VerifyHeader, VerifyBatch;
  }

  lemma {:induction false} LinesSound(c: Suite, e: Expect, v: Verify, lines: seq<Line>)
    requires Sound(c, e, v) && !e.allowPruned && AllClean(lines)
    ensures Sound(c, e, VerifyLines(c, e, v, lines))
  {
    if lines == [] {
    } else {
      var rest := lines[..|lines| - 1];
      LinesSound(c, e, v, rest);
      LineSound(c, e, VerifyLines(c, e, v, rest), |rest|, lines[|rest|]);
    }
    hide Sound, VerifyLine;
  }

  lemma SegmentSound(c: Suite, e: Expect, v: Verify, data: seq<byte>, newest: bool)
    requires Sound(c, e, v) && !e.allowPruned
    ensures Sound(c, e, VerifySegment(c, e, v, data, newest))
  {
    hide HeadAfter, LinksOf, Chained, Anchors, VerifyLines, Split;
    var p := Split(data);
    SplitWhole(data);
    var start := v.(key := None, pending := [], problems := v.problems + if p.torn != [] && !newest then 1 else 0);
    assert Sound(c, e, start);
    LinesSound(c, e, start, p.lines);
  }

  lemma {:induction false} OlderSound(c: Suite, e: Expect, segments: seq<seq<byte>>)
    requires !e.allowPruned
    ensures Sound(c, e, VerifyOlder(c, e, segments))
  {
    if segments == [] {
      assert Chained(c, []);
    } else {
      OlderSound(c, e, segments[..|segments| - 1]);
      SegmentSound(c, e, VerifyOlder(c, e, segments[..|segments| - 1]), segments[|segments| - 1], false);
    }
    hide Sound, VerifySegment;
  }

  // ---------------------------------------------------------------------------
  // Main results
  // ---------------------------------------------------------------------------

  /** The batches a log's verification counted. */
  function Accepted(c: Suite, e: Expect, segments: seq<seq<byte>>): seq<Sealed>
    requires segments != []
  {
    VerifyAll(c, e, segments).accepted
  }

  lemma VerifiedIsSound(c: Suite, e: Expect, segments: seq<seq<byte>>, forged: nat)
    requires !e.allowPruned && ReportOf(c, e, segments, forged).problems == 0
    ensures segments != [] && Chained(c, Accepted(c, e, segments)) && Accepted(c, e, segments) != []
    ensures ReportOf(c, e, segments, forged).head == Some(HeadAfter(c, LinksOf(Accepted(c, e, segments))))
    ensures e.head.Some? ==> Anchors(c, e.head.value, Accepted(c, e, segments), Some(true))
    ensures e.keys != [] ==> KeysPinned(e, VerifyAll(c, e, segments))
  {
    var older := segments[..|segments| - 1];
    OlderSound(c, e, older);
    SegmentSound(c, e, VerifyOlder(c, e, older), segments[|segments| - 1], true);
    hide HeadAfter, LinksOf, Chained, Anchors, VerifyOlder, VerifySegment, KeysPinned, Records, Recovered;
  }

  /**
   Verification with an expected head, nothing pruned: the batches before
   that head are, byte for byte and in order, the ones hashed into it. Any
   history with that head is theirs, or it and they collide at a batch.
   */
  lemma ExpectedHeadFixesLog(c: Suite, e: Expect, segments: seq<seq<byte>>, forged: nat, history: seq<Link>)
    returns (i: nat)
    requires e.head.Some? && !e.allowPruned && ReportOf(c, e, segments, forged).problems == 0
    requires HeadAfter(c, history) == e.head.value && |history| < TWO64 && Readable(history)
    ensures segments != [] && |history| == e.head.value.next <= |Accepted(c, e, segments)|
    ensures var links := LinksOf(Accepted(c, e, segments))[..|history|];
      links == history || (CollideAt(c, links, history, i) && links[i + 1..] == history[i + 1..])
  {
    hide HeadAfter, VerifyAll, LinksOf, Accepts, ReportOf;
    VerifiedIsSound(c, e, segments, forged);
    var h, acc := e.head.value, Accepted(c, e, segments);
    HeadCounts(c, history);
    assert |history| == h.next;
    assert forall i :: 0 <= i < |acc| ==> ChainedAt(c, acc, i) && AllClean(acc[i].records);
    LinksReadable(acc);
    i := HeadDetermines(c, LinksOf(acc)[..h.next], history);
  }

  /** Two logs that verify with the same expected head hold the same batches before it, or collide at one of them. */
  lemma SameHeadSameBatches(c: Suite, e: Expect, f: Expect, a: seq<seq<byte>>, b: seq<seq<byte>>, m: nat, n: nat)
    returns (i: nat)
    requires e.head.Some? && f.head == e.head && !e.allowPruned && !f.allowPruned
    requires ReportOf(c, e, a, m).problems == 0 && ReportOf(c, f, b, n).problems == 0
    ensures a != [] && b != []
    ensures var k := e.head.value.next; var p, q := LinksOf(Accepted(c, e, a)), LinksOf(Accepted(c, f, b));
      && k <= |p| && k <= |q|
      && (p[..k] == q[..k] || (CollideAt(c, p[..k], q[..k], i) && p[i + 1..k] == q[i + 1..k]))
  {
    hide HeadAfter, VerifyAll, LinksOf, Accepts, ReportOf, CollideAt;
    VerifiedIsSound(c, e, a, m);
    VerifiedIsSound(c, f, b, n);
    var k, acc := e.head.value.next, Accepted(c, f, b);
    assert forall i :: 0 <= i < |acc| ==> ChainedAt(c, acc, i) && AllClean(acc[i].records);
    LinksReadable(acc);
    var p, q := LinksOf(Accepted(c, e, a)), LinksOf(acc);
    i := ExpectedHeadFixesLog(c, e, a, m, q[..k]);
    CollisionWithin(c, p[..k], q[..k], i);
    assert p[..k] != q[..k] ==> p[..k][i + 1..] == p[i + 1..k] && q[..k][i + 1..] == q[i + 1..k];
  }

  lemma CollisionWithin(c: Suite, a: seq<Link>, b: seq<Link>, i: nat)
    ensures CollideAt(c, a, b, i) ==> i < |a| && i < |b|
  {
  }

  lemma {:induction false} LinksReadable(accepted: seq<Sealed>)
    requires forall i :: 0 <= i < |accepted| ==> AllClean(accepted[i].records)
    ensures Readable(LinksOf(accepted))
  {
    if accepted == [] {
    } else {
      LinksReadable(accepted[..|accepted| - 1]);
    }
  }

  /** A batch someone signed: under which key, after which hash, at which position, in which form, over which bytes. */
  datatype Signed = Signed(key: Key, prev: Digest, number: U64, form: Form, records: seq<byte>)

  /** A signature checks only on a hash the holder of the key signed, as the hash of a batch. */
  ghost predicate Unforgeable(c: Suite, keys: seq<Key>, made: set<Signed>) {
    forall k, d, s :: k in keys && c.verify(k, d, s) ==> exists m :: m in made && Signs(c, m, k, d)
  }

  ghost predicate Signs(c: Suite, m: Signed, k: Key, d: Digest) {
    m.key == k && d == c.hash(SignedFrame(m))
  }

  /** What the hash of a signed batch covers. */
  function SignedFrame(m: Signed): seq<byte> {
    Frame(m.prev, m.number, m.form, m.records)
  }

  /** A batch verification counted, as something signed. */
  function AsSigned(b: Sealed): Signed {
    Signed(b.key, b.at.hash, b.at.next, UnwrapOr(FormOf(b.trailer), V1), Flat(b.records))
  }

  /**
   With pinned keys, every batch verification counted is one such a key
   signed, at that position after that predecessor; or the key signed
   another one, whose framing collides with this batch's.
   */
  lemma PinnedKeySignedIt(c: Suite, e: Expect, segments: seq<seq<byte>>, forged: nat, made: set<Signed>, i: nat)
    returns (m: Signed)
    requires !e.allowPruned && ReportOf(c, e, segments, forged).problems == 0 && e.keys != []
    requires Unforgeable(c, e.keys, made) && segments != [] && i < |Accepted(c, e, segments)|
    ensures var b := Accepted(c, e, segments)[i];
      && b.at == HeadAfter(c, LinksOf(Accepted(c, e, segments)[..i]))
      && b.key in e.keys && m in made && m.key == b.key
      && (m == AsSigned(b) || Collide(c, SignedFrame(AsSigned(b)), SignedFrame(m)))
  {
    VerifiedIsSound(c, e, segments, forged);
    var b := Accepted(c, e, segments)[i];
    assert ChainedAt(c, Accepted(c, e, segments), i);
    hide VerifyAll, HeadAfter, LinksOf;
    var a := AsSigned(b);
    var x := SignedFrame(a);
    assert c.verify(b.key, c.hash(x), b.trailer.sig.value);
    m :| m in made && Signs(c, m, b.key, c.hash(x));
    if x == SignedFrame(m) {
      FrameInjective(a.prev, a.number, a.form, a.records, m.prev, m.number, m.form, m.records);
    }
  }
}
