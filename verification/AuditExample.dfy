/**
 A key and a rendering of control lines that work, for any hash and a parser as
 strict about lengths as the real one: what the results about the log ask of
 them can be met.

 A control line is its fields, each in two digits a byte and ended by a zero.
 */
module AuditExample {
  import opened Wrappers
  import opened Layout
  import opened AuditFrame
  import opened AuditLines
  import opened AuditChain
  import opened AuditText

  function Digits(s: seq<byte>): Line {
    if s == [] then [] else [100 + s[0] / 16, 100 + s[0] % 16] + Digits(s[1..])
  }

  function Fields(fields: seq<seq<byte>>): Line {
    if fields == [] then [] else Digits(fields[0]) + [0] + Fields(fields[1..])
  }

  function Optional(s: Option<seq<byte>>): seq<byte> {
    match s case None => [] case Some(v) => [1] + v
  }

  function Flag(b: bool): seq<byte> {
    [if b then 1 else 0]
  }

  function HeaderFields(h: Header): seq<seq<byte>> {
    [BigEndian(h.number, 8), Optional(h.prev), Optional(h.key)]
  }

  function TrailerFields(t: Trailer): seq<seq<byte>> {
    [BigEndian(t.number, 8), BigEndian(t.records, 8), Optional(t.prev), Optional(t.hash), Optional(t.sig),
     Flag(t.recovered), [t.v]]
  }

  function HeaderText(h: Header): Line {
    [1] + Fields(HeaderFields(h))
  }

  function TrailerText(t: Trailer): Line {
    [2] + Fields(TrailerFields(t))
  }

  // ---------------------------------------------------------------------------
  // It reads back
  // ---------------------------------------------------------------------------

  lemma {:induction false} DigitsFacts(s: seq<byte>)
    ensures |Digits(s)| == 2 * |s| && forall i :: 0 <= i < |Digits(s)| ==> Digits(s)[i] >= 100
  {
    if s == [] {
    } else {
      DigitsFacts(s[1..]);
    }
  }

  lemma {:induction false} DigitsInjective(a: seq<byte>, b: seq<byte>)
    requires Digits(a) == Digits(b)
    ensures a == b
  {
    DigitsFacts(a);
    DigitsFacts(b);
    if a == [] {
    } else {
      var x, y := Digits(a), Digits(b);
      assert x[0] == 100 + a[0] / 16 && y[0] == 100 + b[0] / 16 && x[1] == 100 + a[0] % 16 && y[1] == 100 + b[0] % 16;
      assert x[2..] == Digits(a[1..]) && y[2..] == Digits(b[1..]);
      DigitsInjective(a[1..], b[1..]);
      assert a == [a[0]] + a[1..] && b == [b[0]] + b[1..];
    }
  }

  /** The first zero ends the first field. */
  lemma FirstField(a: seq<byte>, b: seq<byte>, x: Line, y: Line)
    requires Digits(a) + [0] + x == Digits(b) + [0] + y
    ensures a == b && x == y
  {
    DigitsFacts(a);
    DigitsFacts(b);
    hide Digits;
    var p, q := Digits(a), Digits(b);
    var whole := p + [0] + x;
    assert whole[|p|] == 0 && whole[|q|] == 0;
    assert forall i :: 0 <= i < |p| ==> whole[i] == p[i];
    assert forall i :: 0 <= i < |q| ==> whole[i] == q[i];
    assert |p| == |q|;
    assert p == whole[..|p|] && q == whole[..|q|];
    assert x == whole[|p| + 1..] && y == whole[|q| + 1..];
    DigitsInjective(a, b);
  }

  lemma {:induction false} FieldsInjective(a: seq<seq<byte>>, b: seq<seq<byte>>)
    requires |a| == |b| && Fields(a) == Fields(b)
    ensures a == b
  {
    if a == [] {
    } else {
      FirstField(a[0], b[0], Fields(a[1..]), Fields(b[1..]));
      FieldsInjective(a[1..], b[1..]);
      assert a == [a[0]] + a[1..] && b == [b[0]] + b[1..];
    }
  }

  lemma {:induction false} FieldsClean(fields: seq<seq<byte>>)
    ensures Clean(Fields(fields))
  {
    if fields == [] {
    } else {
      DigitsFacts(fields[0]);
      FieldsClean(fields[1..]);
    }
  }

  lemma OptionalInjective(a: Option<seq<byte>>, b: Option<seq<byte>>)
    requires Optional(a) == Optional(b)
    ensures a == b
  {
    if a.Some? && b.Some? {
      assert a.value == Optional(a)[1..] && b.value == Optional(b)[1..];
    }
  }

  lemma HeaderInjective(g: Header, h: Header)
    requires HeaderText(g) == HeaderText(h)
    ensures g == h
  {
    hide Fields, Optional;
    var a, b := HeaderFields(g), HeaderFields(h);
    assert HeaderText(g)[1..] == Fields(a) && HeaderText(h)[1..] == Fields(b);
    FieldsInjective(a, b);
    assert a[0] == b[0] && a[1] == b[1] && a[2] == b[2];
    EightBytes(g.number, h.number);
    OptionalInjective(g.prev, h.prev);
    OptionalInjective(g.key, h.key);
  }

  lemma TrailerInjective(s: Trailer, t: Trailer)
    requires TrailerText(s) == TrailerText(t)
    ensures s == t
  {
    hide Fields, Optional;
    var a, b := TrailerFields(s), TrailerFields(t);
    assert TrailerText(s)[1..] == Fields(a) && TrailerText(t)[1..] == Fields(b);
    FieldsInjective(a, b);
    assert a[0] == b[0] && a[1] == b[1] && a[2] == b[2] && a[3] == b[3] && a[4] == b[4] && a[5] == b[5] && a[6] == b[6];
    EightBytes(s.number, t.number);
    EightBytes(s.records, t.records);
    OptionalInjective(s.prev, t.prev);
    OptionalInjective(s.hash, t.hash);
    OptionalInjective(s.sig, t.sig);
    assert a[5][0] == b[5][0] && a[6][0] == b[6][0];
  }

  // ---------------------------------------------------------------------------
  // The witness
  // ---------------------------------------------------------------------------

  const KEY_BYTES: nat := 32
  const SIG_BYTES: nat := 64

  /** A key or a signature of any other length is not read as one. */
  predicate Sized(k: Kind) {
    match k
    case Segment(h) => h.key.Some? ==> |h.key.value| == KEY_BYTES
    case Batch(t) => t.sig.Some? ==> |t.sig.value| == SIG_BYTES
    case _ => true
  }

  ghost function Classify(line: Line): (k: Kind)
    ensures Sized(k)
  {
    if exists h :: Sized(Segment(h)) && HeaderText(h) == line then
      var h :| Sized(Segment(h)) && HeaderText(h) == line; Segment(h)
    else if exists t :: Sized(Batch(t)) && TrailerText(t) == line then
      var t :| Sized(Batch(t)) && TrailerText(t) == line; Batch(t)
    else Record
  }

  lemma ClassifyHeader(h: Header)
    requires Sized(Segment(h))
    ensures Clean(HeaderText(h)) && Classify(HeaderText(h)) == Segment(h)
  {
    FieldsClean(HeaderFields(h));
    var line := HeaderText(h);
    assert Classify(line).Segment? && HeaderText(Classify(line).header) == line;
    HeaderInjective(Classify(line).header, h);
  }

  lemma ClassifyTrailer(t: Trailer)
    requires Sized(Batch(t))
    ensures Clean(TrailerText(t)) && Classify(TrailerText(t)) == Batch(t)
  {
    FieldsClean(TrailerFields(t));
    forall h ensures HeaderText(h) != TrailerText(t) {
      assert HeaderText(h)[0] == 1 && TrailerText(t)[0] == 2;
    }
    var line := TrailerText(t);
    assert Classify(line).Batch? && TrailerText(Classify(line).trailer) == line;
    TrailerInjective(Classify(line).trailer, t);
  }

  function Twice(s: seq<byte>): seq<byte> {
    s + s
  }

  /**
   With any hash and any key of 32 bytes there are signatures of 64 bytes that check and control lines that read back,
   for a parser that reads no key and no signature of another length; and there are records.
   */
  lemma WorksIsMet(hash: seq<byte> -> Digest, key: Key) returns (c: Suite, w: Signer)
    requires |key| == KEY_BYTES
    ensures c.hash == hash && w.key == key && Works(c, w) && Loggable(c, [])
    ensures (forall line :: Sized(c.classify(line))) && (forall d :: |w.sign(d)| == SIG_BYTES)
  {
    c := Suite(hash, (k, d, s) => s == Twice(d), line => Classify(line));
    w := Signer(key, d => Twice(d), h => HeaderText(h), t => TrailerText(t));
    forall h: Header | OwnHeader(w, h) ensures Clean(w.header(h)) && c.classify(w.header(h)) == Segment(h) {
      ClassifyHeader(h);
    }
    forall t: Trailer | OwnTrailer(w, t) ensures Clean(w.trailer(t)) && c.classify(w.trailer(t)) == Batch(t) {
      ClassifyTrailer(t);
    }
    assert forall h :: |HeaderText(h)| > 0;
    assert forall t :: |TrailerText(t)| > 0;
  }
}
