/** What a batch hash is computed over, in both forms, and why no two batches share it. */
module AuditFrame {
  import opened Layout

  type U64 = n: nat | n < 0x1_0000_0000_0000_0000

  type Digest = d: seq<byte> | |d| == 32 witness Zeros(32)

  const GENESIS: Digest := Zeros(32)

  // "rk-audit-v1" and "rk-audit-v2".
  const DOMAIN: seq<byte> := [114, 107, 45, 97, 117, 100, 105, 116, 45, 118, 49]
  const DOMAIN_V2: seq<byte> := [114, 107, 45, 97, 117, 100, 105, 116, 45, 118, 50]

  /** The form of a trailer: rk 0.2's, or the current one, which covers the record count. */
  datatype Form = V1 | V2(count: U64)

  function BigEndian(n: nat, w: nat): (r: seq<byte>)
    ensures |r| == w
  {
    if w == 0 then [] else BigEndian(n / 256, w - 1) + [n % 256]
  }

  function Frame(prev: Digest, number: U64, form: Form, records: seq<byte>): seq<byte> {
    match form
    case V1 => DOMAIN + prev + BigEndian(number, 8) + records
    case V2(count) => DOMAIN_V2 + prev + BigEndian(number, 8) + BigEndian(count, 8) + records
  }

  lemma {:induction false} BigEndianInjective(m: nat, n: nat, w: nat)
    requires m < Pow256(w) && n < Pow256(w) && BigEndian(m, w) == BigEndian(n, w)
    ensures m == n
  {
    if w == 0 {
    } else {
      var a, b := BigEndian(m, w), BigEndian(n, w);
      assert a[..w - 1] == BigEndian(m / 256, w - 1) && b[..w - 1] == BigEndian(n / 256, w - 1);
      assert a[w - 1] == m % 256 && b[w - 1] == n % 256;
      BigEndianInjective(m / 256, n / 256, w - 1);
    }
  }

  lemma EightBytes(m: U64, n: U64)
    requires BigEndian(m, 8) == BigEndian(n, 8)
    ensures m == n
  {
    assert Pow256(8) == 0x1_0000_0000_0000_0000 by {
      assert Pow256(4) == 0x1_0000_0000;
    }
    BigEndianInjective(m, n, 8);
  }

  /**
   Both forms together are injective: the framing says which form, after which batch, at which position, over which
   bytes.
   */
  lemma FrameInjective(p: Digest, m: U64, f: Form, x: seq<byte>, q: Digest, n: U64, g: Form, y: seq<byte>)
    requires Frame(p, m, f, x) == Frame(q, n, g, y)
    ensures p == q && m == n && f == g && x == y
  {
    hide BigEndian;
    var a, b := Frame(p, m, f, x), Frame(q, n, g, y);
    assert a[10] == if f.V1? then 49 else 50;
    assert b[10] == if g.V1? then 49 else 50;
    assert a[11..43] == p && b[11..43] == q;
    assert a[43..51] == BigEndian(m, 8) && b[43..51] == BigEndian(n, 8);
    EightBytes(m, n);
    if f.V1? {
      assert a[51..] == x && b[51..] == y;
    } else {
      assert a[51..59] == BigEndian(f.count, 8) && b[51..59] == BigEndian(g.count, 8);
      EightBytes(f.count, g.count);
      assert a[59..] == x && b[59..] == y;
    }
  }

  /** Byte `i` of a number is its digit of that place, the highest first. */
  lemma {:induction false} BigEndianAt(n: nat, w: nat, i: nat)
    requires i < w
    ensures BigEndian(n, w)[i] == n / Pow256(w - 1 - i) % 256
  {
    if i == w - 1 {
    } else {
      var rest := BigEndian(n / 256, w - 1);
      assert BigEndian(n, w)[i] == rest[i];
      BigEndianAt(n / 256, w - 1, i);
      DivideTwice(n, Pow256(w - 2 - i));
    }
  }

  lemma DivideTwice(n: nat, d: nat)
    requires d > 0
    ensures n / 256 / d == n / (256 * d)
  {
    var q, r := n / (256 * d), n % (256 * d);
    assert n == 256 * (d * q) + r;
    assert n / 256 == d * q + r / 256;
    assert 0 <= r / 256 < d;
    QuotientIs(n / 256, d, q, r / 256);
  }

  lemma QuotientIs(m: nat, d: nat, q: nat, r: nat)
    requires m == d * q + r && r < d
    ensures m / d == q
  {
    var k := m / d - q;
    assert d * (m / d) + m % d == m;
    assert d * k == d * (m / d) - d * q;
    SmallMultiple(k, d);
  }

  lemma SmallMultiple(k: int, d: nat)
    requires 0 < d * k + d < 2 * d
    ensures k == 0
  {
  }

  /** The eight bytes are the number, highest byte first. */
  ghost predicate IsNumber(s: seq<byte>, n: U64) {
    |s| == 8 && forall i :: 0 <= i < 8 ==> s[i] == n / Pow256(7 - i) % 256
  }

  lemma EightDigits(n: U64)
    ensures IsNumber(BigEndian(n, 8), n)
  {
    hide BigEndian, Pow256;
    forall i | 0 <= i < 8 ensures BigEndian(n, 8)[i] == n / Pow256(7 - i) % 256 {
      BigEndianAt(n, 8, i);
    }
  }

  ghost predicate IsText(s: seq<byte>, text: string) {
    |s| == |text| && forall i :: 0 <= i < |text| ==> s[i] == text[i] as int
  }

  /** The framing, byte by byte: domain, previous hash, number, in the current form the count, and the records. */
  lemma FrameBytes(prev: Digest, number: U64, form: Form, records: seq<byte>)
    ensures var s := Frame(prev, number, form, records);
      && |s| >= 51 && IsText(s[..11], if form.V1? then "rk-audit-v1" else "rk-audit-v2")
      && s[11..43] == prev && IsNumber(s[43..51], number)
      && (form.V1? ==> s[51..] == records)
      && (form.V2? ==> |s| >= 59 && IsNumber(s[51..59], form.count) && s[59..] == records)
  {
    hide BigEndian, IsNumber;
    var s := Frame(prev, number, form, records);
    assert s[..11] == if form.V1? then DOMAIN else DOMAIN_V2;
    assert s[11..43] == prev && s[43..51] == BigEndian(number, 8);
    EightDigits(number);
    if form.V2? {
      assert s[51..59] == BigEndian(form.count, 8) && s[59..] == records;
      EightDigits(form.count);
    } else {
      assert s[51..] == records;
    }
  }
}
