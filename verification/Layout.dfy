/**
 Fixed-size records of little-endian integers: the byte layout shared by the
 kernel programs and the decoder. A layout is the list of its field widths.
 */
module Layout {
  type byte = n: int | 0 <= n < 256

  function Zeros(n: nat): (r: seq<byte>)
    ensures |r| == n
  {
    seq(n, _ => 0)
  }

  function Pow256(w: nat): (r: nat)
    ensures r >= 1
  {
    if w == 0 then 1 else 256 * Pow256(w - 1)
  }

  /** `n` in `w` little-endian bytes. */
  function Bytes(n: nat, w: nat): (r: seq<byte>)
    ensures |r| == w
  {
    if w == 0 then [] else [n % 256] + Bytes(n / 256, w - 1)
  }

  function Value(s: seq<byte>): nat {
    if s == [] then 0 else s[0] + 256 * Value(s[1..])
  }

  /** The last byte is the highest. */
  lemma {:induction false} ValueLast(s: seq<byte>)
    requires s != []
    ensures Value(s) == Value(s[..|s| - 1]) + Pow256(|s| - 1) * s[|s| - 1]
  {
    if |s| == 1 {
      assert s[1..] == [];
    } else {
      ValueLast(s[1..]);
      assert s[1..][..|s| - 2] == s[..|s| - 1][1..];
    }
  }

  lemma {:induction false} ValueOfBytes(n: nat, w: nat)
    requires n < Pow256(w)
    ensures Value(Bytes(n, w)) == n
  {
    if w == 0 {
    } else {
      ValueOfBytes(n / 256, w - 1);
      assert Bytes(n, w)[1..] == Bytes(n / 256, w - 1);
    }
  }

  lemma LowByte(b: byte, v: nat)
    ensures (b + 256 * v) % 256 == b && (b + 256 * v) / 256 == v
  {
  }

  lemma {:induction false} BytesOfValue(s: seq<byte>)
    ensures Bytes(Value(s), |s|) == s
    ensures Value(s) < Pow256(|s|)
  {
    if s == [] {
    } else {
      BytesOfValue(s[1..]);
      LowByte(s[0], Value(s[1..]));
      assert s == [s[0]] + s[1..];
    }
  }

  /** Size in bytes of a layout. */
  function Size(ws: seq<nat>): nat {
    if ws == [] then 0 else ws[0] + Size(ws[1..])
  }

  /** The values fit their fields. */
  predicate Fits(ws: seq<nat>, vs: seq<nat>) {
    |ws| == |vs| && forall i :: 0 <= i < |ws| ==> vs[i] < Pow256(ws[i])
  }

  function Pack(ws: seq<nat>, vs: seq<nat>): (r: seq<byte>)
    requires |ws| == |vs|
    ensures |r| == Size(ws)
  {
    if ws == [] then [] else Bytes(vs[0], ws[0]) + Pack(ws[1..], vs[1..])
  }

  function Unpack(ws: seq<nat>, bs: seq<byte>): (r: seq<nat>)
    requires |bs| == Size(ws)
    ensures |r| == |ws|
  {
    if ws == [] then [] else [Value(bs[..ws[0]])] + Unpack(ws[1..], bs[ws[0]..])
  }

  lemma {:induction false} UnpackOfPack(ws: seq<nat>, vs: seq<nat>)
    requires Fits(ws, vs)
    ensures Unpack(ws, Pack(ws, vs)) == vs
  {
    if ws == [] {
    } else {
      var head, tail := Bytes(vs[0], ws[0]), Pack(ws[1..], vs[1..]);
      assert (head + tail)[..ws[0]] == head && (head + tail)[ws[0]..] == tail;
      ValueOfBytes(vs[0], ws[0]);
      UnpackOfPack(ws[1..], vs[1..]);
    }
  }

  lemma {:induction false} PackOfUnpack(ws: seq<nat>, bs: seq<byte>)
    requires |bs| == Size(ws)
    ensures Pack(ws, Unpack(ws, bs)) == bs
    ensures Fits(ws, Unpack(ws, bs))
  {
    if ws == [] {
    } else {
      var vs := Unpack(ws, bs);
      BytesOfValue(bs[..ws[0]]);
      PackOfUnpack(ws[1..], bs[ws[0]..]);
      assert vs[1..] == Unpack(ws[1..], bs[ws[0]..]);
      assert bs == bs[..ws[0]] + bs[ws[0]..];
    }
  }
}
