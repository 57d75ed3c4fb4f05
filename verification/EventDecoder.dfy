/**
 The validating decoder of ring-buffer records, and the encoder it inverts.

 Wire form: header, payload length, a reserved zero word, payload. A payload is
 a fixed body, followed for the string-carrying types by length-prefixed
 strings, as many as the body says.
 */
module EventDecoder {
  import opened Wrappers
  import opened Layout

  const ABI_VERSION: nat := 2
  const ENVELOPE: nat := 56
  const MAX_PAYLOAD: nat := 2048

  // Field widths of the wire structures.
  const HDR: seq<nat> := [8, 8, 8, 4, 4, 4, 4, 2, 1, 1, 4]
  const EXEC: seq<nat> := [8, 8, 4, 2, 2]
  const FILE: seq<nat> := [8, 8, 4, 4, 2, 2, 4]
  const FILE_DENY: seq<nat> := [8, 8, 4, 2, 1, 1, 2, 2, 4]
  const NET: seq<nat> := [16, 16, 2, 2, 2, 1, 1]
  const SOCK: seq<nat> := [2, 2, 4, 4, 4]
  const TUN: seq<nat> := [4, 4]
  const TAMPER: seq<nat> := [2, 2, 4, 8]

  // Positions of the fields the decoder looks at.
  const HDR_TYPE: nat := 7
  const HDR_VERDICT: nat := 8
  const HDR_ABI: nat := 9

  /** How the payload of an event type is read. */
  datatype Shape =
    | WithStrings(widths: seq<nat>, countAt: nat)
    | BodyOnly(bodyWidths: seq<nat>)
    | RawBytes
    | Unknown

  function ShapeOf(eventType: nat): (r: Shape)
    ensures r.WithStrings? ==> r.countAt < |r.widths|
  {
    match eventType
    case 1 => WithStrings(EXEC, 3)
    case 2 => WithStrings(FILE, 4)
    case 3 => BodyOnly(NET)
    case 9 => BodyOnly(NET)
    case 10 => BodyOnly(SOCK)
    case 12 => BodyOnly(TUN)
    case 8 => BodyOnly(TAMPER)
    case 11 => WithStrings(FILE_DENY, 6)
    case 4 => RawBytes
    case 5 => RawBytes
    case 6 => RawBytes
    case 7 => RawBytes
    case _ => Unknown
  }

  datatype Payload =
    | Fields(body: seq<nat>, strings: Strings)
    | Raw(data: seq<byte>)

  /** A validated tail of strings and how many are left in it. */
  datatype Strings = Strings(data: seq<byte>, remaining: nat)

  datatype Event = Event(hdr: seq<nat>, payload: Payload)

  datatype DecodeError =
    | TooShort(needed: nat, provided: nat)
    | AbiMismatch(found: nat)
    | ReservedNonZero(value: nat)
    | PayloadTooLarge(length: nat)
    | LengthMismatch(expected: nat, found: nat)
    | UnknownType(eventType: nat)
    | UnknownVerdict(verdict: nat)
    | BodyTooShort(bodyNeeded: nat, bodyProvided: nat)
    | MalformedStrings
    | TrailingBytes(count: nat)

  // ---------------------------------------------------------------------------
  // Strings
  // ---------------------------------------------------------------------------

  /** Splits one length-prefixed string off the front. */
  function SplitStr(data: seq<byte>): (r: Option<(seq<byte>, seq<byte>)>)
    ensures r.Some? ==> |r.value.1| < |data|
  {
    if |data| < 2 then None
    else
      var len := Value(data[..2]);
      var rest := data[2..];
      if len > |rest| then None else Some((rest[..len], rest[len..]))
  }

  function ValidateSpec(data: seq<byte>, count: nat): Option<DecodeError> {
    if count == 0 then (if data == [] then None else Some(TrailingBytes(|data|)))
    else
      var s := SplitStr(data);
      if s.None? then Some(MalformedStrings) else ValidateSpec(s.value.1, count - 1)
  }

  /** Checks that the tail is exactly `count` strings. */
  method Validate(data: seq<byte>, count: nat) returns (r: Result<Strings, DecodeError>)
    ensures r == if ValidateSpec(data, count).Some?
        then Err(ValidateSpec(data, count).value) else Ok(Strings(data, count))
  {
    var rest := data;
    for i := 0 to count
      invariant ValidateSpec(rest, count - i) == ValidateSpec(data, count)
    {
      var s := SplitStr(rest);
      if s.None? {
        return Err(MalformedStrings);
      }
      rest := s.value.1;
    }
    if rest != [] {
      return Err(TrailingBytes(|rest|));
    }
    return Ok(Strings(data, count));
  }

  /** The strings of a validated tail, in order. */
  function All(s: Strings): seq<seq<byte>>
    decreases s.remaining
  {
    if s.remaining == 0 || SplitStr(s.data).None? then []
    else
      var (head, rest) := SplitStr(s.data).value;
      [head] + All(Strings(rest, s.remaining - 1))
  }

  /** The iterator over a tail. */
  class StringIter {
    var data: seq<byte>
    var remaining: nat

    constructor (s: Strings)
      ensures data == s.data && remaining == s.remaining
    {
      data, remaining := s.data, s.remaining;
    }

    method Next() returns (r: Option<seq<byte>>)
      modifies this
      ensures r.None? <==> old(All(Strings(data, remaining))) == []
      ensures r.Some? ==> [r.value] + All(Strings(data, remaining)) == old(All(Strings(data, remaining)))
      ensures r.None? ==> data == old(data) && remaining == old(remaining)
    {
      if remaining == 0 {
        return None;
      }
      var s := SplitStr(data);
      if s.None? {
        return None;
      }
      data := s.value.1;
      remaining := remaining - 1;
      return Some(s.value.0);
    }
  }

  function EncodeStr(s: seq<byte>): (r: seq<byte>)
    ensures |r| == 2 + |s|
  {
    Bytes(|s|, 2) + s
  }

  function EncodeStrs(ss: seq<seq<byte>>): seq<byte> {
    if ss == [] then [] else EncodeStr(ss[0]) + EncodeStrs(ss[1..])
  }

  predicate ShortStrings(ss: seq<seq<byte>>) {
    forall i :: 0 <= i < |ss| ==> |ss[i]| < 0x1_0000
  }

  lemma SplitOfEncode(s: seq<byte>, rest: seq<byte>)
    requires |s| < 0x1_0000
    ensures SplitStr(EncodeStr(s) + rest) == Some((s, rest))
  {
    var data := EncodeStr(s) + rest;
    assert Pow256(2) == 0x1_0000;
    ValueOfBytes(|s|, 2);
    assert data[..2] == Bytes(|s|, 2);
    assert data[2..] == s + rest;
    assert (s + rest)[..|s|] == s && (s + rest)[|s|..] == rest;
  }

  /** Encoded strings validate, and are read back as they were written. */
  lemma {:induction false} EncodedStringsRead(ss: seq<seq<byte>>)
    requires ShortStrings(ss)
    ensures ValidateSpec(EncodeStrs(ss), |ss|).None?
    ensures All(Strings(EncodeStrs(ss), |ss|)) == ss
  {
    if ss == [] {
    } else {
      SplitOfEncode(ss[0], EncodeStrs(ss[1..]));
      EncodedStringsRead(ss[1..]);
      hide SplitStr;
      assert ss == [ss[0]] + ss[1..];
    }
  }

  lemma EncodeOfSplit(data: seq<byte>)
    requires SplitStr(data).Some?
    ensures EncodeStr(SplitStr(data).value.0) + SplitStr(data).value.1 == data
    ensures |SplitStr(data).value.0| < 0x1_0000
  {
    BytesOfValue(data[..2]);
    assert Pow256(2) == 0x1_0000;
    var len := Value(data[..2]);
    assert data == data[..2] + (data[2..][..len] + data[2..][len..]);
  }

  /** A tail that validates is the encoding of the strings read from it. */
  lemma {:induction false} ValidTailIsEncoding(data: seq<byte>, count: nat)
    requires ValidateSpec(data, count).None?
    ensures EncodeStrs(All(Strings(data, count))) == data
    ensures |All(Strings(data, count))| == count && ShortStrings(All(Strings(data, count)))
  {
    if count == 0 {
    } else {
      var (head, rest) := SplitStr(data).value;
      EncodeOfSplit(data);
      hide SplitStr;
      ValidTailIsEncoding(rest, count - 1);
      assert All(Strings(data, count))[1..] == All(Strings(rest, count - 1));
    }
  }

  // ---------------------------------------------------------------------------
  // Records
  // ---------------------------------------------------------------------------

  function DecodeBody(payload: seq<byte>, widths: seq<nat>): (r: Result<(seq<nat>, seq<byte>), DecodeError>)
    ensures r.Ok? ==> |r.value.0| == |widths|
  {
    if |payload| < Size(widths) then Err(BodyTooShort(Size(widths), |payload|))
    else Ok((Unpack(widths, payload[..Size(widths)]), payload[Size(widths)..]))
  }

  function DecodePayload(eventType: nat, payload: seq<byte>): Result<Payload, DecodeError> {
    match ShapeOf(eventType)
    case WithStrings(ws, at) =>
      var b := DecodeBody(payload, ws);
      if b.Err? then Err(b.error)
      else
        var (body, tail) := b.value;
        var e := ValidateSpec(tail, body[at]);
        if e.Some? then Err(e.value) else Ok(Fields(body, Strings(tail, body[at])))
    case BodyOnly(ws) =>
      var b := DecodeBody(payload, ws);
      if b.Err? then Err(b.error)
      else
        var (body, tail) := b.value;
        if tail != [] then Err(TrailingBytes(|tail|)) else Ok(Fields(body, Strings([], 0)))
    case RawBytes => Ok(Raw(payload))
    case Unknown => Err(UnknownType(eventType))
  }

  lemma HdrSize()
    ensures Size(HDR) == 48 && |HDR| == 11
  {
    assert Size(HDR) == 8 + (8 + (8 + (4 + (4 + (4 + (4 + (2 + (1 + (1 + (4 + 0)))))))))) by {
      assert HDR[1..][1..][1..][1..] == [4, 4, 4, 2, 1, 1, 4];
      assert [4, 4, 4, 2, 1, 1, 4][1..][1..][1..][1..] == [1, 1, 4];
      assert Size([1, 1, 4]) == 6;
      assert Size([4, 4, 4, 2, 1, 1, 4]) == 20;
    }
  }

  function Header(bytes: seq<byte>): (r: seq<nat>)
    requires |bytes| >= ENVELOPE
    ensures |r| == 11
  {
    HdrSize();
    Unpack(HDR, bytes[..48])
  }

  function Decode(bytes: seq<byte>): Result<Event, DecodeError> {
    if |bytes| < ENVELOPE then Err(TooShort(ENVELOPE, |bytes|))
    else
      var hdr := Header(bytes);
      var length := Value(bytes[48..52]);
      var reserved := Value(bytes[52..56]);
      if hdr[HDR_ABI] != ABI_VERSION then Err(AbiMismatch(hdr[HDR_ABI]))
      else if reserved != 0 then Err(ReservedNonZero(reserved))
      else if length > MAX_PAYLOAD then Err(PayloadTooLarge(length))
      else if ENVELOPE + length != |bytes| then Err(LengthMismatch(ENVELOPE + length, |bytes|))
      else if hdr[HDR_VERDICT] > 2 then Err(UnknownVerdict(hdr[HDR_VERDICT]))
      else
        var p := DecodePayload(hdr[HDR_TYPE], bytes[ENVELOPE..]);
        if p.Err? then Err(p.error) else Ok(Event(hdr, p.value))
  }

  /** What the kernel emits: header, real payload size, zero, payload. */
  function Record(hdr: seq<nat>, payload: seq<byte>): seq<byte>
    requires |hdr| == |HDR|
  {
    Pack(HDR, hdr) + Bytes(|payload|, 4) + Bytes(0, 4) + payload
  }

  function EncodePayload(widths: seq<nat>, body: seq<nat>, strings: seq<seq<byte>>): seq<byte>
    requires |widths| == |body|
  {
    Pack(widths, body) + EncodeStrs(strings)
  }

  predicate ValidHeader(hdr: seq<nat>) {
    Fits(HDR, hdr) && |hdr| == 11 && hdr[HDR_ABI] == ABI_VERSION && hdr[HDR_VERDICT] <= 2
  }

  lemma RecordParts(hdr: seq<nat>, payload: seq<byte>)
    requires |hdr| == 11 && |HDR| == 11
    ensures var bytes := Record(hdr, payload);
            && |bytes| == ENVELOPE + |payload|
            && bytes[..48] == Pack(HDR, hdr)
            && bytes[48..52] == Bytes(|payload|, 4)
            && bytes[52..56] == Bytes(0, 4)
            && bytes[ENVELOPE..] == payload
  {
    HdrSize();
    hide Bytes;
  }

  lemma SmallWord(n: nat)
    requires n < 0x1_0000_0000
    ensures Value(Bytes(n, 4)) == n
  {
    assert Pow256(4) == 0x1_0000_0000;
    ValueOfBytes(n, 4);
  }

  /** A record with a valid header decodes to that header and to whatever its payload decodes to. */
  lemma DecodeOfRecord(hdr: seq<nat>, payload: seq<byte>)
    requires ValidHeader(hdr) && |payload| <= MAX_PAYLOAD
    ensures var p := DecodePayload(hdr[HDR_TYPE], payload);
            Decode(Record(hdr, payload)) == if p.Err? then Err(p.error) else Ok(Event(hdr, p.value))
  {
    RecordParts(hdr, payload);
    UnpackOfPack(HDR, hdr);
    SmallWord(|payload|);
    SmallWord(0);
    hide Record, DecodePayload, Pack, Unpack, Bytes, Fits;
  }

  lemma PayloadRoundTrip(eventType: nat, body: seq<nat>, strings: seq<seq<byte>>)
    requires ShapeOf(eventType).WithStrings?
    requires Fits(ShapeOf(eventType).widths, body) && ShortStrings(strings)
    requires ShapeOf(eventType).countAt < |body| && body[ShapeOf(eventType).countAt] == |strings|
    ensures DecodePayload(eventType, EncodePayload(ShapeOf(eventType).widths, body, strings)) ==
            Ok(Fields(body, Strings(EncodeStrs(strings), |strings|)))
  {
    var ws := ShapeOf(eventType).widths;
    var payload := EncodePayload(ws, body, strings);
    assert payload[..Size(ws)] == Pack(ws, body) && payload[Size(ws)..] == EncodeStrs(strings);
    UnpackOfPack(ws, body);
    EncodedStringsRead(strings);
    hide ShapeOf, Pack, Unpack, EncodeStrs, ValidateSpec, Size;
  }

  /** Main result, forward: an encoded string-carrying event decodes to exactly its header, body and strings. */
  lemma DecodeOfEncode(hdr: seq<nat>, body: seq<nat>, strings: seq<seq<byte>>)
    requires ValidHeader(hdr) && ShapeOf(hdr[HDR_TYPE]).WithStrings?
    requires Fits(ShapeOf(hdr[HDR_TYPE]).widths, body) && ShortStrings(strings)
    requires ShapeOf(hdr[HDR_TYPE]).countAt < |body| && body[ShapeOf(hdr[HDR_TYPE]).countAt] == |strings|
    requires |EncodePayload(ShapeOf(hdr[HDR_TYPE]).widths, body, strings)| <= MAX_PAYLOAD
    ensures var d := Decode(Record(hdr, EncodePayload(ShapeOf(hdr[HDR_TYPE]).widths, body, strings)));
            && d.Ok? && d.value.hdr == hdr && d.value.payload.Fields? && d.value.payload.body == body
            && All(d.value.payload.strings) == strings
  {
    var payload := EncodePayload(ShapeOf(hdr[HDR_TYPE]).widths, body, strings);
    DecodeOfRecord(hdr, payload);
    PayloadRoundTrip(hdr[HDR_TYPE], body, strings);
    EncodedStringsRead(strings);
    hide Decode, Record, DecodePayload, ShapeOf, EncodeStrs, EncodePayload;
  }

  lemma PayloadReencodes(eventType: nat, payload: seq<byte>)
    requires ShapeOf(eventType).WithStrings? && DecodePayload(eventType, payload).Ok?
    ensures var p := DecodePayload(eventType, payload).value;
            p.Fields? && |p.body| == |ShapeOf(eventType).widths| &&
            EncodePayload(ShapeOf(eventType).widths, p.body, All(p.strings)) == payload
  {
    hide ShapeOf, Pack, Unpack, EncodeStrs, ValidateSpec, Size, All;
    var ws := ShapeOf(eventType).widths;
    var p := DecodePayload(eventType, payload).value;
    PackOfUnpack(ws, payload[..Size(ws)]);
    ValidTailIsEncoding(payload[Size(ws)..], p.body[ShapeOf(eventType).countAt]);
    assert payload == payload[..Size(ws)] + payload[Size(ws)..];
  }

  lemma HeaderRepacks(bytes: seq<byte>)
    requires |bytes| >= ENVELOPE
    ensures |HDR| == 11 && Pack(HDR, Header(bytes)) == bytes[..48]
  {
    HdrSize();
    PackOfUnpack(HDR, bytes[..48]);
  }

  /** What the checks of an accepted record establish. */
  lemma AcceptedParts(bytes: seq<byte>)
    requires Decode(bytes).Ok?
    ensures |bytes| >= ENVELOPE && |bytes| == ENVELOPE + Value(bytes[48..52]) && Value(bytes[52..56]) == 0
    ensures Decode(bytes).value.hdr == Header(bytes)
    ensures DecodePayload(Header(bytes)[HDR_TYPE], bytes[ENVELOPE..]) == Ok(Decode(bytes).value.payload)
  {
    hide DecodePayload, Header, Value;
  }

  lemma Reassemble(bytes: seq<byte>, hdr: seq<nat>, payload: seq<byte>)
    requires |bytes| == ENVELOPE + |payload| && |hdr| == |HDR|
    requires bytes[..48] == Pack(HDR, hdr) && bytes[48..52] == Bytes(|payload|, 4) && bytes[52..56] == Bytes(0, 4)
    requires bytes[ENVELOPE..] == payload
    ensures Record(hdr, payload) == bytes
  {
    hide Pack, Bytes;
    FourParts(bytes);
  }

  lemma FourParts(bytes: seq<byte>)
    requires |bytes| >= 56
    ensures bytes[..48] + bytes[48..52] + bytes[52..56] + bytes[56..] == bytes
  {
    assert bytes[..48] + bytes[48..52] == bytes[..52];
    assert bytes[..52] + bytes[52..56] == bytes[..56];
  }

  /** Main result, backward: every accepted record of a string-carrying type re-encodes to the same bytes. */
  lemma EncodeOfDecode(bytes: seq<byte>)
    requires Decode(bytes).Ok? && |Decode(bytes).value.hdr| == 11
    requires ShapeOf(Decode(bytes).value.hdr[HDR_TYPE]).WithStrings?
    ensures var e := Decode(bytes).value;
            var ws := ShapeOf(e.hdr[HDR_TYPE]).widths;
            |HDR| == 11 && e.payload.Fields? && |e.payload.body| == |ws| &&
            Record(e.hdr, EncodePayload(ws, e.payload.body, All(e.payload.strings))) == bytes
  {
    AcceptedParts(bytes);
    hide Decode, DecodePayload, ShapeOf, Pack, Bytes, Value, EncodePayload, Header, All, Record;
    var e := Decode(bytes).value;
    HeaderRepacks(bytes);
    BytesOfValue(bytes[48..52]);
    BytesOfValue(bytes[52..56]);
    PayloadReencodes(e.hdr[HDR_TYPE], bytes[ENVELOPE..]);
    Reassemble(bytes, e.hdr, bytes[ENVELOPE..]);
  }
}
