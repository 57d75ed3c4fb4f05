/**
 The wire structures of the kernel interface by byte offset, as the header the
 kernel programs and the decoder share lays them out, and what the decoder makes
 of a record in terms of its bytes alone.
 */
module EventWire {
  import opened Wrappers
  import opened Layout
  import opened EventDecoder

  // ---------------------------------------------------------------------------
  // Offsets
  // ---------------------------------------------------------------------------

  /** Where field `i` of a structure starts. */
  function Offset(ws: seq<nat>, i: nat): nat
    requires i <= |ws|
  {
    if i == 0 then 0 else Offset(ws, i - 1) + ws[i - 1]
  }

  lemma {:induction false} OffsetTail(ws: seq<nat>, i: nat)
    requires 1 <= i <= |ws|
    ensures Offset(ws, i) == ws[0] + Offset(ws[1..], i - 1)
  {
    if i == 1 {
    } else {
      OffsetTail(ws, i - 1);
    }
  }

  lemma {:induction false} SizeIsOffset(ws: seq<nat>)
    ensures Size(ws) == Offset(ws, |ws|)
  {
    if ws == [] {
    } else {
      SizeIsOffset(ws[1..]);
      OffsetTail(ws, |ws|);
    }
  }

  lemma {:induction false} OffsetGrows(ws: seq<nat>, i: nat)
    requires i <= |ws|
    ensures Offset(ws, i) <= Size(ws)
    decreases |ws| - i
  {
    if i == |ws| {
      SizeIsOffset(ws);
    } else {
      OffsetGrows(ws, i + 1);
    }
  }

  /** The little-endian number of `width` bytes at `offset`. */
  function At(s: seq<byte>, offset: nat, width: nat): nat
    requires offset + width <= |s|
  {
    Value(s[offset..offset + width])
  }

  lemma SliceWithin(bs: seq<byte>, n: nat, offset: nat, width: nat)
    requires n + offset + width <= |bs|
    ensures At(bs[n..], offset, width) == At(bs, n + offset, width)
  {
    assert bs[n..][offset..offset + width] == bs[n + offset..n + offset + width];
  }

  lemma UnpackTail(ws: seq<nat>, bs: seq<byte>)
    requires |bs| == Size(ws) && ws != []
    ensures ws[0] <= |bs| && |bs[ws[0]..]| == Size(ws[1..])
    ensures Unpack(ws, bs)[0] == At(bs, 0, ws[0]) && Unpack(ws, bs)[1..] == Unpack(ws[1..], bs[ws[0]..])
  {
    hide Value;
  }

  /** Unpacking reads each field where the fields before it end. */
  lemma {:induction false} UnpackAt(ws: seq<nat>, bs: seq<byte>, i: nat)
    requires |bs| == Size(ws) && i < |ws|
    ensures Offset(ws, i) + ws[i] <= |bs|
    ensures Unpack(ws, bs)[i] == At(bs, Offset(ws, i), ws[i])
  {
    hide Size, Unpack, At;
    OffsetGrows(ws, i + 1);
    UnpackTail(ws, bs);
    if i == 0 {
    } else {
      var rest := bs[ws[0]..];
      UnpackAt(ws[1..], rest, i - 1);
      OffsetTail(ws, i);
      hide Offset;
      assert Unpack(ws, bs)[i] == Unpack(ws, bs)[1..][i - 1];
      assert ws[1..][i - 1] == ws[i];
      SliceWithin(bs, ws[0], Offset(ws[1..], i - 1), ws[i]);
    }
  }

  lemma AtPrefix(s: seq<byte>, n: nat, offset: nat, width: nat)
    requires offset + width <= n <= |s|
    ensures At(s[..n], offset, width) == At(s, offset, width)
  {
    assert s[..n][offset..offset + width] == s[offset..offset + width];
  }

  // ---------------------------------------------------------------------------
  // The structures
  // ---------------------------------------------------------------------------

  datatype Field = Field(offset: nat, width: nat)

  // ts_ns, cgroup_id, policy_gen, pid, tgid, uid, gid, type, verdict, abi, rule_id.
  const HDR_AT: seq<Field> := [
    Field(0, 8), Field(8, 8), Field(16, 8), Field(24, 4), Field(28, 4), Field(32, 4), Field(36, 4), Field(40, 2),
    Field(42, 1), Field(43, 1), Field(44, 4)]

  // file_dev, file_ino, flags, str_count, padding.
  const EXEC_AT: seq<Field> := [Field(0, 8), Field(8, 8), Field(16, 4), Field(20, 2), Field(22, 2)]

  // file_dev, file_ino, open_flags, mode, str_count, padding twice.
  const FILE_AT: seq<Field> := [
    Field(0, 8), Field(8, 8), Field(16, 4), Field(20, 4), Field(24, 2), Field(26, 2), Field(28, 4)]

  // file_dev, file_ino, access, hook, flags, padding, str_count, padding twice.
  const FILE_DENY_AT: seq<Field> := [
    Field(0, 8), Field(8, 8), Field(16, 4), Field(20, 2), Field(22, 1), Field(23, 1), Field(24, 2), Field(26, 2),
    Field(28, 4)]

  // saddr_v6, daddr_v6, sport, dport, family, protocol, padding.
  const NET_AT: seq<Field> := [
    Field(0, 16), Field(16, 16), Field(32, 2), Field(34, 2), Field(36, 2), Field(38, 1), Field(39, 1)]

  // family, padding, type, protocol, padding.
  const SOCK_AT: seq<Field> := [Field(0, 2), Field(2, 2), Field(4, 4), Field(8, 4), Field(12, 4)]

  // op, padding.
  const TUN_AT: seq<Field> := [Field(0, 4), Field(4, 4)]

  // hook, padding, target_tgid, detail.
  const TAMPER_AT: seq<Field> := [Field(0, 2), Field(2, 2), Field(4, 4), Field(8, 8)]

  /** The fields are within the first `n` bytes. */
  predicate Within(fields: seq<Field>, n: nat) {
    forall i :: 0 <= i < |fields| ==> fields[i].offset + fields[i].width <= n
  }

  function ReadFields(fields: seq<Field>, s: seq<byte>): (r: seq<nat>)
    requires Within(fields, |s|)
    ensures |r| == |fields|
  {
    seq(|fields|, i requires 0 <= i < |fields| => At(s, fields[i].offset, fields[i].width))
  }

  /** The fields follow one another without a gap, in widths `ws` and `size` bytes. */
  ghost predicate LaidOut(fields: seq<Field>, ws: seq<nat>, size: nat) {
    && |fields| == |ws| > 0
    && fields[0].offset == 0 && fields[|ws| - 1].offset + ws[|ws| - 1] == size
    && (forall i :: 0 <= i < |ws| ==> fields[i].width == ws[i])
    && (forall i :: 0 < i < |ws| ==> fields[i].offset == fields[i - 1].offset + fields[i - 1].width)
  }

  lemma HdrStructure()
    ensures LaidOut(HDR_AT, HDR, 48)
  {
  }

  lemma FileStructures()
    ensures LaidOut(EXEC_AT, EXEC, 24) && LaidOut(FILE_AT, FILE, 32) && LaidOut(FILE_DENY_AT, FILE_DENY, 32)
  {
  }

  lemma FixedStructures()
    ensures LaidOut(NET_AT, NET, 40) && LaidOut(SOCK_AT, SOCK, 16)
    ensures LaidOut(TUN_AT, TUN, 8) && LaidOut(TAMPER_AT, TAMPER, 16)
  {
  }

  lemma {:induction false} LaidOutAt(fields: seq<Field>, ws: seq<nat>, size: nat, i: nat)
    requires LaidOut(fields, ws, size) && i < |ws|
    ensures fields[i].offset == Offset(ws, i)
  {
    if i == 0 {
    } else {
      LaidOutAt(fields, ws, size, i - 1);
    }
  }

  lemma LaidOutSize(fields: seq<Field>, ws: seq<nat>, size: nat)
    requires LaidOut(fields, ws, size)
    ensures Size(ws) == size
  {
    LaidOutAt(fields, ws, size, |ws| - 1);
    SizeIsOffset(ws);
  }

  lemma UnpackIsRead(fields: seq<Field>, ws: seq<nat>, size: nat, s: seq<byte>)
    requires LaidOut(fields, ws, size) && size <= |s|
    ensures Size(ws) == size && Within(fields, size)
    ensures Unpack(ws, s[..size]) == ReadFields(fields, s)
  {
    hide Unpack, At, Offset, Size;
    LaidOutSize(fields, ws, size);
    forall i | 0 <= i < |ws|
      ensures fields[i].offset + fields[i].width <= size
      ensures Unpack(ws, s[..size])[i] == At(s, fields[i].offset, fields[i].width)
    {
      LaidOutAt(fields, ws, size, i);
      UnpackAt(ws, s[..size], i);
      AtPrefix(s, size, fields[i].offset, fields[i].width);
    }
  }

  // ---------------------------------------------------------------------------
  // What a payload decodes to
  // ---------------------------------------------------------------------------

  /** `data` starts with the `n` strings `ss`, and `rest` follows. */
  ghost predicate Starts(data: seq<byte>, n: nat, ss: seq<seq<byte>>, rest: seq<byte>) {
    |ss| == n && ShortStrings(ss) && data == EncodeStrs(ss) + rest
  }

  lemma {:induction false} ValidatesStrings(ss: seq<seq<byte>>, rest: seq<byte>)
    requires ShortStrings(ss)
    ensures ValidateSpec(EncodeStrs(ss) + rest, |ss|) == if rest == [] then None else Some(TrailingBytes(|rest|))
    ensures All(Strings(EncodeStrs(ss) + rest, |ss|)) == ss
  {
    if ss == [] {
      assert EncodeStrs(ss) + rest == rest;
    } else {
      var more := EncodeStrs(ss[1..]) + rest;
      assert EncodeStrs(ss) + rest == EncodeStr(ss[0]) + more;
      SplitOfEncode(ss[0], more);
      ValidatesStrings(ss[1..], rest);
      hide SplitStr;
      assert ss == [ss[0]] + ss[1..];
    }
  }

  /** Data that is not malformed starts with its strings. */
  lemma {:induction false} StartsWithStrings(data: seq<byte>, n: nat) returns (ss: seq<seq<byte>>, rest: seq<byte>)
    requires ValidateSpec(data, n) != Some(MalformedStrings)
    ensures Starts(data, n, ss, rest)
  {
    if n == 0 {
      ss, rest := [], data;
      assert data == [] + data;
    } else {
      var (head, tail) := SplitStr(data).value;
      EncodeOfSplit(data);
      hide SplitStr;
      var more;
      more, rest := StartsWithStrings(tail, n - 1);
      ss := [head] + more;
      assert ss[1..] == more;
      assert data == EncodeStrs(ss) + rest;
    }
  }

  /** A body of fixed size and nothing else. */
  ghost predicate FixedOutcome(p: seq<byte>, size: nat, fields: seq<Field>, r: Result<Payload, DecodeError>)
    requires Within(fields, size)
  {
    if |p| < size then r == Err(BodyTooShort(size, |p|))
    else if |p| > size then r == Err(TrailingBytes(|p| - size))
    else r == Ok(Fields(ReadFields(fields, p), Strings([], 0)))
  }

  /** A body of fixed size, then as many strings as its two bytes at `countAt` say and nothing else. */
  ghost predicate CountedOutcome(p: seq<byte>, size: nat, fields: seq<Field>, countAt: nat,
                                 r: Result<Payload, DecodeError>)
    requires Within(fields, size) && countAt + 2 <= size
  {
    if |p| < size then r == Err(BodyTooShort(size, |p|))
    else
      var n, tail := At(p, countAt, 2), p[size..];
      && (forall ss, rest :: Starts(tail, n, ss, rest) ==>
            if rest == [] then
              r == Ok(Fields(ReadFields(fields, p), Strings(tail, n))) && All(Strings(tail, n)) == ss
            else r == Err(TrailingBytes(|rest|)))
      && ((forall ss, rest :: !Starts(tail, n, ss, rest)) ==> r == Err(MalformedStrings))
  }

  /** What the payload of an event type must decode to. */
  ghost predicate PayloadMeans(eventType: nat, p: seq<byte>, r: Result<Payload, DecodeError>) {
    match eventType
    case 1 => CountedOutcome(p, 24, EXEC_AT, 20, r)
    case 2 => CountedOutcome(p, 32, FILE_AT, 24, r)
    case 3 => FixedOutcome(p, 40, NET_AT, r)
    case 4 => r == Ok(Raw(p))
    case 5 => r == Ok(Raw(p))
    case 6 => r == Ok(Raw(p))
    case 7 => r == Ok(Raw(p))
    case 8 => FixedOutcome(p, 16, TAMPER_AT, r)
    case 9 => FixedOutcome(p, 40, NET_AT, r)
    case 10 => FixedOutcome(p, 16, SOCK_AT, r)
    case 11 => CountedOutcome(p, 32, FILE_DENY_AT, 24, r)
    case 12 => FixedOutcome(p, 8, TUN_AT, r)
    case _ => r == Err(UnknownType(eventType))
  }

  lemma BodyOnlyDecodes(eventType: nat, p: seq<byte>, ws: seq<nat>)
    requires ShapeOf(eventType) == BodyOnly(ws)
    ensures DecodePayload(eventType, p) ==
            if |p| < Size(ws) then Err(BodyTooShort(Size(ws), |p|))
            else if |p| > Size(ws) then Err(TrailingBytes(|p| - Size(ws)))
            else Ok(Fields(Unpack(ws, p[..Size(ws)]), Strings([], 0)))
  {
    hide ShapeOf, Size, Unpack;
  }

  lemma FixedDecodes(eventType: nat, p: seq<byte>, size: nat, fields: seq<Field>, ws: seq<nat>)
    requires LaidOut(fields, ws, size) && ShapeOf(eventType) == BodyOnly(ws)
    ensures Within(fields, size) && FixedOutcome(p, size, fields, DecodePayload(eventType, p))
  {
    LaidOutWithin(fields, ws, size);
    LaidOutSize(fields, ws, size);
    BodyOnlyDecodes(eventType, p, ws);
    hide LaidOut, Size, Unpack, ShapeOf, Within, ReadFields, DecodePayload;
    if |p| == size {
      UnpackIsRead(fields, ws, size, p);
    }
  }

  lemma LaidOutWithin(fields: seq<Field>, ws: seq<nat>, size: nat)
    requires LaidOut(fields, ws, size)
    ensures Within(fields, size)
  {
    forall i | 0 <= i < |ws| ensures fields[i].offset + fields[i].width <= size {
      LaidOutAt(fields, ws, size, i);
      LaidOutSize(fields, ws, size);
      OffsetGrows(ws, i + 1);
    }
  }

  lemma StringsOutcome(tail: seq<byte>, n: nat)
    ensures forall ss, rest :: Starts(tail, n, ss, rest) ==>
      && ValidateSpec(tail, n) == (if rest == [] then None else Some(TrailingBytes(|rest|)))
      && All(Strings(tail, n)) == ss
    ensures (forall ss, rest :: !Starts(tail, n, ss, rest)) ==> ValidateSpec(tail, n) == Some(MalformedStrings)
  {
    forall ss, rest | Starts(tail, n, ss, rest)
      ensures ValidateSpec(tail, n) == (if rest == [] then None else Some(TrailingBytes(|rest|)))
      ensures All(Strings(tail, n)) == ss
    {
      ValidatesStrings(ss, rest);
    }
    hide ValidateSpec, Starts;
    if ValidateSpec(tail, n) != Some(MalformedStrings) {
      var ss, rest := StartsWithStrings(tail, n);
    }
  }

  lemma CountedDecodes(eventType: nat, p: seq<byte>, size: nat, fields: seq<Field>, ws: seq<nat>, count: nat)
    requires LaidOut(fields, ws, size) && ShapeOf(eventType) == WithStrings(ws, count)
    requires count < |ws| && ws[count] == 2
    ensures Within(fields, size) && fields[count].offset + 2 <= size
    ensures CountedOutcome(p, size, fields, fields[count].offset, DecodePayload(eventType, p))
  {
    LaidOutWithin(fields, ws, size);
    LaidOutSize(fields, ws, size);
    assert fields[count].width == 2;
    hide LaidOut, Size, Unpack, ShapeOf, ValidateSpec, All, Starts;
    if |p| >= size {
      UnpackIsRead(fields, ws, size, p);
      StringsOutcome(p[size..], At(p, fields[count].offset, 2));
    }
  }

  lemma ExecDecodes(p: seq<byte>)
    ensures PayloadMeans(1, p, DecodePayload(1, p))
  {
    FileStructures();
    CountedDecodes(1, p, 24, EXEC_AT, EXEC, 3);
    hide LaidOut, CountedOutcome, DecodePayload, ShapeOf;
  }

  lemma FileDecodes(p: seq<byte>)
    ensures PayloadMeans(2, p, DecodePayload(2, p))
  {
    FileStructures();
    CountedDecodes(2, p, 32, FILE_AT, FILE, 4);
    hide LaidOut, CountedOutcome, DecodePayload, ShapeOf;
  }

  lemma FileDenyDecodes(p: seq<byte>)
    ensures PayloadMeans(11, p, DecodePayload(11, p))
  {
    FileStructures();
    CountedDecodes(11, p, 32, FILE_DENY_AT, FILE_DENY, 6);
    hide LaidOut, CountedOutcome, DecodePayload, ShapeOf;
  }

  lemma NetDecodes(eventType: nat, p: seq<byte>)
    requires eventType == 3 || eventType == 9
    ensures PayloadMeans(eventType, p, DecodePayload(eventType, p))
  {
    FixedStructures();
    FixedDecodes(eventType, p, 40, NET_AT, NET);
    hide LaidOut, FixedOutcome, DecodePayload, ShapeOf;
  }

  lemma SmallDecodes(eventType: nat, p: seq<byte>)
    requires eventType == 8 || eventType == 10 || eventType == 12
    ensures PayloadMeans(eventType, p, DecodePayload(eventType, p))
  {
    FixedStructures();
    if eventType == 8 {
      FixedDecodes(8, p, 16, TAMPER_AT, TAMPER);
    } else if eventType == 10 {
      FixedDecodes(10, p, 16, SOCK_AT, SOCK);
    } else {
      FixedDecodes(12, p, 8, TUN_AT, TUN);
    }
    hide LaidOut, FixedOutcome, DecodePayload, ShapeOf;
  }

  /** Every payload decodes to what its type's structure says, or is refused for the reason it gives. */
  lemma PayloadDecodes(eventType: nat, p: seq<byte>)
    ensures PayloadMeans(eventType, p, DecodePayload(eventType, p))
  {
    if eventType == 1 {
      ExecDecodes(p);
    } else if eventType == 2 {
      FileDecodes(p);
    } else if eventType == 11 {
      FileDenyDecodes(p);
    } else if eventType == 3 || eventType == 9 {
      NetDecodes(eventType, p);
    } else if eventType == 8 || eventType == 10 || eventType == 12 {
      SmallDecodes(eventType, p);
    } else {
      OtherDecodes(eventType, p);
    }
    hide PayloadMeans, DecodePayload;
  }

  lemma OtherDecodes(eventType: nat, p: seq<byte>)
    requires eventType == 0 || 4 <= eventType <= 7 || eventType > 12
    ensures PayloadMeans(eventType, p, DecodePayload(eventType, p))
  {
    hide CountedOutcome, FixedOutcome;
  }

  // ---------------------------------------------------------------------------
  // What a record decodes to
  // ---------------------------------------------------------------------------

  /** What a record must decode to, said of its bytes. */
  ghost predicate RecordMeans(s: seq<byte>, d: Result<Event, DecodeError>) {
    if |s| < 56 then d == Err(TooShort(56, |s|))
    else
      var length, reserved := At(s, 48, 4), At(s, 52, 4);
      if s[43] != 2 then d == Err(AbiMismatch(s[43]))
      else if reserved != 0 then d == Err(ReservedNonZero(reserved))
      else if length > 2048 then d == Err(PayloadTooLarge(length))
      else if 56 + length != |s| then d == Err(LengthMismatch(56 + length, |s|))
      else if s[42] > 2 then d == Err(UnknownVerdict(s[42]))
      else
        && PayloadMeans(At(s, 40, 2), s[56..], if d.Ok? then Ok(d.value.payload) else Err(d.error))
        && (d.Ok? ==> d.value.hdr == ReadFields(HDR_AT, s))
  }

  lemma ByteAt(s: seq<byte>, i: nat)
    requires i < |s|
    ensures At(s, i, 1) == s[i]
  {
    assert s[i..i + 1] == [s[i]] && [s[i]][1..] == [];
    assert Value([]) == 0;
  }

  lemma HeaderReads(s: seq<byte>)
    requires |s| >= 56
    ensures Header(s) == ReadFields(HDR_AT, s)
    ensures Header(s)[7] == At(s, 40, 2) && Header(s)[8] == s[42] && Header(s)[9] == s[43]
  {
    HdrStructure();
    hide LaidOut, Unpack, Size;
    UnpackIsRead(HDR_AT, HDR, 48, s);
    ByteAt(s, 42);
    ByteAt(s, 43);
    hide At;
    assert HDR_AT[7] == Field(40, 2) && HDR_AT[8] == Field(42, 1) && HDR_AT[9] == Field(43, 1);
  }

  /**
   Main result: any bytes decode to what the structures say, or are refused with the error of the first check that
   fails.
   */
  lemma DecodeMeans(s: seq<byte>)
    ensures RecordMeans(s, Decode(s))
  {
    if |s| >= 56 {
      HeaderReads(s);
      PayloadDecodes(At(s, 40, 2), s[56..]);
      hide Header, DecodePayload, PayloadMeans, Value;
    }
  }

  // ---------------------------------------------------------------------------
  // Round trips of the types without strings
  // ---------------------------------------------------------------------------

  /** The field widths of the types whose payload is one structure. */
  function FixedWidths(eventType: nat): Option<seq<nat>> {
    if eventType == 3 || eventType == 9 then Some([16, 16, 2, 2, 2, 1, 1])
    else if eventType == 10 then Some([2, 2, 4, 4, 4])
    else if eventType == 12 then Some([4, 4])
    else if eventType == 8 then Some([2, 2, 4, 8])
    else None
  }

  lemma FixedShape(eventType: nat)
    requires FixedWidths(eventType).Some?
    ensures ShapeOf(eventType) == BodyOnly(FixedWidths(eventType).value)
    ensures Size(FixedWidths(eventType).value) <= 40
  {
    FixedStructures();
    LaidOutSize(NET_AT, NET, 40);
    LaidOutSize(SOCK_AT, SOCK, 16);
    LaidOutSize(TUN_AT, TUN, 8);
    LaidOutSize(TAMPER_AT, TAMPER, 16);
    hide LaidOut, Size;
  }

  lemma PayloadOfFixed(eventType: nat, body: seq<nat>)
    requires FixedWidths(eventType).Some? && Fits(FixedWidths(eventType).value, body)
    ensures DecodePayload(eventType, Pack(FixedWidths(eventType).value, body)) == Ok(Fields(body, Strings([], 0)))
    ensures |Pack(FixedWidths(eventType).value, body)| <= 40
  {
    FixedShape(eventType);
    hide FixedWidths, ShapeOf, Pack, Unpack, Size, Fits, ValidateSpec;
    var ws := FixedWidths(eventType).value;
    var payload := Pack(ws, body);
    UnpackOfPack(ws, body);
    assert payload[..Size(ws)] == payload;
  }

  lemma FixedPayload(eventType: nat, p: seq<byte>)
    requires FixedWidths(eventType).Some? && DecodePayload(eventType, p).Ok?
    ensures var d, ws := DecodePayload(eventType, p).value, FixedWidths(eventType).value;
      d.Fields? && |d.body| == |ws| && d.strings == Strings([], 0) && Pack(ws, d.body) == p
  {
    FixedShape(eventType);
    hide FixedWidths, ShapeOf, Pack, Unpack, Size, Fits, ValidateSpec;
    var ws := FixedWidths(eventType).value;
    PackOfUnpack(ws, p[..Size(ws)]);
    assert p[..Size(ws)] == p;
  }

  /** A structure packed under a valid header decodes to exactly that header and its values. */
  lemma DecodeOfFixed(hdr: seq<nat>, body: seq<nat>)
    requires ValidHeader(hdr) && FixedWidths(hdr[7]).Some? && Fits(FixedWidths(hdr[7]).value, body)
    ensures Decode(Record(hdr, Pack(FixedWidths(hdr[7]).value, body))) == Ok(Event(hdr, Fields(body, Strings([], 0))))
  {
    PayloadOfFixed(hdr[7], body);
    hide FixedWidths, DecodePayload, Decode, Pack, Fits, Record;
    DecodeOfRecord(hdr, Pack(FixedWidths(hdr[7]).value, body));
  }

  /** An accepted record of such a type is the packing of what it decodes to. */
  lemma FixedOfDecode(s: seq<byte>)
    requires Decode(s).Ok? && |Decode(s).value.hdr| == 11 && FixedWidths(Decode(s).value.hdr[7]).Some?
    ensures var e := Decode(s).value;
      var ws := FixedWidths(e.hdr[7]).value;
      && |HDR| == 11 && e.payload.Fields? && |e.payload.body| == |ws| && e.payload.strings == Strings([], 0)
      && Record(e.hdr, Pack(ws, e.payload.body)) == s
  {
    AcceptedParts(s);
    hide Decode, DecodePayload, FixedWidths, Pack, Bytes, Value, Header, Record;
    var e := Decode(s).value;
    HeaderRepacks(s);
    BytesOfValue(s[48..52]);
    BytesOfValue(s[52..56]);
    FixedPayload(e.hdr[7], s[ENVELOPE..]);
    Reassemble(s, e.hdr, s[ENVELOPE..]);
  }
}
