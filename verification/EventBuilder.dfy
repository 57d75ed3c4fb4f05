/**
 How the kernel programs build a record in the per-CPU scratch buffer: masked
 offsets and lengths, strings truncated to what fits, then the record emitted
 at its real size. Whatever the strings and the argument area are, the record
 decodes to exactly what was appended.
 */
module EventBuilder {
  import opened Wrappers
  import opened Layout
  import opened EventDecoder

  function Min(a: nat, b: nat): nat {
    if a < b then a else b
  }

  /** Room for data after a length word at `off`. */
  function Room(off: nat): nat
    requires off <= MAX_PAYLOAD - 3
  {
    MAX_PAYLOAD - (off + 2)
  }

  /** The part of a kernel string that is transmitted: the copy includes a NUL that is not. Empty when unreadable. */
  function KstrTaken(src: Option<seq<byte>>, maxLen: nat, off: nat): (r: seq<byte>)
    requires off <= MAX_PAYLOAD - 3
    ensures |r| <= Room(off) && (maxLen > 0 ==> |r| < maxLen)
    ensures src.None? ==> r == []
    ensures src.Some? ==> r <= src.value && (r == src.value || |r| + 1 >= maxLen || |r| + 1 == Room(off))
  {
    var size := Min(maxLen, Room(off));
    if src.None? || size == 0 then [] else src.value[..Min(|src.value|, size - 1)]
  }

  /** How much of a user area of `want` bytes is copied. */
  function UblobSize(want: nat, off: nat): (n: nat)
    requires off <= MAX_PAYLOAD - 3
    ensures n <= want && n <= Room(off) && (n == want || n == Room(off))
  {
    Min(want, Room(off))
  }

  /** The copied bytes: nothing when the area, readable for only `|mem|` bytes, faults. */
  function UblobTaken(mem: seq<byte>, want: nat, off: nat): (r: seq<byte>)
    requires off <= MAX_PAYLOAD - 3
    ensures |r| <= Room(off) && r <= mem
    ensures |r| == UblobSize(want, off) || (r == [] && |mem| < UblobSize(want, off))
  {
    if UblobSize(want, off) <= |mem| then mem[..UblobSize(want, off)] else []
  }

  lemma Associative(a: seq<byte>, b: seq<byte>, c: seq<byte>)
    ensures a + b + c == a + (b + c)
  {
  }

  /** The per-CPU scratch message and the slack behind its payload. */
  class Scratch {
    const buf: array<byte>
    var hdr: seq<nat>
    var payloadLen: nat
    var reserved: nat

    ghost predicate Valid()
      reads this
    {
      buf.Length == 2 * MAX_PAYLOAD && payloadLen <= MAX_PAYLOAD && |hdr| == |HDR|
    }

    ghost function Contents(): seq<byte>
      requires Valid()
      reads this, buf
    {
      buf[..payloadLen]
    }

    constructor ()
      ensures Valid() && fresh(buf) && payloadLen == 0
    {
      buf := new byte[2 * MAX_PAYLOAD](_ => 0);
      hdr := seq(|HDR|, _ => 0);
      payloadLen, reserved := 0, 0;
    }

    method Write(at: nat, data: seq<byte>)
      requires at + |data| <= buf.Length
      modifies buf
      ensures forall i :: 0 <= i < buf.Length ==>
                buf[i] == if at <= i < at + |data| then data[i - at] else old(buf[i])
    {
      for k := 0 to |data|
        invariant forall i :: 0 <= i < buf.Length ==> buf[i] == if at <= i < at + k then data[i - at] else old(buf[i])
      {
        buf[at + k] := data[k];
      }
    }

    /** Starts a message: `rk_scratch` and the header. */
    method Start(h: seq<nat>)
      requires Valid() && |h| == |HDR|
      modifies this
      ensures Valid() && hdr == h && payloadLen == 0 && reserved == 0
    {
      hdr, payloadLen, reserved := h, 0, 0;
    }

    method PutBody(body: seq<byte>)
      requires Valid() && payloadLen == 0 && |body| <= MAX_PAYLOAD
      modifies this`payloadLen, buf
      ensures Valid() && Contents() == body
    {
      Write(0, body);
      payloadLen := |body|;
    }

    /** Copies data behind the length word of the next string. */
    method CopyBehind(at: nat, data: seq<byte>)
      requires Valid() && at == payloadLen + 2 && at + |data| <= buf.Length
      modifies buf
      ensures Valid() && Contents() == old(Contents())
      ensures buf[at..at + |data|] == data
    {
      Write(at, data);
    }

    method CopyWithNul(at: nat, data: seq<byte>)
      requires Valid() && at == payloadLen + 2 && at + |data| < buf.Length
      modifies buf
      ensures Valid() && Contents() == old(Contents())
      ensures buf[at..at + |data|] == data
    {
      Write(at, data + [0]);
    }

    /** Appends one length-prefixed string at `off`, whose data was already copied behind the length word. */
    method Finish(off: nat, data: seq<byte>)
      requires Valid() && off == payloadLen && off <= MAX_PAYLOAD - 3 && |data| <= Room(off)
      requires buf[off + 2..off + 2 + |data|] == data
      modifies this`payloadLen, buf
      ensures Valid() && Contents() == old(Contents()) + EncodeStr(data)
    {
      Write(off, Bytes(|data|, 2));
      payloadLen := off + 2 + |data|;
      hide Bytes;
      assert buf[..off] == old(buf[..off]);
      assert buf[off..off + 2] == Bytes(|data|, 2);
      assert buf[off + 2..payloadLen] == data;
      assert buf[..payloadLen] == buf[..off] + buf[off..off + 2] + buf[off + 2..payloadLen];
    }

    /**
     Appends a kernel string, truncated to `maxLen` with its NUL and to the room left; nothing when there is no room at
     all.
     */
    method AppendKstr(src: Option<seq<byte>>, maxLen: nat)
      requires Valid()
      modifies this`payloadLen, buf
      ensures Valid()
      ensures Contents() == old(Contents()) +
                if old(payloadLen) > MAX_PAYLOAD - 3 then [] else EncodeStr(KstrTaken(src, maxLen, old(payloadLen)))
    {
      var off := payloadLen;
      if off > MAX_PAYLOAD - 3 {
        return;
      }
      var lenOff := off % MAX_PAYLOAD;
      var strOff := (off + 2) % MAX_PAYLOAD;
      var room := MAX_PAYLOAD - (off + 2);
      var size := (if maxLen > room then room else maxLen) % MAX_PAYLOAD;
      // The masks change nothing.
      assert lenOff == off && strOff == off + 2 && size == Min(maxLen, Room(off));
      hide EncodeStr;
      CopyKstr(lenOff, strOff, src, size);
    }

    /** The copy itself: a bounded string with its NUL, zeros when it cannot be read. */
    method CopyKstr(lenOff: nat, strOff: nat, src: Option<seq<byte>>, size: nat)
      requires Valid() && lenOff == payloadLen && strOff == lenOff + 2 && lenOff <= MAX_PAYLOAD - 3
      requires size <= Room(lenOff)
      modifies this`payloadLen, buf
      ensures Valid()
      ensures Contents() == old(Contents()) +
                EncodeStr(if src.None? || size == 0 then [] else src.value[..Min(|src.value|, size - 1)])
    {
      hide EncodeStr, Zeros;
      if src.None? || size == 0 {
        CopyBehind(strOff, Zeros(size));
        Finish(lenOff, []);
      } else {
        var n := Min(|src.value|, size - 1) + 1;
        var copy := src.value[..n - 1];
        CopyWithNul(strOff, copy);
        Finish(lenOff, copy);
      }
    }

    /** Appends up to `want` bytes of user memory: 0 when copied, 1 when truncated, -1 when unreadable. */
    method AppendUblob(mem: seq<byte>, want: nat) returns (r: int)
      requires Valid()
      modifies this`payloadLen, buf
      ensures Valid()
      ensures Contents() == old(Contents()) +
                if old(payloadLen) > MAX_PAYLOAD - 3 then [] else EncodeStr(UblobTaken(mem, want, old(payloadLen)))
      ensures r == if old(payloadLen) > MAX_PAYLOAD - 3 then 1
                   else if UblobSize(want, old(payloadLen)) > |mem| then -1
                   else if want > Room(old(payloadLen)) then 1 else 0
    {
      var off := payloadLen;
      if off > MAX_PAYLOAD - 3 {
        return 1;
      }
      var lenOff := off % MAX_PAYLOAD;
      var strOff := (off + 2) % MAX_PAYLOAD;
      var room := MAX_PAYLOAD - (off + 2);
      var truncated := if want > room then 1 else 0;
      var n := (if want > room then room else want) % MAX_PAYLOAD;
      // The masks change nothing.
      assert lenOff == off && strOff == off + 2 && n == UblobSize(want, off);
      hide EncodeStr;
      CopyUblob(lenOff, strOff, mem, n);
      return if n > |mem| then -1 else truncated;
    }

    /** The copy itself: zeros when the memory cannot be read. */
    method CopyUblob(lenOff: nat, strOff: nat, mem: seq<byte>, n: nat)
      requires Valid() && lenOff == payloadLen && strOff == lenOff + 2 && lenOff <= MAX_PAYLOAD - 3
      requires n <= Room(lenOff)
      modifies this`payloadLen, buf
      ensures Valid() && Contents() == old(Contents()) + EncodeStr(if n > |mem| then [] else mem[..n])
    {
      hide EncodeStr, Zeros;
      if n > |mem| {
        CopyBehind(strOff, Zeros(n));
        Finish(lenOff, []);
      } else {
        CopyBehind(strOff, mem[..n]);
        Finish(lenOff, mem[..n]);
      }
    }

    /** A body and one kernel string. */
    method OneStringRecord(h: seq<nat>, body: seq<byte>, src: Option<seq<byte>>, maxLen: nat)
      returns (record: seq<byte>)
      requires Valid() && |h| == |HDR| && |body| <= MAX_PAYLOAD - 3
      modifies this, buf
      ensures Valid()
      ensures record == Record(h, body + EncodeStr(KstrTaken(src, maxLen, |body|)))
    {
      hide Record, EncodeStr, KstrTaken;
      Start(h);
      PutBody(body);
      AppendKstr(src, maxLen);
      record := Emit();
    }

    /** A body, one kernel string and a user area, not yet emitted. */
    method TwoStringBody(h: seq<nat>, body: seq<byte>, src: Option<seq<byte>>, maxLen: nat, mem: seq<byte>, want: nat)
      returns (copied: int)
      requires Valid() && |h| == |HDR| && 0 < maxLen && |body| + 2 + maxLen <= MAX_PAYLOAD - 3
      modifies this, buf
      ensures Valid() && hdr == h && reserved == 0
      ensures var name := KstrTaken(src, maxLen, |body|);
              var off := |body| + 2 + |name|;
              && off <= MAX_PAYLOAD - 3
              && Contents() == body + (EncodeStr(name) + EncodeStr(UblobTaken(mem, want, off)))
              && copied == CopyCode(mem, want, off)
    {
      hide KstrTaken, UblobTaken, EncodeStr, UblobSize;
      ghost var name := KstrTaken(src, maxLen, |body|);
      ghost var off := |body| + 2 + |name|;
      Start(h);
      PutBody(body);
      AppendKstr(src, maxLen);
      assert |Contents()| == off;
      copied := AppendUblob(mem, want);
      Associative(body, EncodeStr(name), EncodeStr(UblobTaken(mem, want, off)));
    }

    /** Stores the flags field of an exec body already in place. */
    method SetFlags(ghost dev: nat, ghost ino: nat, flags: nat, ghost tail: seq<byte>)
      requires Valid() && Contents() == Pack(EXEC, ExecBody(dev, ino, 0, 2)) + tail
      modifies buf
      ensures Contents() == Pack(EXEC, ExecBody(dev, ino, flags, 2)) + tail
    {
      BodySizes();
      hide Pack, Bytes, Size;
      ghost var before := Contents();
      Write(16, Bytes(flags, 4));
      assert forall i :: 0 <= i < payloadLen ==>
          Contents()[i] == if 16 <= i < 20 then Bytes(flags, 4)[i - 16] else before[i];
      ExecSetFlags(dev, ino, 0, flags, 2, tail, Contents());
    }

    /** Emits the message at its real size; the masks on the length change nothing. */
    method Emit() returns (record: seq<byte>)
      requires Valid() && reserved == 0
      ensures record == Record(hdr, Contents())
    {
      hide Pack, Bytes;
      var len := (if payloadLen > MAX_PAYLOAD then MAX_PAYLOAD else payloadLen) % (2 * MAX_PAYLOAD);
      assert len == payloadLen;
      record := Pack(HDR, hdr) + Bytes(payloadLen, 4) + Bytes(reserved, 4) + buf[..len];
    }
  }

  // ---------------------------------------------------------------------------
  // The hooks
  // ---------------------------------------------------------------------------

  const EV_EXEC: nat := 1
  const EV_FILE_DENY: nat := 11

  const ARGV_TRUNCATED: nat := 1
  const ARGV_UNAVAILABLE: nat := 2
  const UNLINKED: nat := 4
  const DECISION: nat := 8

  const TWO64: nat := 0x1_0000_0000_0000_0000

  /** Fields of an exec body: device, inode, flags, number of strings, padding. */
  function ExecBody(dev: nat, ino: nat, flags: nat, count: nat): (r: seq<nat>)
    ensures |r| == |EXEC| && r[3] == count
  {
    [dev, ino, flags, count, 0]
  }

  /** Fields of a file-deny body: device, inode, access, hook, flags, padding, one string, padding. */
  function DenyBody(dev: nat, ino: nat, access: nat, hook: nat, flags: nat): (r: seq<nat>)
    ensures |r| == |FILE_DENY| && r[6] == 1
  {
    [dev, ino, access, hook, flags, 0, 1, 0, 0]
  }

  /** A record that decodes to the header it was started with, and to a body and strings. */
  ghost predicate DecodesTo(record: seq<byte>, hdr: seq<nat>, body: seq<nat>, strings: seq<seq<byte>>) {
    var d := Decode(record);
    && d.Ok? && d.value.hdr == hdr && d.value.payload.Fields?
    && d.value.payload.body == body && All(d.value.payload.strings) == strings
    && |record| <= ENVELOPE + MAX_PAYLOAD
  }

  lemma BodySizes()
    ensures Size(EXEC) == 24 && Size(FILE_DENY) == 32
  {
    assert EXEC[1..] == [8, 4, 2, 2] && [8, 4, 2, 2][1..] == [4, 2, 2] && [4, 2, 2][1..] == [2, 2];
    assert Size([4, 2, 2]) == 8;
    assert FILE_DENY[1..] == [8, 4, 2, 1, 1, 2, 2, 4] && [8, 4, 2, 1, 1, 2, 2, 4][1..] == [4, 2, 1, 1, 2, 2, 4];
    assert [4, 2, 1, 1, 2, 2, 4][1..] == [2, 1, 1, 2, 2, 4] && [2, 1, 1, 2, 2, 4][1..] == [1, 1, 2, 2, 4];
    assert [1, 1, 2, 2, 4][1..] == [1, 2, 2, 4] && [1, 2, 2, 4][1..] == [2, 2, 4];
    assert Size([2, 2, 4]) == 8;
    assert Size([1, 1, 2, 2, 4]) == 10;
    assert Size([4, 2, 1, 1, 2, 2, 4]) == 16;
  }

  /** What a hook appended, decoded: `strings` after a body of an event type that carries them. */
  lemma BuiltDecodes(hdr: seq<nat>, body: seq<nat>, strings: seq<seq<byte>>)
    requires ValidHeader(hdr) && ShapeOf(hdr[HDR_TYPE]).WithStrings?
    requires Fits(ShapeOf(hdr[HDR_TYPE]).widths, body) && body[ShapeOf(hdr[HDR_TYPE]).countAt] == |strings|
    requires ShortStrings(strings) && |EncodePayload(ShapeOf(hdr[HDR_TYPE]).widths, body, strings)| <= MAX_PAYLOAD
    ensures |hdr| == |HDR|
    ensures DecodesTo(Record(hdr, EncodePayload(ShapeOf(hdr[HDR_TYPE]).widths, body, strings)), hdr, body, strings)
  {
    DecodeOfEncode(hdr, body, strings);
    HdrSize();
    RecordParts(hdr, EncodePayload(ShapeOf(hdr[HDR_TYPE]).widths, body, strings));
    hide Decode, Record, All, EncodePayload, ShapeOf;
  }

  lemma OneString(s: seq<byte>)
    ensures EncodeStrs([s]) == EncodeStr(s)
  {
    assert EncodeStrs([s]) == EncodeStr(s) + EncodeStrs([]);
  }

  lemma TwoStrings(s: seq<byte>, t: seq<byte>)
    ensures EncodeStrs([s, t]) == EncodeStr(s) + EncodeStr(t)
  {
    assert [s, t][1..] == [t];
    OneString(t);
  }

  lemma ShapesOfHooks()
    ensures ShapeOf(EV_EXEC) == WithStrings(EXEC, 3) && ShapeOf(EV_FILE_DENY) == WithStrings(FILE_DENY, 6)
  {
  }

  /** A body followed by one string decodes to that body and string. */
  lemma BuiltOne(hdr: seq<nat>, widths: seq<nat>, countAt: nat, body: seq<nat>, name: seq<byte>)
    requires ValidHeader(hdr) && ShapeOf(hdr[HDR_TYPE]) == WithStrings(widths, countAt)
    requires Fits(widths, body) && body[countAt] == 1
    requires |name| < 0x1_0000 && Size(widths) + 2 + |name| <= MAX_PAYLOAD
    ensures |hdr| == |HDR|
    ensures DecodesTo(Record(hdr, Pack(widths, body) + EncodeStr(name)), hdr, body, [name])
  {
    hide ShapeOf, DecodesTo, Record, Pack, Size, ValidHeader, EncodeStrs;
    OneString(name);
    assert EncodePayload(widths, body, [name]) == Pack(widths, body) + EncodeStr(name);
    BuiltDecodes(hdr, body, [name]);
  }

  lemma BuiltTwo(hdr: seq<nat>, widths: seq<nat>, countAt: nat, body: seq<nat>, name: seq<byte>, args: seq<byte>)
    requires ValidHeader(hdr) && ShapeOf(hdr[HDR_TYPE]) == WithStrings(widths, countAt)
    requires Fits(widths, body) && body[countAt] == 2
    requires |name| < 0x1_0000 && |args| < 0x1_0000 && Size(widths) + 4 + |name| + |args| <= MAX_PAYLOAD
    ensures |hdr| == |HDR|
    ensures DecodesTo(Record(hdr, Pack(widths, body) + (EncodeStr(name) + EncodeStr(args))), hdr, body, [name, args])
  {
    hide ShapeOf, DecodesTo, Record, Pack, Size, ValidHeader, EncodeStrs;
    TwoStrings(name, args);
    assert EncodePayload(widths, body, [name, args]) == Pack(widths, body) + (EncodeStr(name) + EncodeStr(args));
    BuiltDecodes(hdr, body, [name, args]);
  }

  /** A name as a record carries it: its first 255 bytes, nothing if it cannot be read. */
  function NameTaken(src: Option<seq<byte>>): (r: seq<byte>)
    ensures |r| <= 255
  {
    if src.None? then [] else if |src.value| <= 255 then src.value else src.value[..255]
  }

  lemma KstrIsName(src: Option<seq<byte>>, off: nat)
    requires off <= 1024
    ensures KstrTaken(src, 256, off) == NameTaken(src)
  {
  }

  lemma ExecFits(dev: nat, ino: nat, flags: nat, count: nat)
    requires dev < TWO64 && ino < TWO64 && flags <= 15 && count <= 2
    ensures Fits(EXEC, ExecBody(dev, ino, flags, count))
  {
    Widths();
    hide Pow256;
  }

  lemma DenyFits(dev: nat, ino: nat, access: nat, hook: nat, flags: nat)
    requires dev < TWO64 && ino < TWO64 && access < 0x1_0000_0000 && hook < 0x1_0000 && flags < 0x100
    ensures Fits(FILE_DENY, DenyBody(dev, ino, access, hook, flags))
  {
    Widths();
    hide Pow256;
  }

  lemma Widths()
    ensures Pow256(1) == 0x100 && Pow256(2) == 0x1_0000 && Pow256(4) == 0x1_0000_0000 && Pow256(8) == TWO64
  {
    assert Pow256(4) == 0x1_0000_0000;
  }

  /** The record of a denied exec: the file, whether it has no link, and the filename the kernel resolved. */
  method ExecDecision(m: Scratch, hdr: seq<nat>, dev: nat, ino: nat, unlinked: bool, filename: Option<seq<byte>>)
    returns (record: seq<byte>)
    requires m.Valid() && ValidHeader(hdr) && hdr[HDR_TYPE] == EV_EXEC && dev < TWO64 && ino < TWO64
    modifies m, m.buf
    ensures m.Valid()
    ensures DecodesTo(record, hdr, [dev, ino, if unlinked then 12 else 8, 1, 0], [NameTaken(filename)])
  {
    var flags := DECISION + if unlinked then UNLINKED else 0;
    var body := ExecBody(dev, ino, flags, 1);
    ExecFits(dev, ino, flags, 1);
    KstrIsName(filename, 24);
    assert body == [dev, ino, if unlinked then 12 else 8, 1, 0];
    hide Pack, Fits, EncodeStr, KstrTaken, DecodesTo, Size, Record, ShapeOf, ExecBody, DenyBody, UblobTaken, Bytes;
    ExecDecodes(hdr, body, KstrTaken(filename, 256, 24));
    record := m.OneStringRecord(hdr, Pack(EXEC, body), filename, 256);
  }

  lemma ExecDecodes(hdr: seq<nat>, body: seq<nat>, name: seq<byte>)
    requires ValidHeader(hdr) && hdr[HDR_TYPE] == EV_EXEC && Fits(EXEC, body) && body[3] == 1 && |name| < 256
    ensures |hdr| == |HDR| && |body| == |EXEC| && |Pack(EXEC, body)| == 24
    ensures DecodesTo(Record(hdr, Pack(EXEC, body) + EncodeStr(name)), hdr, body, [name])
  {
    BodySizes();
    ShapesOfHooks();
    hide Pack, DecodesTo, Size, Record, ShapeOf;
    BuiltOne(hdr, EXEC, 3, body, name);
  }

  lemma ExecTwoDecodes(hdr: seq<nat>, body: seq<nat>, name: seq<byte>, args: seq<byte>)
    requires ValidHeader(hdr) && hdr[HDR_TYPE] == EV_EXEC && Fits(EXEC, body) && body[3] == 2
    requires |name| < 256 && 28 + |name| + |args| <= MAX_PAYLOAD
    ensures |hdr| == |HDR| && |body| == |EXEC|
    ensures DecodesTo(Record(hdr, Pack(EXEC, body) + (EncodeStr(name) + EncodeStr(args))), hdr, body, [name, args])
  {
    BodySizes();
    ShapesOfHooks();
    hide Pack, DecodesTo, Size, Record, ShapeOf;
    BuiltTwo(hdr, EXEC, 3, body, name, args);
  }

  /** Flags of an exec record after copying the argument area. */
  function ArgFlags(unlinked: bool, copied: int): nat {
    (if unlinked then UNLINKED else 0)
    + (if copied > 0 then ARGV_TRUNCATED else if copied < 0 then ARGV_UNAVAILABLE else 0)
  }

  function CopyCode(mem: seq<byte>, want: nat, off: nat): int
    requires off <= MAX_PAYLOAD - 3
  {
    if UblobSize(want, off) > |mem| then -1 else if want > Room(off) then 1 else 0
  }

  lemma ExecPack(dev: nat, ino: nat, flags: nat, count: nat)
    ensures Pack(EXEC, ExecBody(dev, ino, flags, count)) ==
            Bytes(dev, 8) + Bytes(ino, 8) + Bytes(flags, 4) + Bytes(count, 2) + Bytes(0, 2)
  {
    hide Bytes;
    var vs := ExecBody(dev, ino, flags, count);
    assert EXEC[1..] == [8, 4, 2, 2] && vs[1..] == [ino, flags, count, 0];
    assert [8, 4, 2, 2][1..] == [4, 2, 2] && [ino, flags, count, 0][1..] == [flags, count, 0];
    assert [4, 2, 2][1..] == [2, 2] && [flags, count, 0][1..] == [count, 0];
    assert [2, 2][1..] == [2] && [count, 0][1..] == [0];
    assert Pack([2], [0]) == Bytes(0, 2);
    assert Pack([2, 2], [count, 0]) == Bytes(count, 2) + Bytes(0, 2);
    assert Pack([4, 2, 2], [flags, count, 0]) == Bytes(flags, 4) + (Bytes(count, 2) + Bytes(0, 2));
    assert Pack([8, 4, 2, 2], [ino, flags, count, 0]) ==
        Bytes(ino, 8) + (Bytes(flags, 4) + (Bytes(count, 2) + Bytes(0, 2)));
  }

  /** Writing the flags field of a packed exec body. */
  lemma ExecSetFlags(dev: nat, ino: nat, was: nat, flags: nat, count: nat, tail: seq<byte>, s: seq<byte>)
    requires |s| == 24 + |tail|
    requires var old' := Pack(EXEC, ExecBody(dev, ino, was, count)) + tail;
             |old'| == |s| && forall i :: 0 <= i < |s| ==>
                 s[i] == if 16 <= i < 20 then Bytes(flags, 4)[i - 16] else old'[i]
    ensures s == Pack(EXEC, ExecBody(dev, ino, flags, count)) + tail
  {
    BodySizes();
    ExecPack(dev, ino, was, count);
    ExecPack(dev, ino, flags, count);
    hide Pack, Bytes, Size;
  }

  /** Stores the flags of an exec message that is otherwise complete, and emits it. */
  method FinishExec(m: Scratch, ghost dev: nat, ghost ino: nat, flags: nat, ghost name: seq<byte>,
                    ghost args: seq<byte>)
    returns (record: seq<byte>)
    requires m.Valid() && m.reserved == 0 && ValidHeader(m.hdr) && m.hdr[HDR_TYPE] == EV_EXEC
    requires Fits(EXEC, ExecBody(dev, ino, flags, 2)) && |name| < 256 && 28 + |name| + |args| <= MAX_PAYLOAD
    requires m.Contents() == Pack(EXEC, ExecBody(dev, ino, 0, 2)) + (EncodeStr(name) + EncodeStr(args))
    modifies m.buf
    ensures m.Valid() && DecodesTo(record, m.hdr, ExecBody(dev, ino, flags, 2), [name, args])
  {
    hide Pack, Fits, EncodeStr, DecodesTo, Record, ExecBody, ValidHeader;
    m.SetFlags(dev, ino, flags, EncodeStr(name) + EncodeStr(args));
    record := m.Emit();
    ExecTwoDecodes(m.hdr, ExecBody(dev, ino, flags, 2), name, args);
  }

  /** The room for arguments behind the body, a name of `n` bytes and the two length words. */
  function ArgsRoom(n: nat): nat
    requires n <= 255
  {
    2048 - 24 - 2 - n - 2
  }

  /** What must be readable of an argument area of `want` bytes. */
  function ArgsCopied(want: nat, n: nat): nat
    requires n <= 255
  {
    if want <= ArgsRoom(n) then want else ArgsRoom(n)
  }

  /** The arguments a record carries: all that fits, or nothing if that cannot be read. */
  function ArgsTaken(mem: seq<byte>, want: nat, n: nat): seq<byte>
    requires n <= 255
  {
    if ArgsCopied(want, n) <= |mem| then mem[..ArgsCopied(want, n)] else []
  }

  /** 1: there are more arguments than fit. 2: they could not be read. 4: the file has no link. */
  function ExecFlags(unlinked: bool, mem: seq<byte>, want: nat, n: nat): nat
    requires n <= 255
  {
    (if unlinked then 4 else 0) + if ArgsCopied(want, n) > |mem| then 2 else if want > ArgsRoom(n) then 1 else 0
  }

  lemma ArgsAre(dev: nat, ino: nat, unlinked: bool, mem: seq<byte>, want: nat, n: nat)
    requires n <= 255
    ensures UblobTaken(mem, want, 26 + n) == ArgsTaken(mem, want, n)
    ensures ExecBody(dev, ino, ArgFlags(unlinked, CopyCode(mem, want, 26 + n)), 2) ==
            [dev, ino, ExecFlags(unlinked, mem, want, n), 2, 0]
  {
  }

  /** The exec message with its strings, its flags stored last. */
  method BuildExec(m: Scratch, hdr: seq<nat>, dev: nat, ino: nat, unlinked: bool,
                   filename: Option<seq<byte>>, mem: seq<byte>, want: nat)
    returns (record: seq<byte>)
    requires m.Valid() && ValidHeader(hdr) && hdr[HDR_TYPE] == EV_EXEC && dev < TWO64 && ino < TWO64
    modifies m, m.buf
    ensures m.Valid()
    ensures var name := KstrTaken(filename, 256, 24);
            var off := 26 + |name|;
            && off <= MAX_PAYLOAD - 3
            && DecodesTo(record, hdr, ExecBody(dev, ino, ArgFlags(unlinked, CopyCode(mem, want, off)), 2),
                         [name, UblobTaken(mem, want, off)])
  {
    BodySizes();
    assert |hdr| == 11;
    ghost var name := KstrTaken(filename, 256, 24);
    ghost var off := 26 + |name|;
    ghost var args := UblobTaken(mem, want, off);
    hide Pack, Fits, EncodeStr, KstrTaken, DecodesTo, Size, Record, ShapeOf, ExecBody, DenyBody, UblobTaken, Bytes;
    var copied := m.TwoStringBody(hdr, Pack(EXEC, ExecBody(dev, ino, 0, 2)), filename, 256, mem, want);
    ArgFlagsSmall(unlinked, copied);
    var flags := ArgFlags(unlinked, copied);
    ExecFits(dev, ino, flags, 2);
    record := FinishExec(m, dev, ino, flags, name, args);
  }

  /**
   The record of a committed exec: filename, then the argument area cut to the room left, flags saying what happened to
   it.
   */
  method ExecRecord(m: Scratch, hdr: seq<nat>, dev: nat, ino: nat, unlinked: bool,
                    filename: Option<seq<byte>>, mem: seq<byte>, want: nat)
    returns (record: seq<byte>)
    requires m.Valid() && ValidHeader(hdr) && hdr[HDR_TYPE] == EV_EXEC && dev < TWO64 && ino < TWO64
    modifies m, m.buf
    ensures m.Valid()
    ensures var name := NameTaken(filename);
            DecodesTo(record, hdr, [dev, ino, ExecFlags(unlinked, mem, want, |name|), 2, 0],
                      [name, ArgsTaken(mem, want, |name|)])
  {
    hide KstrTaken, NameTaken, ArgsTaken, ExecFlags, ArgFlags, CopyCode, ExecBody, UblobTaken, DecodesTo, ValidHeader;
    KstrIsName(filename, 24);
    ArgsAre(dev, ino, unlinked, mem, want, |NameTaken(filename)|);
    record := BuildExec(m, hdr, dev, ino, unlinked, filename, mem, want);
  }

  lemma ArgFlagsSmall(unlinked: bool, copied: int)
    ensures ArgFlags(unlinked, copied) <= 7
  {
  }

  /** The record of a denied file access: the entry's name, or an empty string when there is none. */
  method FileDeny(m: Scratch, hdr: seq<nat>, dev: nat, ino: nat, access: nat, hook: nat, flags: nat,
                  name: Option<Option<seq<byte>>>)
    returns (record: seq<byte>)
    requires m.Valid() && ValidHeader(hdr) && hdr[HDR_TYPE] == EV_FILE_DENY
    requires dev < TWO64 && ino < TWO64 && access < 0x1_0000_0000 && hook < 0x1_0000 && flags < 0x100
    modifies m, m.buf
    ensures m.Valid()
    ensures DecodesTo(record, hdr, [dev, ino, access, hook, flags, 0, 1, 0, 0],
                      [if name.Some? then NameTaken(name.value) else []])
  {
    var body := DenyBody(dev, ino, access, hook, flags);
    DenyFits(dev, ino, access, hook, flags);
    if name.Some? {
      KstrIsName(name.value, 32);
    }
    assert body == [dev, ino, access, hook, flags, 0, 1, 0, 0];
    hide Pack, Fits, EncodeStr, KstrTaken, DecodesTo, Size, Record, ShapeOf, ExecBody, DenyBody, UblobTaken, Bytes;
    var src := if name.Some? then name.value else Some([]);
    var maxLen := if name.Some? then 256 else 1;
    FileDenyDecodes(hdr, body, KstrTaken(src, maxLen, 32));
    EmptyName();
    record := m.OneStringRecord(hdr, Pack(FILE_DENY, body), src, maxLen);
  }

  lemma EmptyName()
    ensures KstrTaken(Some([]), 1, 32) == []
  {
  }

  lemma FileDenyDecodes(hdr: seq<nat>, body: seq<nat>, name: seq<byte>)
    requires ValidHeader(hdr) && hdr[HDR_TYPE] == EV_FILE_DENY && Fits(FILE_DENY, body) && body[6] == 1 && |name| < 256
    ensures |hdr| == |HDR| && |body| == |FILE_DENY| && |Pack(FILE_DENY, body)| == 32
    ensures DecodesTo(Record(hdr, Pack(FILE_DENY, body) + EncodeStr(name)), hdr, body, [name])
  {
    BodySizes();
    ShapesOfHooks();
    hide Pack, DecodesTo, Size, Record, ShapeOf;
    BuiltOne(hdr, FILE_DENY, 6, body, name);
  }
}
