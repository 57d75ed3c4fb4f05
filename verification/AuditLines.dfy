/** Segment files as bytes and as newline-terminated lines, with a possibly torn last one. */
module AuditLines {
  import opened Layout

  type Line = seq<byte>

  const NL: byte := 10

  /** Complete lines, without their newline, and the bytes after the last newline. */
  datatype Parts = Parts(lines: seq<Line>, torn: Line)

  predicate Clean(line: Line) {
    NL !in line
  }

  predicate AllClean(lines: seq<Line>) {
    forall i :: 0 <= i < |lines| ==> Clean(lines[i])
  }

  /** A line as written. */
  function Ended(line: Line): seq<byte> {
    line + [NL]
  }

  function Flat(lines: seq<Line>): seq<byte> {
    if lines == [] then [] else Ended(lines[0]) + Flat(lines[1..])
  }

  function FirstNewline(data: seq<byte>): (i: nat)
    requires NL in data
    ensures i < |data| && data[i] == NL && Clean(data[..i])
  {
    if data[0] == NL then 0 else
      var i := 1 + FirstNewline(data[1..]);
      assert data[..i] == [data[0]] + data[1..][..i - 1];
      i
  }

  function Split(data: seq<byte>): Parts
    decreases |data|
  {
    if NL !in data then Parts([], data)
    else
      var i := FirstNewline(data);
      var rest := Split(data[i + 1..]);
      Parts([data[..i]] + rest.lines, rest.torn)
  }

  lemma Assoc<T>(a: seq<T>, b: seq<T>, c: seq<T>)
    ensures (a + b) + c == a + (b + c)
  {
  }

  lemma CleanAt(data: seq<byte>, i: nat)
    requires i <= |data| && Clean(data[..i])
    ensures forall j :: 0 <= j < i ==> data[j] != NL
  {
    assert forall j :: 0 <= j < i ==> data[..i][j] == data[j];
  }

  lemma FirstNewlineIs(line: Line, rest: seq<byte>)
    requires Clean(line)
    ensures NL in Ended(line) + rest && FirstNewline(Ended(line) + rest) == |line|
  {
    hide FirstNewline;
    var data := Ended(line) + rest;
    assert data[|line|] == NL;
    assert forall j :: 0 <= j < |line| ==> data[j] == line[j];
    CleanAt(data, FirstNewline(data));
  }

  lemma SplitLine(line: Line, rest: seq<byte>)
    requires Clean(line)
    ensures Split(Ended(line) + rest) == Parts([line] + Split(rest).lines, Split(rest).torn)
  {
    hide FirstNewline;
    FirstNewlineIs(line, rest);
    var data := Ended(line) + rest;
    assert data[..|line|] == line && data[|line| + 1..] == rest;
  }

  lemma FlatFirst(line: Line, lines: seq<Line>)
    ensures Flat([line] + lines) == Ended(line) + Flat(lines)
  {
    assert ([line] + lines)[1..] == lines;
  }

  lemma FirstLine(data: seq<byte>) returns (line: Line, rest: seq<byte>)
    requires NL in data
    ensures Clean(line) && data == Ended(line) + rest && |rest| < |data|
  {
    var i := FirstNewline(data);
    line, rest := data[..i], data[i + 1..];
  }

  /** Splitting loses nothing. */
  lemma {:induction false} SplitWhole(data: seq<byte>)
    ensures var p := Split(data); data == Flat(p.lines) + p.torn && AllClean(p.lines) && Clean(p.torn)
    decreases |data|
  {
    if NL !in data {
      assert Flat([]) + data == data;
    } else {
      hide Split, Flat, AllClean, Clean, Ended;
      var line, rest := FirstLine(data);
      SplitWhole(rest);
      var q := Split(rest);
      WholeFirst(line, rest, q);
      SplitLine(line, rest);
    }
  }

  lemma WholeFirst(line: Line, rest: seq<byte>, q: Parts)
    requires Clean(line) && AllClean(q.lines) && rest == Flat(q.lines) + q.torn
    ensures AllClean([line] + q.lines) && Ended(line) + rest == Flat([line] + q.lines) + q.torn
  {
    FlatFirst(line, q.lines);
    hide Flat, Ended;
    Assoc(Ended(line), Flat(q.lines), q.torn);
  }

  /** Splitting is the inverse of writing lines. */
  lemma {:induction false} SplitFlat(lines: seq<Line>, torn: Line)
    requires AllClean(lines) && Clean(torn)
    ensures Split(Flat(lines) + torn) == Parts(lines, torn)
  {
    if lines == [] {
      assert Flat(lines) + torn == torn;
    } else {
      hide Split, Flat, Ended;
      SplitFlat(lines[1..], torn);
      SplitLine(lines[0], Flat(lines[1..]) + torn);
      assert [lines[0]] + lines[1..] == lines;
      FlatFirst(lines[0], lines[1..]);
      Assoc(Ended(lines[0]), Flat(lines[1..]), torn);
    }
  }

  lemma FlatInjective(a: seq<Line>, b: seq<Line>)
    requires AllClean(a) && AllClean(b) && Flat(a) == Flat(b)
    ensures a == b
  {
    hide Split, Flat;
    SplitFlat(a, []);
    SplitFlat(b, []);
  }

  lemma {:induction false} FlatConcat(a: seq<Line>, b: seq<Line>)
    ensures Flat(a + b) == Flat(a) + Flat(b)
  {
    if a == [] {
      assert a + b == b;
    } else {
      hide Flat, Ended;
      FlatConcat(a[1..], b);
      assert a + b == [a[0]] + (a[1..] + b);
      FlatFirst(a[0], a[1..] + b);
      assert a == [a[0]] + a[1..];
      FlatFirst(a[0], a[1..]);
      Assoc(Ended(a[0]), Flat(a[1..]), Flat(b));
    }
  }

  lemma FlatExtends(a: seq<Line>, l: Line)
    ensures Flat(a + [l]) == Flat(a) + Ended(l)
  {
    FlatConcat(a, [l]);
    FlatFirst(l, []);
    assert [l] + [] == [l];
    assert Ended(l) + [] == Ended(l);
  }

  lemma NoLine(p: seq<byte>, line: Line)
    requires Clean(line) && p <= line
    ensures Clean(p) && Split(p) == Parts([], p)
  {
    assert forall i :: 0 <= i < |p| ==> p[i] == line[i];
  }

  /** The first lines, whole, and a part of the next. */
  predicate IsPart(q: Parts, lines: seq<Line>, torn: Line) {
    && q.lines <= lines
    && (|q.lines| < |lines| ==> q.torn <= lines[|q.lines|])
    && (|q.lines| == |lines| ==> q.torn <= torn)
  }

  lemma PartAfterFirst(first: Line, more: seq<Line>, torn: Line, q: Parts)
    requires IsPart(q, more, torn)
    ensures IsPart(Parts([first] + q.lines, q.torn), [first] + more, torn)
  {
  }

  /** A part of a file ends inside its first line or after it. */
  lemma CutAtFirst(first: Line, rest: seq<byte>, p: seq<byte>)
    requires p <= Ended(first) + rest
    ensures if |p| <= |first| then p <= first
            else p == Ended(first) + p[|first| + 1..] && p[|first| + 1..] <= rest
  {
    var whole := Ended(first) + rest;
    if |p| <= |first| {
      assert p == whole[..|p|];
    } else {
      assert p[..|first| + 1] == whole[..|first| + 1] == Ended(first);
      assert p[|first| + 1..] == whole[|first| + 1..|p|] == rest[..|p| - |first| - 1];
    }
  }

  /** What is left of a prefix of lines: the first few lines whole, and a part of the next. */
  lemma {:induction false} SplitPrefix(lines: seq<Line>, torn: Line, p: seq<byte>)
    requires AllClean(lines) && Clean(torn) && p <= Flat(lines) + torn
    ensures IsPart(Split(p), lines, torn)
  {
    if lines == [] {
      assert Flat(lines) + torn == torn;
      NoLine(p, torn);
    } else {
      var first, more := lines[0], lines[1..];
      assert lines == [first] + more;
      FirstOfFlat(first, more, torn);
      CutAtFirst(first, Flat(more) + torn, p);
      if |p| <= |first| {
        NoLine(p, first);
      } else {
        SplitPrefix(more, torn, p[|first| + 1..]);
        SplitLine(first, p[|first| + 1..]);
        PartAfterFirst(first, more, torn, Split(p[|first| + 1..]));
      }
    }
    hide Split, Flat, Ended;
  }

  lemma FirstOfFlat(first: Line, more: seq<Line>, torn: Line)
    ensures Flat([first] + more) + torn == Ended(first) + (Flat(more) + torn)
  {
    hide Flat, Ended;
    FlatFirst(first, more);
    Assoc(Ended(first), Flat(more), torn);
  }
}
