/**
 Opening a log in a directory of any contents: no batch that verifies is cut,
 overwritten or moved aside.
 */
module AuditOpen {
  import opened Wrappers
  import opened Layout
  import opened AuditFrame
  import opened AuditLines
  import opened AuditChain
  import opened AuditTamper
  import opened AuditText

  type Files = map<Name, seq<byte>>

  /** A directory listing: every name once, segment names in the order of their numbers. */
  ghost predicate IsListing(listing: seq<Name>, files: Files) {
    && (forall i :: 0 <= i < |listing| ==> listing[i] in files)
    && (forall n :: n in files ==> n in listing)
    && (forall i, j :: 0 <= i < j < |listing| ==> listing[i] != listing[j])
    && (forall i, j :: 0 <= i < j < |listing| && listing[i].Number? && listing[j].Number? ==>
        listing[i].n < listing[j].n)
  }

  // ---------------------------------------------------------------------------
  // The part of a segment that verifies
  // ---------------------------------------------------------------------------

  /** The scan of a segment under its own header, whatever its name. */
  function OwnScan(c: Suite, data: seq<byte>): Option<Scan> {
    var lines := Split(data).lines;
    if lines == [] then None
    else match c.classify(lines[0])
      case Segment(h) =>
        if h.prev.Some? && h.key.Some? then Some(ScanLines(c, h.key.value, HeadOf(h), lines[1..])) else None
      case _ => None
  }

  /** The header and the leading batches that verify under it; nothing if there is no such batch. */
  function VerifiedPrefix(c: Suite, data: seq<byte>): seq<byte> {
    var s := OwnScan(c, data);
    if s.None? || s.value.accepted == [] then []
    else
      var lines := Split(data).lines;
      SealedInside(c, data);
      Flat(lines[..1 + s.value.sealed])
  }

  lemma SealedInside(c: Suite, data: seq<byte>)
    requires OwnScan(c, data).Some?
    ensures 1 + OwnScan(c, data).value.sealed <= |Split(data).lines|
  {
    var lines := Split(data).lines;
    var h := c.classify(lines[0]).header;
    SealedWithin(c, Number(h.number), lines);
  }

  /** Every batch that verified before still does, in the same file. */
  ghost predicate Keeps(c: Suite, before: Files, after: Files) {
    forall n :: n in before && VerifiedPrefix(c, before[n]) != [] ==>
      n in after && VerifiedPrefix(c, before[n]) <= after[n]
  }

  /** What is left of a segment that recovery does not remove. */
  function Remaining(plan: Plan, data: seq<byte>): seq<byte> {
    if plan.Leftover? && plan.end <= |data| then data[..plan.end] else data
  }

  /** Recovery removes or renames only segments without a batch that verifies... */
  lemma RemovedHadNothing(c: Suite, name: Name, data: seq<byte>)
    requires var p := PlanOf(c, name, data); p.Empty? || (p.Leftover? && p.kept.None?) || (p.Forged? && p.batches == 0)
    ensures VerifiedPrefix(c, data) == []
  {
    hide Split, ScanLines, Flat;
    assert Split([]).lines == [] by {
      NoLine([], []);
    }
  }

  /** ...and cuts nothing that verifies off the others. */
  lemma KeptPrefix(c: Suite, name: Name, data: seq<byte>)
    requires var p := PlanOf(c, name, data); p.Done? || p.Forged? || (p.Leftover? && p.kept.Some?)
    ensures VerifiedPrefix(c, data) <= Remaining(PlanOf(c, name, data), data)
  {
    hide Split, ScanLines, Flat;
    var lines := Split(data).lines;
    SplitWhole(data);
    SealedWithin(c, name, lines);
    var k := 1 + ScanSegment(c, name, lines).sealed;
    FlatPrefix(lines, Split(data).torn, k);
  }

  lemma PlanHead(c: Suite, name: Name, data: seq<byte>)
    requires var p := PlanOf(c, name, data); p.Done? || p.Forged? || (p.Leftover? && p.kept.Some?)
    ensures OwnScan(c, data).Some? && name.Number?
    ensures var p := PlanOf(c, name, data);
      OwnScan(c, data).value.head == (if p.Leftover? then p.kept.value else p.head)
    ensures c.classify(Split(data).lines[0]).header.number == name.n
  {
    hide Split, ScanLines, Flat;
  }

  // ---------------------------------------------------------------------------
  // Where the chain continues
  // ---------------------------------------------------------------------------

  lemma {:induction false} ScanNumber(c: Suite, key: Key, head: Head, lines: seq<Line>)
    ensures var s := ScanLines(c, key, head, lines);
      head.next + |s.accepted| < TWO64 ==> s.head.next == head.next + |s.accepted|
  {
    if lines == [] {
    } else {
      ScanNumber(c, key, head, lines[..|lines| - 1]);
      hide ScanLines, Closes;
      ScanLast(c, key, head, lines);
    }
  }

  lemma ScanLast(c: Suite, key: Key, head: Head, lines: seq<Line>)
    requires lines != []
    ensures var s, t := ScanLines(c, key, head, lines[..|lines| - 1]), ScanLines(c, key, head, lines);
      || (t.head == s.head && t.accepted == s.accepted)
      || (t.head.next == Succ(s.head.next) && |t.accepted| == |s.accepted| + 1)
  {
    var s := ScanLines(c, key, head, lines[..|lines| - 1]);
    match c.classify(lines[|lines| - 1]) {
      case Batch(t) =>
        assert Accepts(c, key, s.head, t, s.pending) ==> t.number == s.head.next;
      case _ =>
    }
  }

  /** No segment counts its batches past the last 64-bit number. */
  ghost predicate Countable(c: Suite, files: Files) {
    forall n :: n in files && OwnScan(c, files[n]).Some? ==>
      c.classify(Split(files[n]).lines[0]).header.number + |OwnScan(c, files[n]).value.accepted| < TWO64
  }

  /** The name the next segment gets is free of batches that verify. */
  ghost predicate TargetFree(c: Suite, files: Files, head: Head) {
    Number(head.next) in files ==> VerifiedPrefix(c, files[Number(head.next)]) == []
  }

  /** Starting a segment replaces a file by one line. */
  lemma ReplacedKeeps(c: Suite, files: Files, before: Files, head: Head, line: Line)
    requires Clean(line) && Keeps(c, before, files)
    ensures Keeps(c, before, files[Number(head.next) := Ended(line)]) <==> TargetFree(c, before, head)
  {
    var target := Number(head.next);
    var after := files[target := Ended(line)];
    if target in before && VerifiedPrefix(c, before[target]) != [] {
      OneLineHoldsNoBatch(c, before[target], line);
    }
    hide VerifiedPrefix, Ended;
    if TargetFree(c, before, head) {
      forall n | n in before && VerifiedPrefix(c, before[n]) != []
        ensures n in after && VerifiedPrefix(c, before[n]) <= after[n]
      {
        assert n in files && n != target;
      }
    }
  }

  lemma OneLineHoldsNoBatch(c: Suite, data: seq<byte>, line: Line)
    requires Clean(line) && VerifiedPrefix(c, data) != []
    ensures !(VerifiedPrefix(c, data) <= Ended(line))
  {
    var s := OwnScan(c, data).value;
    var lines := Split(data).lines;
    var h := c.classify(lines[0]).header;
    SealedInside(c, data);
    AcceptedSeals(c, h.key.value, HeadOf(h), lines[1..]);
    SplitWhole(data);
    hide Split, ScanLines, Flat;
    var two := lines[..1 + s.sealed];
    SplitFlat(two, []);
    assert Flat(two) + [] == Flat(two);
    FlatOfOne(line);
    if Flat(two) <= Ended(line) {
      SplitPrefix([line], [], Flat(two));
    }
  }

  lemma FlatOfOne(line: Line)
    ensures Flat([line]) + [] == Ended(line)
  {
    assert Flat([line]) == Ended(line) + Flat([]);
  }

  lemma {:induction false} AcceptedSeals(c: Suite, key: Key, head: Head, lines: seq<Line>)
    ensures var s := ScanLines(c, key, head, lines); s.accepted != [] ==> s.sealed > 0
  {
    if lines == [] {
    } else {
      AcceptedSeals(c, key, head, lines[..|lines| - 1]);
    }
    hide Accepts, After;
  }

  /**
   Without a wrap of the sequence numbers, the next name is behind every file left, or the segment itself with no
   batch.
   */
  lemma TargetIsFree(c: Suite, files: Files, listing: seq<Name>, k: nat, head: Head)
    requires IsListing(listing, files) && Listed(listing, files) && Countable(c, files) && k < |listing|
    requires Bare(c, files, listing, k + 1)
    requires var p := PlanOf(c, listing[k], files[listing[k]]);
      || (p.Done? && head == p.head)
      || (p.Forged? && p.batches > 0 && head == p.head)
      || (p.Leftover? && p.kept == Some(head))
    ensures TargetFree(c, files, head)
  {
    hide Split, ScanLines, Flat, PlanOf, VerifiedPrefix;
    var data := files[listing[k]];
    PlanHead(c, listing[k], data);
    NextNumber(c, data);
    var s := OwnScan(c, data).value;
    assert head == s.head && head.next == listing[k].n + |s.accepted|;
    if Number(head.next) in files {
      var j :| 0 <= j < |listing| && listing[j] == Number(head.next);
      if s.accepted == [] {
        assert VerifiedPrefix(c, data) == [] by {
          NoBatchNoPrefix(c, data);
        }
      } else {
        assert j > k;
      }
    }
  }

  lemma NoBatchNoPrefix(c: Suite, data: seq<byte>)
    requires OwnScan(c, data).Some? && OwnScan(c, data).value.accepted == []
    ensures VerifiedPrefix(c, data) == []
  {
  }

  lemma NextNumber(c: Suite, data: seq<byte>)
    requires OwnScan(c, data).Some?
    ensures var s, n := OwnScan(c, data).value, c.classify(Split(data).lines[0]).header.number;
      n + |s.accepted| < TWO64 ==> s.head.next == n + |s.accepted|
  {
    hide Split, ScanLines;
    var lines := Split(data).lines;
    var h := c.classify(lines[0]).header;
    ScanNumber(c, h.key.value, HeadOf(h), lines[1..]);
  }

  /** What a segment says about the position of the chain: refused, nothing, or a position. */
  datatype Finding = Stuck | Nothing | At(head: Head)

  function FindingOf(plan: Plan): Finding {
    match plan
    case Empty => Nothing
    case Refused => Stuck
    case Done(h) => At(h)
    case Forged(h, batches) => if batches == 0 then Nothing else At(h)
    case Leftover(kept, _, _) => if kept.None? then Nothing else At(kept.value)
  }

  /** Where the chain continues, newest segment first; `None` if a segment that must be read is refused. */
  function PositionOf(c: Suite, files: Files, listing: seq<Name>): Option<Head>
    requires Listed(listing, files)
  {
    if listing == [] then Some(START)
    else
      var last := listing[|listing| - 1];
      match FindingOf(PlanOf(c, last, files[last]))
      case Stuck => None
      case At(h) => Some(h)
      case Nothing => PositionOf(c, files, listing[..|listing| - 1])
  }

  lemma PositionStep(c: Suite, files: Files, listing: seq<Name>, k: nat)
    requires k < |listing| && Listed(listing, files)
    ensures Listed(listing[..k], files) && Listed(listing[..k + 1], files) && listing[k] in files
    ensures PositionOf(c, files, listing[..k + 1]) ==
      match FindingOf(PlanOf(c, listing[k], files[listing[k]]))
      case Stuck => None
      case At(h) => Some(h)
      case Nothing => PositionOf(c, files, listing[..k])
  {
    hide PlanOf;
    assert listing[..k + 1][..k] == listing[..k];
  }

  type Asides = map<(Name, nat), seq<byte>>

  /** A new file, under a suffix not taken before, holds `data`; nothing else changed. */
  ghost predicate SetAside(before: Asides, after: Asides, name: Name, data: seq<byte>) {
    exists n: nat :: (name, n) !in before && after == before[(name, n) := data]
  }

  /**
   The segments an opening leaves before it starts one: newest first, those without a position go, and the first that
   has one is cut to what it trusts.
   */
  function FilesLeft(c: Suite, files: Files, listing: seq<Name>): Files {
    if listing == [] || listing[|listing| - 1] !in files then files
    else
      var last := listing[|listing| - 1];
      var plan := PlanOf(c, last, files[last]);
      match FindingOf(plan)
      case Stuck => files
      case At(_) => files[last := Remaining(plan, files[last])]
      case Nothing => FilesLeft(c, files - {last}, listing[..|listing| - 1])
  }

  lemma FilesStep(c: Suite, files: Files, listing: seq<Name>, k: nat)
    requires k < |listing| && listing[k] in files
    ensures var plan := PlanOf(c, listing[k], files[listing[k]]);
      FilesLeft(c, files, listing[..k + 1]) ==
      match FindingOf(plan)
      case Stuck => files
      case At(_) => files[listing[k] := Remaining(plan, files[listing[k]])]
      case Nothing => FilesLeft(c, files - {listing[k]}, listing[..k])
  {
    hide PlanOf, Remaining;
    assert listing[..k + 1][..k] == listing[..k];
  }

  lemma NoFilesLeft(c: Suite, files: Files)
    ensures FilesLeft(c, files, []) == files
  {
  }

  /** No byte of a segment is lost: what is not in it any more is in a file set aside from it. */
  ghost predicate SavedFrom(data: seq<byte>, name: Name, files: Files, unsealed: Asides, forged: Asides) {
    var kept := if name in files then files[name] else [];
    && kept <= data
    && (|| kept == data
        || (exists n: nat :: (name, n) in unsealed && unsealed[(name, n)] == data[|kept|..])
        || (kept == [] && exists n: nat :: (name, n) in forged && forged[(name, n)] == data))
  }

  ghost predicate AllSaved(before: Files, files: Files, unsealed: Asides, forged: Asides) {
    forall n :: n in before ==> SavedFrom(before[n], n, files, unsealed, forged)
  }

  /** Nothing set aside earlier is changed. */
  ghost predicate Grows(before: Asides, after: Asides) {
    forall k :: k in before ==> k in after && after[k] == before[k]
  }

  lemma AsideGrows(before: Asides, after: Asides, name: Name, data: seq<byte>)
    requires SetAside(before, after, name, data)
    ensures Grows(before, after) && exists n: nat :: (name, n) in after && after[(name, n)] == data
  {
    var n: nat :| (name, n) !in before && after == before[(name, n) := data];
    assert (name, n) in after;
  }

  /** Nothing is lost of a segment whose leftovers, or which as a whole, was set aside. */
  lemma RecoverSaves(c: Suite, name: Name, data: seq<byte>, files: Files, unsealed: Asides, forged: Asides)
    requires var p := PlanOf(c, name, data);
      && (name in files ==> files[name] == Remaining(p, data))
      && (name !in files ==> p.Empty? || (p.Leftover? && p.kept.None?) || (p.Forged? && p.batches == 0))
      && (p.Leftover? ==> p.end <= |data| &&
                          exists n: nat :: (name, n) in unsealed && unsealed[(name, n)] == data[p.end..])
      && (p.Forged? && p.batches == 0 ==> exists n: nat :: (name, n) in forged && forged[(name, n)] == data)
    ensures SavedFrom(data, name, files, unsealed, forged)
  {
    hide Split, ScanLines, Flat;
    var p := PlanOf(c, name, data);
    if p.Leftover? && p.kept.None? {
      assert p.end == 0 && data[0..] == data;
    }
  }

  lemma SavedStep(before: Files, was: Files, now: Files, wasU: Asides, nowU: Asides, wasF: Asides, nowF: Asides,
                  name: Name)
    requires AllSaved(before, was, wasU, wasF) && Grows(wasU, nowU) && Grows(wasF, nowF)
    requires name in before ==> SavedFrom(before[name], name, now, nowU, nowF)
    requires forall n :: n != name ==> (n in now <==> n in was) && (n in now ==> now[n] == was[n])
    ensures AllSaved(before, now, nowU, nowF)
  {
    forall n | n in before ensures SavedFrom(before[n], n, now, nowU, nowF) {
      if n != name {
        assert SavedFrom(before[n], n, was, wasU, wasF);
      }
    }
  }

  lemma Unchanged(data: seq<byte>, name: Name, files: Files, unsealed: Asides, forged: Asides)
    requires name in files && files[name] == data
    ensures SavedFrom(data, name, files, unsealed, forged)
  {
  }

  /** The segments of a log directory, and the files set aside from them. */
  datatype Dir = Dir(segments: Files, unsealed: Asides, forged: Asides)

  /** Nothing was lost between the two, and nothing set aside earlier changed. */
  ghost predicate Safe(start: Dir, now: Dir) {
    && AllSaved(start.segments, now.segments, now.unsealed, now.forged)
    && Grows(start.unsealed, now.unsealed) && Grows(start.forged, now.forged)
  }

  lemma SafeAtFirst(d: Dir)
    ensures Safe(d, d) && Grows(d.unsealed, d.unsealed) && Grows(d.forged, d.forged)
  {
  }

  /** What recovering one segment does, given what it says about the position. */
  ghost predicate RecoveredTo(c: Suite, name: Name, was: Dir, now: Dir, found: Finding) {
    && name in was.segments
    && var data := was.segments[name];
       var plan := PlanOf(c, name, data);
       && found == FindingOf(plan)
       && now.segments == (match found
                           case Stuck => was.segments
                           case Nothing => was.segments - {name}
                           case At(_) => was.segments[name := Remaining(plan, data)])
       && SavedFrom(data, name, now.segments, now.unsealed, now.forged)
       && Grows(was.unsealed, now.unsealed) && Grows(was.forged, now.forged)
  }

  lemma SafeNext(c: Suite, start: Dir, was: Dir, now: Dir, name: Name, found: Finding)
    requires Safe(start, was) && RecoveredTo(c, name, was, now, found)
    requires name in start.segments ==> start.segments[name] == was.segments[name]
    ensures Safe(start, now)
  {
    hide SavedFrom, AllSaved, PlanOf, Remaining;
    SavedStep(start.segments, was.segments, now.segments, was.unsealed, now.unsealed, was.forged, now.forged, name);
  }

  function FindingIn(r: Result<Option<Head>, string>): Finding {
    match r
    case Err(_) => Stuck
    case Ok(None) => Nothing
    case Ok(Some(h)) => At(h)
  }

  // ---------------------------------------------------------------------------
  // The code
  // ---------------------------------------------------------------------------

  const REFUSED: string := "refusing to guess the chain position"

  /** A log directory: segments, and per segment the numbered files set aside from it. */
  class Directory {
    var segments: Files
    var unsealed: Asides
    var forged: Asides

    ghost function View(): Dir
      reads this
    {
      Dir(segments, unsealed, forged)
    }

    /** The first suffix not taken for a segment. */
    static method FreeSuffix(name: Name, taken: Asides) returns (n: nat)
      ensures (name, n) !in taken && forall m :: 0 <= m < n ==> (name, m) in taken
    {
      n := 0;
      ghost var seen: set<(Name, nat)> := {};
      while (name, n) in taken
        invariant forall m :: 0 <= m < n ==> (name, m) in taken
        invariant seen <= taken.Keys && |seen| == n && forall m: nat :: (name, m) in seen <==> m < n
        decreases |taken.Keys - seen|
      {
        ghost var more := seen + {(name, n)};
        assert taken.Keys - more == (taken.Keys - seen) - {(name, n)};
        seen := more;
        n := n + 1;
      }
    }

    /** Reads the chain position from a segment and sets aside what does not belong to it; no byte is lost. */
    method Recover(c: Suite, name: Name) returns (r: Result<Option<Head>, string>)
      requires name in segments
      modifies this
      ensures var data, p := old(segments)[name], PlanOf(c, name, old(segments)[name]);
        && (r.Err? <==> p.Refused?) && (r.Err? ==> r.error == REFUSED)
        && (r.Err? ==> segments == old(segments) && unsealed == old(unsealed) && forged == old(forged))
        && (r.Ok? && r.value.None? ==>
              && (p.Empty? || (p.Leftover? && p.kept.None?) || (p.Forged? && p.batches == 0))
              && segments == old(segments) - {name})
        && (r.Ok? && r.value.Some? ==>
              && ((p.Done? && r.value.value == p.head) || (p.Forged? && p.batches > 0 && r.value.value == p.head)
                  || (p.Leftover? && p.kept == r.value))
              && segments == old(segments)[name := Remaining(p, data)])
        && (p.Leftover? ==> p.end <= |data| && SetAside(old(unsealed), unsealed, name, data[p.end..]))
        && (!p.Leftover? ==> unsealed == old(unsealed))
        && (p.Forged? && p.batches == 0 ==> SetAside(old(forged), forged, name, data))
        && (!p.Forged? || p.batches > 0 ==> forged == old(forged))
      ensures RecoveredTo(c, name, old(View()), View(), FindingIn(r))
    {
      hide PlanOf, SavedFrom, SetAside, Grows, Remaining, Safe;
      ghost var data := segments[name];
      SafeAtFirst(View());
      r := RecoverFile(c, name);
      ghost var p := PlanOf(c, name, data);
      if p.Leftover? {
        AsideGrows(old(unsealed), unsealed, name, data[p.end..]);
      } else if p.Forged? && p.batches == 0 {
        AsideGrows(old(forged), forged, name, data);
      }
      if r.Ok? {
        RecoverSaves(c, name, data, segments, unsealed, forged);
      } else {
        Unchanged(data, name, segments, unsealed, forged);
      }
    }

    method RecoverFile(c: Suite, name: Name) returns (r: Result<Option<Head>, string>)
      requires name in segments
      modifies this
      ensures var data, p := old(segments)[name], PlanOf(c, name, old(segments)[name]);
        && (r.Err? <==> p.Refused?) && (r.Err? ==> r.error == REFUSED)
        && (r.Err? ==> segments == old(segments) && unsealed == old(unsealed) && forged == old(forged))
        && (r.Ok? && r.value.None? ==>
              && (p.Empty? || (p.Leftover? && p.kept.None?) || (p.Forged? && p.batches == 0))
              && segments == old(segments) - {name})
        && (r.Ok? && r.value.Some? ==>
              && ((p.Done? && r.value.value == p.head) || (p.Forged? && p.batches > 0 && r.value.value == p.head)
                  || (p.Leftover? && p.kept == r.value))
              && segments == old(segments)[name := Remaining(p, data)])
        && (p.Leftover? ==> p.end <= |data| && SetAside(old(unsealed), unsealed, name, data[p.end..]))
        && (!p.Leftover? ==> unsealed == old(unsealed))
        && (p.Forged? && p.batches == 0 ==> SetAside(old(forged), forged, name, data))
        && (!p.Forged? || p.batches > 0 ==> forged == old(forged))
    {
      var data := segments[name];
      var plan := ReadSegment(c, name, data);
      EndInside(c, name, data);
      hide PlanOf;
      match plan {
        case Empty =>
          segments := segments - {name};
          return Ok(None);
        case Refused =>
          return Err(REFUSED);
        case Done(head) =>
          assert segments == segments[name := data];
          return Ok(Some(head));
        case Forged(head, batches) =>
          if batches == 0 {
            var n := FreeSuffix(name, forged);
            forged := forged[(name, n) := data];
            segments := segments - {name};
            return Ok(None);
          }
          assert segments == segments[name := data];
          return Ok(Some(head));
        case Leftover(kept, end, _) =>
          var n := FreeSuffix(name, unsealed);
          unsealed := unsealed[(name, n) := data[end..]];
          if kept.Some? {
            segments := segments[name := data[..end]];
          } else {
            segments := segments - {name};
          }
          return Ok(kept);
      }
    }

    /**
     Continues the chain from the newest segment that has a position, and
     starts a new segment there under the header line `header`. When it
     succeeds, every batch that verified is where it was, exactly if the
     name of the new segment held none; and that is so unless sequence
     numbers wrap.
     */
    method Open(c: Suite, listing: seq<Name>, header: Head -> Line) returns (r: Result<Head, string>)
      requires IsListing(listing, segments) && forall h :: Clean(header(h))
      modifies this
      ensures r.Ok? ==> Number(r.value.next) in segments && segments[Number(r.value.next)] == Ended(header(r.value))
      ensures r == match PositionOf(c, old(segments), listing) case None => Err(REFUSED) case Some(h) => Ok(h)
      ensures r.Ok? ==> (Keeps(c, old(segments), segments) <==>
                         TargetFree(c, old(segments), PositionOf(c, old(segments), listing).value))
      ensures r.Ok? && Countable(c, old(segments)) ==> Keeps(c, old(segments), segments)
      ensures r.Err? ==> Keeps(c, old(segments), segments)
      ensures segments == var left := FilesLeft(c, old(segments), listing);
                          if r.Ok? then left[Number(r.value.next) := Ended(header(r.value))] else left
      ensures AllSaved(old(segments), FilesLeft(c, old(segments), listing), unsealed, forged)
      ensures Grows(old(unsealed), unsealed) && Grows(old(forged), forged)
    {
      hide VerifiedPrefix, PlanOf, Countable, TargetFree, Ended, PositionOf, Keeps, IsListing, FilesLeft, AllSaved;
      hide Grows, Safe;
      ghost var before := segments;
      r := FindHead(c, listing);
      SafeMeans(old(View()), View());
      if r.Ok? {
        ReplacedKeeps(c, segments, before, r.value, header(r.value));
        segments := segments[Number(r.value.next) := Ended(header(r.value))];
      }
    }

    /** The loop over the segments, newest first. */
    method FindHead(c: Suite, listing: seq<Name>) returns (r: Result<Head, string>)
      requires IsListing(listing, segments)
      modifies this
      ensures r == match PositionOf(c, old(segments), listing) case None => Err(REFUSED) case Some(h) => Ok(h)
      ensures Keeps(c, old(segments), segments)
      ensures r.Ok? && Countable(c, old(segments)) ==> TargetFree(c, old(segments), r.value)
      ensures segments == FilesLeft(c, old(segments), listing) && Safe(old(View()), View())
    {
      hide PlanOf, Countable, TargetFree, PositionOf, Keeps, IsListing, FilesLeft, Safe, ReadTo, RecoveredTo, Remaining,
        SetAside;
      ghost var start := View();
      ReadNone(c, start, listing);
      var k := |listing|;
      while k > 0
        invariant 0 <= k <= |listing| && ReadTo(c, start, View(), listing, k)
      {
        k := k - 1;
        var name := listing[k];
        ghost var was := View();
        NextIsThere(c, start, was, listing, k);
        var got := Recover(c, name);
        if got.Err? {
          ReadStuck(c, start, was, View(), listing, k);
          return Err(got.error);
        }
        if got.value.Some? {
          ReadPosition(c, start, was, View(), listing, k, got.value.value);
          return Ok(got.value.value);
        }
        ReadNothing(c, start, was, View(), listing, k);
      }
      ReadAll(c, start, View(), listing);
      return Ok(START);
    }
  }

  lemma SafeMeans(start: Dir, now: Dir)
    requires Safe(start, now)
    ensures AllSaved(start.segments, now.segments, now.unsealed, now.forged)
    ensures Grows(start.unsealed, now.unsealed) && Grows(start.forged, now.forged)
  {
  }

  // ---------------------------------------------------------------------------
  // The loop of an opening
  // ---------------------------------------------------------------------------

  /** The segments from `k` on had no position and are gone; the first `k` are still to be read. */
  ghost predicate ReadTo(c: Suite, start: Dir, now: Dir, listing: seq<Name>, k: nat) {
    && k <= |listing| && IsListing(listing, start.segments) && Listed(listing, start.segments)
    && Listed(listing[..k], start.segments)
    && Untouched(start.segments, now.segments, listing, k) && Bare(c, start.segments, listing, k)
    && PositionOf(c, start.segments, listing) == PositionOf(c, start.segments, listing[..k])
    && FilesLeft(c, start.segments, listing) == FilesLeft(c, now.segments, listing[..k])
    && Safe(start, now)
  }

  lemma ReadNone(c: Suite, start: Dir, listing: seq<Name>)
    requires IsListing(listing, start.segments)
    ensures ReadTo(c, start, start, listing, |listing|) && Listed(listing, start.segments)
  {
    hide PositionOf, FilesLeft, Safe, VerifiedPrefix;
    assert listing[..|listing|] == listing;
    AllUntouched(start.segments, listing);
    SafeAtFirst(start);
  }

  lemma NextIsThere(c: Suite, start: Dir, now: Dir, listing: seq<Name>, k: nat)
    requires k < |listing| && ReadTo(c, start, now, listing, k + 1)
    ensures listing[k] in start.segments && listing[k] in now.segments
    ensures now.segments[listing[k]] == start.segments[listing[k]]
  {
    hide PositionOf, FilesLeft, Safe, Bare;
  }

  lemma ReadStuck(c: Suite, start: Dir, was: Dir, now: Dir, listing: seq<Name>, k: nat)
    requires k < |listing| && ReadTo(c, start, was, listing, k + 1) && RecoveredTo(c, listing[k], was, now, Stuck)
    ensures Listed(listing, start.segments) && PositionOf(c, start.segments, listing) == None
    ensures now.segments == FilesLeft(c, start.segments, listing)
    ensures Keeps(c, start.segments, now.segments) && Safe(start, now)
  {
    hide PlanOf, Safe, Bare, VerifiedPrefix, Keeps, SavedFrom, Grows, Remaining, Untouched;
    NextIsThere(c, start, was, listing, k);
    PositionStep(c, start.segments, listing, k);
    FilesStep(c, was.segments, listing, k);
    hide PositionOf, FilesLeft, IsListing;
    SameFilesKeep(c, start.segments, was.segments, listing, k + 1);
    SafeNext(c, start, was, now, listing[k], Stuck);
  }

  lemma ReadPosition(c: Suite, start: Dir, was: Dir, now: Dir, listing: seq<Name>, k: nat, head: Head)
    requires k < |listing| && ReadTo(c, start, was, listing, k + 1) && RecoveredTo(c, listing[k], was, now, At(head))
    ensures Listed(listing, start.segments) && PositionOf(c, start.segments, listing) == Some(head)
    ensures now.segments == FilesLeft(c, start.segments, listing)
    ensures Keeps(c, start.segments, now.segments) && Safe(start, now)
    ensures Countable(c, start.segments) ==> TargetFree(c, start.segments, head)
  {
    hide PlanOf, Safe, Bare, VerifiedPrefix, Keeps, SavedFrom, Grows, Remaining, Untouched, Countable, TargetFree;
    NextIsThere(c, start, was, listing, k);
    PositionStep(c, start.segments, listing, k);
    FilesStep(c, was.segments, listing, k);
    hide PositionOf, FilesLeft, IsListing;
    Landed(c, start.segments, was.segments, now.segments, listing, k, head);
    SafeNext(c, start, was, now, listing[k], At(head));
  }

  lemma ReadNothing(c: Suite, start: Dir, was: Dir, now: Dir, listing: seq<Name>, k: nat)
    requires k < |listing| && ReadTo(c, start, was, listing, k + 1) && RecoveredTo(c, listing[k], was, now, Nothing)
    ensures ReadTo(c, start, now, listing, k)
  {
    hide PlanOf, Safe, Bare, VerifiedPrefix, SavedFrom, Grows, Remaining, Untouched;
    NextIsThere(c, start, was, listing, k);
    PositionStep(c, start.segments, listing, k);
    FilesStep(c, was.segments, listing, k);
    RemovedHadNothing(c, listing[k], start.segments[listing[k]]);
    hide PositionOf, FilesLeft, IsListing;
    StepBack(c, start.segments, was.segments, now.segments, listing, k);
    SafeNext(c, start, was, now, listing[k], Nothing);
  }

  lemma ReadAll(c: Suite, start: Dir, now: Dir, listing: seq<Name>)
    requires ReadTo(c, start, now, listing, 0)
    ensures Listed(listing, start.segments) && PositionOf(c, start.segments, listing) == Some(START)
    ensures now.segments == FilesLeft(c, start.segments, listing) && Safe(start, now)
    ensures Keeps(c, start.segments, now.segments) && TargetFree(c, start.segments, START)
  {
    hide Safe, VerifiedPrefix, Keeps, TargetFree;
    assert listing[..0] == [];
    PositionNone(c, start.segments);
    NoFilesLeft(c, now.segments);
    hide PositionOf, FilesLeft;
    NothingToKeep(c, start.segments, now.segments, listing);
  }

  /** The names of a listing are those of files. */
  predicate Listed(listing: seq<Name>, files: Files) {
    forall n :: n in listing ==> n in files
  }

  /** The first `k` files are as they were. */
  predicate Untouched(before: Files, after: Files, listing: seq<Name>, k: nat)
    requires k <= |listing| && Listed(listing, before)
  {
    forall i :: 0 <= i < k ==> listing[i] in after && after[listing[i]] == before[listing[i]]
  }

  /** The files from `k` on held no batch that verifies. */
  predicate Bare(c: Suite, before: Files, listing: seq<Name>, k: nat)
    requires k <= |listing| && Listed(listing, before)
  {
    forall j :: k <= j < |listing| ==> VerifiedPrefix(c, before[listing[j]]) == []
  }

  lemma AllUntouched(files: Files, listing: seq<Name>)
    requires IsListing(listing, files)
    ensures Listed(listing, files) && Untouched(files, files, listing, |listing|)
  {
  }

  /** A segment without a position is gone; the next one is read. */
  lemma StepBack(c: Suite, before: Files, was: Files, after: Files, listing: seq<Name>, k: nat)
    requires k < |listing| && IsListing(listing, before) && Listed(listing, before)
    requires Untouched(before, was, listing, k + 1) && Bare(c, before, listing, k + 1)
    requires after == was - {listing[k]} && VerifiedPrefix(c, before[listing[k]]) == []
    ensures Untouched(before, after, listing, k) && Bare(c, before, listing, k)
  {
    hide VerifiedPrefix;
    forall i | 0 <= i < k ensures listing[i] in after && after[listing[i]] == before[listing[i]] {
      assert listing[i] != listing[k];
    }
  }

  /** Continuing from a segment keeps every batch, and leaves the next name free unless numbers wrap. */
  lemma Landed(c: Suite, before: Files, was: Files, after: Files, listing: seq<Name>, k: nat, head: Head)
    requires k < |listing| && IsListing(listing, before) && Listed(listing, before)
    requires Untouched(before, was, listing, k + 1) && Bare(c, before, listing, k + 1)
    requires var p := PlanOf(c, listing[k], before[listing[k]]);
      && after == was[listing[k] := Remaining(p, before[listing[k]])]
      && ((p.Done? && head == p.head) || (p.Forged? && p.batches > 0 && head == p.head)
          || (p.Leftover? && p.kept == Some(head)))
    ensures Keeps(c, before, after) && (Countable(c, before) ==> TargetFree(c, before, head))
  {
    hide VerifiedPrefix, PlanOf, Remaining, Countable, TargetFree, Keeps;
    KeptPrefix(c, listing[k], before[listing[k]]);
    KeepsFrom(c, before, was, after, listing, k);
    if Countable(c, before) {
      TargetIsFree(c, before, listing, k, head);
    }
  }

  lemma PositionNone(c: Suite, files: Files)
    ensures Listed([], files) && PositionOf(c, files, []) == Some(START)
  {
  }

  lemma NothingToKeep(c: Suite, before: Files, after: Files, listing: seq<Name>)
    requires IsListing(listing, before) && Listed(listing, before) && Bare(c, before, listing, 0)
    ensures Keeps(c, before, after) && forall head :: TargetFree(c, before, head)
  {
    hide VerifiedPrefix;
    forall n | n in before ensures VerifiedPrefix(c, before[n]) == [] {
      var i :| 0 <= i < |listing| && listing[i] == n;
    }
  }

  lemma SameFilesKeep(c: Suite, before: Files, after: Files, listing: seq<Name>, k: nat)
    requires k <= |listing| && IsListing(listing, before) && Listed(listing, before)
    requires Untouched(before, after, listing, k) && Bare(c, before, listing, k)
    ensures Keeps(c, before, after)
  {
    hide VerifiedPrefix;
    forall n | n in before && VerifiedPrefix(c, before[n]) != []
      ensures n in after && VerifiedPrefix(c, before[n]) <= after[n]
    {
      PrefixWithin(c, before[n]);
      var i :| 0 <= i < |listing| && listing[i] == n;
      assert i < k;
    }
  }

  lemma PrefixWithin(c: Suite, data: seq<byte>)
    ensures VerifiedPrefix(c, data) <= data
  {
    if VerifiedPrefix(c, data) != [] {
      SealedInside(c, data);
      SplitWhole(data);
      FlatPrefix(Split(data).lines, Split(data).torn, 1 + OwnScan(c, data).value.sealed);
    }
    hide Split, ScanLines, Flat;
  }

  lemma KeepsFrom(c: Suite, before: Files, was: Files, after: Files, listing: seq<Name>, k: nat)
    requires k < |listing| && IsListing(listing, before) && Listed(listing, before)
    requires Untouched(before, was, listing, k + 1) && Bare(c, before, listing, k + 1)
    requires var p := PlanOf(c, listing[k], before[listing[k]]);
      && after == was[listing[k] := Remaining(p, before[listing[k]])]
      && VerifiedPrefix(c, before[listing[k]]) <= Remaining(p, before[listing[k]])
    ensures Keeps(c, before, after)
  {
    hide VerifiedPrefix, PlanOf, Remaining;
    SameFilesKeep(c, before, was, listing, k + 1);
  }

  // ---------------------------------------------------------------------------
  // When sequence numbers wrap
  // ---------------------------------------------------------------------------

  const LAST: U64 := 0xFFFF_FFFF_FFFF_FFFF

  /** A segment with its header and one batch, as a writer at `head` leaves it. */
  function OneBatch(c: Suite, w: Signer, head: Head, records: seq<Line>): seq<Line> {
    [HeaderLine(w, head)] + (records + [TrailerLine(c, w, head, records)])
  }

  /**
   Beside segment 0 a segment whose one batch has the last number, both under
   any working key: the chain continues at position 0 again, whose name holds
   a batch that verifies, so that opening overwrites it.
   */
  lemma WrapMeetsBatches(c: Suite, w: Signer, prev: Digest, first: seq<Line>, last: seq<Line>, files: Files)
    requires Works(c, w) && AllLoggable(c, first) && |first| < TWO64 && AllLoggable(c, last) && |last| < TWO64
    requires files == map[Number(0) := Flat(OneBatch(c, w, START, first)),
                          Number(LAST) := Flat(OneBatch(c, w, Head(LAST, prev), last))]
    ensures var listing := [Number(0), Number(LAST)];
      && IsListing(listing, files)
      && PositionOf(c, files, listing) == Some(Head(0, BatchHash(c, Head(LAST, prev), last)))
      && !TargetFree(c, files, PositionOf(c, files, listing).value)
  {
    hide PlanOf, VerifiedPrefix, Flat, OneBatch, Works, AllLoggable, BatchHash;
    OneBatchReads(c, w, START, first);
    OneBatchReads(c, w, Head(LAST, prev), last);
    assert PlanOf(c, Number(LAST), files[Number(LAST)]).Done?;
  }

  lemma OneBatchReads(c: Suite, w: Signer, head: Head, records: seq<Line>)
    requires Works(c, w) && AllLoggable(c, records) && |records| < TWO64
    ensures var data := Flat(OneBatch(c, w, head, records));
      && PlanOf(c, Number(head.next), data) == Done(Head(Succ(head.next), BatchHash(c, head, records)))
      && VerifiedPrefix(c, data) != []
  {
    hide Split, Flat, ScanLines, BatchHash, TrailerLine, HeaderLine, AllLoggable, Works, PlanOf, VerifiedPrefix;
    var lines := OneBatch(c, w, head, records);
    var data := Flat(lines);
    OneBatchSplits(c, w, head, records);
    OneBatchScans(c, w, head, records);
    assert lines[1..] == records + [TrailerLine(c, w, head, records)];
    OneScan(c, head.next, data, lines, Header(head.next, Some(head.hash), Some(w.key)));
  }

  /** A segment all of whose lines are sealed is accepted whole, and verifies whole. */
  lemma OneScan(c: Suite, number: U64, data: seq<byte>, lines: seq<Line>, h: Header)
    requires data != [] && data == Flat(lines) && Split(data) == Parts(lines, []) && lines != []
    requires c.classify(lines[0]) == Segment(h) && h.number == number && h.prev.Some? && h.key.Some?
    requires var s := ScanLines(c, h.key.value, HeadOf(h), lines[1..]);
      1 + s.sealed == |lines| && s.accepted != []
    ensures PlanOf(c, Number(number), data) == Done(ScanLines(c, h.key.value, HeadOf(h), lines[1..]).head)
    ensures VerifiedPrefix(c, data) != []
  {
    hide Split, ScanLines, Flat;
    assert lines[..|lines|] == lines;
    assert OwnScan(c, data) == Some(ScanLines(c, h.key.value, HeadOf(h), lines[1..]));
  }

  lemma OneBatchSplits(c: Suite, w: Signer, head: Head, records: seq<Line>)
    requires Works(c, w) && AllLoggable(c, records)
    ensures var lines := OneBatch(c, w, head, records); Flat(lines) != [] && Split(Flat(lines)) == Parts(lines, [])
  {
    var lines := OneBatch(c, w, head, records);
    BatchClean(c, w, head, records);
    hide Split, Flat, TrailerLine, AllLoggable;
    SplitFlat(lines, []);
    assert Flat(lines) + [] == Flat(lines);
    FlatFirst(HeaderLine(w, head), records + [TrailerLine(c, w, head, records)]);
  }

  lemma OneBatchScans(c: Suite, w: Signer, head: Head, records: seq<Line>)
    requires Works(c, w) && AllLoggable(c, records) && |records| < TWO64
    ensures var body := records + [TrailerLine(c, w, head, records)];
      var s := ScanLines(c, w.key, head, body);
      s.head == Head(Succ(head.next), BatchHash(c, head, records)) && s.sealed == |body| && s.accepted != []
    ensures var h := c.classify(HeaderLine(w, head)); h == Segment(Header(head.next, Some(head.hash), Some(w.key)))
  {
    assert ScanLines(c, w.key, head, []) == Scan(head, 0, [], [], false);
    ScanBatch(c, w, head, [], records);
    var body := records + [TrailerLine(c, w, head, records)];
    assert [] + body == body;
    hide ScanLines, BatchHash, TrailerLine, AllLoggable, LinkFor;
  }
}
