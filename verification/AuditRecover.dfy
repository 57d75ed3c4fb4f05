/**
 Setting leftovers aside when a log is opened, interrupted at any step any number
 of times: copy them to a new file, make that durable, cut the segment, make the
 cut durable. An interruption keeps of each file a prefix that holds everything
 already durable.
 */
module AuditRecover {
  import opened Wrappers
  import opened Layout
  import opened AuditLines
  import opened AuditChain

  // ---------------------------------------------------------------------------
  // A segment cut inside its leftovers reads the same
  // ---------------------------------------------------------------------------

  /** Taking pending lines off the end of a scan takes them off its open batch and changes nothing else. */
  lemma {:induction false} ScanBack(c: Suite, key: Key, head: Head, lines: seq<Line>, m: nat)
    requires !ScanLines(c, key, head, lines).forged && ScanLines(c, key, head, lines).sealed <= m <= |lines|
    ensures var s := ScanLines(c, key, head, lines);
      && m - s.sealed <= |s.pending|
      && ScanLines(c, key, head, lines[..m]) == s.(pending := s.pending[..m - s.sealed])
    decreases |lines|
  {
    var s := ScanLines(c, key, head, lines);
    ScanCounts(c, key, head, lines);
    if m == |lines| {
      assert lines[..m] == lines && s.pending[..m - s.sealed] == s.pending;
    } else {
      var rest := lines[..|lines| - 1];
      LastPending(c, key, head, lines);
      hide ScanLines, Counts;
      ScanBack(c, key, head, rest, m);
      assert rest[..m] == lines[..m];
      assert s.pending[..|s.pending| - 1][..m - s.sealed] == s.pending[..m - s.sealed];
    }
  }

  lemma LastPending(c: Suite, key: Key, head: Head, lines: seq<Line>)
    requires lines != [] && !ScanLines(c, key, head, lines).forged && ScanLines(c, key, head, lines).pending != []
    ensures var s := ScanLines(c, key, head, lines);
      ScanLines(c, key, head, lines[..|lines| - 1]) == s.(pending := s.pending[..|s.pending| - 1])
  {
    hide Accepts, After;
    var s := ScanLines(c, key, head, lines[..|lines| - 1]);
    assert (s.pending + [lines[|lines| - 1]])[..|s.pending|] == s.pending;
  }

  lemma {:induction false} EndGrows(lines: seq<Line>, j: nat, k: nat)
    requires j <= k <= |lines|
    ensures End(lines, j) + (k - j) <= End(lines, k)
  {
    if j < k {
      hide End;
      EndGrows(lines, j, k - 1);
      LineEnds(lines, k - 1);
    }
  }

  /** A prefix that reaches the end of line `j` has those lines whole. */
  lemma PrefixHasLines(lines: seq<Line>, torn: Line, p: seq<byte>, j: nat)
    requires AllClean(lines) && Clean(torn) && p <= Flat(lines) + torn && j <= |lines| && End(lines, j) <= |p|
    ensures var q := Split(p); j <= |q.lines| && q.lines <= lines && p == Flat(q.lines) + q.torn
  {
    hide Split, Flat, AllClean, Clean;
    SplitPrefix(lines, torn, p);
    SplitWhole(p);
    var q := Split(p);
    var m := |q.lines|;
    assert q.lines == lines[..m];
    assert |p| == End(lines, m) + |q.torn|;
    if m < j {
      hide End;
      LineEnds(lines, m);
      EndGrows(lines, m + 1, j);
    }
  }

  /** The trusted part of a segment with leftovers ends at a line, and within the file. */
  lemma LeftoverEnd(c: Suite, name: Name, data: seq<byte>)
    requires PlanOf(c, name, data).Leftover? && PlanOf(c, name, data).kept.Some?
    ensures var lines := Split(data).lines;
      && lines != [] && Opens(c, name, lines[0])
      && !ScanSegment(c, name, lines).forged
      && 1 + ScanSegment(c, name, lines).sealed <= |lines|
      && PlanOf(c, name, data).end == End(lines, 1 + ScanSegment(c, name, lines).sealed)
      && 0 < PlanOf(c, name, data).end < |data|
  {
    hide Split, Flat, ScanSegment;
    SplitWhole(data);
    var lines := Split(data).lines;
    SealedWithin(c, name, lines);
    EndGrows(lines, 0, 1 + ScanSegment(c, name, lines).sealed);
    EndGrows(lines, 1 + ScanSegment(c, name, lines).sealed, |lines|);
    assert lines[..|lines|] == lines;
  }

  lemma EndWithin(c: Suite, name: Name, data: seq<byte>)
    requires PlanOf(c, name, data).Leftover?
    ensures PlanOf(c, name, data).end < |data| && (PlanOf(c, name, data).kept.Some? ==> PlanOf(c, name, data).end > 0)
  {
    if PlanOf(c, name, data).kept.Some? {
      LeftoverEnd(c, name, data);
    }
  }

  /** What a part of a segment with leftovers, reaching past its trusted bytes, reads as. */
  lemma PlanOfPart(c: Suite, name: Name, data: seq<byte>, k: nat)
    requires PlanOf(c, name, data).Leftover? && PlanOf(c, name, data).end <= k <= |data|
    ensures var kept, end := PlanOf(c, name, data).kept, PlanOf(c, name, data).end;
      var p := PlanOf(c, name, data[..k]);
      if kept.None? then end == 0 && (if k == 0 then p == Empty else p == Leftover(None, 0, 0))
      else if k == end then p == Done(kept.value)
      else p.Leftover? && p.kept == kept && p.end == end
  {
    SplitWhole(data);
    if PlanOf(c, name, data).kept.None? {
      var torn := Split(data).torn;
      assert data == torn by {
        assert Flat([]) + torn == torn;
      }
      NoLine(data[..k], torn);
    } else {
      LeftoverEnd(c, name, data);
      PartReads(c, name, data, k);
    }
  }

  lemma PartReads(c: Suite, name: Name, data: seq<byte>, k: nat)
    requires PlanOf(c, name, data).Leftover? && PlanOf(c, name, data).kept.Some?
    requires PlanOf(c, name, data).end <= k <= |data|
    ensures var kept, end := PlanOf(c, name, data).kept, PlanOf(c, name, data).end;
      var p := PlanOf(c, name, data[..k]);
      if k == end then p == Done(kept.value) else p.Leftover? && p.kept == kept && p.end == end
  {
    hide Split, Flat, ScanLines, End;
    var lines, torn := Split(data).lines, Split(data).torn;
    SplitWhole(data);
    LeftoverEnd(c, name, data);
    var s := ScanSegment(c, name, lines);
    var part := data[..k];
    PrefixHasLines(lines, torn, part, 1 + s.sealed);
    var some := Split(part).lines;
    var h := c.classify(lines[0]).header;
    ScanBack(c, h.key.value, HeadOf(h), lines[1..], |some| - 1);
    assert lines[1..][..|some| - 1] == some[1..];
    assert some[0] == lines[0];
    SamePrefix(lines, some, 1 + s.sealed);
    EndGrows(lines, 0, 1 + s.sealed);
    assert ScanSegment(c, name, some).sealed == s.sealed;
  }

  lemma SamePrefix(lines: seq<Line>, some: seq<Line>, j: nat)
    requires some <= lines && j <= |some|
    ensures End(some, j) == End(lines, j)
  {
    assert some[..j] == lines[..j];
  }

  /** A part that does not reach the end of the trusted bytes is neither refused nor taken for forged. */
  lemma PlanOfShortPart(c: Suite, name: Name, data: seq<byte>, k: nat)
    requires PlanOf(c, name, data).Leftover? && k < PlanOf(c, name, data).end <= |data|
    ensures var p := PlanOf(c, name, data[..k]); p.Empty? || p.Done? || (p.Leftover? && p.end <= k)
  {
    LeftoverEnd(c, name, data);
    EndInside(c, name, data[..k]);
    FirstLinesOf(data, k);
    var lines, some := Split(data).lines, Split(data[..k]).lines;
    if some != [] {
      ShortScan(c, name, lines, some);
    }
    hide Split, ScanSegment, End;
  }

  lemma FirstLinesOf(data: seq<byte>, k: nat)
    requires k <= |data|
    ensures Split(data[..k]).lines <= Split(data).lines
  {
    hide Split, Flat;
    SplitWhole(data);
    SplitPrefix(Split(data).lines, Split(data).torn, data[..k]);
  }

  /** The scan of the first lines finds nothing forged where the scan of all of them does not. */
  lemma ShortScan(c: Suite, name: Name, lines: seq<Line>, some: seq<Line>)
    requires some != [] && some <= lines && Opens(c, name, lines[0]) && !ScanSegment(c, name, lines).forged
    ensures some[0] == lines[0] && !ScanSegment(c, name, some).forged
  {
    var h := c.classify(lines[0]).header;
    hide ScanLines;
    assert lines[1..][..|some| - 1] == some[1..];
    if ScanSegment(c, name, some).forged {
      ForgedStays(c, h.key.value, HeadOf(h), lines[1..], |some| - 1);
    }
  }

  // ---------------------------------------------------------------------------
  // The steps, and interruptions between them
  // ---------------------------------------------------------------------------

  /** A file: what is read now, what a crash may bring back, and how much of that is durable. */
  datatype File = File(content: seq<byte>, full: seq<byte>, durable: nat)

  datatype Phase =
    | Reading
    | Copied(kept: Option<Head>, end: nat)
    | Kept(kept: Option<Head>, end: nat)
    | Cut(head: Head)
    | Finished(result: Option<Head>)

  /** One segment being recovered, and the files its leftovers were copied to. */
  datatype State = State(segment: Option<File>, asides: seq<File>, phase: Phase)

  function Fresh(content: seq<byte>): File {
    File(content, content, 0)
  }

  function Durable(content: seq<byte>): File {
    File(content, content, |content|)
  }

  function Truncated(f: File, end: nat): File
    requires end <= |f.content|
  {
    File(f.content[..end], f.full, if f.durable < end then f.durable else end)
  }

  ghost predicate Step(c: Suite, name: Name, s: State, t: State) {
    match s.phase
    case Reading =>
      if s.segment.None? then t == s.(phase := Finished(None))
      else
        var data := s.segment.value.content;
        (match PlanOf(c, name, data)
         case Empty => t == s.(segment := None, phase := Finished(None))
         case Done(head) => t == s.(phase := Finished(Some(head)))
         case Leftover(kept, end, _) =>
           end <= |data| && t == s.(asides := s.asides + [Fresh(data[end..])], phase := Copied(kept, end))
         case _ => false)
    case Copied(kept, end) =>
      && s.asides != []
      && t == s.(asides := s.asides[..|s.asides| - 1] + [Durable(s.asides[|s.asides| - 1].content)],
                 phase := Kept(kept, end))
    case Kept(kept, end) =>
      if kept.None? then t == s.(segment := None, phase := Finished(None))
      else
        && s.segment.Some? && end <= |s.segment.value.content|
        && t == s.(segment := Some(Truncated(s.segment.value, end)), phase := Cut(kept.value))
    case Cut(head) =>
      && s.segment.Some?
      && t == s.(segment := Some(Durable(s.segment.value.content)), phase := Finished(Some(head)))
    case Finished(_) => false
  }

  /** What may be left of a file: with the process gone, or the machine stopped, more or less of it durable since. */
  predicate Survives(f: File, g: File) {
    && g.content <= g.full <= f.full
    && f.durable <= g.durable <= |g.content|
  }

  /**
   An interruption: the files survive, a file not durable at all may be gone,
   and recovery starts over. If only the process dies, the segment still reads
   as it did.
   */
  ghost predicate Interrupted(s: State, t: State, machine: bool) {
    && t.phase == Reading
    && (s.segment.None? ==> t.segment.None?)
    && (s.segment.Some? ==> SegmentSurvives(s.segment.value, t.segment, machine))
    && AsidesSurvive(s.asides, t.asides)
  }

  ghost predicate SegmentSurvives(f: File, g: Option<File>, machine: bool) {
    match g
    case None => machine && f.durable == 0
    case Some(h) => Survives(f, h) && (!machine ==> h.content == f.content && h.full == f.full)
  }

  ghost predicate AsidesSurvive(a: seq<File>, b: seq<File>) {
    && |a| - 1 <= |b| <= |a|
    && (|b| < |a| ==> a[|a| - 1].durable == 0)
    && forall i :: 0 <= i < |b| ==> Survives(a[i], b[i])
  }

  ghost predicate Next(c: Suite, name: Name, machine: bool, s: State, t: State) {
    Step(c, name, s, t) || Interrupted(s, t, machine)
  }

  /**
   Recovery of a segment that reads as `data`, `d` bytes of it durable; `machine` says whether the machine may stop.
   */
  ghost predicate IsRun(c: Suite, name: Name, data: seq<byte>, d: nat, machine: bool, trace: seq<State>) {
    && trace != [] && trace[0].segment == Some(File(data, data, d)) && trace[0].phase == Reading
    && forall i :: 0 <= i < |trace| - 1 ==> Next(c, name, machine, trace[i], trace[i + 1])
  }

  /** The leftovers are whole in a durable file. */
  ghost predicate Saved(asides: seq<File>, leftover: seq<byte>) {
    leftover != [] && exists i :: 0 <= i < |asides| && asides[i] == Durable(leftover)
  }

  /** What a run is about: the segment, how much of it is trusted, and whether its leftovers cannot be lost. */
  datatype Case = Case(kept: Option<Head>, end: nat, data: seq<byte>, machine: bool, keep: bool)

  ghost predicate Inv(k: Case, s: State)
    requires k.end < |k.data|
  {
    var saved := Saved(s.asides, k.data[k.end..]);
    && (s.segment.None? ==> k.kept.None? && (k.keep ==> saved) && (s.phase == Reading || s.phase == Finished(None)))
    && (s.segment.Some? ==> SegmentOk(k, s.segment.value, saved))
    && match s.phase
       case Reading => true
       case Copied(kept, end) =>
         kept == k.kept && end == k.end && s.segment.Some? && s.asides != []
         && s.asides[|s.asides| - 1].content == s.segment.value.content[k.end..]
       case Kept(kept, end) => kept == k.kept && end == k.end && s.segment.Some? && (k.keep ==> saved)
       case Cut(h) =>
         k.kept == Some(h) && (k.keep ==> saved) && s.segment.Some? && s.segment.value.content == k.data[..k.end]
       case Finished(r) =>
         r == k.kept && (k.keep ==> saved)
         && (if k.kept.None? then s.segment.None? else s.segment.Some? && s.segment.value.content == k.data[..k.end])
  }

  /**
   The segment is a part of the original that keeps the trusted bytes, durably if the machine can stop; where nothing
   can be lost it is whole until the leftovers are saved.
   */
  ghost predicate SegmentOk(k: Case, f: File, saved: bool) {
    && f.content <= f.full <= k.data && k.end <= |f.content| && f.durable <= |f.content|
    && (k.machine ==> k.end <= f.durable)
    && (k.keep && !saved ==> f.content == f.full == k.data && (k.machine ==> f.durable == |k.data|))
  }

  lemma SavedStays(a: seq<File>, b: seq<File>, leftover: seq<byte>)
    requires Saved(a, leftover) && |a| - 1 <= |b|
    requires forall i :: 0 <= i < |a| && i < |b| ==> a[i] == Durable(leftover) ==> b[i] == Durable(leftover)
    requires |b| < |a| ==> a[|a| - 1] != Durable(leftover)
    ensures Saved(b, leftover)
  {
    var i :| 0 <= i < |a| && a[i] == Durable(leftover);
    assert b[i] == Durable(leftover);
  }

  lemma DurableSurvives(x: seq<byte>, g: File)
    requires Survives(Durable(x), g)
    ensures g == Durable(x)
  {
    assert |g.content| == |x|;
    assert g.content == x && g.full == x;
  }

  lemma InterruptionKeepsInv(k: Case, s: State, t: State)
    requires k.end < |k.data| && (k.kept.Some? ==> k.end > 0) && Inv(k, s) && Interrupted(s, t, k.machine)
    ensures Inv(k, t)
  {
    var leftover := k.data[k.end..];
    if Saved(s.asides, leftover) {
      forall i | 0 <= i < |t.asides| && s.asides[i] == Durable(leftover) ensures t.asides[i] == Durable(leftover) {
        DurableSurvives(leftover, t.asides[i]);
      }
      SavedStays(s.asides, t.asides, leftover);
    }
    hide Saved, Durable;
    if t.segment.Some? {
      assert t.segment.value.content <= t.segment.value.full <= k.data;
    }
  }

  /** The trusted bytes cannot be lost: they are durable, or only the process can stop. */
  predicate Trusted(c: Suite, name: Name, data: seq<byte>, d: nat, machine: bool)
    requires PlanOf(c, name, data).Leftover?
  {
    PlanOf(c, name, data).end <= d || !machine
  }

  /** The case of a run over `data`. */
  ghost function CaseOf(c: Suite, name: Name, data: seq<byte>, d: nat, machine: bool): Case
    requires PlanOf(c, name, data).Leftover?
  {
    Case(PlanOf(c, name, data).kept, PlanOf(c, name, data).end, data, machine, d == |data| || !machine)
  }

  lemma ReadingKeepsInv(c: Suite, name: Name, k: Case, s: State, t: State)
    requires PlanOf(c, name, k.data).Leftover? && k.kept == PlanOf(c, name, k.data).kept
    requires k.end == PlanOf(c, name, k.data).end < |k.data|
    requires Inv(k, s) && s.phase == Reading && Step(c, name, s, t)
    ensures Inv(k, t)
  {
    hide PlanOf;
    if s.segment.Some? {
      var content := s.segment.value.content;
      assert content == k.data[..|content|];
      assert k.data[..|k.data|] == k.data;
      PlanOfPart(c, name, k.data, |content|);
      if PlanOf(c, name, content).Leftover? {
        if Saved(s.asides, k.data[k.end..]) {
          SavedStays(s.asides, t.asides, k.data[k.end..]);
        }
      }
    }
  }

  lemma WritingKeepsInv(c: Suite, name: Name, k: Case, s: State, t: State)
    requires k.end < |k.data| && Inv(k, s) && s.phase != Reading && Step(c, name, s, t)
    ensures Inv(k, t)
  {
    var leftover := k.data[k.end..];
    if s.phase.Copied? {
      if Saved(s.asides, leftover) {
        SavedStays(s.asides, t.asides, leftover);
      } else if k.keep {
        assert t.asides[|t.asides| - 1] == Durable(leftover);
      }
    } else if s.phase.Kept? && k.kept.Some? {
      var f, g := s.segment.value, t.segment.value;
      assert g.content == f.content[..k.end] == k.data[..k.end];
    }
    hide Saved;
  }

  lemma {:induction false} RunKeepsInv(
    c: Suite, name: Name, data: seq<byte>, d: nat, machine: bool, trace: seq<State>, i: nat)
    requires PlanOf(c, name, data).Leftover? && PlanOf(c, name, data).end < |data|
    requires d <= |data| && Trusted(c, name, data, d, machine)
    requires IsRun(c, name, data, d, machine, trace) && i < |trace|
    ensures Inv(CaseOf(c, name, data, d, machine), trace[i])
  {
    var k := CaseOf(c, name, data, d, machine);
    EndWithin(c, name, data);
    if i == 0 {
      assert Inv(k, trace[0]);
    } else {
      var s, t := trace[i - 1], trace[i - 1 + 1];
      assert Next(c, name, machine, s, t);
      hide Inv, Step, Interrupted, PlanOf;
      RunKeepsInv(c, name, data, d, machine, trace, i - 1);
      if Interrupted(s, t, machine) {
        InterruptionKeepsInv(k, s, t);
      } else if s.phase == Reading {
        ReadingKeepsInv(c, name, k, s, t);
      } else {
        WritingKeepsInv(c, name, k, s, t);
      }
    }
  }

  // ---------------------------------------------------------------------------
  // Main results
  // ---------------------------------------------------------------------------

  /** What the first recovery would have come to: the head, and the segment with its trusted bytes or removed. */
  predicate SameOutcome(plan: Plan, data: seq<byte>, s: State)
    requires plan.Leftover? && plan.end <= |data|
  {
    && s.phase == Finished(plan.kept)
    && (if plan.kept.None? then s.segment.None? else s.segment.Some? && s.segment.value.content == data[..plan.end])
  }

  /**
   However often setting leftovers aside is interrupted, by the death of the
   process or of the machine, and however little of the leftovers is durable, a
   recovery that finishes reports the head the first one would have and leaves
   the segment with exactly its trusted bytes, or removed, if it had none. If
   the machine can stop, its trusted bytes must be durable.
   */
  lemma InterruptedRecoveryIsSame(
    c: Suite, name: Name, data: seq<byte>, d: nat, machine: bool, trace: seq<State>, i: nat)
    requires PlanOf(c, name, data).Leftover? && d <= |data| && Trusted(c, name, data, d, machine)
    requires IsRun(c, name, data, d, machine, trace) && i < |trace| && trace[i].phase.Finished?
    ensures PlanOf(c, name, data).end < |data| && SameOutcome(PlanOf(c, name, data), data, trace[i])
  {
    EndWithin(c, name, data);
    RunKeepsInv(c, name, data, d, machine, trace, i);
    hide PlanOf;
  }

  /**
   At every moment, where they cannot be lost, the trusted bytes are in the segment, and the leftovers are in it or
   saved.
   */
  lemma NothingIsLost(c: Suite, name: Name, data: seq<byte>, d: nat, machine: bool, trace: seq<State>, i: nat)
    requires PlanOf(c, name, data).Leftover? && d <= |data|
    requires IsRun(c, name, data, d, machine, trace) && i < |trace|
    ensures var end, s := PlanOf(c, name, data).end, trace[i];
      && end < |data|
      && (Trusted(c, name, data, d, machine) && s.segment.Some? ==> data[..end] <= s.segment.value.content)
      && (d == |data| || !machine ==>
            (s.segment.Some? && s.segment.value.content == data) || Saved(s.asides, data[end..]))
  {
    EndWithin(c, name, data);
    var s := trace[i];
    if Trusted(c, name, data, d, machine) {
      RunKeepsInv(c, name, data, d, machine, trace, i);
      hide PlanOf;
      if s.segment.Some? {
        assert data[..PlanOf(c, name, data).end] <= s.segment.value.content;
      }
    }
    hide PlanOf;
  }

  /** Every recovery that finishes comes to the same. */
  ghost predicate AlwaysSame(c: Suite, name: Name, data: seq<byte>, d: nat, machine: bool)
    requires PlanOf(c, name, data).Leftover? && PlanOf(c, name, data).end <= |data|
  {
    forall trace: seq<State>, i ::
        IsRun(c, name, data, d, machine, trace) && 0 <= i < |trace| && trace[i].phase.Finished? ==>
      SameOutcome(PlanOf(c, name, data), data, trace[i])
  }

  /**
   Exactly when interruptions make no difference: the trusted bytes were durable when recovery began, or only the
   process can die.
   */
  lemma SameExactly(c: Suite, name: Name, data: seq<byte>, d: nat, machine: bool)
    requires PlanOf(c, name, data).Leftover? && d <= |data|
    ensures PlanOf(c, name, data).end < |data|
    ensures AlwaysSame(c, name, data, d, machine) <==> PlanOf(c, name, data).end <= d || !machine
  {
    EndWithin(c, name, data);
    if Trusted(c, name, data, d, machine) {
      forall trace: seq<State>, i | IsRun(c, name, data, d, machine, trace) && 0 <= i < |trace|
          && trace[i].phase.Finished?
        ensures SameOutcome(PlanOf(c, name, data), data, trace[i])
      {
        InterruptedRecoveryIsSame(c, name, data, d, machine, trace, i);
      }
    } else {
      var trace := TrustedLost(c, name, data, d);
      assert trace[|trace| - 1].phase.Finished?;
    }
    hide PlanOf, IsRun, SameOutcome;
  }

  /** Every recovery that finishes has the leftovers whole in a durable file. */
  ghost predicate AlwaysSaved(c: Suite, name: Name, data: seq<byte>, d: nat, machine: bool)
    requires PlanOf(c, name, data).Leftover? && PlanOf(c, name, data).end <= |data|
  {
    forall trace: seq<State>, i ::
        IsRun(c, name, data, d, machine, trace) && 0 <= i < |trace| && trace[i].phase.Finished? ==>
      Saved(trace[i].asides, data[PlanOf(c, name, data).end..])
  }

  /** Exactly when the leftovers cannot be lost: they were durable when recovery began, or only the process can die. */
  lemma SavedExactly(c: Suite, name: Name, data: seq<byte>, d: nat, machine: bool)
    requires PlanOf(c, name, data).Leftover? && d <= |data|
    ensures PlanOf(c, name, data).end < |data|
    ensures AlwaysSaved(c, name, data, d, machine) <==> d == |data| || !machine
  {
    EndWithin(c, name, data);
    if d == |data| || !machine {
      forall trace: seq<State>, i | IsRun(c, name, data, d, machine, trace) && 0 <= i < |trace|
          && trace[i].phase.Finished?
        ensures Saved(trace[i].asides, data[PlanOf(c, name, data).end..])
      {
        RunKeepsInv(c, name, data, d, machine, trace, i);
      }
    } else {
      var trace := LeftoversLost(c, name, data, d);
      assert trace[|trace| - 1].phase.Finished?;
    }
    hide PlanOf, IsRun, Saved, Inv;
  }

  // ---------------------------------------------------------------------------
  // The runs that lose something
  // ---------------------------------------------------------------------------

  /** One stop of the machine that takes what was not durable of the leftovers, and a recovery after it. */
  lemma LeftoversLost(c: Suite, name: Name, data: seq<byte>, d: nat) returns (trace: seq<State>)
    requires PlanOf(c, name, data).Leftover? && d < |data|
    ensures PlanOf(c, name, data).end < |data|
    ensures IsRun(c, name, data, d, true, trace) && trace[|trace| - 1].phase.Finished?
    ensures !Saved(trace[|trace| - 1].asides, data[PlanOf(c, name, data).end..])
  {
    EndWithin(c, name, data);
    var end := PlanOf(c, name, data).end;
    var cut := if d < end then end else d;
    PlanOfPart(c, name, data, cut);
    hide PlanOf, IsRun;
    trace := RecoverPart(c, name, data, d, cut);
    assert forall a :: a in trace[|trace| - 1].asides ==> |a.content| < |data[end..]|;
  }

  /** One stop of the machine that takes trusted bytes, and a recovery after it. */
  lemma TrustedLost(c: Suite, name: Name, data: seq<byte>, d: nat) returns (trace: seq<State>)
    requires PlanOf(c, name, data).Leftover? && d < PlanOf(c, name, data).end <= |data|
    ensures IsRun(c, name, data, d, true, trace) && trace[|trace| - 1].phase.Finished?
    ensures !SameOutcome(PlanOf(c, name, data), data, trace[|trace| - 1])
  {
    LostTrustedKept(c, name, data);
    PlanOfShortPart(c, name, data, d);
    hide PlanOf, IsRun;
    trace := RecoverPart(c, name, data, d, d);
  }

  lemma LostTrustedKept(c: Suite, name: Name, data: seq<byte>)
    requires PlanOf(c, name, data).Leftover? && PlanOf(c, name, data).end > 0
    ensures PlanOf(c, name, data).kept.Some?
  {
  }

  /** The machine stops and leaves `cut` bytes, which are recovered: what is left of them, and what is set aside. */
  lemma RecoverPart(c: Suite, name: Name, data: seq<byte>, d: nat, cut: nat) returns (trace: seq<State>)
    requires d <= cut <= |data|
    requires var p := PlanOf(c, name, data[..cut]); p.Empty? || p.Done? || (p.Leftover? && p.end <= cut)
    ensures IsRun(c, name, data, d, true, trace) && trace[|trace| - 1].phase.Finished?
    ensures var p, s := PlanOf(c, name, data[..cut]), trace[|trace| - 1];
      && (s.segment.Some? ==> |s.segment.value.content| <= cut)
      && (forall a :: a in s.asides ==> p.Leftover? && |a.content| == cut - p.end)
  {
    trace := StopsAt(c, name, data, d, cut);
    var part := data[..cut];
    var left := trace[|trace| - 1];
    var p := PlanOf(c, name, part);
    hide PlanOf, IsRun;
    match p {
      case Empty =>
        trace := Extend(c, name, data, d, trace, left.(segment := None, phase := Finished(None)));
      case Done(h) =>
        trace := Extend(c, name, data, d, trace, left.(phase := Finished(Some(h))));
      case Leftover(kept, e, _) =>
        trace := CopyPart(c, name, data, d, trace, part, kept, e);
    }
  }

  lemma StopsAt(c: Suite, name: Name, data: seq<byte>, d: nat, cut: nat) returns (trace: seq<State>)
    requires d <= cut <= |data|
    ensures IsRun(c, name, data, d, true, trace)
    ensures trace[|trace| - 1] == State(Some(Durable(data[..cut])), [], Reading)
  {
    hide Step;
    var found, left := State(Some(File(data, data, d)), [], Reading), State(Some(Durable(data[..cut])), [], Reading);
    assert Interrupted(found, left, true);
    trace := [found, left];
  }

  lemma Extend(c: Suite, name: Name, data: seq<byte>, d: nat, trace: seq<State>, t: State) returns (more: seq<State>)
    requires IsRun(c, name, data, d, true, trace) && Step(c, name, trace[|trace| - 1], t)
    ensures IsRun(c, name, data, d, true, more) && more == trace + [t]
  {
    hide Step, Interrupted;
    more := trace + [t];
    forall i | 0 <= i < |more| - 1 ensures Next(c, name, true, more[i], more[i + 1]) {
      if i < |trace| - 1 {
        assert more[i] == trace[i] && more[i + 1] == trace[i + 1];
      } else {
        assert more[i] == trace[|trace| - 1] && more[i + 1] == t;
      }
    }
  }

  /** Recovery of what is left sets aside only that. */
  lemma CopyPart(
    c: Suite, name: Name, data: seq<byte>, d: nat, trace: seq<State>, part: seq<byte>, kept: Option<Head>, end: nat)
    returns (more: seq<State>)
    requires IsRun(c, name, data, d, true, trace) && trace[|trace| - 1] == State(Some(Durable(part)), [], Reading)
    requires PlanOf(c, name, part).Leftover? && PlanOf(c, name, part).kept == kept && PlanOf(c, name, part).end == end
    requires end <= |part|
    ensures IsRun(c, name, data, d, true, more)
    ensures var s := more[|more| - 1];
      && s.phase == Finished(kept) && s.asides == [Durable(part[end..])]
      && s.segment == (if kept.None? then None else Some(Durable(part[..end])))
  {
    hide PlanOf, IsRun;
    var copy, f := part[end..], Durable(part);
    more := Extend(c, name, data, d, trace, State(Some(f), [Fresh(copy)], Copied(kept, end)));
    var asides := [Durable(copy)];
    more := Extend(c, name, data, d, more, State(Some(f), asides, Kept(kept, end)));
    if kept.None? {
      more := Extend(c, name, data, d, more, State(None, asides, Finished(None)));
    } else {
      more := Extend(c, name, data, d, more, State(Some(Truncated(f, end)), asides, Cut(kept.value)));
      more := Extend(c, name, data, d, more, State(Some(Durable(part[..end])), asides, Finished(kept)));
    }
  }
}
