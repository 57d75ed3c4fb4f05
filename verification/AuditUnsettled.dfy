/**
 What a writer risks by continuing from a segment that is not yet on disk as it
 reads: every such step has a continuation after which a writer is open and its
 log does not verify. Together with the theorem over settled runs this says
 exactly when the log is safe.
 */
module AuditUnsettled {
  import opened Wrappers
  import opened Layout
  import opened AuditLines
  import opened AuditChain
  import opened AuditTamper
  import opened AuditText
  import opened AuditWriter

  // ---------------------------------------------------------------------------
  // A tail in a segment that is not the newest is a problem
  // ---------------------------------------------------------------------------

  lemma SegmentProblemsStay(c: Suite, e: Expect, v: Verify, data: seq<byte>, newest: bool)
    ensures VerifySegment(c, e, v, data, newest).problems >= v.problems
  {
    hide Split, VerifyLines;
    var p := Split(data);
    var start := v.(key := None, pending := [], problems := v.problems + if p.torn != [] && !newest then 1 else 0);
    ProblemsStay(c, e, start, p.lines, 0);
    assert p.lines[..0] == [];
    LinesStart(c, e, start);
  }

  lemma TailIsReported(c: Suite, e: Expect, w: Signer, chain: seq<Link>, first: nat, tail: seq<byte>, v: Verify)
    requires Works(c, w) && Written(c, chain) && first <= |chain| && Trusts(e, w) && ReadUpTo(c, w, chain, first, v)
    requires Tail(c, tail) && tail != []
    ensures VerifySegment(c, e, v, Text(c, w, chain, first) + tail, false).problems > 0
  {
    hide Split, Flat, SegmentLines, Works, Written, HeadAfter, LinksOf, VerifyLines, AllLoggable, Text, Trusts;
    var q := Split(tail);
    SplitWhole(tail);
    SplitText(c, w, chain, first, tail);
    var data := Text(c, w, chain, first) + tail;
    var start := v.(key := None, pending := [], problems := v.problems + if q.torn != [] then 1 else 0);
    if q.torn != [] {
      ProblemsStay(c, e, start, Split(data).lines, 0);
      assert Split(data).lines[..0] == [];
      LinesStart(c, e, start);
    } else {
      VerifyOwnLines(c, e, w, chain, first, q.lines, start);
      assert q.lines != [] by { FlatNone(); }
    }
  }

  lemma FlatNone()
    ensures Flat([]) == []
  {
  }

  /** Finished segments, then one with a tail, then any others. */
  lemma TailInsideReported(c: Suite, e: Expect, w: Signer, chain: seq<Link>, segs: seq<Seg>, tail: seq<byte>,
                           more: seq<seq<byte>>)
    requires Works(c, w) && Written(c, chain) && Trusts(e, w) && Based(c, w, chain, segs)
    requires Tail(c, tail) && tail != [] && more != []
    ensures var bad := Text(c, w, chain, Last(segs).name) + tail;
      ReportOf(c, e, Contents(Most(segs)) + [bad] + more, 0).problems > 0
  {
    hide Works, HeadAfter, LinksOf, Text, Closed, Records, Recovered, Tail, VerifySegment, Contents;
    var name := Last(segs).name;
    var bad := Text(c, w, chain, name) + tail;
    var older := Contents(Most(segs));
    WrittenPrefix(c, chain, name);
    VerifyClosed(c, e, w, chain[..name], Most(segs));
    WholePrefix(chain[..name]);
    var v := VerifyOlder(c, e, older);
    assert ReadUpTo(c, w, chain, name, v);
    hide Written, VerifyOlder;
    TailIsReported(c, e, w, chain, name, tail, v);
    OlderExtends(c, e, older + [bad], |older|);
    assert (older + [bad])[..|older|] == older && (older + [bad])[..|older| + 1] == older + [bad];
    MoreKeepProblems(c, e, older + [bad], more);
  }

  lemma MoreKeepProblems(c: Suite, e: Expect, older: seq<seq<byte>>, more: seq<seq<byte>>)
    requires VerifyOlder(c, e, older).problems > 0 && more != []
    ensures ReportOf(c, e, older + more, 0).problems > 0
  {
    hide VerifyOlder, VerifySegment, Records, Recovered;
    var all := older + more;
    OlderKeepProblems(c, e, older, more[..|more| - 1]);
    assert all[..|all| - 1] == older + more[..|more| - 1];
    SegmentProblemsStay(c, e, VerifyOlder(c, e, all[..|all| - 1]), all[|all| - 1], true);
  }

  lemma {:induction false} OlderKeepProblems(c: Suite, e: Expect, older: seq<seq<byte>>, more: seq<seq<byte>>)
    requires VerifyOlder(c, e, older).problems > 0
    ensures VerifyOlder(c, e, older + more).problems > 0
  {
    hide VerifyOlder, VerifySegment;
    if more == [] {
      assert older + more == older;
    } else {
      var most := more[..|more| - 1];
      OlderKeepProblems(c, e, older, most);
      var all := older + more;
      OlderExtends(c, e, all, |all| - 1);
      assert all[..|all| - 1] == older + most && all[..|all| - 1 + 1] == all;
      SegmentProblemsStay(c, e, VerifyOlder(c, e, older + most), all[|all| - 1], false);
    }
  }

  // ---------------------------------------------------------------------------
  // What a crash can still do to a segment that is not on disk as it reads
  // ---------------------------------------------------------------------------

  /** The step that does not settle: where it leads, and a file a crash can leave in place of the segment. */
  ghost predicate Risk(c: Suite, w: Signer, s: State, t: State, chain: seq<Link>, tail: seq<byte>, g: R.File) {
    && s.segs != [] && t.segs == s.segs && t.loose == None && Written(c, t.chain)
    && t.mode == Starting(HeadAfter(c, t.chain)) && Last(s.segs).name < |t.chain|
    && Written(c, chain) && Based(c, w, chain, s.segs) && tail != [] && Tail(c, tail)
    && Lasts(Last(s.segs).file, g) && g == R.Durable(Text(c, w, chain, Last(s.segs).name) + tail)
  }

  lemma UnsettledRisk(c: Suite, w: Signer, s: State, t: State)
    returns (chain: seq<Link>, tail: seq<byte>, g: R.File)
    requires Works(c, w) && Inv(c, w, s) && Step(c, w, s, t) && !Settles(s, t)
    ensures Risk(c, w, s, t, chain, tail, g)
  {
    if s.loose == None {
      tail, g := QuietRisk(c, w, s, t);
      chain := s.chain;
    } else {
      tail, g := LooseRisk(c, w, s, t);
      chain := s.chain;
    }
  }

  /** A cut that is not durable: what was cut off may be back. */
  lemma QuietRisk(c: Suite, w: Signer, s: State, t: State) returns (tail: seq<byte>, g: R.File)
    requires Works(c, w) && Inv(c, w, s) && Step(c, w, s, t) && !Settles(s, t) && s.loose == None
    ensures Risk(c, w, s, t, s.chain, tail, g)
  {
    hide Text, HeadAfter, PlanOf, Works, Closed, RecoverStep, OnChain, HeaderLine, Tail;
    var last := Last(s.segs);
    var text := Text(c, w, s.chain, last.name);
    SteadyReads(c, w, s.chain, last.name, last.file);
    RestPlan(c, w, s.chain, last.name, last.file.content);
    ReadingTo(c, s, t);
    WrittenPosition(c, s.chain);
    assert s.chain + [] == s.chain;
    assert last.file.content == text;
    assert HasTail(c, w, s.chain, last.name, last.file.full);
    tail := last.file.full[|text|..];
    assert last.file.full == text + tail;
    g := R.Durable(last.file.full);
    hide Written;
  }

  /** A trailer that is not durable: it may be torn yet. */
  lemma LooseRisk(c: Suite, w: Signer, s: State, t: State) returns (tail: seq<byte>, g: R.File)
    requires Works(c, w) && Inv(c, w, s) && Step(c, w, s, t) && !Settles(s, t) && s.loose.Some?
    ensures Risk(c, w, s, t, s.chain, tail, g)
  {
    hide Text, HeadAfter, Works, Closed, RecoverStep, OnChain, LinkFor, AllLoggable, Tail, Written, Lasts;
    LooseReading(c, w, s, t);
    tail, g := TornLoose(c, w, s.chain, s.segs, s.loose.value);
  }

  lemma TornLoose(c: Suite, w: Signer, chain: seq<Link>, segs: seq<Seg>, records: seq<Line>)
    returns (tail: seq<byte>, g: R.File)
    requires Works(c, w) && Loose(c, w, chain, segs, records) && Last(segs).file.durable < |Last(segs).file.content|
    ensures tail != [] && Tail(c, tail)
    ensures Lasts(Last(segs).file, g) && g == R.Durable(Text(c, w, chain, Last(segs).name) + tail)
  {
    var trailer := TrailerLine(c, w, HeadAfter(c, chain), records);
    assert Clean(trailer);
    hide Text, HeadAfter, Works, Closed, TrailerLine, LinkFor, AllLoggable, Tail, Flat;
    var text := Text(c, w, chain, Last(segs).name);
    TextExtends(c, w, chain, Last(segs).name, records);
    tail := Flat(records) + trailer;
    RecordsNotEmpty(records);
    TailPrefix(c, records, trailer, tail);
    g := R.Durable(text + tail);
    LastByteOff(text, Flat(records), trailer, Last(segs).file);
  }

  lemma LastByteOff(text: seq<byte>, records: seq<byte>, line: Line, f: R.File)
    requires f.content == f.full == text + (records + Ended(line)) && f.durable < |f.content|
    ensures Lasts(f, R.Durable(text + (records + line)))
  {
    assert f.full == text + (records + line) + [NL];
  }

  lemma RecordsNotEmpty(records: seq<Line>)
    requires records != []
    ensures Flat(records) != []
  {
  }

  // ---------------------------------------------------------------------------
  // The continuation
  // ---------------------------------------------------------------------------

  /** A writer starts the next segment. */
  lemma OpenNext(c: Suite, w: Signer, trace: seq<State>) returns (run: seq<State>)
    requires trace != [] && IsRun(c, w, trace) && Last(trace).mode.Starting?
    requires Last(trace).segs != [] ==> Last(Last(trace).segs).name != Last(trace).mode.head.next
    ensures run != [] && IsRun(c, w, run) && trace <= run && (Settled(trace) ==> Settled(run))
    ensures var s, head := Last(trace), Last(trace).mode.head;
      Last(run) == s.(segs := s.segs + [Seg(head.next, R.Fresh(Ended(HeaderLine(w, head))))], mode := Open(head, []))
  {
    hide IsRun, HeaderLine, Ended, Settled;
    var s := Last(trace);
    var head := s.mode.head;
    run := Extend(c, w, trace, s.(segs := s.segs + [Seg(head.next, R.Fresh([]))], mode := Created(head)));
    run := Extend(c, w, run, s.(segs := s.segs + [Seg(head.next, R.Fresh(Ended(HeaderLine(w, head))))],
        mode := Open(head, [])));
  }

  /** It appends one record and writes the trailer. */
  lemma WriteOne(c: Suite, w: Signer, trace: seq<State>, older: seq<Seg>, line: Line) returns (run: seq<State>)
    requires trace != [] && IsRun(c, w, trace) && Loggable(c, line)
    requires Last(trace).mode == Open(HeadAfter(c, Last(trace).chain), [])
    requires Written(c, Last(trace).chain) && |Last(trace).chain| + 2 < TWO64
    requires var s := Last(trace);
      s.segs == older + [Seg(|s.chain|, R.Fresh(Ended(HeaderLine(w, HeadAfter(c, s.chain)))))]
    ensures run != [] && IsRun(c, w, run) && trace <= run && (Settled(trace) ==> Settled(run))
    ensures var s := Last(trace); var all := s.chain + [LinkFor([line])];
      var text := Text(c, w, all, |s.chain|);
      Last(run) == s.(segs := older + [Seg(|s.chain|, R.File(text, text, 0))],
          mode := Sealing(HeadAfter(c, s.chain), [line]))
  {
    hide IsRun, HeadAfter, HeaderLine, TrailerLine, LinkFor, Text, Ended, Written, Loggable, Settled;
    var s := Last(trace);
    var head, k := s.mode.head, |s.chain|;
    WrittenPosition(c, s.chain);
    OneBatchText(c, w, s.chain, line);
    var hd, rec, tr := Ended(HeaderLine(w, head)), Ended(line), Ended(TrailerLine(c, w, head, [line]));
    var a := s.(segs := older + [Seg(k, R.File(hd + rec, hd + rec, 0))], mode := Open(head, [line]));
    assert Most(s.segs) == older && [] + [line] == [line];
    assert Appended(s, a, head, [], line);
    run := Extend(c, w, trace, a);
    var text := hd + rec + tr;
    assert Most(a.segs) == older;
    run := Extend(c, w, run, s.(segs := older + [Seg(k, R.File(text, text, 0))], mode := Sealing(head, [line])));
  }

  /** And makes it durable. */
  lemma SealOne(c: Suite, w: Signer, trace: seq<State>, older: seq<Seg>, line: Line) returns (run: seq<State>)
    requires trace != [] && IsRun(c, w, trace) && Loggable(c, line)
    requires Last(trace).mode == Open(HeadAfter(c, Last(trace).chain), []) && Last(trace).loose == None
    requires Written(c, Last(trace).chain) && |Last(trace).chain| + 2 < TWO64
    requires var s := Last(trace);
      s.segs == older + [Seg(|s.chain|, R.Fresh(Ended(HeaderLine(w, HeadAfter(c, s.chain)))))]
    ensures run != [] && IsRun(c, w, run) && trace <= run
    ensures var s, t := Last(trace), Last(run); var all := s.chain + [LinkFor([line])];
      && Written(c, all) && t == s.(segs := older + [Seg(|s.chain|, R.Durable(Text(c, w, all, |s.chain|)))],
                                    mode := Synced(HeadAfter(c, all)), chain := all, acked := t.acked)
  {
    hide IsRun, HeadAfter, HeaderLine, TrailerLine, LinkFor, NextHead, Text, Ended, Written, Loggable;
    var s := Last(trace);
    OneBatchText(c, w, s.chain, line);
    run := WriteOne(c, w, trace, older, line);
    var b := Last(run);
    assert Most(b.segs) == older;
    var h := NextHead(c, HeadAfter(c, s.chain), [line]);
    run := Extend(c, w, run, b.(segs := older + [Seg(|s.chain|, R.Durable(Last(b.segs).file.content))],
        mode := Synced(h),
      chain := s.chain + [LinkFor([line])], acked := s.acked + [h]));
  }

  lemma Extend(c: Suite, w: Signer, trace: seq<State>, t: State) returns (run: seq<State>)
    requires trace != [] && IsRun(c, w, trace) && Step(c, w, Last(trace), t)
    ensures IsRun(c, w, run) && run == trace + [t]
    ensures Settled(trace) && Settles(Last(trace), t) && Numbered(t) ==> Settled(run)
  {
    RunExtends(c, w, trace, t);
    run := trace + [t];
    hide IsRun, Step;
    if Settled(trace) && Settles(Last(trace), t) && Numbered(t) {
      SettledExtends(trace, t);
    }
  }

  /** The text of a segment of one batch of one record. */
  lemma OneBatchText(c: Suite, w: Signer, chain: seq<Link>, line: Line)
    requires Written(c, chain) && |chain| + 1 < TWO64 && Loggable(c, line)
    ensures var all, head := chain + [LinkFor([line])], HeadAfter(c, chain);
      && Written(c, all) && HeadAfter(c, all) == NextHead(c, head, [line])
      && Text(c, w, all, |chain|) == Ended(HeaderLine(w, head)) + Ended(line) + Ended(TrailerLine(c, w, head, [line]))
  {
    hide HeadAfter, HeaderLine, TrailerLine, LinkFor, NextHead, Text, Ended, Flat;
    WrittenExtends(c, chain, [line]);
    HeadExtends(c, chain, [line]);
    hide Written;
    HeaderOnly(c, w, chain);
    TextExtends(c, w, chain, |chain|, [line]);
    FlatOne(line);
    Assoc(Ended(HeaderLine(w, HeadAfter(c, chain))), Ended(line),
          Ended(TrailerLine(c, w, HeadAfter(c, chain), [line])));
  }

  lemma FlatOne(line: Line)
    ensures Flat([line]) == Ended(line)
  {
    assert Flat([line]) == Ended(line) + Flat([]);
  }

  /** After a crash a writer opens again, from the newest segment. */
  lemma Reopen(c: Suite, w: Signer, trace: seq<State>) returns (run: seq<State>)
    requires Works(c, w) && trace != [] && IsRun(c, w, trace)
    requires var s := Last(trace);
      && s.mode == Off && s.loose == None && s.segs != [] && Written(c, s.chain) && Last(s.segs).name < |s.chain|
      && Last(s.segs).file == R.Durable(Text(c, w, s.chain, Last(s.segs).name))
    ensures run != [] && IsRun(c, w, run) && trace <= run && Last(run).mode.Open?
    ensures var s, head := Last(trace), HeadAfter(c, Last(trace).chain);
      Last(run).segs == s.segs + [Seg(head.next, R.Fresh(Ended(HeaderLine(w, head))))]
  {
    hide IsRun, HeadAfter, HeaderLine, Text, Ended, Works, PlanOf, Written;
    var s := Last(trace);
    var head := HeadAfter(c, s.chain);
    WrittenPosition(c, s.chain);
    run := Extend(c, w, trace, s.(mode := Recovering(R.Reading)));
    DoneStep(c, w, Last(run));
    run := Extend(c, w, run, s.(mode := Starting(head)));
    run := OpenNext(c, w, run);
  }

  lemma DoneStep(c: Suite, w: Signer, s: State)
    requires Works(c, w) && s.mode == Recovering(R.Reading) && s.loose == None && s.segs != [] && Written(c, s.chain)
    requires Last(s.segs).name <= |s.chain| && Last(s.segs).file == R.Durable(Text(c, w, s.chain, Last(s.segs).name))
    ensures Step(c, w, s, s.(mode := Starting(HeadAfter(c, s.chain))))
  {
    hide HeadAfter, Text, Works, PlanOf, Written;
    var l, head := Last(s.segs), HeadAfter(c, s.chain);
    TailNone(c);
    PlanOfText(c, w, s.chain, l.name, []);
    assert Text(c, w, s.chain, l.name) + [] == Text(c, w, s.chain, l.name);
    SameLast(s.segs);
    assert s.chain + [] == s.chain;
    var u := R.State(Some(l.file), s.asides, R.Finished(Some(head)));
    assert R.Step(c, Number(l.name), R.State(Some(l.file), s.asides, R.Reading), u);
    assert RecoverTo(s, u) == s.(mode := Starting(head));
  }

  /** Finished segments can survive a crash as they are. */
  lemma {:induction false} ClosedCanLast(c: Suite, w: Signer, chain: seq<Link>, segs: seq<Seg>)
    requires Closed(c, w, chain, segs)
    ensures AllLast(segs, segs)
    decreases |segs|
  {
    if segs == [] {
    } else {
      ClosedMost(c, w, chain, segs);
      SelfLasts(Text(c, w, chain, Last(segs).name));
      ClosedCanLast(c, w, chain[..Last(segs).name], Most(segs));
      SelfExtends(segs);
    }
    hide AllLast, Text, Lasts;
  }

  lemma SelfExtends(segs: seq<Seg>)
    requires segs != [] && AllLast(Most(segs), Most(segs)) && Lasts(Last(segs).file, Last(segs).file)
    ensures AllLast(segs, segs)
  {
    hide Lasts;
    forall i | 0 <= i < |segs| ensures Lasts(segs[i].file, segs[i].file) {
      if i < |segs| - 1 {
        assert segs[i] == Most(segs)[i];
      }
    }
  }

  /** Files set aside never claim more than they hold. */
  ghost predicate AsidesSane(asides: seq<R.File>) {
    forall i :: 0 <= i < |asides| ==> asides[i].content <= asides[i].full && asides[i].durable <= |asides[i].content|
  }

  lemma {:induction false} RunAsides(c: Suite, w: Signer, trace: seq<State>, i: nat)
    requires IsRun(c, w, trace) && i < |trace|
    ensures AsidesSane(trace[i].asides)
  {
    if i == 0 {
    } else {
      RunAsides(c, w, trace, i - 1);
      var s, t := trace[i - 1], trace[i - 1 + 1];
      assert Step(c, w, s, t) || Crash(s, t);
      if t.asides != s.asides && Step(c, w, s, t) {
        StepAsides(c, w, s, t);
      }
    }
    hide Step;
  }

  lemma StepAsides(c: Suite, w: Signer, s: State, t: State)
    requires AsidesSane(s.asides) && Step(c, w, s, t)
    ensures AsidesSane(t.asides)
  {
    hide PlanOf, LinkFor, TrailerLine, HeaderLine, AsidesSane;
    if s.mode.Recovering? && s.segs != [] && t.asides != s.asides {
      var l := Last(s.segs);
      var before := R.State(Some(l.file), s.asides, s.mode.phase);
      var u :| R.Step(c, Number(l.name), before, u) && t == RecoverTo(s, u);
      RecoverAsides(c, Number(l.name), before, u);
    }
  }

  lemma RecoverAsides(c: Suite, name: Name, s: R.State, u: R.State)
    requires AsidesSane(s.asides) && R.Step(c, name, s, u)
    ensures AsidesSane(u.asides)
  {
    hide PlanOf;
  }

  /** The crash: the segment continued from is cut or whole again, the new one stays. */
  lemma CrashInto(c: Suite, w: Signer, chain: seq<Link>, before: seq<Seg>, s: State, added: Seg, g: R.File)
    returns (t: State)
    requires Based(c, w, chain, before) && Lasts(Last(before).file, g)
    requires s.mode.Synced? && s.loose == None && s.segs == before + [added]
    requires added.file == R.Durable(added.file.content)
    requires AsidesSane(s.asides)
    ensures Crash(s, t) && t == s.(mode := Off, segs := WithLast(before, g) + [added])
  {
    hide Closed, Lasts;
    ClosedCanLast(c, w, chain[..Last(before).name], Most(before));
    t := s.(mode := Off, segs := WithLast(before, g) + [added]);
    SelfLasts(added.file.content);
    forall i | 0 <= i < |t.segs| ensures t.segs[i].name == s.segs[i].name && Lasts(s.segs[i].file, t.segs[i].file) {
      if i < |before| - 1 {
        assert t.segs[i] == Most(before)[i] == s.segs[i];
      }
    }
  }

  lemma SelfLasts(text: seq<byte>)
    ensures Lasts(R.Durable(text), R.Durable(text))
  {
  }

  /** From there: a new segment, one record sealed in it, the crash, and a writer open again. */
  lemma Continue(c: Suite, w: Signer, trace: seq<State>, chain: seq<Link>, g: R.File, line: Line)
    returns (run: seq<State>, a: Seg, b: Seg)
    requires Works(c, w) && trace != [] && IsRun(c, w, trace) && Loggable(c, line)
    requires var t := Last(trace);
      && t.mode == Starting(HeadAfter(c, t.chain)) && t.loose == None && t.segs != [] && Last(t.segs).name < |t.chain|
      && Written(c, t.chain) && |t.chain| + 2 < TWO64
      && Based(c, w, chain, t.segs) && Lasts(Last(t.segs).file, g)
    ensures run != [] && IsRun(c, w, run) && trace <= run && Last(run).mode.Open?
    ensures Last(run).segs == WithLast(Last(trace).segs, g) + [a] + [b]
  {
    hide IsRun, Step, Works, HeadAfter, HeaderLine, Text, Ended, Written, Loggable, Crash, Closed, Lasts, LinkFor;
    var segs := Last(trace).segs;
    WrittenPosition(c, Last(trace).chain);
    var started := OpenNext(c, w, trace);
    var sealed := SealOne(c, w, started, segs, line);
    PrefixTrans(trace, started, sealed);
    RunAsides(c, w, sealed, |sealed| - 1);
    a := Last(Last(sealed).segs);
    var after := CrashInto(c, w, chain, segs, Last(sealed), a, g);
    RunExtends(c, w, sealed, after);
    var crashed := sealed + [after];
    assert Last(crashed) == after;
    WrittenPosition(c, after.chain);
    run := Reopen(c, w, crashed);
    PrefixTrans(trace, sealed, crashed);
    PrefixTrans(trace, crashed, run);
    b := Last(Last(run).segs);
  }

  /**
   The other half of the theorem over settled runs: a step that does not
   settle has a continuation in which a writer is open and verification
   reports a problem.
   */
  lemma UnsettledBreaks(c: Suite, w: Signer, e: Expect, trace: seq<State>, t: State, line: Line)
    returns (run: seq<State>)
    requires Works(c, w) && trace != [] && IsRun(c, w, trace) && Settled(trace) && Trusts(e, w)
    requires Step(c, w, Last(trace), t) && !Settles(Last(trace), t) && Loggable(c, line) && |t.chain| + 2 < TWO64
    ensures run != [] && IsRun(c, w, run) && trace + [t] <= run && Last(run).mode.Open?
    ensures ReportOf(c, e, Contents(Last(run).segs), 0).problems > 0
  {
    RunKeepsInv(c, w, trace, |trace| - 1);
    hide IsRun, Step, Settles, Works, HeadAfter, Text, Written, Loggable;
    hide Closed, Lasts, Tail, Inv, Settled, Trusts, ReportOf, Based;
    var chain, tail, g := UnsettledRisk(c, w, Last(trace), t);
    var next := Extend(c, w, trace, t);
    var a, b;
    run, a, b := Continue(c, w, next, chain, g, line);
    ContentsOf(t.segs, g, a, b);
    TailInsideReported(c, e, w, chain, t.segs, tail, [a.file.content, b.file.content]);
  }

  lemma ContentsExtends(segs: seq<Seg>, l: Seg)
    ensures Contents(segs + [l]) == Contents(segs) + [l.file.content]
  {
    assert Most(segs + [l]) == segs;
  }

  lemma ContentsOf(segs: seq<Seg>, g: R.File, a: Seg, b: Seg)
    requires segs != []
    ensures Contents(WithLast(segs, g) + [a] + [b]) ==
        Contents(Most(segs)) + [g.content] + [a.file.content, b.file.content]
  {
    hide Contents;
    ContentsExtends(Most(segs), Seg(Last(segs).name, g));
    ContentsExtends(WithLast(segs, g), a);
    ContentsExtends(WithLast(segs, g) + [a], b);
  }

  // ---------------------------------------------------------------------------
  // Such steps happen
  // ---------------------------------------------------------------------------

  /** The first writer of a log opens it. */
  lemma FirstOpen(c: Suite, w: Signer) returns (trace: seq<State>)
    ensures trace != [] && IsRun(c, w, trace) && Settled(trace)
    ensures Last(trace) == INITIAL.(segs := [Seg(0, R.Fresh(Ended(HeaderLine(w, START))))], mode := Open(START, []))
  {
    hide HeaderLine, Ended;
    trace := [INITIAL];
    assert Settled(trace);
    hide IsRun, Settled;
    trace := Extend(c, w, trace, INITIAL.(mode := Recovering(R.Reading)));
    trace := Extend(c, w, trace, INITIAL.(mode := Starting(START)));
    trace := OpenNext(c, w, trace);
    assert [] + [Seg(0, R.Fresh(Ended(HeaderLine(w, START))))] == [Seg(0, R.Fresh(Ended(HeaderLine(w, START))))];
  }

  /** It writes one record and its trailer. */
  lemma FirstTrailer(c: Suite, w: Signer, line: Line) returns (trace: seq<State>)
    requires Loggable(c, line)
    ensures trace != [] && IsRun(c, w, trace) && Settled(trace)
    ensures var text := Text(c, w, [LinkFor([line])], 0);
      Last(trace) == INITIAL.(segs := [Seg(0, R.File(text, text, 0))], mode := Sealing(START, [line]))
  {
    hide HeaderLine, LinkFor, Text, Ended, Loggable;
    assert HeadAfter(c, []) == START && Written(c, []);
    hide IsRun, HeadAfter, Settled, Written;
    trace := FirstOpen(c, w);
    trace := WriteOne(c, w, trace, [], line);
    assert [] + [LinkFor([line])] == [LinkFor([line])];
  }

  /** The first writer of a log dies between writing a trailer and its sync; the next one continues from it. */
  lemma UnsettledHappens(c: Suite, w: Signer, line: Line) returns (trace: seq<State>, t: State)
    requires Works(c, w) && Loggable(c, line)
    ensures trace != [] && IsRun(c, w, trace) && Settled(trace) && Step(c, w, Last(trace), t)
    ensures !Settles(Last(trace), t)
    ensures t.chain == [LinkFor([line])]
  {
    hide LinkFor, Text, Loggable, PlanOf, Works, IsRun, Settled;
    trace := FirstTrailer(c, w, line);
    var s := Last(trace);
    var off := s.(mode := Off, loose := Some([line]));
    TextNotEmpty(c, w, [LinkFor([line])], 0);
    assert Crash(s, off);
    RunExtends(c, w, trace, off);
    SettledExtends(trace, off);
    trace := trace + [off];
    hide Crash;
    var found := off.(mode := Recovering(R.Reading));
    trace := Extend(c, w, trace, found);
    t := LooseDoneStep(c, w, found, line);
  }

  lemma LooseDoneStep(c: Suite, w: Signer, s: State, line: Line) returns (t: State)
    requires Works(c, w) && Loggable(c, line) && s.mode == Recovering(R.Reading) && s.loose == Some([line])
    requires s.chain == []
    requires var text := Text(c, w, [LinkFor([line])], 0); s.segs == [Seg(0, R.File(text, text, 0))]
    ensures Step(c, w, s, t) && !Settles(s, t) && t.chain == [LinkFor([line])]
  {
    hide HeadAfter, Text, Works, PlanOf, Written, LinkFor, Loggable;
    var chain := [LinkFor([line])];
    var head := HeadAfter(c, chain);
    OneWritten(c, line);
    WrittenPosition(c, chain);
    TailNone(c);
    PlanOfText(c, w, chain, 0, []);
    TextNotEmpty(c, w, chain, 0);
    assert Text(c, w, chain, 0) + [] == Text(c, w, chain, 0);
    var u := R.State(Some(Last(s.segs).file), s.asides, R.Finished(Some(head)));
    assert R.Step(c, Number(0), R.State(Some(Last(s.segs).file), s.asides, R.Reading), u);
    t := RecoverTo(s, u);
    assert [] + chain == chain;
  }

  lemma OneWritten(c: Suite, line: Line)
    requires Loggable(c, line)
    ensures Written(c, [LinkFor([line])])
  {
    WrittenExtends(c, [], [line]);
    assert [] + [LinkFor([line])] == [LinkFor([line])];
    hide LinkFor;
  }
}
