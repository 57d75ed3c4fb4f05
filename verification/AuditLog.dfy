/** The code of the audit writer: every execution is a run of the machine, so what holds over every run holds of it. */
module AuditLog {
  import opened Wrappers
  import opened Layout
  import opened AuditFrame
  import opened AuditLines
  import opened AuditChain
  import opened AuditTamper
  import opened AuditText
  import opened AuditWriter

  /** A log directory and its writer, with a record of every state they went through. */
  class Log {
    const c: Suite
    const w: Signer
    const batchRecords: U64
    const segmentBytes: nat

    // The directory.
    var segs: seq<Seg>
    var asides: seq<R.File>

    // The writer.
    var head: Head
    var pending: seq<byte>
    var pendingRecords: nat
    var segmentLen: nat

    ghost var trace: seq<State>

    /** The directory is as a run left it. */
    ghost predicate Tracked()
      reads this
    {
      && trace != [] && Works(c, w) && IsRun(c, w, trace)
      && Last(trace).segs == segs && Last(trace).asides == asides
    }

    /** A writer is open. */
    ghost predicate Opened()
      reads this
    {
      && Tracked()
      && var m := Last(trace).mode;
         && m.Open? && m.head == head
         && pending == Flat(m.pending) && pendingRecords == |m.pending|
         && segs != [] && segmentLen == |Last(segs).file.content|
    }

    /** Between calls, its batch is not yet full. */
    ghost predicate Valid()
      reads this
    {
      Opened() && (pendingRecords == 0 || pendingRecords < batchRecords)
    }

    /** The records of the open batch. */
    ghost function OpenBatch(): seq<Line>
      requires Opened()
      reads this
    {
      Last(trace).mode.pending
    }

    /** Every batch durably sealed. */
    ghost function Chain(): seq<Link>
      requires trace != []
      reads this
    {
      Last(trace).chain
    }

    /** An empty directory. */
    constructor (c: Suite, w: Signer, batchRecords: U64, segmentBytes: nat)
      requires Works(c, w)
      ensures Tracked() && Settled(trace) && trace == [INITIAL] && this.c == c && this.w == w
    {
      this.c, this.w, this.batchRecords, this.segmentBytes := c, w, batchRecords, segmentBytes;
      segs, asides, head, pending, pendingRecords, segmentLen := [], [], START, [], 0, 0;
      trace := [INITIAL];
    }

    /** Records the state the last step led to; only reading a segment needs settling. */
    ghost method Reach(mode: Mode, chain: seq<Link>, acked: seq<Head>)
      requires trace != [] && Works(c, w) && IsRun(c, w, trace) && !Last(trace).mode.Recovering?
      requires Step(c, w, Last(trace), State(segs, asides, mode, chain, acked, Last(trace).loose))
      modifies this`trace
      ensures Tracked() && trace == old(trace) + [State(segs, asides, mode, chain, acked, old(Last(trace)).loose)]
      ensures old(Settled(trace)) && Numbered(Last(trace)) ==> Settled(trace)
    {
      hide IsRun, Step, Settled;
      var t := State(segs, asides, mode, chain, acked, Last(trace).loose);
      RunExtends(c, w, trace, t);
      if Settled(trace) && Numbered(t) {
        SettledExtends(trace, t);
      }
      trace := trace + [t];
    }

    /** The process or the machine dies and leaves `t` of the directory. */
    method Stop(leftSegs: seq<Seg>, leftAsides: seq<R.File>, ghost t: State)
      requires Tracked() && Crash(Last(trace), t) && t.segs == leftSegs && t.asides == leftAsides
      modifies this`segs, this`asides, this`trace
      ensures Tracked() && trace == old(trace) + [t] && (old(Settled(trace)) ==> Settled(trace))
    {
      hide IsRun, Settled;
      RunExtends(c, w, trace, t);
      if Settled(trace) {
        SettledExtends(trace, t);
      }
      segs, asides := leftSegs, leftAsides;
      trace := trace + [t];
    }

    /** The newest segment with the trailer of its open batch, on disk. */
    ghost function WithTrailer(before: seq<Seg>, at: Head, records: seq<Line>): seq<Seg>
      requires before != []
    {
      WithLast(before, R.Durable(Last(before).file.content + Ended(TrailerLine(c, w, at, records))))
    }

    /** `after` is `before` with a new newest segment that holds its header and nothing else. */
    ghost predicate Started(before: seq<Seg>, after: seq<Seg>, at: Head) {
      && after != [] && Last(after) == Seg(at.next, R.Fresh(Ended(HeaderLine(w, at))))
      && (before == [] || Last(before).name != at.next ==> Most(after) == before)
    }

    /**
     What sealing the open batch makes of the segments: the newest one gets the trailer, and the next one is started
     exactly if it is then as long as a segment should get.
     */
    ghost predicate SealedInto(before: seq<Seg>, at: Head, records: seq<Line>, after: seq<Seg>, next: Head)
      requires before != []
    {
      var closed := WithTrailer(before, at, records);
      if |Last(closed).file.content| >= segmentBytes then Started(closed, after, next) else after == closed
    }

    /** Creates or truncates the next segment and writes its header. */
    method StartSegment()
      requires Tracked() && Last(trace).mode == Starting(head)
      requires pendingRecords == 0 && pending == []
      modifies this
      ensures Valid() && OpenBatch() == [] && Chain() == old(Chain()) && old(trace) <= trace
      ensures old(Settled(trace)) ==> Settled(trace)
      ensures head == old(head) && Last(trace).acked == old(Last(trace)).acked
      ensures Started(old(segs), segs, head)
    {
      hide IsRun, HeaderLine, Settled;
      ghost var s := Last(trace);
      segs := Create(segs, head.next);
      Reach(Created(head), s.chain, s.acked);
      segs := WithLast(segs, R.Fresh(Ended(HeaderLine(w, head))));
      segmentLen := |Ended(HeaderLine(w, head))|;
      Reach(Mode.Open(head, []), s.chain, s.acked);
      assert Flat([]) == [];
    }

    /** Records a step of opening that leads to `t`. */
    ghost method ReachRecovering(t: State)
      requires trace != [] && Works(c, w) && IsRun(c, w, trace)
      requires Step(c, w, Last(trace), t) && segs == t.segs && asides == t.asides && !t.mode.Sealing?
      modifies this`trace
      ensures Tracked() && trace == old(trace) + [t]
      ensures old(Settled(trace) && Settles(Last(trace), t)) ==> Settled(trace)
    {
      hide IsRun, Step, Settled, Settles;
      RunExtends(c, w, trace, t);
      if Settled(trace) && Settles(Last(trace), t) {
        SettledExtends(trace, t);
      }
      trace := trace + [t];
    }

    /** Records one step of recovering the newest segment, `u` being what it led to. */
    ghost method ReachRecovered(phase: R.Phase, u: R.State)
      requires trace != [] && Works(c, w) && IsRun(c, w, trace)
      requires var s := Last(trace);
        && s.mode == Recovering(phase) && s.segs != []
        && R.Step(c, Number(Last(s.segs).name), R.State(Some(Last(s.segs).file), s.asides, phase), u)
        && segs == RecoverTo(s, u).segs && asides == RecoverTo(s, u).asides
      modifies this`trace
      ensures Tracked() && trace == old(trace) + [RecoverTo(old(Last(trace)), u)]
      ensures old(Settled(trace) && Settles(Last(trace), RecoverTo(Last(trace), u))) ==> Settled(trace)
    {
      var s := Last(trace);
      assert RecoverStep(c, s, RecoverTo(s, u), phase);
      hide IsRun, R.Step, PlanOf, Settled, Settles, LinkFor;
      ReachRecovering(RecoverTo(s, u));
    }

    /**
     Reads the chain position from the newest segment, sets its leftovers aside, and cuts them off or removes it. A
     segment that does not start as its name says is refused, and one with foreign lines stays as evidence.
     */
    method RecoverNewest() returns (got: Option<Head>, refused: bool)
      requires Tracked() && Last(trace).mode == Recovering(R.Reading) && segs != []
      modifies this`segs, this`asides, this`trace
      ensures Tracked() && old(trace) <= trace && Last(trace).acked == old(Last(trace)).acked
      ensures Last(trace).mode ==
              if refused then Off else if got.Some? then Starting(got.value) else Recovering(R.Reading)
      ensures !refused && got.None? ==> segs == Most(old(segs))
      ensures old(Settled(trace)) ==>
        && !refused && Chain() == old(Chain()) + Links(if got.None? then None else old(Last(trace)).loose)
        && (got.None? ==> Settled(trace) && OnDisk(c, segs) && Last(trace).loose == old(Last(trace)).loose == None)
      ensures old(Settled(trace) && OnDisk(c, segs)) ==> Settled(trace)
    {
      var last := Last(segs);
      ghost var s := Last(trace);
      if Settled(trace) {
        NewestReads(c, w, trace);
      }
      EndInside(c, Number(last.name), last.file.content);
      hide IsRun, Works, PlanOf, Settled, LinkFor, OnDisk, R.Step, RecoverStep, Settles;
      var plan := ReadSegment(c, Number(last.name), last.file.content);
      got, refused := None, false;
      match plan {
        case Empty => RemoveEmpty();
        case Done(h) =>
          ContinueFrom(h);
          got := Some(h);
        case Leftover(kept, end, _) => got := SetAside(kept, end);
        case Refused =>
          refused := true;
          Refuse();
        case Forged(h, batches) => got := LeaveForged(h, batches);
      }
    }

    /** Removes a segment that was created and never written. */
    method RemoveEmpty()
      requires Tracked() && Last(trace).mode == Recovering(R.Reading) && segs != []
      requires PlanOf(c, Number(Last(segs).name), Last(segs).file.content) == Plan.Empty
      modifies this`segs, this`trace
      ensures Tracked() && segs == Most(old(segs)) && trace == old(trace) + [old(Last(trace)).(segs := segs)]
      ensures old(Settled(trace)) ==> Settled(trace)
    {
      hide IsRun, Works, PlanOf, Settled, LinkFor;
      segs := Most(segs);
      ReachRecovered(R.Reading, R.State(None, asides, R.Finished(None)));
    }

    /** A segment that ends sealed: the chain continues from its last batch. */
    method ContinueFrom(h: Head)
      requires Tracked() && Last(trace).mode == Recovering(R.Reading) && segs != []
      requires PlanOf(c, Number(Last(segs).name), Last(segs).file.content) == Done(h)
      modifies this`trace
      ensures Tracked() && old(trace) < trace && Last(trace) ==
        var s := old(Last(trace)); s.(mode := Starting(h), chain := s.chain + Links(s.loose), loose := None)
      ensures old(Settled(trace) && OnDisk(c, segs)) ==> Settled(trace)
    {
      hide IsRun, Works, PlanOf, Settled, LinkFor;
      SameLast(segs);
      ReachRecovered(R.Reading, R.State(Some(Last(segs).file), asides, R.Finished(Some(h))));
    }

    /** A segment that does not start as its name says is not opened. */
    method Refuse()
      requires Tracked() && Last(trace).mode == Recovering(R.Reading) && segs != []
      requires PlanOf(c, Number(Last(segs).name), Last(segs).file.content).Refused?
      modifies this`trace
      ensures Tracked() && trace == old(trace) + [old(Last(trace)).(mode := Off)]
      ensures old(Settled(trace)) ==> Settled(trace)
    {
      hide IsRun, Works, PlanOf, Settled;
      ReachRecovering(Last(trace).(mode := Off));
    }

    /** A segment with foreign lines is left in place, or moved out of the way when nothing in it verified. */
    method LeaveForged(h: Head, batches: nat) returns (got: Option<Head>)
      requires Tracked() && Last(trace).mode == Recovering(R.Reading) && segs != []
      requires PlanOf(c, Number(Last(segs).name), Last(segs).file.content) == Forged(h, batches)
      modifies this`segs, this`trace
      ensures Tracked() && got == (if batches == 0 then None else Some(h))
      ensures segs == (if batches == 0 then Most(old(segs)) else old(segs))
      ensures var mode := if batches == 0 then Recovering(R.Reading) else Starting(h);
              trace == old(trace) + [old(Last(trace)).(segs := segs, mode := mode)]
    {
      hide IsRun, Works, PlanOf, Settled;
      if batches == 0 {
        segs := Most(segs);
        ReachRecovering(Last(trace).(segs := segs));
        return None;
      }
      ReachRecovering(Last(trace).(mode := Starting(h)));
      return Some(h);
    }

    /**
     Copies the leftovers to a new file and makes it durable, then cuts the segment there, or removes one without a
     header.
     */
    method SetAside(kept: Option<Head>, end: nat) returns (got: Option<Head>)
      requires Tracked() && Last(trace).mode == Recovering(R.Reading) && segs != []
      requires var p := PlanOf(c, Number(Last(segs).name), Last(segs).file.content);
        p.Leftover? && p.kept == kept && p.end == end <= |Last(segs).file.content|
      modifies this`segs, this`asides, this`trace
      ensures Tracked() && old(trace) <= trace && got == kept && (old(Settled(trace)) ==> Settled(trace))
      ensures Last(trace).loose == (if got.None? then old(Last(trace)).loose else None)
      ensures Chain() == old(Chain()) + Links(if got.None? then None else old(Last(trace)).loose)
      ensures Last(trace).acked == old(Last(trace)).acked
      ensures got.Some? ==> Last(trace).mode == Starting(got.value)
      ensures got.None? ==> Last(trace).mode == Recovering(R.Reading) && segs == Most(old(segs))
      ensures exists i :: 0 <= i < |asides| && asides[i] == R.Durable(old(Last(segs).file.content)[end..])
    {
      hide IsRun, Works, PlanOf, Settled, LinkFor;
      var file := Last(segs).file;
      SameLast(segs);
      var copy := file.content[end..];
      asides := asides + [R.Fresh(copy)];
      ReachRecovered(R.Reading, R.State(Some(file), asides, R.Copied(kept, end)));
      asides := asides[..|asides| - 1] + [R.Durable(copy)];
      assert asides[|asides| - 1] == R.Durable(copy);
      ReachRecovered(R.Copied(kept, end), R.State(Some(file), asides, R.Kept(kept, end)));
      if kept.None? {
        segs := Most(segs);
        ReachRecovered(R.Kept(kept, end), R.State(None, asides, R.Finished(None)));
        return None;
      }
      CutSegment(kept.value, end);
      return kept;
    }

    /** Cuts the segment and makes the cut durable. */
    method CutSegment(at: Head, end: nat)
      requires Tracked() && segs != [] && Last(trace).mode == Recovering(R.Kept(Some(at), end))
      requires end <= |Last(segs).file.content|
      modifies this`segs, this`trace
      ensures Tracked() && old(trace) <= trace && (old(Settled(trace)) ==> Settled(trace))
      ensures Last(trace).mode == Starting(at) && Last(trace).loose == None
      ensures Chain() == old(Chain()) + Links(old(Last(trace)).loose) && Last(trace).acked == old(Last(trace)).acked
    {
      hide IsRun, Works, PlanOf, Settled, LinkFor;
      var cut := R.Truncated(Last(segs).file, end);
      segs := WithLast(segs, cut);
      ReachRecovered(R.Kept(Some(at), end), R.State(Some(cut), asides, R.Cut(at)));
      segs := WithLast(segs, R.Durable(cut.content));
      ReachRecovered(R.Cut(at), R.State(Some(R.Durable(cut.content)), asides, R.Finished(Some(at))));
    }

    /**
     Opens the log. Of a directory a settled run left it always succeeds, keeps every sealed batch, and continues from
     the last; the run stays settled when that batch is on disk.
     */
    method Open() returns (ok: bool)
      requires Tracked() && Last(trace).mode == Off
      modifies this
      ensures Tracked() && old(trace) <= trace && Last(trace).acked == old(Last(trace)).acked
      ensures if ok then
                && Valid() && OpenBatch() == []
                && Last(segs) == Seg(head.next, R.Fresh(Ended(HeaderLine(w, head))))
              else Last(trace).mode == Off
      ensures old(Settled(trace)) ==> ok && Chain() == old(Chain()) + Links(old(Last(trace)).loose)
      ensures old(Settled(trace) && OnDisk(c, segs)) ==> Settled(trace)
    {
      hide IsRun, Works, Settled, LinkFor, OnDisk, RecoverStep;
      ghost var s, settled, onDisk := Last(trace), Settled(trace), Settled(trace) && OnDisk(c, segs);
      pending, pendingRecords := [], 0;
      Reach(Recovering(R.Reading), s.chain, s.acked);
      while segs != []
        invariant Tracked() && old(trace) <= trace && Last(trace).mode == Recovering(R.Reading)
        invariant Last(trace).acked == s.acked && pending == [] && pendingRecords == 0
        invariant settled ==> Settled(trace) && Chain() == s.chain && Last(trace).loose == s.loose
        invariant onDisk ==> OnDisk(c, segs)
        decreases |segs|
      {
        var got, refused := RecoverNewest();
        if refused {
          return false;
        }
        if got.Some? {
          head := got.value;
          StartSegment();
          return true;
        }
      }
      StartLog();
      ok := true;
    }

    /** Without a segment the chain starts. */
    method StartLog()
      requires Tracked() && Last(trace).mode == Recovering(R.Reading) && segs == []
      requires pendingRecords == 0 && pending == []
      modifies this
      ensures Valid() && OpenBatch() == [] && old(trace) <= trace && Last(trace).acked == old(Last(trace)).acked
      ensures Chain() == old(Chain()) && (old(Settled(trace)) ==> old(Last(trace)).loose == None && Settled(trace))
      ensures head == START && Last(segs) == Seg(head.next, R.Fresh(Ended(HeaderLine(w, head))))
    {
      hide IsRun, Works, Settled, LinkFor, RecoverStep;
      if Settled(trace) {
        NoneLoose(c, w, trace);
      }
      head := START;
      ReachRecovering(Last(trace).(mode := Starting(START)));
      StartSegment();
    }

    /** A writer dies between two calls, whatever of its open batch is on disk by then, and the log is opened again. */
    method Reopen(leftSegs: seq<Seg>, leftAsides: seq<R.File>, ghost t: State)
      requires Valid() && Settled(trace)
      requires Crash(Last(trace), t) && t.segs == leftSegs && t.asides == leftAsides
      modifies this
      ensures Valid() && Settled(trace) && OpenBatch() == [] && old(trace) <= trace
      ensures Chain() == old(Chain()) && Last(trace).acked == old(Last(trace)).acked
    {
      hide IsRun, Works, Settled;
      OpenCrashOnDisk(c, w, trace, t);
      hide Crash, LinkFor, OnDisk;
      Stop(leftSegs, leftAsides, t);
      var ok := Open();
    }

    /** Writes the trailer of the open batch and makes it durable: the batch is sealed. */
    method SealBatch()
      requires Opened() && pendingRecords > 0
      modifies this
      ensures Tracked() && old(trace) <= trace && Last(trace).mode == Synced(head)
      ensures pending == [] && pendingRecords == 0 && segs != [] && segmentLen == |Last(segs).file.content|
      ensures Chain() == old(Chain()) + [LinkFor(old(OpenBatch()))]
      ensures Last(trace).acked == old(Last(trace)).acked + [head] && head.next == Succ(old(head.next))
      ensures old(Settled(trace)) && head.next != 0 ==> Settled(trace)
      ensures segs == old(WithTrailer(segs, head, OpenBatch()))
    {
      hide IsRun, Flat, TrailerLine, LinkFor, Works, Settled;
      ghost var s, records := Last(trace), OpenBatch();
      var line := Render(records);
      segs := Write(segs, Ended(line));
      Reach(Sealing(head, records), s.chain, s.acked);
      segs := WithLast(segs, R.Durable(Last(segs).file.content));
      segmentLen := segmentLen + |line| + 1;
      head := Advance(records);
      Reach(Synced(head), s.chain + [LinkFor(records)], s.acked + [head]);
      pending, pendingRecords := [], 0;
    }

    /**
     Seals the open batch, if any, and starts a new segment once this one is large. Batch numbers start over after the
     last one; up to then the run stays one that verifies.
     */
    method Seal()
      requires Opened()
      modifies this
      ensures Valid() && OpenBatch() == [] && old(trace) <= trace
      ensures old(pendingRecords) == 0 ==> trace == old(trace)
      ensures old(pendingRecords) > 0 ==>
        && Chain() == old(Chain()) + [LinkFor(old(OpenBatch()))]
        && Last(trace).acked == old(Last(trace)).acked + [head] && head.next == Succ(old(head.next))
        && SealedInto(old(segs), old(head), old(OpenBatch()), segs, head)
      ensures old(Settled(trace)) && (old(pendingRecords) > 0 ==> head.next != 0) ==> Settled(trace)
    {
      hide IsRun, LinkFor, Works, Settled, HeaderLine, TrailerLine;
      if pendingRecords == 0 {
        return;
      }
      SealBatch();
      ghost var s := Last(trace);
      if segmentLen >= segmentBytes {
        Reach(Starting(head), s.chain, s.acked);
        StartSegment();
      } else {
        Reach(Mode.Open(head, []), s.chain, s.acked);
      }
    }

    /** The trailer line of the open batch, from its bytes and count. */
    method Render(ghost records: seq<Line>) returns (line: Line)
      requires pending == Flat(records) && pendingRecords == |records|
      ensures line == TrailerLine(c, w, head, records)
    {
      var d := c.hash(Frame(head.hash, head.next, V2(Wrap(pendingRecords)), pending));
      line := w.trailer(Trailer(head.next, Wrap(pendingRecords), Some(head.hash), Some(d), Some(w.sign(d)), false, 2));
    }

    method Advance(ghost records: seq<Line>) returns (next: Head)
      requires pending == Flat(records) && pendingRecords == |records|
      ensures next == NextHead(c, head, records)
    {
      next := Head(Succ(head.next), c.hash(Frame(head.hash, head.next, V2(Wrap(pendingRecords)), pending)));
    }

    /** Appends one record; the batch is sealed once it holds enough. */
    method Append(line: Line)
      requires Valid() && Loggable(c, line)
      modifies this
      ensures Valid() && old(trace) <= trace
      ensures old(pendingRecords) + 1 < batchRecords ==>
        && OpenBatch() == old(OpenBatch()) + [line] && Chain() == old(Chain()) && head == old(head)
        && segs == old(Write(segs, Ended(line)))
      ensures old(pendingRecords) + 1 >= batchRecords ==>
        && OpenBatch() == [] && Chain() == old(Chain()) + [LinkFor(old(OpenBatch()) + [line])]
        && head in Last(trace).acked && head.next == Succ(old(head.next))
        && SealedInto(old(Write(segs, Ended(line))), old(head), old(OpenBatch()) + [line], segs, head)
      ensures old(Settled(trace)) && (old(pendingRecords) + 1 >= batchRecords ==> head.next != 0) ==> Settled(trace)
    {
      hide IsRun, Flat, LinkFor, Settled, SealedInto;
      ghost var s, records := Last(trace), OpenBatch();
      FlatExtends(records, line);
      segs := Write(segs, Ended(line));
      segmentLen := segmentLen + |line| + 1;
      pending := pending + Ended(line);
      pendingRecords := pendingRecords + 1;
      ghost var t := State(segs, asides, Mode.Open(head, records + [line]), s.chain, s.acked, s.loose);
      assert Appended(s, t, head, records, line);
      Reach(Mode.Open(head, records + [line]), s.chain, s.acked);
      if pendingRecords >= batchRecords {
        Seal();
      }
    }

    /** Seals the open batch if its interval has passed. */
    method Tick(elapsed: bool)
      requires Valid()
      modifies this
      ensures Valid() && old(trace) <= trace
      ensures if elapsed && old(pendingRecords) > 0 then
                && Chain() == old(Chain()) + [LinkFor(old(OpenBatch()))] && OpenBatch() == []
                && head.next == Succ(old(head.next)) && (old(Settled(trace)) && head.next != 0 ==> Settled(trace))
                && SealedInto(old(segs), old(head), old(OpenBatch()), segs, head)
              else trace == old(trace) && segs == old(segs)
    {
      if elapsed && pendingRecords > 0 {
        Seal();
      }
    }
  }

  /** A newest segment that ends with a sealed batch is on disk: a writer that continues from it is safe. */
  ghost predicate OnDisk(c: Suite, segs: seq<Seg>) {
    segs != [] ==>
      var l := Last(segs);
      var p := PlanOf(c, Number(l.name), l.file.content);
      p.Done? && p.head.next != l.name ==> l.file == R.Durable(l.file.content)
  }

  /** A writer that dies between two calls leaves what it sealed on disk. */
  lemma OpenCrashOnDisk(c: Suite, w: Signer, trace: seq<State>, t: State)
    requires Works(c, w) && IsRun(c, w, trace) && Settled(trace)
    requires Last(trace).mode.Open? && Crash(Last(trace), t)
    ensures OnDisk(c, t.segs) && t.chain == Last(trace).chain && t.loose == None
  {
    RunKeepsInv(c, w, trace, |trace| - 1);
    var s := Last(trace);
    hide IsRun, Settled;
    ModeQuiet(c, w, s);
    QuietCrash(c, w, s, t);
    if t.segs != [] {
      WholeContent(c, w, s, t);
      QuietOnDisk(c, w, s.chain, t.segs);
    }
  }

  lemma WholeContent(c: Suite, w: Signer, s: State, t: State)
    requires Inv(c, w, s) && s.mode.Open? && Crash(s, t) && t.segs != []
    ensures Last(t.segs).file.full == Last(t.segs).file.content
  {
    hide Text, Flat, HeadAfter, Written, OnChain, AllLoggable;
    if !AllLast(s.segs, t.segs) {
      ClosedLasts(c, w, s.chain[..Last(s.segs).name], Most(s.segs), t.segs);
    }
  }

  lemma QuietOnDisk(c: Suite, w: Signer, chain: seq<Link>, segs: seq<Seg>)
    requires Works(c, w) && Written(c, chain) && Quiet(c, w, chain, segs) && segs != []
    requires Last(segs).file.full == Last(segs).file.content
    ensures OnDisk(c, segs)
  {
    hide Text, HeadAfter, Written, PlanOf, Works, Closed, HasTail, HeaderLine;
    var l := Last(segs);
    SteadyReads(c, w, chain, l.name, l.file);
    RestPlan(c, w, chain, l.name, l.file.content);
    WrittenPosition(c, chain);
  }

  /**
   The newest segment a run left, read while opening, has a position, leftovers, or nothing; the others are on disk.
   */
  lemma NewestReads(c: Suite, w: Signer, trace: seq<State>)
    requires Works(c, w) && IsRun(c, w, trace) && Settled(trace)
    requires Last(trace).mode == Recovering(R.Reading) && Last(trace).segs != []
    ensures var s := Last(trace); var l := Last(s.segs);
      var p := PlanOf(c, Number(l.name), l.file.content);
      && (p.Empty? || p.Done? || (p.Leftover? && p.end <= |l.file.content|))
      && (s.loose.Some? ==> p.Done?)
      && OnDisk(c, Most(s.segs))
  {
    RunKeepsInv(c, w, trace, |trace| - 1);
    var s := Last(trace);
    var l := Last(s.segs);
    assert Most(s.segs) != [] ==> Last(Most(s.segs)).file == R.Durable(Last(Most(s.segs)).file.content);
    hide IsRun, Works, Text, HeadAfter, Closed, Tail, HeaderLine, PlanOf, Settled, LinkFor;
    if s.loose == None {
      hide Written;
      SteadyReads(c, w, s.chain, l.name, l.file);
      RestPlan(c, w, s.chain, l.name, l.file.content);
    } else {
      WrittenExtends(c, s.chain, s.loose.value);
      TailNone(c);
      PlanOfText(c, w, s.chain + [LinkFor(s.loose.value)], l.name, []);
      assert l.file.content + [] == l.file.content;
    }
  }

  lemma NoneLoose(c: Suite, w: Signer, trace: seq<State>)
    requires Works(c, w) && IsRun(c, w, trace) && Settled(trace)
    requires Last(trace).mode == Recovering(R.Reading) && Last(trace).segs == []
    ensures Last(trace).loose == None
  {
    RunKeepsInv(c, w, trace, |trace| - 1);
  }
}
