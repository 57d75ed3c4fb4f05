/**
 What every run of the pipeline does batch by batch: batches are full but for the
 last of a pass, only a full channel refuses one, the worker states losses between
 two batches, and a stop still reads what was in the ring when it was asked.
 */
module PipelineRuns {
  import opened Pipeline
  import opened PipelineStop

  // ---------------------------------------------------------------------------
  // Batches
  // ---------------------------------------------------------------------------

  /** A batch that is sent: never empty, and full unless the ring had run empty. */
  predicate Sized(batch: seq<nat>, final: bool) {
    if final then 0 < |batch| < 512 else |batch| == 512
  }

  predicate DrainSized(d: Drain) {
    match d
    case Waiting => true
    case Filling(_, batch) => |batch| < 512
    case Sending(_, batch, final) => Sized(batch, final)
    case Counted(_, batch, final) => Sized(batch, final)
    case Refused(_, batch, final) => Sized(batch, final)
    case Gone => true
  }

  predicate AllSized(s: State) {
    && DrainSized(s.drain)
    && (forall k :: 0 <= k < |s.channel| ==> 0 < |s.channel[k]| <= 512)
    && (s.worker.Received? ==> 0 < |s.worker.batch| <= 512)
  }

  lemma StepKeepsSized(s: State, t: State)
    requires AllSized(s) && Next(s, t)
    ensures AllSized(t)
  {
    if DrainStep(s, t) {
      DrainKeepsSized(s, t);
    } else if WorkerStep(s, t) {
      WorkerKeepsSized(s, t);
    }
    hide DrainStep, WorkerStep, DrainSized;
  }

  lemma WorkerKeepsSized(s: State, t: State)
    requires AllSized(s) && WorkerStep(s, t)
    ensures AllSized(t)
  {
    WorkerFrame(s, t);
    hide Recorded, DrainSized;
  }

  lemma DrainKeepsSized(s: State, t: State)
    requires AllSized(s) && DrainStep(s, t)
    ensures AllSized(t)
  {
    DrainStaysSized(s, t);
    ChannelGrows(s, t);
    hide DrainStep, DrainSized;
  }

  lemma DrainStaysSized(s: State, t: State)
    requires DrainSized(s.drain) && DrainStep(s, t)
    ensures DrainSized(t.drain)
  {
    match s.drain {
      case Filling(_, batch) => assert |batch + [s.next]| == |batch| + 1;
      case _ =>
    }
  }

  lemma ChannelGrows(s: State, t: State)
    requires DrainSized(s.drain) && DrainStep(s, t)
    ensures t.worker == s.worker
    ensures t.channel == s.channel ||
            (s.drain.Counted? && t.channel == s.channel + [s.drain.batch] && 0 < |s.drain.batch| <= 512)
  {
  }

  /** In every run no batch is empty or larger than 512, and only the last of a pass is smaller. */
  lemma {:induction false} BatchesSized(trace: seq<State>, i: nat)
    requires IsRun(trace) && i < |trace|
    ensures AllSized(trace[i])
  {
    hide Next, AllSized;
    if i == 0 {
      StartSized(trace[0]);
    } else {
      BatchesSized(trace, i - 1);
      RunSteps(trace, i);
      StepKeepsSized(trace[i - 1], trace[i]);
    }
  }

  lemma StartSized(s: State)
    requires Init(s)
    ensures AllSized(s)
  {
  }

  /** In every run a batch is refused exactly if the channel is full when it is sent. */
  lemma RefusedExactlyIfFull(trace: seq<State>, i: nat)
    requires IsRun(trace) && i + 1 < |trace| && trace[i].drain.Counted? && trace[i + 1].drain != trace[i].drain
    ensures trace[i + 1].drain.Refused? <==> |trace[i].channel| == trace[i].capacity
    ensures !trace[i + 1].drain.Refused? ==> trace[i + 1].channel == trace[i].channel + [trace[i].drain.batch]
    ensures trace[i + 1].lost == trace[i].lost
  {
    RunKeepsInv(trace, i);
    RunSteps(trace, i + 1);
    hide IsRun, Placed;
    var s, t := trace[i], trace[i + 1];
    if WorkerStep(s, t) {
      WorkerStepMoves(s, t);
    }
    hide WorkerStep;
  }

  // ---------------------------------------------------------------------------
  // Ticks
  // ---------------------------------------------------------------------------

  predicate Busy(w: Worker) {
    w.Handling? || w.Ticking? || w.KernelRead? || w.BothRead?
  }

  lemma BusyStep(s: State, t: State)
    requires Next(s, t) && Busy(s.worker) && !Busy(t.worker)
    ensures s.worker.BothRead?
    ensures exists writes :: t.losses == Recorded(s.losses, s.worker.kernel, s.worker.channel, writes)
  {
    if WorkerStep(s, t) {
      hide DrainStep, Recorded;
      assert t.losses == Recorded(s.losses, s.worker.kernel, s.worker.channel, true)
          || t.losses == Recorded(s.losses, s.worker.kernel, s.worker.channel, false);
    } else if DrainStep(s, t) {
      DrainStepMoves(s, t);
      hide DrainStep, WorkerStep;
    }
  }

  /** Between handling one batch and receiving the next the worker reads both counters and states what was lost. */
  lemma {:induction false} TicksBetweenBatches(trace: seq<State>, i: nat, j: nat) returns (k: nat)
    requires IsRun(trace) && i < j < |trace| && trace[i].worker.Handling? && !Busy(trace[j].worker)
    ensures i <= k < j && trace[k].worker.BothRead?
    ensures exists writes ::
      trace[k + 1].losses == Recorded(trace[k].losses, trace[k].worker.kernel, trace[k].worker.channel, writes)
  {
    hide Next, IsRun, Recorded;
    RunSteps(trace, j);
    if Busy(trace[j - 1].worker) {
      k := j - 1;
      BusyStep(trace[j - 1], trace[j]);
    } else {
      k := TicksBetweenBatches(trace, i, j - 1);
    }
  }

  // ---------------------------------------------------------------------------
  // The last pass
  // ---------------------------------------------------------------------------

  /** With the flag set a thread that waits can begin its stopping pass. */
  lemma StopCanBeSeen(s: State) returns (t: State)
    requires s.stop && s.drain.Waiting?
    ensures DrainStep(s, t) && t.drain.Filling? && StoppingPass(t.drain)
  {
    t := s.(drain := Filling(true, []));
  }

  lemma StepKeepsAsked(s: State, t: State)
    requires Next(s, t) && (StoppingPass(s.drain) ==> s.stop)
    ensures StoppingPass(t.drain) ==> t.stop
  {
    if WorkerStep(s, t) {
      WorkerStepMoves(s, t);
      hide WorkerStep, DrainStep;
    }
    hide WorkerStep;
  }

  /** In every run a stopping pass is under way only if a stop was asked. */
  lemma {:induction false} StopsOnlyIfAsked(trace: seq<State>, i: nat)
    requires IsRun(trace) && i < |trace|
    ensures StoppingPass(trace[i].drain) ==> trace[i].stop
  {
    hide Next;
    if i == 0 {
    } else {
      StopsOnlyIfAsked(trace, i - 1);
      RunSteps(trace, i);
      StepKeepsAsked(trace[i - 1], trace[i]);
    }
  }

  /** Every record the kernel has written so far. */
  function Produced(s: State): nat {
    s.next + s.ring
  }

  lemma ProducedGrows(s: State, t: State)
    requires Next(s, t)
    ensures Produced(s) <= Produced(t) && s.next <= t.next && (s.due ==> t.due)
  {
    if DrainStep(s, t) {
      DrainReads(s, t);
    } else if WorkerStep(s, t) {
      WorkerFrame(s, t);
    }
    hide DrainStep, WorkerStep;
  }

  lemma DrainReads(s: State, t: State)
    requires DrainStep(s, t)
    ensures Produced(t) == Produced(s) && s.next <= t.next && t.due == s.due
  {
  }

  /** The wait on the ring failed. */
  predicate WaitFails(s: State, t: State) {
    s.drain.Waiting? && t.drain.Gone?
  }

  /** The drain thread has found the ring empty in its stopping pass, or has ended. */
  predicate Finishing(d: Drain) {
    d.Gone? || (StoppingPass(d) && !d.Filling? && d.final)
  }

  lemma FinishingStep(s: State, t: State)
    requires Next(s, t) && Finishing(t.drain) && !Finishing(s.drain) && !WaitFails(s, t)
    ensures s.due || s.next == Produced(s)
  {
    if WorkerStep(s, t) {
      WorkerFrame(s, t);
      hide WorkerStep, DrainStep;
    } else if DrainStep(s, t) {
      hide WorkerStep;
    }
    hide WorkerStep, DrainStep;
  }

  ghost predicate NeverFails(trace: seq<State>, i: nat, j: nat)
    requires i <= j < |trace|
  {
    forall k :: i <= k < j ==> !WaitFails(trace[k], trace[k + 1])
  }

  lemma FailsLast(trace: seq<State>, i: nat, j: nat)
    requires i < j < |trace| && NeverFails(trace, i, j)
    ensures NeverFails(trace, i, j - 1) && !WaitFails(trace[j - 1], trace[j])
  {
    hide WaitFails;
    assert !WaitFails(trace[j - 1], trace[j - 1 + 1]);
  }

  lemma {:induction false} FinishedRead(trace: seq<State>, i: nat, j: nat)
    requires IsRun(trace) && i <= j < |trace| && !Finishing(trace[i].drain) && NeverFails(trace, i, j)
    ensures Produced(trace[i]) <= Produced(trace[j])
    ensures Finishing(trace[j].drain) ==> trace[j].due || trace[j].next >= Produced(trace[i])
  {
    hide Next, IsRun, Finishing, NeverFails, Produced;
    if i == j {
    } else {
      RunSteps(trace, j);
      FailsLast(trace, i, j);
      FinishedRead(trace, i, j - 1);
      ProducedGrows(trace[j - 1], trace[j]);
      if Finishing(trace[j].drain) && !Finishing(trace[j - 1].drain) {
        FinishingStep(trace[j - 1], trace[j]);
      }
    }
  }

  /**
   In every run a record that is in the ring while the drain thread has not seen the stop has been read once that
   thread ends, unless the deadline of its last pass came first or its wait failed.
   */
  lemma StopReadsRing(trace: seq<State>, i: nat, j: nat)
    requires IsRun(trace) && i <= j < |trace|
    requires !trace[i].drain.Gone? && !StoppingPass(trace[i].drain) && trace[j].drain.Gone?
    requires NeverFails(trace, i, j)
    ensures trace[j].due || trace[j].next >= trace[i].next + trace[i].ring
  {
    FinishedRead(trace, i, j);
  }
}
