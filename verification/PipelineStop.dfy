/**
 Stopping the pipeline. A stop sets a flag, waits for the drain thread, then
 for the worker. The drain thread reads the flag before each pass over the ring,
 and only a pass that began with the flag set has a deadline.

 From there both threads end, in a bounded number of their steps, whatever the
 kernel writes meanwhile. A pass that began before lasts exactly until it finds
 the ring empty, so a host that never lets it run empty keeps the stop waiting.
 */
module PipelineStop {
  import opened Pipeline

  // ---------------------------------------------------------------------------
  // Counting steps
  // ---------------------------------------------------------------------------

  /** Steps of the drain thread between two moments: no other step moves it. */
  ghost function DrainSteps(trace: seq<State>, i: nat, j: nat): nat
    requires i <= j < |trace|
  {
    if i == j then 0
    else DrainSteps(trace, i, j - 1) + if trace[j].drain != trace[j - 1].drain then 1 else 0
  }

  ghost function WorkerSteps(trace: seq<State>, i: nat, j: nat): nat
    requires i <= j < |trace|
  {
    if i == j then 0
    else WorkerSteps(trace, i, j - 1) + if trace[j].worker != trace[j - 1].worker then 1 else 0
  }

  lemma RunSteps(trace: seq<State>, k: nat)
    requires IsRun(trace) && 0 < k < |trace|
    ensures Next(trace[k - 1], trace[k])
  {
    hide Next, Init;
    assert Next(trace[k - 1], trace[k - 1 + 1]);
  }

  lemma DrainStepMoves(s: State, t: State)
    requires DrainStep(s, t)
    ensures t.drain != s.drain && t.worker == s.worker && t.due == s.due && t.stop == s.stop
  {
    match s.drain {
      case Filling(_, batch) => assert |batch + [s.next]| == |batch| + 1;
      case _ =>
    }
  }

  lemma WorkerStepMoves(s: State, t: State)
    requires WorkerStep(s, t)
    ensures t.worker != s.worker && t.drain == s.drain && t.due == s.due && t.stop == s.stop && t.ring == s.ring
  {
    hide Recorded;
    match s.worker {
      case Handling(rest) => assert rest != [] ==> |rest[1..]| == |rest| - 1;
      case _ =>
    }
  }

  lemma DrainNeverStuck(s: State) returns (t: State)
    requires !s.drain.Gone?
    ensures DrainStep(s, t)
  {
    match s.drain {
      case Waiting => t := s.(drain := Filling(false, []));
      case Filling(stopping, batch) =>
        var b := batch + [s.next];
        t := if s.ring == 0 then
               s.(drain := if batch != [] then Sending(stopping, batch, true) else if stopping then Gone else Waiting)
             else
               s.(ring := s.ring - 1, next := s.next + 1,
                  drain := if |b| >= BATCH then Sending(stopping, b, false) else Filling(stopping, b));
      case Sending(stopping, batch, final) =>
        t := s.(drained := s.drained + |batch|, drain := Counted(stopping, batch, final));
      case Counted(stopping, batch, final) =>
        t := if |s.channel| < s.capacity && !s.worker.Stopped? then
               s.(channel := s.channel + [batch], drain := Resumed(stopping, final, s.due))
             else s.(drain := Refused(stopping, batch, final));
      case Refused(stopping, batch, final) =>
        t := s.(drops := s.drops + |batch|, lost := s.lost + batch, drain := Resumed(stopping, final, s.due));
    }
  }

  // ---------------------------------------------------------------------------
  // The stopping pass
  // ---------------------------------------------------------------------------

  /** The drain thread is in its stopping pass with the deadline behind it, or has ended. */
  predicate Ending(s: State) {
    s.drain.Gone? || (StoppingPass(s.drain) && s.due)
  }

  /** The steps it may still take. */
  function Left(d: Drain): nat {
    match d
    case Waiting => 0
    case Filling(_, batch) => SaturatingSub(BATCH, |batch|) + 4
    case Sending(_, _, _) => 3
    case Counted(_, _, _) => 2
    case Refused(_, _, _) => 1
    case Gone => 0
  }

  lemma LeftBound(d: Drain)
    ensures Left(d) <= BATCH + 4
  {
  }

  lemma DrainStepsDescend(s: State, t: State)
    requires Ending(s) && DrainStep(s, t)
    ensures Ending(t) && Left(t.drain) < Left(s.drain)
  {
  }

  lemma OthersKeepEnding(s: State, t: State)
    requires Ending(s) && (WorkerStep(s, t) || OutsideStep(s, t))
    ensures Ending(t) && t.drain == s.drain
  {
    if WorkerStep(s, t) {
      WorkerStepMoves(s, t);
    }
    hide WorkerStep;
  }

  lemma EndingStep(s: State, t: State)
    requires Ending(s) && Next(s, t)
    ensures Ending(t) && Left(t.drain) + (if t.drain != s.drain then 1 else 0) <= Left(s.drain)
  {
    hide DrainStep, WorkerStep, OutsideStep, Ending, Left;
    if DrainStep(s, t) {
      DrainStepsDescend(s, t);
    } else {
      OthersKeepEnding(s, t);
    }
  }

  /** Once the deadline has passed the drain thread takes at most 516 more steps, whatever the kernel writes. */
  lemma {:induction false} DrainEnds(trace: seq<State>, i: nat, j: nat)
    requires IsRun(trace) && i <= j < |trace| && Ending(trace[i])
    ensures Ending(trace[j]) && DrainSteps(trace, i, j) + Left(trace[j].drain) <= Left(trace[i].drain) <= BATCH + 4
  {
    hide Next, Ending, IsRun, Left;
    LeftBound(trace[i].drain);
    if i == j {
    } else {
      DrainEnds(trace, i, j - 1);
      RunSteps(trace, j);
      EndingStep(trace[j - 1], trace[j]);
    }
  }

  // ---------------------------------------------------------------------------
  // The worker after it
  // ---------------------------------------------------------------------------

  lemma OthersKeepWork(s: State, t: State)
    requires s.drain.Gone? && (DrainStep(s, t) || OutsideStep(s, t))
    ensures t.drain.Gone? && t.worker == s.worker && Work(t) == Work(s)
  {
  }

  lemma WorkStep(s: State, t: State)
    requires s.drain.Gone? && Next(s, t)
    ensures t.drain.Gone? && Work(t) + (if t.worker != s.worker then 1 else 0) <= Work(s)
  {
    hide DrainStep, WorkerStep, OutsideStep, Work;
    if WorkerStep(s, t) {
      WorkerStepsDescend(s, t);
    } else {
      OthersKeepWork(s, t);
    }
  }

  /** Once the drain thread has ended the worker takes at most as many steps as there is work left. */
  lemma {:induction false} WorkerEnds(trace: seq<State>, i: nat, j: nat)
    requires IsRun(trace) && i <= j < |trace| && trace[i].drain.Gone?
    ensures trace[j].drain.Gone? && WorkerSteps(trace, i, j) + Work(trace[j]) <= Work(trace[i])
  {
    hide Next, IsRun, Work;
    if i == j {
    } else {
      WorkerEnds(trace, i, j - 1);
      RunSteps(trace, j);
      WorkStep(trace[j - 1], trace[j]);
    }
  }

  /**
   Main result: in every run, from the moment the deadline of the stopping
   pass has passed, the drain thread takes at most 516 steps; from the moment
   it has ended the worker takes at most as many as there is work left; and
   until both have ended the one the stop waits for has a step to take.
   */
  lemma StopReturns(trace: seq<State>, i: nat, m: nat, j: nat)
    requires IsRun(trace) && i <= m <= j < |trace| && Ending(trace[i])
    ensures DrainSteps(trace, i, j) <= BATCH + 4
    ensures trace[m].drain.Gone? ==> WorkerSteps(trace, m, j) <= Work(trace[m])
    ensures !trace[j].drain.Gone? ==> exists t :: DrainStep(trace[j], t)
    ensures trace[j].drain.Gone? && !trace[j].worker.Stopped? ==> exists t :: WorkerStep(trace[j], t)
  {
    DrainEnds(trace, i, j);
    if trace[m].drain.Gone? {
      WorkerEnds(trace, m, j);
    }
    RunKeepsInv(trace, j);
    hide IsRun, Inv, DrainStep, WorkerStep;
    if !trace[j].drain.Gone? {
      var t := DrainNeverStuck(trace[j]);
    } else if !trace[j].worker.Stopped? {
      var t := WorkerNeverStuck(trace[j]);
    }
  }

  // ---------------------------------------------------------------------------
  // The pass before it
  // ---------------------------------------------------------------------------

  /** In a pass that began before the flag was seen, and has not found the ring empty. */
  predicate Reading(d: Drain) {
    !d.Waiting? && !d.Gone? && !d.stopping && (d.Filling? || !d.final)
  }

  /** The drain thread looks for a record and finds none. */
  predicate FindsEmpty(s: State, t: State) {
    s.drain.Filling? && s.ring == 0 && t.drain != s.drain
  }

  lemma ReadingNotGone(d: Drain)
    requires Reading(d)
    ensures !d.Gone?
  {
  }

  lemma ReadingStep(s: State, t: State)
    requires Reading(s.drain) && Next(s, t)
    ensures Reading(t.drain) <==> !FindsEmpty(s, t)
  {
    if DrainStep(s, t) {
      DrainStepMoves(s, t);
      hide WorkerStep;
    } else {
      if WorkerStep(s, t) {
        WorkerStepMoves(s, t);
      }
      hide WorkerStep, DrainStep;
      assert t.drain == s.drain;
    }
    hide WorkerStep;
  }

  /** Such a pass goes on exactly as long as it has not found the ring empty, whether or not a stop was asked. */
  lemma {:induction false} PassLastsExactly(trace: seq<State>, i: nat, j: nat)
    requires IsRun(trace) && i <= j < |trace| && Reading(trace[i].drain)
    ensures (forall m :: i <= m <= j ==> Reading(trace[m].drain)) <==>
            (forall k :: i <= k < j ==> !FindsEmpty(trace[k], trace[k + 1]))
  {
    hide Next, Reading, FindsEmpty, IsRun;
    if i == j {
    } else {
      PassLastsExactly(trace, i, j - 1);
      RunSteps(trace, j);
      assert trace[j - 1 + 1] == trace[j];
      if Reading(trace[j - 1].drain) {
        ReadingStep(trace[j - 1], trace[j]);
      }
    }
  }

  lemma Extends(trace: seq<State>, t: State)
    requires IsRun(trace) && Next(trace[|trace| - 1], t)
    ensures IsRun(trace + [t])
  {
    hide Next, Init;
    var all := trace + [t];
    forall k | 0 <= k < |all| - 1 ensures Next(all[k], all[k + 1]) {
      if k < |trace| - 1 {
        assert all[k] == trace[k] && all[k + 1] == trace[k + 1];
      } else {
        assert all[k] == trace[|trace| - 1] && all[k + 1] == t;
      }
    }
  }

  lemma {:induction false} PrefixSteps(trace: seq<State>, t: State, i: nat, j: nat)
    requires i <= j < |trace|
    ensures DrainSteps(trace + [t], i, j) == DrainSteps(trace, i, j)
  {
    if i == j {
    } else {
      PrefixSteps(trace, t, i, j - 1);
    }
  }

  /** One more record is written, and the thread in its pass takes a step. */
  lemma KeepsReading(trace: seq<State>, i: nat) returns (longer: seq<State>)
    requires IsRun(trace) && i < |trace| && Reading(trace[|trace| - 1].drain) && trace[|trace| - 1].stop
    ensures IsRun(longer) && trace < longer && longer[|longer| - 1].stop
    ensures forall m :: |trace| <= m < |longer| ==> Reading(longer[m].drain)
    ensures DrainSteps(longer, i, |longer| - 1) == DrainSteps(trace, i, |trace| - 1) + 1
  {
    hide IsRun, DrainStep, WorkerStep, Reading;
    var s := trace[|trace| - 1];
    var more := s.(ring := s.ring + 1);
    assert OutsideStep(s, more);
    Extends(trace, more);
    assert !s.drain.Gone? by { ReadingNotGone(s.drain); }
    var t := DrainNeverStuck(more);
    DrainStepMoves(more, t);
    ReadingStep(more, t);
    var busy := trace + [more];
    assert busy[|busy| - 1] == more;
    Extends(busy, t);
    longer := busy + [t];
    PrefixSteps(trace, more, i, |trace| - 1);
    PrefixSteps(busy, t, i, |busy| - 1);
  }

  /** A drain thread begins a pass; then a stop is asked. */
  lemma AskedDuringPass() returns (trace: seq<State>)
    ensures IsRun(trace) && |trace| == 3 && trace[2].stop && Reading(trace[2].drain) && DrainSteps(trace, 2, 2) == 0
  {
    var s := State(1, 0, 0, 0, false, false, false, 0, 0, Waiting, [], Receiving, [], [], [], Losses(0, 0, [], []));
    var t := s.(drain := Filling(false, []));
    trace := [s, t, t.(stop := true)];
    assert DrainStep(s, t);
    assert OutsideStep(t, t.(stop := true));
  }

  /** For every number there is a run in which a stop is asked and the pass under way takes that many more steps. */
  lemma {:induction false} BusyPass(n: nat) returns (trace: seq<State>)
    ensures IsRun(trace) && |trace| > 2 && trace[2].stop && trace[|trace| - 1].stop
    ensures DrainSteps(trace, 2, |trace| - 1) == n && forall m :: 2 <= m < |trace| ==> Reading(trace[m].drain)
  {
    hide IsRun, DrainSteps, Reading;
    if n == 0 {
      trace := AskedDuringPass();
    } else {
      var shorter := BusyPass(n - 1);
      trace := KeepsReading(shorter, 2);
      assert forall m :: 0 <= m < |shorter| ==> trace[m] == shorter[m];
    }
  }
}
