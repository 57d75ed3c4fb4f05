/**
 The event pipeline of the sensor: a drain thread copies records out of the
 ring buffer into batches, a bounded channel carries the batches, a worker
 handles them and states in the log what was lost.

 Both threads are modelled at the granularity of their atomic operations, so
 a run is any interleaving. Records are numbered in ring order.
 */
module Pipeline {
  const BATCH: nat := 512

  // ---------------------------------------------------------------------------
  // Loss accounting
  // ---------------------------------------------------------------------------

  datatype Loss = Loss(kernel: nat, channel: nat)

  /** What the observer has recorded: the counters it has stated, the loss records, and those whose write failed. */
  datatype Losses = Losses(recordedKernel: nat, recordedChannel: nat, log: seq<Loss>, failed: seq<Loss>)

  function SaturatingSub(a: nat, b: nat): nat {
    if a <= b then 0 else a - b
  }

  function Recorded(l: Losses, kernel: nat, channel: nat, writes: bool): Losses {
    var loss := Loss(SaturatingSub(kernel, l.recordedKernel), SaturatingSub(channel, l.recordedChannel));
    if loss == Loss(0, 0) then l
    else if writes then Losses(kernel, channel, l.log + [loss], l.failed)
    else Losses(kernel, channel, l.log, l.failed + [loss])
  }

  /** The channel losses a list of loss records adds up to. */
  function Stated(log: seq<Loss>): nat {
    if log == [] then 0 else Stated(log[..|log| - 1]) + log[|log| - 1].channel
  }

  lemma StatedExtends(log: seq<Loss>, l: Loss)
    ensures Stated(log + [l]) == Stated(log) + l.channel
  {
    assert (log + [l])[..|log|] == log;
  }

  /** The kernel losses a list of loss records adds up to. */
  function StatedKernel(log: seq<Loss>): nat {
    if log == [] then 0 else StatedKernel(log[..|log| - 1]) + log[|log| - 1].kernel
  }

  lemma StatedKernelExtends(log: seq<Loss>, l: Loss)
    ensures StatedKernel(log + [l]) == StatedKernel(log) + l.kernel
  {
    assert (log + [l])[..|log|] == log;
  }

  /** The loss records together, written or not, as the growth of each counter they account for. */
  function Accounted(l: Losses): Loss {
    Loss(StatedKernel(l.log) + StatedKernel(l.failed), Stated(l.log) + Stated(l.failed))
  }

  /** One tick accounts for exactly what each counter gained since it was last recorded. */
  lemma RecordedAccounts(l: Losses, kernel: nat, channel: nat, writes: bool)
    ensures var a, b := Accounted(l), Accounted(Recorded(l, kernel, channel, writes));
            && b.kernel == a.kernel + SaturatingSub(kernel, l.recordedKernel)
            && b.channel == a.channel + SaturatingSub(channel, l.recordedChannel)
  {
    hide Stated, StatedKernel;
    var loss := Loss(SaturatingSub(kernel, l.recordedKernel), SaturatingSub(channel, l.recordedChannel));
    var to := if writes then l.log else l.failed;
    StatedExtends(to, loss);
    StatedKernelExtends(to, loss);
  }

  class Observer {
    var recordedKernel: nat
    var recordedChannel: nat
    var log: seq<Loss>
    ghost var failed: seq<Loss>

    ghost function View(): Losses
      reads this
    {
      Losses(recordedKernel, recordedChannel, log, failed)
    }

    /** The counters at the start are the baseline. */
    constructor (kernel: nat, channel: nat)
      ensures View() == Losses(kernel, channel, [], [])
    {
      recordedKernel, recordedChannel := kernel, channel;
      log, failed := [], [];
    }

    /**
     Appends a loss record when either counter advanced. The records then account for exactly what each counter
     gained, and counters that never go back are recorded as they are.
     */
    method RecordLosses(kernel: nat, channel: nat, writes: bool)
      modifies this
      ensures View() == Recorded(old(View()), kernel, channel, writes)
      ensures Accounted(View()).kernel == old(Accounted(View()).kernel + SaturatingSub(kernel, recordedKernel))
      ensures Accounted(View()).channel == old(Accounted(View()).channel + SaturatingSub(channel, recordedChannel))
      ensures old(recordedKernel <= kernel && recordedChannel <= channel) ==>
                recordedKernel == kernel && recordedChannel == channel
      ensures old(log) <= log && old(failed) <= failed && (writes ==> failed == old(failed))
    {
      RecordedAccounts(View(), kernel, channel, writes);
      hide Accounted;
      var dk, dc := SaturatingSub(kernel, recordedKernel), SaturatingSub(channel, recordedChannel);
      if dk == 0 && dc == 0 {
        return;
      }
      if writes {
        log := log + [Loss(dk, dc)];
      } else {
        failed := failed + [Loss(dk, dc)];
      }
      recordedKernel, recordedChannel := kernel, channel;
    }
  }

  // ---------------------------------------------------------------------------
  // The two threads
  // ---------------------------------------------------------------------------

  /** `final` marks the batch sent after the ring ran empty; `stopping` is the flag as read before the pass. */
  datatype Drain =
    | Waiting
    | Filling(stopping: bool, batch: seq<nat>)
    | Sending(stopping: bool, batch: seq<nat>, final: bool)
    | Counted(stopping: bool, batch: seq<nat>, final: bool)
    | Refused(stopping: bool, batch: seq<nat>, final: bool)
    | Gone

  /** What follows a tick: the next receive, the end of the loop, or the end of the observer. */
  datatype After = Resume | Exit | Final

  datatype Worker =
    | Receiving
    | Received(batch: seq<nat>)
    | Handling(rest: seq<nat>)
    | Ticking(after: After)
    | KernelRead(kernel: nat, after: After)
    | BothRead(kernel: nat, channel: nat, after: After)
    | Stopped

  /** `due` says that the deadline of the stopping pass has passed, `spent` that the time budget of the worker has. */
  datatype State = State(
    capacity: nat, baseline: nat,
    ring: nat, next: nat, stop: bool, due: bool, spent: bool,
    drained: nat, drops: nat,
    drain: Drain, channel: seq<seq<nat>>, worker: Worker,
    handled: seq<nat>, lost: seq<nat>, late: seq<nat>,
    losses: Losses)

  ghost predicate Init(s: State) {
    && s.capacity >= 1 && s.next == 0 && s.drained == 0 && s.drops == s.baseline && !s.stop && !s.due && !s.spent
    && s.drain == Waiting && s.channel == [] && s.worker == Receiving
    && s.handled == [] && s.lost == [] && s.late == []
    && s.losses.recordedChannel == s.baseline && s.losses.log == [] && s.losses.failed == []
  }

  /** Where the drain thread goes after a send: only a stopping pass has a deadline, looked at after each full batch. */
  function Resumed(stopping: bool, final: bool, due: bool): Drain {
    if final then (if stopping then Gone else Waiting)
    else if stopping && due then Gone
    else Filling(stopping, [])
  }

  predicate StoppingPass(d: Drain) {
    !d.Waiting? && !d.Gone? && d.stopping
  }

  ghost predicate DrainStep(s: State, t: State) {
    match s.drain
    case Waiting =>
      // The wait returns and the flag is read, or the wait fails.
      || t == s.(drain := Gone)
      || t == s.(drain := Filling(false, []))
      || (s.stop && t == s.(drain := Filling(true, [])))
    case Filling(stopping, batch) =>
      if s.ring == 0 then
        t == s.(drain := if batch != [] then Sending(stopping, batch, true) else if stopping then Gone else Waiting)
      else
        var b := batch + [s.next];
        t == s.(ring := s.ring - 1, next := s.next + 1,
                drain := if |b| >= BATCH then Sending(stopping, b, false) else Filling(stopping, b))
    case Sending(stopping, batch, final) =>
      t == s.(drained := s.drained + |batch|, drain := Counted(stopping, batch, final))
    case Counted(stopping, batch, final) =>
      if |s.channel| < s.capacity && !s.worker.Stopped? then
        t == s.(channel := s.channel + [batch], drain := Resumed(stopping, final, s.due))
      else
        t == s.(drain := Refused(stopping, batch, final))
    case Refused(stopping, batch, final) =>
      t == s.(drops := s.drops + |batch|, lost := s.lost + batch, drain := Resumed(stopping, final, s.due))
    case Gone => false
  }

  ghost predicate WorkerStep(s: State, t: State) {
    match s.worker
    case Receiving =>
      if s.channel != [] then t == s.(worker := Received(s.channel[0]), channel := s.channel[1..])
      else if s.drain.Gone? then t == s.(worker := Ticking(Exit))
      else t == s.(worker := Ticking(Resume))
    case Received(batch) =>
      // After the stop flag a time budget runs; once it is spent it stays spent.
      || (s.stop && t == s.(spent := true, drops := s.drops + |batch|, late := s.late + batch, worker := Receiving))
      || (!s.spent && t == s.(worker := Handling(batch)))
    case Handling(rest) =>
      if rest != [] then t == s.(handled := s.handled + [rest[0]], worker := Handling(rest[1..]))
      else t == s.(worker := Ticking(Resume))
    case Ticking(after) =>
      t == s.(worker := t.worker) && t.worker.KernelRead? && t.worker.after == after
    case KernelRead(kernel, after) =>
      // A relaxed load may lag behind, but never behind what it returned before;
      // seeing the channel disconnected orders it after every drop.
      && t == s.(worker := t.worker) && t.worker.BothRead? && t.worker.after == after && t.worker.kernel == kernel
      && s.losses.recordedChannel <= t.worker.channel <= s.drops
      && (after != Resume ==> t.worker.channel == s.drops)
    case BothRead(kernel, channel, after) =>
      var w := match after case Resume => Receiving case Exit => Ticking(Final) case Final => Stopped;
      || t == s.(losses := Recorded(s.losses, kernel, channel, true), worker := w)
      || t == s.(losses := Recorded(s.losses, kernel, channel, false), worker := w)
    case Stopped => false
  }

  /** The rest of the world: the kernel produces a record, someone asks to stop, or the deadline of the stop passes. */
  ghost predicate OutsideStep(s: State, t: State) {
    t == s.(ring := s.ring + 1) || t == s.(stop := true) || (StoppingPass(s.drain) && t == s.(due := true))
  }

  ghost predicate Next(s: State, t: State) {
    DrainStep(s, t) || WorkerStep(s, t) || OutsideStep(s, t)
  }

  ghost predicate IsRun(trace: seq<State>) {
    |trace| > 0 && Init(trace[0]) && forall i :: 0 <= i < |trace| - 1 ==> Next(trace[i], trace[i + 1])
  }

  // ---------------------------------------------------------------------------
  // Where every record is
  // ---------------------------------------------------------------------------

  function Flat(channel: seq<seq<nat>>): seq<nat> {
    if channel == [] then [] else channel[0] + Flat(channel[1..])
  }

  /** The batch the drain thread holds. */
  function Held(d: Drain): seq<nat> {
    if d.Waiting? || d.Gone? then [] else d.batch
  }

  /** What the worker has received and not yet dealt with. */
  function Rest(w: Worker): seq<nat> {
    match w
    case Received(batch) => batch
    case Handling(rest) => rest
    case _ => []
  }

  /** Every record that was not refused by a full channel, in the order the pipeline deals with them. */
  function Line(s: State): seq<nat> {
    Front(s) + Behind(s)
  }

  function Front(s: State): seq<nat> {
    s.handled + s.late + Rest(s.worker)
  }

  function Behind(s: State): seq<nat> {
    Flat(s.channel) + Held(s.drain)
  }

  function Upto(n: nat): seq<nat> {
    if n == 0 then [] else Upto(n - 1) + [n - 1]
  }

  ghost predicate Increasing(s: seq<nat>) {
    forall i, j :: 0 <= i < j < |s| ==> s[i] < s[j]
  }

  ghost predicate Below(s: seq<nat>, n: nat) {
    forall i :: 0 <= i < |s| ==> s[i] < n
  }

  lemma {:induction false} FlatExtends(c: seq<seq<nat>>, b: seq<nat>)
    ensures Flat(c + [b]) == Flat(c) + b
  {
    if c == [] {
      assert c + [b] == [b];
      assert Flat([b]) == b + Flat([b][1..]);
    } else {
      FlatExtends(c[1..], b);
      assert (c + [b])[1..] == c[1..] + [b];
    }
  }

  /** A step leaves the line as it is, appends the record just read, or hands a refused batch over to the lost ones. */
  ghost predicate LineMoves(s: State, t: State) {
    || (Line(t) == Line(s) && t.next == s.next && t.lost == s.lost)
    || (Line(t) == Line(s) + [s.next] && t.next == s.next + 1 && t.lost == s.lost)
    || (Line(s) == Line(t) + Held(s.drain) && t.next == s.next && t.lost == s.lost + Held(s.drain))
  }

  ghost predicate BehindMoves(s: State, t: State) {
    || (Behind(t) == Behind(s) && t.next == s.next && t.lost == s.lost)
    || (Behind(t) == Behind(s) + [s.next] && t.next == s.next + 1 && t.lost == s.lost)
    || (Behind(s) == Behind(t) + Held(s.drain) && t.next == s.next && t.lost == s.lost + Held(s.drain))
  }

  lemma DrainMovesBehind(s: State, t: State)
    requires DrainStep(s, t)
    ensures BehindMoves(s, t) && t.handled == s.handled && t.late == s.late && t.worker == s.worker
  {
    DrainFrame(s, t);
    if s.drain.Filling? && s.ring > 0 {
      FillMovesBehind(s, t);
    } else if s.drain.Counted? {
      SendMovesBehind(s, t);
    } else if s.drain.Refused? {
      RefuseMovesBehind(s, t);
    } else {
      RestBehind(s, t);
    }
    hide DrainStep, Behind, Held;
  }

  lemma DrainFrame(s: State, t: State)
    requires DrainStep(s, t)
    ensures t.handled == s.handled && t.late == s.late && t.worker == s.worker
  {
  }

  lemma FillMovesBehind(s: State, t: State)
    requires DrainStep(s, t) && s.drain.Filling? && s.ring > 0
    ensures Behind(t) == Behind(s) + [s.next] && t.next == s.next + 1 && t.lost == s.lost
  {
    hide Flat;
    assert Held(t.drain) == s.drain.batch + [s.next] && t.channel == s.channel;
    assert Flat(s.channel) + (s.drain.batch + [s.next]) == Flat(s.channel) + s.drain.batch + [s.next];
  }

  lemma RefuseMovesBehind(s: State, t: State)
    requires DrainStep(s, t) && s.drain.Refused?
    ensures Behind(s) == Behind(t) + Held(s.drain) && t.next == s.next && t.lost == s.lost + Held(s.drain)
  {
    hide Flat;
    assert Held(t.drain) == [] && t.channel == s.channel;
    assert Flat(s.channel) + [] + s.drain.batch == Flat(s.channel) + s.drain.batch;
  }

  lemma RestBehind(s: State, t: State)
    requires DrainStep(s, t) && !(s.drain.Filling? && s.ring > 0) && !s.drain.Counted? && !s.drain.Refused?
    ensures Behind(t) == Behind(s) && t.next == s.next && t.lost == s.lost
  {
    hide Flat;
    assert Held(t.drain) == Held(s.drain) && t.channel == s.channel;
  }

  lemma SendMovesBehind(s: State, t: State)
    requires DrainStep(s, t) && s.drain.Counted?
    ensures Behind(t) == Behind(s) && t.next == s.next && t.lost == s.lost
  {
    hide Flat;
    FlatExtends(s.channel, s.drain.batch);
    assert Flat(s.channel) + s.drain.batch + [] == Flat(s.channel) + s.drain.batch;
  }

  lemma DrainMovesLine(s: State, t: State)
    requires DrainStep(s, t)
    ensures LineMoves(s, t)
  {
    DrainMovesBehind(s, t);
    hide DrainStep, Rest, Behind, Held;
    assert Front(t) == Front(s);
    hide Front;
    assert Front(s) + (Behind(s) + [s.next]) == Front(s) + Behind(s) + [s.next];
    assert Front(s) + (Behind(t) + Held(s.drain)) == Front(s) + Behind(t) + Held(s.drain);
  }

  lemma WorkerKeepsLine(s: State, t: State)
    requires WorkerStep(s, t) && (s.late != [] ==> s.spent) && (s.worker.Handling? ==> !s.spent)
    ensures Line(t) == Line(s) && t.next == s.next && t.lost == s.lost
  {
    hide Recorded;
    if s.worker.Receiving? && s.channel != [] {
      ReceiveKeepsLine(s, t);
    } else {
      WorkerKeepsFront(s, t);
      hide Front;
    }
    hide Line;
  }

  lemma ReceiveKeepsLine(s: State, t: State)
    requires s.worker.Receiving? && s.channel != []
    requires t == s.(worker := Received(s.channel[0]), channel := s.channel[1..])
    ensures Line(t) == Line(s)
  {
    var b, rest, held := s.channel[0], Flat(s.channel[1..]), Held(s.drain);
    assert Front(t) == s.handled + s.late + b && Front(s) == s.handled + s.late + [];
    assert Behind(s) == b + rest + held && Behind(t) == rest + held;
    hide Front, Behind, Flat, Held, Rest;
    assert s.handled + s.late + [] == s.handled + s.late;
    assert s.handled + s.late + b + (rest + held) == s.handled + s.late + (b + rest + held);
  }

  lemma WorkerKeepsFront(s: State, t: State)
    requires WorkerStep(s, t) && (s.late != [] ==> s.spent) && (s.worker.Handling? ==> !s.spent)
    requires !s.worker.Receiving? || s.channel == []
    ensures Front(t) == Front(s)
  {
    hide Recorded;
    match s.worker {
      case Received(batch) => assert s.handled + (s.late + batch) + [] == s.handled + s.late + batch;
      case Handling(rest) => HandlingKeepsFront(s, t);
      case _ =>
    }
  }

  lemma HandlingKeepsFront(s: State, t: State)
    requires WorkerStep(s, t) && s.worker.Handling? && s.late == []
    ensures Front(t) == Front(s)
  {
    var rest := s.worker.rest;
    if rest != [] {
      assert rest == [rest[0]] + rest[1..];
      assert s.handled + [rest[0]] + rest[1..] == s.handled + rest;
      assert s.handled + [] == s.handled && s.handled + [rest[0]] + [] == s.handled + [rest[0]];
    }
  }

  // ---------------------------------------------------------------------------
  // The invariant
  // ---------------------------------------------------------------------------

  /** Each record read is in exactly one place, and the line is in ring order. */
  ghost predicate Placed(s: State) {
    && multiset(Line(s)) + multiset(s.lost) == multiset(Upto(s.next))
    && Increasing(Line(s)) && Below(Line(s), s.next)
  }

  /** The records read and not yet counted as drained. */
  function Uncounted(d: Drain): nat {
    if d.Filling? || d.Sending? then |d.batch| else 0
  }

  predicate CountersAgree(s: State) {
    && s.drained + Uncounted(s.drain) == s.next
    && s.drops == s.baseline + |s.lost| + |s.late|
  }

  predicate LossesAgree(s: State) {
    && Stated(s.losses.log) + Stated(s.losses.failed) + s.baseline == s.losses.recordedChannel <= s.drops
    && (s.worker.BothRead? ==>
        && s.losses.recordedChannel <= s.worker.channel <= s.drops
        && (s.worker.after != Resume ==> s.worker.channel == s.drops))
  }

  predicate Leaving(w: Worker) {
    w.Stopped? || ((w.Ticking? || w.KernelRead? || w.BothRead?) && w.after != Resume)
  }

  predicate ThreadsAgree(s: State) {
    && s.capacity >= 1 && |s.channel| <= s.capacity
    && (s.spent ==> s.stop) && (s.late != [] ==> s.spent) && (s.worker.Handling? ==> !s.spent)
    && (Leaving(s.worker) ==> s.drain.Gone? && s.channel == [])
    && (s.worker.Stopped? ==> s.losses.recordedChannel == s.drops)
  }

  ghost predicate Inv(s: State) {
    Placed(s) && CountersAgree(s) && LossesAgree(s) && ThreadsAgree(s)
  }

  lemma MovesKeepPlaced(s: State, t: State)
    requires Placed(s) && LineMoves(s, t)
    ensures Placed(t)
  {
    hide Line, Upto, Increasing, Below, Held;
    if Line(t) == Line(s) && t.next == s.next && t.lost == s.lost {
    } else if Line(t) == Line(s) + [s.next] && t.next == s.next + 1 && t.lost == s.lost {
      ReadKeepsOrder(Line(s), s.next);
    } else {
      var b := Held(s.drain);
      assert multiset(Line(s)) == multiset(Line(t)) + multiset(b);
      PrefixKeepsOrder(Line(t), b, t.next);
    }
  }

  lemma ReadKeepsOrder(line: seq<nat>, next: nat)
    requires Increasing(line) && Below(line, next)
    ensures Increasing(line + [next]) && Below(line + [next], next + 1)
    ensures multiset(Upto(next + 1)) == multiset(Upto(next)) + multiset{next}
  {
  }

  lemma PrefixKeepsOrder(line: seq<nat>, b: seq<nat>, next: nat)
    requires Increasing(line + b) && Below(line + b, next)
    ensures Increasing(line) && Below(line, next)
  {
    forall i, j | 0 <= i < j < |line| ensures line[i] < line[j] {
      assert (line + b)[i] < (line + b)[j];
    }
    forall i | 0 <= i < |line| ensures line[i] < next {
      assert (line + b)[i] < next;
    }
  }

  lemma RecordedAgrees(l: Losses, kernel: nat, channel: nat, writes: bool)
    requires l.recordedChannel <= channel
    ensures var r := Recorded(l, kernel, channel, writes);
      && r.recordedChannel == channel
      && Stated(r.log) + Stated(r.failed) + l.recordedChannel == Stated(l.log) + Stated(l.failed) + channel
  {
    var loss := Loss(SaturatingSub(kernel, l.recordedKernel), SaturatingSub(channel, l.recordedChannel));
    StatedExtends(l.log, loss);
    StatedExtends(l.failed, loss);
  }

  lemma DrainKeepsRest(s: State, t: State)
    requires CountersAgree(s) && LossesAgree(s) && ThreadsAgree(s) && DrainStep(s, t)
    ensures CountersAgree(t) && LossesAgree(t) && ThreadsAgree(t)
  {
    DrainKeepsCounters(s, t);
    DrainKeepsThreads(s, t);
    hide Stated, CountersAgree, ThreadsAgree, DrainStep;
  }

  lemma DrainKeepsCounters(s: State, t: State)
    requires CountersAgree(s) && DrainStep(s, t)
    ensures CountersAgree(t) && t.worker == s.worker && t.losses == s.losses && t.baseline == s.baseline
    ensures t.drops >= s.drops
  {
    if s.drain.Filling? && s.ring > 0 {
      FillKeepsCounters(s, t);
    } else if s.drain.Refused? {
      RefusalKeepsCounters(s, t);
    } else {
      assert t.lost == s.lost && t.late == s.late && t.next == s.next && t.drops == s.drops;
      assert t.drained + Uncounted(t.drain) == s.drained + Uncounted(s.drain);
    }
    hide DrainStep, Uncounted;
  }

  lemma FillKeepsCounters(s: State, t: State)
    requires CountersAgree(s) && DrainStep(s, t) && s.drain.Filling? && s.ring > 0
    ensures CountersAgree(t) && t.worker == s.worker && t.losses == s.losses && t.baseline == s.baseline
    ensures t.drops == s.drops
  {
    assert Uncounted(t.drain) == |s.drain.batch + [s.next]| == Uncounted(s.drain) + 1;
    assert t.lost == s.lost && t.late == s.late && t.next == s.next + 1 && t.drained == s.drained;
    hide Uncounted, DrainStep;
  }

  lemma RefusalKeepsCounters(s: State, t: State)
    requires CountersAgree(s) && DrainStep(s, t) && s.drain.Refused?
    ensures CountersAgree(t) && t.worker == s.worker && t.losses == s.losses && t.baseline == s.baseline
    ensures t.drops >= s.drops
  {
    var batch := s.drain.batch;
    assert t.lost == s.lost + batch && t.late == s.late && t.drops == s.drops + |batch|;
    assert Uncounted(t.drain) == 0 && t.next == s.next && t.drained == s.drained;
    hide Uncounted, DrainStep;
  }

  lemma DrainKeepsThreads(s: State, t: State)
    requires ThreadsAgree(s) && DrainStep(s, t)
    ensures ThreadsAgree(t) && (Leaving(s.worker) ==> t.drops == s.drops) && !s.drain.Gone?
  {
  }

  lemma WorkerKeepsLosses(s: State, t: State)
    requires LossesAgree(s) && WorkerStep(s, t)
    ensures LossesAgree(t)
    ensures s.worker.BothRead? ==> t.losses.recordedChannel == s.worker.channel
  {
    hide Recorded, Stated;
    if s.worker.BothRead? {
      RecordedAgrees(s.losses, s.worker.kernel, s.worker.channel, true);
      RecordedAgrees(s.losses, s.worker.kernel, s.worker.channel, false);
    } else {
      assert t.losses == s.losses;
    }
  }

  lemma WorkerKeepsRest(s: State, t: State)
    requires CountersAgree(s) && LossesAgree(s) && ThreadsAgree(s) && WorkerStep(s, t)
    ensures CountersAgree(t) && LossesAgree(t) && ThreadsAgree(t)
  {
    hide Recorded, Stated;
    WorkerKeepsLosses(s, t);
    WorkerKeepsThreads(s, t);
    WorkerKeepsCounters(s, t);
    hide WorkerStep, CountersAgree, ThreadsAgree, LossesAgree;
  }

  /** What a step of the worker can change. */
  lemma WorkerFrame(s: State, t: State)
    requires WorkerStep(s, t)
    ensures t == s.(worker := t.worker, channel := t.channel, handled := t.handled, late := t.late, drops := t.drops,
                    spent := t.spent, losses := t.losses)
  {
    hide Recorded;
  }

  lemma WorkerDrops(s: State, t: State)
    requires WorkerStep(s, t)
    ensures |t.late| - |s.late| == t.drops - s.drops
  {
    hide Recorded;
  }

  lemma WorkerKeepsCounters(s: State, t: State)
    requires CountersAgree(s) && WorkerStep(s, t)
    ensures CountersAgree(t)
  {
    WorkerFrame(s, t);
    WorkerDrops(s, t);
    hide WorkerStep, Uncounted;
  }

  lemma WorkerKeepsThreads(s: State, t: State)
    requires LossesAgree(s) && ThreadsAgree(s) && WorkerStep(s, t)
    requires s.worker.BothRead? ==> t.losses.recordedChannel == s.worker.channel
    ensures ThreadsAgree(t)
  {
    match s.worker {
      case Receiving => ReceiveKeepsThreads(s, t);
      case Received(_) => TakeKeepsThreads(s, t);
      case Handling(_) => HandleKeepsThreads(s, t);
      case _ => TickKeepsThreads(s, t);
    }
    hide WorkerStep, ThreadsAgree, LossesAgree;
  }

  lemma ReceiveKeepsThreads(s: State, t: State)
    requires ThreadsAgree(s) && WorkerStep(s, t) && s.worker.Receiving?
    ensures ThreadsAgree(t)
  {
  }

  lemma TakeKeepsThreads(s: State, t: State)
    requires ThreadsAgree(s) && WorkerStep(s, t) && s.worker.Received?
    ensures ThreadsAgree(t)
  {
  }

  lemma HandleKeepsThreads(s: State, t: State)
    requires ThreadsAgree(s) && WorkerStep(s, t) && s.worker.Handling?
    ensures ThreadsAgree(t)
  {
  }

  lemma TickKeepsThreads(s: State, t: State)
    requires LossesAgree(s) && ThreadsAgree(s) && WorkerStep(s, t)
    requires s.worker.Ticking? || s.worker.KernelRead? || s.worker.BothRead?
    requires s.worker.BothRead? ==> t.losses.recordedChannel == s.worker.channel
    ensures ThreadsAgree(t)
  {
    hide Recorded, Stated;
  }

  lemma StepKeepsInv(s: State, t: State)
    requires Inv(s) && Next(s, t)
    ensures Inv(t)
  {
    if DrainStep(s, t) {
      DrainMovesLine(s, t);
      DrainKeepsRest(s, t);
    } else if WorkerStep(s, t) {
      WorkerKeepsLine(s, t);
      WorkerKeepsRest(s, t);
    }
    assert OutsideStep(s, t) ==> Line(t) == Line(s);
    hide DrainStep, WorkerStep, Line, Placed, CountersAgree, LossesAgree, ThreadsAgree;
    if DrainStep(s, t) || WorkerStep(s, t) {
      MovesKeepPlaced(s, t);
    } else {
      OutsideKeepsRest(s, t);
      MovesKeepPlaced(s, t);
    }
  }

  lemma OutsideKeepsRest(s: State, t: State)
    requires CountersAgree(s) && LossesAgree(s) && ThreadsAgree(s) && OutsideStep(s, t)
    ensures CountersAgree(t) && LossesAgree(t) && ThreadsAgree(t)
  {
  }

  lemma {:induction false} RunKeepsInv(trace: seq<State>, i: nat)
    requires IsRun(trace) && i < |trace|
    ensures Inv(trace[i])
  {
    if i == 0 {
      assert Line(trace[0]) == [];
    } else {
      hide Next, Init, Inv;
      RunKeepsInv(trace, i - 1);
      assert Next(trace[i - 1], trace[i - 1 + 1]);
      StepKeepsInv(trace[i - 1], trace[i]);
    }
  }

  // ---------------------------------------------------------------------------
  // Main results
  // ---------------------------------------------------------------------------

  /** Records counted as drained and not yet handled or counted as dropped. */
  function InFlight(s: State): nat {
    |Rest(s.worker)| + |Flat(s.channel)| + |Held(s.drain)| - Uncounted(s.drain)
  }

  lemma {:induction false} UptoLength(n: nat)
    ensures |Upto(n)| == n
  {
    if n == 0 {
    } else {
      UptoLength(n - 1);
    }
  }

  /** In every interleaving: drained = handled + dropped + in flight. */
  lemma Conserved(trace: seq<State>, i: nat)
    requires IsRun(trace) && i < |trace|
    ensures var s := trace[i]; s.drained == |s.handled| + (s.drops - s.baseline) + InFlight(s)
  {
    var s := trace[i];
    RunKeepsInv(trace, i);
    UptoLength(s.next);
    assert |multiset(Line(s)) + multiset(s.lost)| == |Line(s)| + |s.lost|;
  }

  /**
   The worker handles records in ring order, each at most once; what it gives up after a stop comes after all it
   handled.
   */
  lemma HandledInOrder(trace: seq<State>, i: nat)
    requires IsRun(trace) && i < |trace|
    ensures var s := trace[i]; Increasing(s.handled + s.late) && (s.late != [] ==> s.stop)
    ensures |trace[i].channel| <= trace[i].capacity
  {
    var s := trace[i];
    RunKeepsInv(trace, i);
    var done := s.handled + s.late;
    forall a, b | 0 <= a < b < |done| ensures done[a] < done[b] {
      assert Line(s)[a] == done[a] && Line(s)[b] == done[b];
    }
  }

  /**
   Once both threads have ended, every record read is either handled or
   lost, exactly one of the two, nothing is in flight, and the loss records
   account for every drop since the baseline but those whose write failed.
   */
  lemma StoppedAccountsForAll(trace: seq<State>, i: nat)
    requires IsRun(trace) && i < |trace| && trace[i].worker.Stopped?
    ensures var s := trace[i];
      && s.drain.Gone? && InFlight(s) == 0
      && multiset(s.handled) + multiset(s.late) + multiset(s.lost) == multiset(Upto(s.drained))
      && s.drops - s.baseline == |s.lost| + |s.late|
      && (s.losses.failed == [] ==> Stated(s.losses.log) == s.drops - s.baseline)
      && Stated(s.losses.log) + Stated(s.losses.failed) == s.drops - s.baseline
  {
    RunKeepsInv(trace, i);
    assert Line(trace[i]) == trace[i].handled + trace[i].late;
  }

  /** The work left to the worker once the drain thread has ended. */
  function Work(s: State): nat {
    |Flat(s.channel)| + 6 * |s.channel| + Load(s.worker)
  }

  function Load(w: Worker): nat {
    match w
    case Receiving => 7
    case Received(b) => 12 + |b|
    case Handling(r) => 11 + |r|
    case Ticking(a) => if a.Resume? then 10 else if a.Exit? then 6 else 3
    case KernelRead(_, a) => if a.Resume? then 9 else if a.Exit? then 5 else 2
    case BothRead(_, _, a) => if a.Resume? then 8 else if a.Exit? then 4 else 1
    case Stopped => 0
  }

  /** With the drain thread gone, each step of the worker leaves less work. */
  lemma WorkerStepsDescend(s: State, t: State)
    requires s.drain.Gone? && WorkerStep(s, t)
    ensures t.drain.Gone? && Work(t) < Work(s)
  {
    WorkerFrame(s, t);
    if s.worker.Receiving? && s.channel != [] {
      FlatFirst(s.channel);
      assert t.channel == s.channel[1..] && t.worker == Received(s.channel[0]);
    } else {
      LoadDescends(s, t);
    }
    hide WorkerStep, Flat;
  }

  lemma LoadDescends(s: State, t: State)
    requires s.drain.Gone? && WorkerStep(s, t) && !(s.worker.Receiving? && s.channel != [])
    ensures t.channel == s.channel && Load(t.worker) < Load(s.worker)
  {
    hide Recorded;
  }

  lemma FlatFirst(c: seq<seq<nat>>)
    requires c != []
    ensures Flat(c) == c[0] + Flat(c[1..])
  {
  }

  /** With the drain thread gone the worker always has a step, and each leaves less work. */
  lemma WorkerNeverStuck(s: State) returns (t: State)
    requires Inv(s) && s.drain.Gone? && !s.worker.Stopped?
    ensures WorkerStep(s, t) && t.drain.Gone? && Work(t) < Work(s)
  {
    t := SomeWorkerStep(s);
    WorkerStepsDescend(s, t);
  }

  lemma SomeWorkerStep(s: State) returns (t: State)
    requires Inv(s) && s.drain.Gone? && !s.worker.Stopped?
    ensures WorkerStep(s, t)
  {
    hide Recorded, Placed, Stated;
    match s.worker {
      case Receiving =>
        t := if s.channel != [] then s.(worker := Received(s.channel[0]), channel := s.channel[1..])
             else s.(worker := Ticking(Exit));
      case Received(batch) =>
        t := if s.spent then s.(spent := true, drops := s.drops + |batch|, late := s.late + batch, worker := Receiving)
             else s.(worker := Handling(batch));
      case Handling(rest) =>
        t := if rest != [] then s.(handled := s.handled + [rest[0]], worker := Handling(rest[1..]))
             else s.(worker := Ticking(Resume));
      case Ticking(after) => t := s.(worker := KernelRead(0, after));
      case KernelRead(k, after) => t := s.(worker := BothRead(k, s.drops, after));
      case BothRead(k, c, after) =>
        var w := match after case Resume => Receiving case Exit => Ticking(Final) case Final => Stopped;
        t := s.(losses := Recorded(s.losses, k, c, true), worker := w);
    }
  }
}
