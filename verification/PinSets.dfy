/**
 Replacing the pinned programs without a gap: three directories, single
 file-system steps (a rename, the removal of one entry, the removal of an empty
 directory), and process death between any two of them.

 The state machine fixes which step the code takes next; `PinStore` is the code
 itself, whose every execution is proved to be a run of the machine.
 */
module PinSets {
  import opened Wrappers

  datatype Entry = Link(name: nat) | Map(name: nat)

  /**
   A pin directory. `built` is everything ever pinned in it and `ready` says
   that its programs were attached and hold the policy: together they tell a
   whole set from one that is being built or removed.
   */
  datatype PinDir = PinDir(entries: set<Entry>, built: set<Entry>, ready: bool)

  /** `root`, `<root>-next` and `<root>-old`. */
  datatype Dirs = Dirs(root: Option<PinDir>, next: Option<PinDir>, prior: Option<PinDir>)

  predicate HasLink(entries: set<Entry>) {
    exists e :: e in entries && e.Link?
  }

  predicate HoldsLinks(d: Option<PinDir>) {
    d.Some? && HasLink(d.value.entries)
  }

  /** Attached, holding the policy, with nothing of it removed. */
  predicate Whole(d: Option<PinDir>) {
    d.Some? && d.value.ready && d.value.entries == d.value.built && HasLink(d.value.entries)
  }

  /** Some whole pin set enforces. */
  predicate Protected(d: Dirs) {
    Whole(d.root) || Whole(d.next) || Whole(d.prior)
  }

  /** Where the process is. */
  datatype Phase =
    | Down                // no process
    | Reconcile           // at the top of reconcile
    | SwitchFound         // `-old` exists and `root` has been settled
    | RemovingOld(finish: bool)
    | NextLeft            // `-old` is settled
    | RemovingRoot
    | MovingNext
    | RemovingNext(abort: bool)
    | Opened              // reconcile has returned
    | Building            // a different object: pinning under `-next`
    | Attached            // its programs are attached and hold the policy
    | OldMoved            // finish_replacement, after the first rename
    | Running

  datatype State = State(dirs: Dirs, phase: Phase)

  /** Takes one entry out of a directory. */
  predicate Shrinks(before: Option<PinDir>, after: Option<PinDir>) {
    before.Some? && after.Some? && after.value.built == before.value.built && after.value.ready == before.value.ready
    && exists e :: e in before.value.entries && after.value.entries == before.value.entries - {e}
  }

  /** One more step of removing a directory: an entry, or the emptied directory itself. */
  predicate Removes(before: Option<PinDir>, after: Option<PinDir>) {
    Shrinks(before, after) || (before.Some? && before.value.entries == {} && after.None?)
  }

  predicate Grows(before: Option<PinDir>, after: Option<PinDir>) {
    before.Some? && after.Some? && after.value.ready == before.value.ready
    && exists e ::
         && e in after.value.entries && after.value.entries == before.value.entries + {e}
         && after.value.built == before.value.built + {e}
  }

  /** The steps of the protocol; a rename needs a free target. */
  ghost predicate Step(s: State, t: State) {
    var d, d' := s.dirs, t.dirs;
    match s.phase
    case Down => d' == d && t.phase in {Down, Reconcile}
    case Reconcile =>
      if d.prior.None? then d' == d && t.phase == NextLeft
      else if d.root.None? && d.next.Some? then d' == d.(root := d.next, next := None) && t.phase == SwitchFound
      else d' == d && t.phase == SwitchFound
    case SwitchFound =>
      if d.root.Some? then d' == d && t.phase == RemovingOld(false)
      else d.prior.Some? && d' == d.(root := d.prior, prior := None) && t.phase == NextLeft
    case RemovingOld(finish) =>
      if d.prior.None? then d' == d && t.phase == (if finish then Running else NextLeft)
      else d' == d.(prior := d'.prior) && Removes(d.prior, d'.prior) && t.phase == s.phase
    case NextLeft =>
      if d.next.None? then d' == d && t.phase == Opened
      else if d.root.None? then d' == d.(root := d.next, next := None) && t.phase == Opened
      else d' == d && t.phase == (if !HoldsLinks(d.root) && HoldsLinks(d.next)
          then RemovingRoot else RemovingNext(false))
    case RemovingRoot =>
      if d.root.None? then d' == d && t.phase == MovingNext
      else d' == d.(root := d'.root) && Removes(d.root, d'.root) && t.phase == s.phase
    case MovingNext => d.root.None? && d.next.Some? && d' == d.(root := d.next, next := None) && t.phase == Opened
    case RemovingNext(abort) =>
      if d.next.None? then d' == d && t.phase == (if abort then Down else Opened)
      else d' == d.(next := d'.next) && Removes(d.next, d'.next) && t.phase == s.phase
    case Opened =>
      // The same object: adopt it. Another one: start a set beside it.
      || (d' == d && t.phase == Running)
      || (d.next.None? && d' == d.(next := Some(PinDir({}, {}, false))) && t.phase == Building)
    case Building =>
      || (d' == d.(next := d'.next) && Grows(d.next, d'.next) && t.phase == Building)
      || (HoldsLinks(d.next) && d' == d.(next := Some(d.next.value.(ready := true))) && t.phase == Attached)
      || (d' == d && t.phase == RemovingNext(true))
    case Attached => d.root.Some? && d.prior.None? && d' == d.(prior := d.root, root := None) && t.phase == OldMoved
    case OldMoved =>
      d.root.None? && d.next.Some? && d' == d.(root := d.next, next := None) && t.phase == RemovingOld(true)
    case Running =>
      // Links an earlier sensor did not pin are added to the adopted set.
      d' == d.(root := d'.root) && Grows(d.root, d'.root) && t.phase == Running
  }

  /** A protocol step, or the death of the process, which changes no directory. */
  ghost predicate Next(s: State, t: State) {
    Step(s, t) || (t.dirs == s.dirs && t.phase == Down)
  }

  ghost predicate IsRun(trace: seq<State>) {
    |trace| > 0 && forall i :: 0 <= i < |trace| - 1 ==> Next(trace[i], trace[i + 1])
  }

  /** A live pin set that holds links, and nothing beside it. */
  predicate Live(d: Dirs) {
    Whole(d.root) && d.next.None? && d.prior.None?
  }

  // ---------------------------------------------------------------------------
  // The invariant
  // ---------------------------------------------------------------------------

  /** The directory states any run can be in: before the switch, between its two renames, after it. */
  predicate Settled(d: Dirs) {
    || (Whole(d.root) && d.prior.None?)
    || (d.root.None? && Whole(d.next) && Whole(d.prior))
    || (Whole(d.root) && d.next.None?)
  }

  predicate Inv(s: State) {
    && Settled(s.dirs)
    && match s.phase
       case Down | Reconcile => true
       case SwitchFound => Whole(s.dirs.root) && s.dirs.next.None?
       case RemovingOld(_) => Whole(s.dirs.root) && s.dirs.next.None?
       case NextLeft | RemovingNext(_) => Whole(s.dirs.root) && s.dirs.prior.None?
       case Opened | Running => Live(s.dirs)
       case Building => Whole(s.dirs.root) && s.dirs.prior.None? && s.dirs.next.Some?
                        && s.dirs.next.value.entries == s.dirs.next.value.built
       case Attached => Whole(s.dirs.root) && s.dirs.prior.None? && Whole(s.dirs.next)
       case OldMoved => s.dirs.root.None? && Whole(s.dirs.next) && Whole(s.dirs.prior)
       case RemovingRoot | MovingNext => false
  }

  lemma GrowsKeepsWhole(a: Option<PinDir>, b: Option<PinDir>)
    requires Grows(a, b)
    ensures Whole(a) ==> Whole(b)
    ensures a.value.entries == a.value.built ==> b.value.entries == b.value.built
  {
    if Whole(a) {
      var e :| e in a.value.entries && e.Link?;
      assert e in b.value.entries;
    }
  }

  lemma StepKeepsInv(s: State, t: State)
    requires Inv(s) && Next(s, t)
    ensures Inv(t)
  {
    if s.phase == Running && t.phase == Running {
      GrowsKeepsWhole(s.dirs.root, t.dirs.root);
    } else if s.phase == Building && t.phase == Building {
      GrowsKeepsWhole(s.dirs.next, t.dirs.next);
    }
    hide HasLink, Grows, Removes;
  }

  lemma {:induction false} RunKeepsInv(trace: seq<State>, i: nat)
    requires IsRun(trace) && Inv(trace[0]) && i < |trace|
    ensures Inv(trace[i])
  {
    hide Inv, Next;
    if i == 0 {
    } else {
      RunKeepsInv(trace, i - 1);
      assert Next(trace[i - 1], trace[i - 1 + 1]);
      StepKeepsInv(trace[i - 1], trace[i]);
    }
  }

  /** Main result: from a live pin set, in every state of every run, deaths included, some whole pin set enforces. */
  lemma AlwaysProtected(trace: seq<State>, i: nat)
    requires IsRun(trace) && Live(trace[0].dirs) && trace[0].phase == Down && i < |trace|
    ensures Protected(trace[i].dirs)
  {
    RunKeepsInv(trace, i);
  }

  /** A step is always possible: no rename meets a taken name, nothing that must exist is missing. */
  lemma NeverStuck(s: State)
    requires Inv(s)
    ensures exists t :: Step(s, t)
  {
    var d := s.dirs;
    match s.phase {
      case Down => assert Step(s, s);
      case Reconcile =>
        if d.prior.None? { assert Step(s, s.(phase := NextLeft)); }
        else if d.root.None? { assert Step(s, State(d.(root := d.next, next := None), SwitchFound)); }
        else { assert Step(s, s.(phase := SwitchFound)); }
      case SwitchFound => assert Step(s, s.(phase := RemovingOld(false)));
      case RemovingOld(f) =>
        if d.prior.None? { assert Step(s, s.(phase := if f then Running else NextLeft)); }
        else { var o := RemovalStep(d.prior); assert Step(s, State(d.(prior := o), s.phase)); }
      case NextLeft =>
        if d.next.None? { assert Step(s, s.(phase := Opened)); }
        else { assert Step(s, s.(phase := RemovingNext(false))); }
      case RemovingNext(a) =>
        if d.next.None? { assert Step(s, s.(phase := if a then Down else Opened)); }
        else { var n := RemovalStep(d.next); assert Step(s, State(d.(next := n), s.phase)); }
      case Opened => assert Step(s, s.(phase := Running));
      case Building => assert Step(s, s.(phase := RemovingNext(true)));
      case Attached => assert Step(s, State(d.(prior := d.root, root := None), OldMoved));
      case OldMoved => assert Step(s, State(d.(root := d.next, next := None), RemovingOld(true)));
      case Running =>
        var r := d.root.value;
        var e :| e in r.entries && e.Link?;
        assert r.entries + {e} == r.entries && r.built + {e} == r.built;
        assert Grows(d.root, Some(r));
        assert Step(s, State(d.(root := Some(r)), Running));
    }
  }

  lemma RemovalStep(a: Option<PinDir>) returns (b: Option<PinDir>)
    requires a.Some?
    ensures Removes(a, b)
  {
    if a.value.entries == {} {
      b := None;
    } else {
      var e :| e in a.value.entries;
      b := Some(a.value.(entries := a.value.entries - {e}));
      assert Shrinks(a, b);
    }
  }

  // ---------------------------------------------------------------------------
  // The code
  // ---------------------------------------------------------------------------

  datatype Done = CompletedSwitch | RestoredOld | ReplacedLost | DroppedNext

  /** The pin directories, with a record of every state they went through. */
  class PinStore {
    var dirs: Dirs
    ghost var phase: Phase
    ghost var trace: seq<State>

    ghost predicate Valid()
      reads this
    {
      IsRun(trace) && trace[|trace| - 1] == State(dirs, phase)
    }

    /** The directories as another process left them. */
    constructor (d: Dirs)
      ensures Valid() && dirs == d && phase == Down && trace == [State(d, Down)]
    {
      dirs, phase := d, Down;
      trace := [State(d, Down)];
    }

    /** Records the state the last file-system step led to. */
    ghost method Log(p: Phase)
      requires IsRun(trace) && Next(trace[|trace| - 1], State(dirs, p))
      modifies this`phase, this`trace
      ensures Valid() && phase == p && trace == old(trace) + [State(dirs, p)]
    {
      hide IsRun, Next;
      RunExtends(trace, State(dirs, p));
      phase := p;
      trace := trace + [State(dirs, p)];
    }

    /** `remove_dir_all` of one directory: its entries in any order, then the directory. */
    method RemovePrior()
      requires Valid() && phase.RemovingOld?
      modifies this
      ensures Valid() && phase == old(phase)
      ensures dirs == old(dirs).(prior := None) && old(trace) <= trace
    {
      hide IsRun, Removes;
      while dirs.prior.Some?
        invariant Valid() && phase == old(phase)
        invariant dirs == old(dirs).(prior := dirs.prior) && old(trace) <= trace
        decreases if dirs.prior.Some? then |dirs.prior.value.entries| + 1 else 0
      {
        var o := RemoveOne(dirs.prior);
        dirs := dirs.(prior := o);
        Log(phase);
      }
    }

    method RemoveNext()
      requires Valid() && phase.RemovingNext?
      modifies this
      ensures Valid() && phase == old(phase)
      ensures dirs == old(dirs).(next := None) && old(trace) <= trace
    {
      hide IsRun, Removes;
      while dirs.next.Some?
        invariant Valid() && phase == old(phase)
        invariant dirs == old(dirs).(next := dirs.next) && old(trace) <= trace
        decreases if dirs.next.Some? then |dirs.next.value.entries| + 1 else 0
      {
        var n := RemoveOne(dirs.next);
        dirs := dirs.(next := n);
        Log(phase);
      }
    }

    method RemoveRoot()
      requires Valid() && phase == RemovingRoot
      modifies this
      ensures Valid() && phase == RemovingRoot
      ensures dirs == old(dirs).(root := None) && old(trace) <= trace
    {
      hide IsRun, Removes;
      while dirs.root.Some?
        invariant Valid() && phase == RemovingRoot
        invariant dirs == old(dirs).(root := dirs.root) && old(trace) <= trace
        decreases if dirs.root.Some? then |dirs.root.value.entries| + 1 else 0
      {
        var r := RemoveOne(dirs.root);
        dirs := dirs.(root := r);
        Log(phase);
      }
    }

    static method RemoveOne(d: Option<PinDir>) returns (r: Option<PinDir>)
      requires d.Some?
      ensures Removes(d, r)
      ensures (if r.Some? then |r.value.entries| + 1 else 0) < |d.value.entries| + 1
    {
      if d.value.entries == {} {
        return None;
      }
      var e :| e in d.value.entries;
      r := Some(d.value.(entries := d.value.entries - {e}));
      assert Shrinks(d, r);
    }

    /**
     Settles whatever a dead process left, without ever renaming onto a name
     that is taken: afterwards at most `root` exists, and from such a state
     nothing happens. In the states a run can be in, `root` is then whole.
     */
    method ReconcileDirs() returns (done: Option<Done>)
      requires Valid() && phase == Down
      modifies this
      ensures Valid() && phase == Opened && old(trace) <= trace
      ensures dirs == Dirs(Survivor(old(dirs)), None, None)
      ensures Tells(old(dirs), done, dirs.root)
    {
      hide IsRun, HoldsLinks, Next, Survivor, Tells;
      assert Next(State(dirs, Down), State(dirs, Reconcile)) by { StartsOver(dirs); }
      Log(Reconcile);
      done := SettlePrior();
      var settled := SettleNext();
      SurvivorIs(old(dirs));
      if settled.Some? {
        done := settled;
      }
      SettledTells(old(dirs));
    }

    /** The second half of `reconcile`: a set beside `root`, or in its place. */
    method SettleNext() returns (done: Option<Done>)
      requires Valid() && phase == NextLeft
      modifies this
      ensures Valid() && phase == Opened && old(trace) <= trace
      ensures dirs == Dirs(Remaining(old(dirs)), None, old(dirs).prior)
      ensures done == NextDone(old(dirs))
    {
      hide IsRun, HoldsLinks;
      done := None;
      if dirs.next.Some? {
        if dirs.root.None? {
          dirs := dirs.(root := dirs.next, next := None);
          done := Some(CompletedSwitch);
        } else if !HoldsLinks(dirs.root) && HoldsLinks(dirs.next) {
          Log(RemovingRoot);
          RemoveRoot();
          Log(MovingNext);
          dirs := dirs.(root := dirs.next, next := None);
          done := Some(ReplacedLost);
        } else {
          Log(RemovingNext(false));
          RemoveNext();
          done := Some(DroppedNext);
        }
      }
      Log(Opened);
    }

    /** The first half of `reconcile`: a switch that had started. */
    method SettlePrior() returns (done: Option<Done>)
      requires Valid() && phase == Reconcile
      modifies this
      ensures Valid() && phase == NextLeft && old(trace) <= trace
      ensures dirs == AfterSwitch(old(dirs))
      ensures done == PriorDone(old(dirs))
    {
      hide IsRun;
      done := None;
      if dirs.prior.Some? {
        if dirs.root.None? && dirs.next.Some? {
          dirs := dirs.(root := dirs.next, next := None);
        }
        Log(SwitchFound);
        if dirs.root.Some? {
          Log(RemovingOld(false));
          RemovePrior();
          done := Some(CompletedSwitch);
        } else {
          dirs := dirs.(root := dirs.prior, prior := None);
          done := Some(RestoredOld);
        }
      }
      Log(NextLeft);
    }

    /** Ends a replacement: the new set takes `root`, then the old one goes. */
    method FinishReplacement()
      requires Valid() && phase == Attached && dirs.root.Some? && dirs.next.Some? && dirs.prior.None?
      modifies this
      ensures Valid() && phase == Running && old(trace) <= trace
      ensures dirs == Dirs(old(dirs).next, None, None)
    {
      hide IsRun;
      dirs := dirs.(prior := dirs.root, root := None);
      Log(OldMoved);
      dirs := dirs.(root := dirs.next, next := None);
      Log(RemovingOld(true));
      RemovePrior();
      Log(Running);
    }

    /** Abandons a replacement: the new set goes, the old one is never touched. */
    method AbortReplacement()
      requires Valid() && phase == Building
      modifies this
      ensures Valid() && phase == Down && old(trace) <= trace
      ensures dirs == old(dirs).(next := None)
    {
      hide IsRun;
      Log(RemovingNext(true));
      RemoveNext();
      Log(Down);
    }
  }

  // ---------------------------------------------------------------------------
  // Which set a reconcile keeps
  // ---------------------------------------------------------------------------

  function AfterSwitch(d: Dirs): Dirs {
    if d.prior.None? then d
    else if d.root.Some? then d.(prior := None)
    else if d.next.Some? then Dirs(d.next, None, None)
    else Dirs(d.prior, d.next, None)
  }

  /** Of `root` and `-next`, the one left at `root`. */
  function Remaining(d: Dirs): Option<PinDir> {
    if d.next.None? then d.root
    else if d.root.None? || (!HoldsLinks(d.root) && HoldsLinks(d.next)) then d.next
    else d.root
  }

  /** The one set left at `root`. */
  function Survivor(d: Dirs): Option<PinDir> {
    Remaining(AfterSwitch(d))
  }

  /** What the first half of a reconcile did. */
  function PriorDone(d: Dirs): Option<Done> {
    if d.prior.None? then None
    else if d.root.Some? || d.next.Some? then Some(CompletedSwitch) else Some(RestoredOld)
  }

  /** What the second half did. */
  function NextDone(d: Dirs): Option<Done> {
    if d.next.None? then None
    else if d.root.None? then Some(CompletedSwitch)
    else if !HoldsLinks(d.root) && HoldsLinks(d.next) then Some(ReplacedLost) else Some(DroppedNext)
  }

  /** What a reconcile reports says exactly what it found and which set it kept. */
  ghost predicate Tells(d: Dirs, done: Option<Done>, kept: Option<PinDir>) {
    var lost := !HoldsLinks(d.root) && HoldsLinks(d.next);
    match done
    case None => d.next == None && d.prior == None && kept == d.root
    case Some(RestoredOld) => d.root == None && d.next == None && d.prior.Some? && kept == d.prior
    case Some(ReplacedLost) => d.root.Some? && d.next.Some? && lost && kept == d.next
    case Some(DroppedNext) => d.root.Some? && d.next.Some? && !lost && kept == d.root
    case Some(CompletedSwitch) =>
      || (d.root == None && d.next.Some? && kept == d.next)
      || (d.root.Some? && d.next == None && d.prior.Some? && kept == d.root)
  }

  lemma SettledTells(d: Dirs)
    ensures var later := NextDone(AfterSwitch(d));
      Tells(d, if later.Some? then later else PriorDone(d), Survivor(d))
  {
    hide HoldsLinks;
  }

  lemma SurvivorIs(d: Dirs)
    ensures AfterSwitch(d).prior == None && Survivor(d) == Remaining(AfterSwitch(d))
    ensures d.next == None && d.prior == None ==> AfterSwitch(d).next == None
    ensures d.next != None && d.prior == None ==> AfterSwitch(d).next != None
  {
  }

  lemma StartsOver(d: Dirs)
    ensures Next(State(d, Down), State(d, Reconcile))
  {
  }

  /** In every state of every run, a reconcile that completes keeps a whole set, never one being built or removed. */
  lemma SurvivorIsWhole(trace: seq<State>, i: nat)
    requires IsRun(trace) && Live(trace[0].dirs) && trace[0].phase == Down && i < |trace|
    ensures Whole(Survivor(trace[i].dirs))
  {
    RunKeepsInv(trace, i);
  }

  /**
   What reconcile keeps is one of the sets it found; it holds links exactly if `root` or `-next` does, or `-old` does
   and is alone.
   */
  lemma SurvivorKeepsLinks(d: Dirs)
    ensures Survivor(d) in {d.root, d.next, d.prior}
    ensures HoldsLinks(Survivor(d)) <==>
      HoldsLinks(d.root) || HoldsLinks(d.next) || (HoldsLinks(d.prior) && d.root.None? && d.next.None?)
    ensures Survivor(d).None? <==> d == Dirs(None, None, None)
  {
    hide HasLink;
  }

  /**
   The only links are lost exactly if they are in `-old`, beside a linkless `root` or `-next`; no run from a live set
   gets there.
   */
  lemma LinksLostExactly(d: Dirs)
    ensures (HoldsLinks(d.root) || HoldsLinks(d.next) || HoldsLinks(d.prior)) && !HoldsLinks(Survivor(d)) <==>
      HoldsLinks(d.prior) && !HoldsLinks(d.root) && !HoldsLinks(d.next) && (d.root.Some? || d.next.Some?)
    ensures HoldsLinks(d.prior) && !HoldsLinks(Survivor(d)) ==> !Settled(d)
  {
    SurvivorKeepsLinks(d);
  }

  /** Both shapes exist: a linkless `root`, or no `root` and a linkless `-next`. */
  lemma SurvivorMayLoseLinks(atRoot: bool) returns (d: Dirs)
    ensures HoldsLinks(d.prior) && !HoldsLinks(Survivor(d)) && !Settled(d)
    ensures if atRoot then d.root.Some? && d.next.None? else d.root.None? && d.next.Some?
  {
    var linked, bare := PinDir({Link(0)}, {Link(0)}, true), PinDir({}, {}, false);
    d := if atRoot then Dirs(Some(bare), None, Some(linked)) else Dirs(None, Some(bare), Some(linked));
    assert Link(0) in linked.entries;
  }

  /** A replacement happens: there is a run from one whole set to another at `root` and nothing beside it. */
  lemma ReplacementHappens() returns (trace: seq<State>)
    ensures IsRun(trace) && trace[0].phase == Down && Live(trace[0].dirs)
    ensures var last := trace[|trace| - 1];
      && last.phase == Running && Whole(last.dirs.root) && last.dirs.next == None && last.dirs.prior == None
      && last.dirs.root != trace[0].dirs.root
  {
    var was, new' := PinDir({Link(0)}, {Link(0)}, true), PinDir({Link(1)}, {Link(1)}, false);
    var up := new'.(ready := true);
    var d := Dirs(Some(was), None, None);
    var built, moved := d.(next := Some(new')), Dirs(None, Some(up), Some(was));
    var first := [State(d, Down), State(d, Reconcile), State(d, NextLeft), State(d, Opened)];
    var second := [State(d.(next := Some(PinDir({}, {}, false))), Building), State(built, Building),
                   State(d.(next := Some(up)), Attached), State(moved, OldMoved)];
    var third := [State(Dirs(Some(up), None, Some(was)), RemovingOld(true)),
                  State(Dirs(Some(up), None, Some(was.(entries := {}))), RemovingOld(true)),
                  State(Dirs(Some(up), None, None), RemovingOld(true)), State(Dirs(Some(up), None, None), Running)];
    trace := first + second + third;
    assert Link(0) in was.entries && Link(1) in new'.entries && Link(1) in up.entries;
    assert Grows(Some(PinDir({}, {}, false)), Some(new')) by {
      assert new'.entries == {} + {Link(1)};
    }
    assert Shrinks(Some(was), Some(was.(entries := {}))) by {
      assert was.entries - {Link(0)} == {};
    }
    forall i | 0 <= i < |trace| - 1 ensures Next(trace[i], trace[i + 1]) {
      hide Grows, Shrinks, HasLink;
    }
  }

  predicate Unready(s: State) {
    s.phase == Building ==> s.dirs.next.Some? && !s.dirs.next.value.ready
  }

  lemma StepKeepsUnready(s: State, t: State)
    requires Unready(s) && Next(s, t)
    ensures Unready(t)
  {
    hide HoldsLinks, Removes;
  }

  /** In every run a set being built is not ready: only what is attached and holds the policy ever counts as whole. */
  lemma {:induction false} BuildingIsNotReady(trace: seq<State>, i: nat)
    requires IsRun(trace) && trace[0].phase == Down && i < |trace|
    ensures trace[i].phase == Building ==> trace[i].dirs.next.Some? && !trace[i].dirs.next.value.ready
  {
    hide Next;
    if i == 0 {
    } else {
      BuildingIsNotReady(trace, i - 1);
      assert Next(trace[i - 1], trace[i - 1 + 1]);
      StepKeepsUnready(trace[i - 1], trace[i]);
    }
  }

  lemma RunExtends(trace: seq<State>, t: State)
    requires IsRun(trace) && Next(trace[|trace| - 1], t)
    ensures IsRun(trace + [t])
  {
    hide Next;
    var all := trace + [t];
    forall i | 0 <= i < |all| - 1 ensures Next(all[i], all[i + 1]) {
      if i < |trace| - 1 {
        assert all[i] == trace[i] && all[i + 1] == trace[i + 1];
      } else {
        assert all[i] == trace[|trace| - 1] && all[i + 1] == t;
      }
    }
  }
}
