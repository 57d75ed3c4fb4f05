/**
 The process table that names the executable behind a decision: a bounded
 table keyed by tgid, least recently used out first, whose entries must not be
 taken for another process once a tgid is reused.
 */
module ProcTable {
  import opened Wrappers

  const U64_MAX: nat := 0xFFFF_FFFF_FFFF_FFFF

  datatype Source = ExecRecord | Procfs | Unavailable

  datatype ProcInfo = ProcInfo(exe: Option<string>, ppid: Option<nat>, source: Source)

  datatype Entry = Entry(exe: string, ppid: Option<nat>, source: Source, ppidTried: bool, start: Option<nat>)

  /** What `/proc/<tgid>/stat` says; `None` in place of it when the process is gone. */
  datatype Stat = Stat(ppid: Option<nat>, start: Option<nat>)

  datatype Slot = Slot(tgid: nat, entry: Entry)

  const UNAVAILABLE: ProcInfo := ProcInfo(None, None, Unavailable)

  function StartNs(ticks: nat, nsPerTick: nat): nat {
    if ticks * nsPerTick > U64_MAX then U64_MAX else ticks * nsPerTick
  }

  // ---------------------------------------------------------------------------
  // What really happened
  // ---------------------------------------------------------------------------

  /** One holder of a tgid: it lives from `born` to `died`, and its start time reads as `tick`. */
  datatype Process = Process(tgid: nat, born: nat, died: nat, tick: nat)

  /** Every process there ever is, the executables each ran, the parents each had. */
  datatype World = World(procs: set<Process>, ran: set<(Process, string)>, parents: set<(Process, nat)>)

  /**
   A tgid has one process at a time, and at clock-tick granularity: the start
   time of a later holder, as it reads, lies after the end of the earlier one.
   */
  ghost predicate Separated(w: World, nsPerTick: nat) {
    && (forall p :: p in w.procs ==> p.tick * nsPerTick <= p.born <= p.died < U64_MAX)
    && (forall p, q :: p in w.procs && q in w.procs && p.tgid == q.tgid && p != q ==>
          p.died < q.tick * nsPerTick || q.died < p.tick * nsPerTick)
  }

  /** `p` is the process that did something as `tgid` at `ts`. */
  ghost predicate Acted(w: World, p: Process, tgid: nat, ts: nat) {
    p in w.procs && p.tgid == tgid && p.born <= ts <= p.died
  }

  /** procfs shows the holder `l` of the tgid at some time no earlier than `ts`. */
  ghost predicate Shows(w: World, live: Option<Stat>, l: Process, tgid: nat, ts: nat) {
    live.Some? ==>
      && l in w.procs && l.tgid == tgid && ts <= l.died
      && (live.value.start.Some? ==> live.value.start.value == l.tick)
      && (live.value.ppid.Some? ==> (l, live.value.ppid.value) in w.parents)
  }

  /** The holder procfs shows started no later than an event, as start times read, exactly if it caused the event. */
  lemma HolderActed(w: World, ns: nat, p: Process, l: Process, tgid: nat, ts: nat)
    requires Separated(w, ns) && Acted(w, p, tgid, ts) && l in w.procs && l.tgid == tgid && ts <= l.died
    ensures StartNs(l.tick, ns) <= ts <==> l == p
  {
  }

  lemma SameTickSameProcess(w: World, ns: nat, p: Process, q: Process)
    requires Separated(w, ns) && p in w.procs && q in w.procs && p.tgid == q.tgid && p.tick == q.tick
    ensures p == q
  {
  }

  // ---------------------------------------------------------------------------
  // The least-recently-used table, most recent first
  // ---------------------------------------------------------------------------

  function Find(c: seq<Slot>, tgid: nat): Option<Entry> {
    if c == [] then None else if c[0].tgid == tgid then Some(c[0].entry) else Find(c[1..], tgid)
  }

  function Without(c: seq<Slot>, tgid: nat): seq<Slot> {
    if c == [] then [] else if c[0].tgid == tgid then Without(c[1..], tgid) else [c[0]] + Without(c[1..], tgid)
  }

  function Touch(c: seq<Slot>, tgid: nat): seq<Slot> {
    match Find(c, tgid)
    case None => c
    case Some(e) => [Slot(tgid, e)] + Without(c, tgid)
  }

  function Put(c: seq<Slot>, tgid: nat, e: Entry, capacity: nat): seq<Slot>
    requires capacity >= 1
  {
    var r := [Slot(tgid, e)] + Without(c, tgid);
    if |r| > capacity then r[..capacity] else r
  }

  ghost predicate Distinct(c: seq<Slot>) {
    forall i, j :: 0 <= i < j < |c| ==> c[i].tgid != c[j].tgid
  }

  lemma {:induction false} WithoutKeeps(c: seq<Slot>, tgid: nat)
    requires Distinct(c)
    ensures Distinct(Without(c, tgid))
    ensures forall s :: s in Without(c, tgid) <==> s in c && s.tgid != tgid
    ensures |Without(c, tgid)| == if Find(c, tgid).Some? then |c| - 1 else |c|
  {
    if c == [] {
    } else {
      WithoutKeeps(c[1..], tgid);
      assert c == [c[0]] + c[1..];
      if c[0].tgid == tgid {
        NotFound(c[1..], tgid);
      } else {
        var rest := Without(c[1..], tgid);
        forall j | 0 <= j < |rest| ensures rest[j].tgid != c[0].tgid {
          assert rest[j] in c[1..];
        }
      }
    }
  }

  lemma {:induction false} NotFound(c: seq<Slot>, tgid: nat)
    requires forall i :: 0 <= i < |c| ==> c[i].tgid != tgid
    ensures Find(c, tgid) == None
  {
    if c == [] {
    } else {
      NotFound(c[1..], tgid);
    }
  }

  lemma {:induction false} FindIs(c: seq<Slot>, s: Slot)
    requires Distinct(c)
    ensures s in c <==> Find(c, s.tgid) == Some(s.entry)
  {
    if c == [] {
    } else {
      FindIs(c[1..], s);
      assert c == [c[0]] + c[1..];
      assert s in c[1..] ==> s.tgid != c[0].tgid;
    }
  }

  /**
   A put stays within the capacity, finds the new entry, and loses at most the entry used longest ago, only when full.
   */
  lemma PutKeeps(c: seq<Slot>, tgid: nat, e: Entry, capacity: nat)
    requires capacity >= 1 && Distinct(c) && |c| <= capacity
    ensures var r := Put(c, tgid, e, capacity);
      && Distinct(r) && |r| <= capacity && Find(r, tgid) == Some(e)
      && (forall s :: s in r ==> s == Slot(tgid, e) || s in c)
      && (forall s :: s in c && s.tgid != tgid && s !in r ==>
            |c| == capacity && Find(c, tgid) == None && s == c[|c| - 1])
  {
    hide Find, Without;
    WithoutKeeps(c, tgid);
    var w := Without(c, tgid);
    var full := [Slot(tgid, e)] + w;
    assert forall i :: 0 <= i < |w| ==> w[i] in w;
    assert Distinct(full);
    var r := Put(c, tgid, e, capacity);
    assert r <= full && r[0] == Slot(tgid, e);
    FindIs(r, Slot(tgid, e));
    forall s | s in c && s.tgid != tgid && s !in r
      ensures |c| == capacity && Find(c, tgid) == None && s == c[|c| - 1]
    {
      assert s in w;
      PutEvicts(c, tgid, e, capacity, s);
    }
  }

  lemma PutEvicts(c: seq<Slot>, tgid: nat, e: Entry, capacity: nat, s: Slot)
    requires capacity >= 1 && Distinct(c) && |c| <= capacity
    requires s in Without(c, tgid) && s in c && s !in Put(c, tgid, e, capacity)
    ensures |c| == capacity && Find(c, tgid) == None && s == c[|c| - 1]
  {
    hide Find, Without;
    WithoutKeeps(c, tgid);
    var full := [Slot(tgid, e)] + Without(c, tgid);
    assert s in full;
    assert |full| > capacity;
    WithoutAbsent(c, tgid);
    var i :| 0 <= i < |c| && c[i] == s;
    assert full[i + 1] == s;
  }

  lemma {:induction false} WithoutAbsent(c: seq<Slot>, tgid: nat)
    requires Find(c, tgid) == None
    ensures Without(c, tgid) == c
  {
    if c == [] {
    } else {
      WithoutAbsent(c[1..], tgid);
    }
  }

  lemma TouchKeeps(c: seq<Slot>, tgid: nat)
    requires Distinct(c)
    ensures Distinct(Touch(c, tgid)) && |Touch(c, tgid)| == |c|
    ensures forall s :: s in Touch(c, tgid) <==> s in c
  {
    WithoutKeeps(c, tgid);
    var w := Without(c, tgid);
    assert forall i :: 0 <= i < |w| ==> w[i] in w;
    forall s: Slot | s.tgid == tgid ensures s in c <==> Find(c, tgid) == Some(s.entry) {
      FindIs(c, s);
    }
  }

  /** The table without the tgid's entry, or, when it is full of others, without the one used longest ago. */
  function Others(c: seq<Slot>, tgid: nat, capacity: nat): seq<Slot>
    requires capacity >= 1
  {
    var rest := Without(c, tgid);
    if |rest| >= capacity then rest[..capacity - 1] else rest
  }

  lemma PutIs(c: seq<Slot>, tgid: nat, e: Entry, capacity: nat)
    requires capacity >= 1
    ensures Put(c, tgid, e, capacity) == [Slot(tgid, e)] + Others(c, tgid, capacity)
  {
    hide Without;
  }

  /** Taking an entry out leaves the others in their order. */
  lemma {:induction false} WithoutSplit(a: seq<Slot>, s: Slot, b: seq<Slot>)
    requires Distinct(a + [s] + b)
    ensures Without(a + [s] + b, s.tgid) == a + b
  {
    var c := a + [s] + b;
    if a == [] {
      assert c == [s] + b;
      forall i | 0 <= i < |b| ensures b[i].tgid != s.tgid {
        assert c[0] == s && c[i + 1] == b[i];
      }
      NotFound(b, s.tgid);
      WithoutAbsent(b, s.tgid);
      assert c[1..] == b;
    } else {
      assert c[0] == a[0] && c[|a|] == s;
      assert c[1..] == a[1..] + [s] + b;
      WithoutSplit(a[1..], s, b);
      assert a + b == [a[0]] + (a[1..] + b);
    }
  }

  lemma WithoutTwice(c: seq<Slot>, tgid: nat, e: Entry)
    requires Distinct(c)
    ensures Without([Slot(tgid, e)] + Without(c, tgid), tgid) == Without(c, tgid)
  {
    var w := Without(c, tgid);
    WithoutKeeps(c, tgid);
    assert forall i :: 0 <= i < |w| ==> w[i] in w;
    NotFound(w, tgid);
    WithoutAbsent(w, tgid);
    assert ([Slot(tgid, e)] + w)[1..] == w;
  }

  /** Finding an entry moves it to the front. */
  lemma TouchIs(c: seq<Slot>, tgid: nat, capacity: nat)
    requires Distinct(c) && |c| <= capacity && capacity >= 1
    ensures match Find(c, tgid)
      case None => Touch(c, tgid) == c
      case Some(e) =>
        && Touch(c, tgid) == [Slot(tgid, e)] + Others(c, tgid, capacity)
        && Find(Touch(c, tgid), tgid) == Some(e)
    ensures Others(Touch(c, tgid), tgid, capacity) == Others(c, tgid, capacity)
  {
    WithoutKeeps(c, tgid);
    if Find(c, tgid).Some? {
      WithoutTwice(c, tgid, Find(c, tgid).value);
    }
  }

  // ---------------------------------------------------------------------------
  // The answer
  // ---------------------------------------------------------------------------

  /** Whether the process procfs shows is taken to have made the decision. */
  predicate LiveDecided(live: Option<Stat>, ts: nat, ns: nat) {
    live.Some? && (live.value.start.None? || StartNs(live.value.start.value, ns) <= ts)
  }

  predicate SameAsLive(e: Entry, live: Option<Stat>) {
    e.start.Some? && live.Some? && live.value.start == e.start
  }

  /** Whether a table entry may name the process behind a decision. */
  predicate Usable(e: Entry, live: Option<Stat>, ts: nat, ns: nat) {
    if LiveDecided(live, ts, ns) then SameAsLive(e, live)
    else if live.Some? then
      e.start.Some? && live.value.start.Some? && e.start != live.value.start && StartNs(e.start.value, ns) <= ts
    else e.start.Some? && StartNs(e.start.value, ns) <= ts
  }

  function Parent(e: Entry, live: Option<Stat>): Option<nat> {
    if e.ppidTried then e.ppid else if SameAsLive(e, live) then live.value.ppid else None
  }

  /**
   An entry is some real process's, if its start time is known: that process ran its executable and had its parent.
   */
  ghost predicate Truthful(w: World, s: Slot) {
    s.entry.start.Some? ==>
      exists q :: Owns(w, q, s.tgid, s.entry.exe, s.entry.ppid) && q.tick == s.entry.start.value
  }

  ghost predicate Owns(w: World, q: Process, tgid: nat, exe: string, ppid: Option<nat>) {
    q in w.procs && q.tgid == tgid && (q, exe) in w.ran && (ppid.Some? ==> (q, ppid.value) in w.parents)
  }

  /**
   What a named executable means. When the process procfs shows is the one
   that decided, it ran that executable; when it is known not to be, or there
   is none, a process of the tgid that started no later than the decision did.
   */
  ghost predicate Names(w: World, ns: nat, info: ProcInfo, live: Option<Stat>, l: Process, tgid: nat, ts: nat) {
    info.exe.Some? ==>
      if LiveDecided(live, ts, ns) then Owns(w, l, tgid, info.exe.value, info.ppid)
      else exists q :: Owns(w, q, tgid, info.exe.value, info.ppid) && StartNs(q.tick, ns) <= ts
  }

  /** A usable entry names the right process. */
  lemma UsableNames(w: World, ns: nat, s: Slot, live: Option<Stat>, l: Process, ts: nat)
    requires Separated(w, ns) && Truthful(w, s) && Shows(w, live, l, s.tgid, ts) && Usable(s.entry, live, ts, ns)
    ensures Names(w, ns, ProcInfo(Some(s.entry.exe), Parent(s.entry, live), s.entry.source), live, l, s.tgid, ts)
    ensures Truthful(w, s.(entry := s.entry.(ppid := Parent(s.entry, live), ppidTried := true)))
  {
    var e := s.entry;
    var q :| Owns(w, q, s.tgid, e.exe, e.ppid) && q.tick == e.start.value;
    if SameAsLive(e, live) {
      SameTickSameProcess(w, ns, q, l);
    }
    assert Owns(w, q, s.tgid, e.exe, Parent(e, live));
  }

  /** Whether the answer comes from the table. */
  predicate FromTable(known: Option<Entry>, live: Option<Stat>, ts: nat, ns: nat) {
    known.Some? && Usable(known.value, live, ts, ns)
  }

  /** What a lookup answers, given the entry of the tgid and what procfs shows. */
  function Answer(known: Option<Entry>, live: Option<Stat>, link: Option<string>, tgid: nat, ts: nat,
                  ns: nat): ProcInfo {
    if tgid == 0 then UNAVAILABLE
    else if FromTable(known, live, ts, ns) then
      ProcInfo(Some(known.value.exe), Parent(known.value, live), known.value.source)
    else if LiveDecided(live, ts, ns) && link.Some? then ProcInfo(link, live.value.ppid, Procfs)
    else UNAVAILABLE
  }

  // ---------------------------------------------------------------------------
  // When a lookup answers, in terms of the processes
  // ---------------------------------------------------------------------------

  /** `q` had started by the decision, and procfs shows nobody, `q` itself, or a holder that started after it. */
  ghost predicate FitsDecision(ns: nat, q: Process, live: Option<Stat>, l: Process, ts: nat) {
    q.tick * ns <= ts && (live.Some? ==> live.value.start.Some? && (l == q || l.tick * ns > ts))
  }

  /** The entry is known to be of a process that fits the decision. */
  ghost predicate EntryFits(w: World, ns: nat, known: Option<Entry>, tgid: nat, live: Option<Stat>, l: Process,
                            ts: nat)
  {
    && known.Some? && known.value.start.Some?
    && exists q :: && q in w.procs && q.tgid == tgid && q.tick == known.value.start.value
                   && FitsDecision(ns, q, live, l, ts)
  }

  /** procfs shows a process that had started by the decision, or cannot tell when it did. */
  ghost predicate Present(ns: nat, live: Option<Stat>, l: Process, ts: nat) {
    live.Some? && (live.value.start.None? || l.tick * ns <= ts)
  }

  /** What an entry says; its parent is procfs's word if it was not asked for before and the process is still shown. */
  ghost function FromEntry(e: Entry, live: Option<Stat>, l: Process): ProcInfo {
    ProcInfo(Some(e.exe),
             if e.ppidTried then e.ppid else if live.Some? && e.start == Some(l.tick) then live.value.ppid else None,
             e.source)
  }

  lemma PresentExactly(w: World, ns: nat, live: Option<Stat>, l: Process, tgid: nat, ts: nat)
    requires Separated(w, ns) && Shows(w, live, l, tgid, ts)
    ensures LiveDecided(live, ts, ns) <==> Present(ns, live, l, ts)
  {
  }

  /** An entry is used exactly if its process fits the decision. */
  lemma UsableExactly(w: World, ns: nat, e: Entry, q: Process, live: Option<Stat>, l: Process, ts: nat)
    requires Separated(w, ns) && q in w.procs && Shows(w, live, l, q.tgid, ts) && e.start == Some(q.tick)
    ensures Usable(e, live, ts, ns) <==> FitsDecision(ns, q, live, l, ts)
  {
    if live.Some? && l.tick == q.tick {
      SameTickSameProcess(w, ns, l, q);
    }
  }

  lemma EntryExactly(w: World, ns: nat, c: seq<Slot>, tgid: nat, live: Option<Stat>, l: Process, ts: nat)
    requires Separated(w, ns) && Distinct(c) && Shows(w, live, l, tgid, ts)
    requires forall s :: s in c ==> Truthful(w, s)
    ensures var known := Find(c, tgid);
      FromTable(known, live, ts, ns) <==> EntryFits(w, ns, known, tgid, live, l, ts)
  {
    var known := Find(c, tgid);
    if known.Some? && known.value.start.Some? {
      FindIs(c, Slot(tgid, known.value));
      hide Find, Distinct;
      var q :| Owns(w, q, tgid, known.value.exe, known.value.ppid) && q.tick == known.value.start.value;
      UsableExactly(w, ns, known.value, q, live, l, ts);
      hide Usable, FitsDecision, Shows;
      forall r | r in w.procs && r.tgid == tgid && r.tick == q.tick ensures r == q {
        SameTickSameProcess(w, ns, r, q);
      }
    }
  }

  /** No process took the tgid over between tick `start` and the decision. */
  ghost predicate NoneSince(w: World, ns: nat, tgid: nat, start: nat, ts: nat) {
    forall r :: r in w.procs && r.tgid == tgid && r.tick * ns <= ts ==> r.tick <= start
  }

  /** The process that decided is the last holder of the tgid to have started by then. */
  lemma ActorIsLast(w: World, ns: nat, p: Process, n: Process, tgid: nat, ts: nat)
    requires Separated(w, ns) && Acted(w, p, tgid, ts) && n in w.procs && n.tgid == tgid && n.tick * ns <= ts
    ensures n == p <==> NoneSince(w, ns, tgid, n.tick, ts)
  {
    forall r | r in w.procs && r.tgid == tgid && r.tick * ns <= ts ensures r == p || r.died < p.tick * ns {
      assert p.died < r.tick * ns ==> ts < r.tick * ns;
    }
    if NoneSince(w, ns, tgid, n.tick, ts) {
      assert p.tick <= n.tick;
      if n != p {
        TickOrder(p.tick, n.tick, ns);
      }
    } else {
      var r :| r in w.procs && r.tgid == tgid && r.tick * ns <= ts && r.tick > n.tick;
      if n == p {
        TickOrder(p.tick, r.tick, ns);
      }
    }
  }

  lemma TickOrder(a: nat, b: nat, ns: nat)
    requires a <= b
    ensures a * ns <= b * ns
  {
  }

  /**
   When a named executable is that of the process that decided. An entry of
   the table names a process of the tgid that had started by the decision; it
   is the one that decided exactly if no other took the tgid over in between.
   procfs names the present holder; it is the one that decided exactly if it
   had started by then, which a readable start time makes sure of.
   */
  lemma NamesTheActor(
    w: World, ns: nat, known: Option<Entry>, q: Process, live: Option<Stat>, link: Option<string>, l: Process,
    p: Process, tgid: nat, ts: nat)
    requires Separated(w, ns) && Acted(w, p, tgid, ts) && Shows(w, live, l, tgid, ts)
    requires live.Some? && link.Some? ==> (l, link.value) in w.ran
    requires known.Some? && known.value.start.Some? ==>
      Owns(w, q, tgid, known.value.exe, known.value.ppid) && q.tick == known.value.start.value
    requires Answer(known, live, link, tgid, ts, ns).exe.Some?
    ensures var info, named := Answer(known, live, link, tgid, ts, ns), if FromTable(known, live, ts, ns) then q else l;
      && Owns(w, named, tgid, info.exe.value, info.ppid)
      && (named == p <==> if FromTable(known, live, ts, ns) then NoneSince(w, ns, tgid, known.value.start.value, ts)
                          else StartNs(l.tick, ns) <= ts)
      && (LiveDecided(live, ts, ns) && live.value.start.Some? ==> named == p)
  {
    if live.Some? {
      HolderActed(w, ns, p, l, tgid, ts);
    }
    if FromTable(known, live, ts, ns) {
      if SameAsLive(known.value, live) {
        SameTickSameProcess(w, ns, q, l);
      }
      hide Acted;
      assert q.tick * ns <= ts;
      ActorIsLast(w, ns, p, q, tgid, ts);
    }
  }

  /**
   Every start time readable, and still another process is named: the entry is
   of an earlier holder, the one that decided is gone, and no process holds the
   tgid, or a later one does.
   */
  lemma StaleEntryMisnames(gone: bool)
    returns (w: World, p: Process, l: Process, known: Entry, live: Option<Stat>)
    ensures Separated(w, 1) && Acted(w, p, 7, 5) && Shows(w, live, l, 7, 5) && Truthful(w, Slot(7, known))
    ensures gone == live.None? && (live.Some? ==> live.value.start.Some?)
    ensures var info := Answer(Some(known), live, None, 7, 5, 1);
      info.exe.Some? && (p, info.exe.value) !in w.ran
  {
    var q := Process(7, 1, 2, 1);
    p, l := Process(7, 5, 6, 5), Process(7, 9, 20, 9);
    w := World({q, p, l}, {(q, "/bin/a"), (p, "/bin/b")}, {});
    known := Entry("/bin/a", None, ExecRecord, true, Some(1));
    live := if gone then None else Some(Stat(None, Some(9)));
    assert Owns(w, q, 7, known.exe, known.ppid);
  }

  /** With an unreadable start time the holder is named though it started after the decision. */
  lemma UnreadableStartMisnames() returns (w: World, p: Process, l: Process, link: string)
    ensures Separated(w, 1) && Acted(w, p, 7, 5) && Shows(w, Some(Stat(None, None)), l, 7, 5) && (l, link) in w.ran
    ensures var info := Answer(None, Some(Stat(None, None)), Some(link), 7, 5, 1);
      info.exe == Some(link) && (p, link) !in w.ran && l.born > 5
  {
    p, l, link := Process(7, 1, 6, 1), Process(7, 9, 20, 9), "/bin/new";
    w := World({p, l}, {(l, link), (p, "/bin/b")}, {});
  }

  class Table {
    const capacity: nat
    const nsPerTick: nat
    var cache: seq<Slot>
    ghost const world: World

    ghost predicate Valid()
      reads this
    {
      && capacity >= 1 && |cache| <= capacity && Distinct(cache)
      && Separated(world, nsPerTick)
      && forall s :: s in cache ==> Truthful(world, s) && !s.entry.source.Unavailable?
    }

    constructor (cap: nat, hz: int, ghost w: World)
      requires Separated(w, 1_000_000_000 / if hz > 0 then hz else 100)
      ensures Valid() && cache == [] && capacity == (if cap == 0 then 1 else cap) && world == w
      ensures nsPerTick == 1_000_000_000 / if hz > 0 then hz else 100
    {
      capacity := if cap == 0 then 1 else cap;
      nsPerTick := 1_000_000_000 / if hz > 0 then hz else 100;
      cache := [];
      world := w;
    }

    /** Records a committed exec of `p` at `ts`; a start time that reads later than the exec is another process's. */
    method RecordExec(tgid: nat, exe: string, ts: nat, live: Option<Stat>, ghost p: Process, ghost l: Process)
      requires Valid()
      requires Acted(world, p, tgid, ts) && (p, exe) in world.ran && Shows(world, live, l, tgid, ts)
      modifies this
      ensures Valid()
      ensures Find(cache, tgid) == Some(Entry(exe, None, ExecRecord, false,
        if live.Some? && live.value.start.Some? && l == p then live.value.start else None))
      ensures cache == [Slot(tgid, Find(cache, tgid).value)] + Others(old(cache), tgid, capacity)
    {
      var start := if live.Some? && live.value.start.Some? && StartNs(live.value.start.value, nsPerTick) <= ts
                   then live.value.start else None;
      var e := Entry(exe, None, ExecRecord, false, start);
      if live.Some? {
        HolderActed(world, nsPerTick, p, l, tgid, ts);
      }
      assert start.Some? ==> Owns(world, p, tgid, exe, None);
      PutKeeps(cache, tgid, e, capacity);
      PutIs(cache, tgid, e, capacity);
      cache := Put(cache, tgid, e, capacity);
    }

    /**
     What is known about the process `tgid` that made a decision at `ts`; `link` is the executable procfs shows. The
     entry of the tgid answers if it fits the decision, otherwise procfs does if it shows who decided; either becomes
     the most recent entry.
     */
    method Lookup(tgid: nat, ts: nat, live: Option<Stat>, link: Option<string>, ghost l: Process)
      returns (info: ProcInfo)
      requires Valid()
      requires Shows(world, live, l, tgid, ts) && (live.Some? && link.Some? ==> (l, link.value) in world.ran)
      modifies this
      ensures Valid() && Names(world, nsPerTick, info, live, l, tgid, ts)
      ensures var known := old(Find(cache, tgid));
        if tgid != 0 && EntryFits(world, nsPerTick, known, tgid, live, l, ts) then
          && info == FromEntry(known.value, live, l)
          && cache == [Slot(tgid, known.value.(ppid := info.ppid, ppidTried := true))]
                      + Others(old(cache), tgid, capacity)
        else if tgid != 0 && Present(nsPerTick, live, l, ts) && link.Some? then
          && info == ProcInfo(link, live.value.ppid, Procfs)
          && cache == [Slot(tgid, Entry(link.value, live.value.ppid, Procfs, true, live.value.start))]
                      + Others(old(cache), tgid, capacity)
        else
          && info == UNAVAILABLE
          && cache == if tgid != 0 && known.Some?
                      then [Slot(tgid, known.value)] + Others(old(cache), tgid, capacity) else old(cache)
      ensures info == Answer(old(Find(cache, tgid)), live, link, tgid, ts, nsPerTick)
    {
      if tgid == 0 {
        return UNAVAILABLE;
      }
      var known := Find(cache, tgid);
      EntryExactly(world, nsPerTick, cache, tgid, live, l, ts);
      PresentExactly(world, nsPerTick, live, l, tgid, ts);
      hide EntryFits, Present;
      TouchKeeps(cache, tgid);
      TouchIs(cache, tgid, capacity);
      cache := Touch(cache, tgid);
      if known.Some? && Usable(known.value, live, ts, nsPerTick) {
        info := UseEntry(tgid, ts, live, known.value, l);
        return;
      }
      if !LiveDecided(live, ts, nsPerTick) || link.None? {
        return UNAVAILABLE;
      }
      var e := Entry(link.value, live.value.ppid, Procfs, true, live.value.start);
      assert Owns(world, l, tgid, e.exe, e.ppid);
      PutKeeps(cache, tgid, e, capacity);
      PutIs(cache, tgid, e, capacity);
      cache := Put(cache, tgid, e, capacity);
      return ProcInfo(Some(e.exe), e.ppid, Procfs);
    }

    /** Names the process by its entry; the first time, its parent is asked of procfs and kept. */
    method UseEntry(tgid: nat, ts: nat, live: Option<Stat>, e: Entry, ghost l: Process) returns (info: ProcInfo)
      requires Valid() && Shows(world, live, l, tgid, ts)
      requires Find(cache, tgid) == Some(e) && Usable(e, live, ts, nsPerTick)
      requires cache == [Slot(tgid, e)] + Others(cache, tgid, capacity)
      modifies this
      ensures Valid() && Names(world, nsPerTick, info, live, l, tgid, ts)
      ensures info == ProcInfo(Some(e.exe), Parent(e, live), e.source) == FromEntry(e, live, l)
      ensures cache == [Slot(tgid, e.(ppid := info.ppid, ppidTried := true))] + Others(old(cache), tgid, capacity)
    {
      FindIs(cache, Slot(tgid, e));
      UsableNames(world, nsPerTick, Slot(tgid, e), live, l, ts);
      var ppid := Parent(e, live);
      if !e.ppidTried {
        var kept := e.(ppid := ppid, ppidTried := true);
        PutKeeps(cache, tgid, kept, capacity);
        PutIs(cache, tgid, kept, capacity);
        cache := Put(cache, tgid, kept, capacity);
      }
      return ProcInfo(Some(e.exe), ppid, e.source);
    }
  }

  /**
   The commonest lookup: a process whose exec was recorded while it was shown is named by that exec in every later
   decision, while it is shown, or once nobody or only a later holder of the tgid is.
   */
  method ExecThenLookup(t: Table, tgid: nat, exe: string, ts: nat, shown: Stat, later: nat, live: Option<Stat>,
                        link: Option<string>, ghost p: Process, ghost l: Process) returns (info: ProcInfo)
    requires t.Valid() && tgid != 0 && ts <= later
    requires Acted(t.world, p, tgid, ts) && (p, exe) in t.world.ran
    requires Shows(t.world, Some(shown), p, tgid, ts) && shown.start.Some?
    requires Shows(t.world, live, l, tgid, later) && (live.Some? && link.Some? ==> (l, link.value) in t.world.ran)
    requires live.Some? ==> live.value.start.Some? && (l == p || l.tick * t.nsPerTick > later)
    modifies t
    ensures t.Valid()
    ensures info == ProcInfo(Some(exe), if live.Some? && l == p then live.value.ppid else None, ExecRecord)
  {
    t.RecordExec(tgid, exe, ts, Some(shown), p, p);
    info := t.Lookup(tgid, later, live, link, l);
    assert FitsDecision(t.nsPerTick, p, live, l, later);
    if live.Some? && l.tick == p.tick {
      SameTickSameProcess(t.world, t.nsPerTick, l, p);
    }
  }

  lemma StaleWorld(q: Process, p: Process, w: World)
    requires q == Process(7, 1, 2, 1) && p == Process(7, 5, 6, 5)
    requires w == World({q, p}, {(q, "/bin/a"), (p, "/bin/b")}, {})
    ensures Separated(w, 1) && Acted(w, q, 7, 2) && Acted(w, p, 7, 5)
    ensures Shows(w, Some(Stat(None, Some(1))), q, 7, 2) && Shows(w, None, p, 7, 5)
    ensures (q, "/bin/a") in w.ran && (p, "/bin/a") !in w.ran
  {
  }

  /**
   The code gets there: an exec is recorded while its process lives, the next holder decides and is gone, and the first
   is named.
   */
  method StaleLookup() returns (info: ProcInfo, ghost w: World, ghost p: Process)
    ensures Separated(w, 1) && Acted(w, p, 7, 5)
    ensures info.exe.Some? && (p, info.exe.value) !in w.ran
  {
    hide Separated, Acted, Shows, Find, Names, Truthful, Distinct;
    ghost var q := Process(7, 1, 2, 1);
    p := Process(7, 5, 6, 5);
    w := World({q, p}, {(q, "/bin/a"), (p, "/bin/b")}, {});
    StaleWorld(q, p, w);
    var t := new Table(4, 1_000_000_000, w);
    t.RecordExec(7, "/bin/a", 2, Some(Stat(None, Some(1))), q, q);
    info := t.Lookup(7, 5, None, None, p);
  }
}
