/**
 From the connections an agent made to the network part of its profile, through
 the audit records: the profile compiles, allows nothing that was not seen, and
 allows everything that was, but at a place that already has all the ranges the
 kernel holds.
 */
module PortLearn {
  import opened Wrappers
  import opened NetPolicy
  import opened NetParse
  import opened PortSuggest
  import NetKernel

  /** The connections as the audit records name them. */
  function Records(made: seq<Seen>): (r: seq<Seen>)
    ensures |r| == |made|
  {
    seq(|made|, i requires 0 <= i < |made| => Seen(AsRecorded(made[i].ip), made[i].proto, made[i].ports))
  }

  function PlaceMade(s: Seen): Where {
    PlaceOf(AsRecorded(s.ip))
  }

  // ---------------------------------------------------------------------------
  // What was seen, as a list
  // ---------------------------------------------------------------------------

  /** The list holds the groups, each once. */
  ghost predicate Lists(observed: seq<Observed>, rules: Grouped) {
    && |observed| == |rules|
    && (forall k :: 0 <= k < |observed| ==>
                      && (observed[k].dest, observed[k].proto) in rules
                      && observed[k].ports == rules[(observed[k].dest, observed[k].proto)])
    && forall key :: key in rules ==> exists k :: 0 <= k < |observed| && (observed[k].dest, observed[k].proto) == key
  }

  /** The groups in some order; no result depends on which. */
  method ListGroups(rules: Grouped) returns (observed: seq<Observed>)
    ensures Lists(observed, rules)
  {
    observed := [];
    var left := rules.Keys;
    while left != {}
      invariant left <= rules.Keys && |observed| + |left| == |rules|
      invariant forall k :: 0 <= k < |observed| ==>
                              && (observed[k].dest, observed[k].proto) in rules
                              && observed[k].ports == rules[(observed[k].dest, observed[k].proto)]
      invariant forall key :: key in rules && key !in left ==>
                                exists k :: 0 <= k < |observed| && (observed[k].dest, observed[k].proto) == key
      decreases |left|
    {
      var key :| key in left;
      ghost var before := observed;
      observed := observed + [Observed(key.0, key.1, rules[key])];
      assert forall k :: 0 <= k < |before| ==> observed[k] == before[k];
      assert (observed[|before|].dest, observed[|before|].proto) == key;
      left := left - {key};
    }
    assert |rules.Keys| == |rules|;
  }

  // ---------------------------------------------------------------------------
  // What the rules allow
  // ---------------------------------------------------------------------------

  /** A destination counts as one that was connected to: the same address, or loopback both. */
  predicate SamePlace(ip: IpAddr, addr: Address) {
    addr == Normalize(ip) || (LoopbackNet() <= addr && LoopbackNet() <= Normalize(ip))
  }

  /** A query an agent made, up to loopback addresses and protocols without a bit of their own. */
  ghost predicate WasMade(made: seq<Seen>, q: Query) {
    exists k :: && 0 <= k < |made| && SamePlace(made[k].ip, q.addr) && q.port in made[k].ports
                && NetKernel.ProtoBit(made[k].proto) & q.proto != 0
  }

  /** A rule learned from a connection has the bit the kernel gives its protocol. */
  lemma SameBit(proto: nat)
    ensures ProtoBit(proto) == NetKernel.ProtoBit(proto)
  {
  }

  lemma PlaceContains(s: Seen, addr: Address)
    requires WhereNet(PlaceMade(s)) <= addr
    ensures SamePlace(s.ip, addr)
  {
    PlacesAreUnmapped(s.ip);
    hide MappedSpace, LoopbackNet;
  }

  lemma PlaceHoldsAddress(s: Seen)
    ensures WhereNet(PlaceMade(s)) <= Normalize(s.ip)
  {
    PlacesAreUnmapped(s.ip);
    hide MappedSpace, LoopbackNet;
  }

  /** The rule of the `k`-th observation, if it kept a range. */
  function LearnedRule(learned: seq<Learned>, firstId: nat, k: nat): Rule
    requires k < |learned| && firstId + |learned| < 0x1_0000_0000
  {
    var l := learned[k];
    Rule(firstId + k, Allow, WhereNet(l.dest), l.kept, ProtoBit(l.proto))
  }

  lemma {:induction false} RuleFrom(learned: seq<Learned>, firstId: nat, i: nat) returns (k: nat)
    requires firstId + |learned| < 0x1_0000_0000 && i < |LearnedRules(learned, firstId)|
    ensures k < |learned| && LearnedRules(learned, firstId)[i] == LearnedRule(learned, firstId, k)
  {
    hide WhereNet, ProtoBit;
    var n := |learned| - 1;
    if i < |LearnedRules(learned[..n], firstId)| {
      k := RuleFrom(learned[..n], firstId, i);
    } else {
      k := n;
    }
  }

  lemma {:induction false} RuleOfKept(learned: seq<Learned>, firstId: nat, k: nat)
    requires firstId + |learned| < 0x1_0000_0000 && k < |learned| && learned[k].kept != []
    ensures LearnedRule(learned, firstId, k) in LearnedRules(learned, firstId)
    decreases |learned|
  {
    hide WhereNet, ProtoBit;
    var n := |learned| - 1;
    if k < n {
      RuleOfKept(learned[..n], firstId, k);
    }
  }

  lemma AnyPortIsDenotes(ranges: seq<PortRange>, p: U16)
    ensures AnyPort(ranges, p) <==> Denotes(ranges, p)
  {
    if AnyPort(ranges, p) {
      var i :| 0 <= i < |ranges| && InRange(ranges[i].lo, ranges[i].hi, p);
    }
    if Denotes(ranges, p) {
      var i :| 0 <= i < |ranges| && ranges[i].lo <= p <= ranges[i].hi;
      assert InRange(ranges[i].lo, ranges[i].hi, p);
    }
  }

  lemma {:induction false} KeptForGrows(learned: seq<Learned>, n: nat, w: Where)
    requires n <= |learned|
    ensures KeptFor(learned[..n], w) <= KeptFor(learned, w)
    decreases |learned| - n
  {
    if n == |learned| {
      assert learned[..n] == learned;
    } else {
      assert learned[..n + 1][..n] == learned[..n];
      KeptForGrows(learned, n + 1, w);
    }
  }

  /** What was learned, and the connections it was learned from. */
  ghost predicate LearnedAll(learned: seq<Learned>, observed: seq<Observed>, rules: Grouped, made: seq<Seen>) {
    && Lists(observed, rules) && |learned| == |observed|
    && (forall k :: 0 <= k < |observed| ==> LearnedFrom(learned[k], observed[k]))
    && HoldsSeen(rules, Records(made))
    && (forall w :: KeptFor(learned, w) <= MAX_RANGES)
    && (forall k :: 0 <= k < |learned| ==> DroppedOnlyWhenFull(learned, k))
  }

  /** A port of an observation is one of a connection. */
  lemma ObservedWasMade(observed: seq<Observed>, rules: Grouped, made: seq<Seen>, k: nat, p: U16) returns (m: nat)
    requires Lists(observed, rules) && k < |observed| && p in observed[k].ports
    requires HoldsSeen(rules, Records(made))
    ensures m < |made| && PlaceMade(made[m]) == observed[k].dest
    ensures made[m].proto == observed[k].proto && p in made[m].ports
  {
    hide PlaceOf, AsRecorded;
    var r := Records(made);
    assert p in PortsAt(rules, observed[k].dest, observed[k].proto);
    assert SeenAt(r, observed[k].dest, observed[k].proto, p);
    m :| 0 <= m < |r| && PlaceOf(r[m].ip) == observed[k].dest && r[m].proto == observed[k].proto && p in r[m].ports;
  }

  /** Nothing is allowed that was not seen. */
  lemma AllowedWasMade(learned: seq<Learned>, observed: seq<Observed>, rules: Grouped, made: seq<Seen>, firstId: nat,
                       i: nat, q: Query)
    requires LearnedAll(learned, observed, rules, made) && firstId + |learned| < 0x1_0000_0000
    requires i < |LearnedRules(learned, firstId)| && Matches(LearnedRules(learned, firstId)[i], Allow, q)
    ensures WasMade(made, q)
  {
    var k := RuleFrom(learned, firstId, i);
    AnyPortIsDenotes(learned[k].kept, q.port);
    KeptAndDropped(learned[k], observed[k], q.port);
    LearnedDest(learned[k], observed[k]);
    hide LearnedRules, WhereNet, Lists, LearnedFrom, HoldsSeen, Records, KeptFor, DroppedOnlyWhenFull;
    hide AnyPort, Denotes, ProtoBit, SamePlace, PlaceOf, AsRecorded;
    var m := ObservedWasMade(observed, rules, made, k, q.port);
    SameBit(made[m].proto);
    PlaceContains(made[m], q.addr);
  }

  /** The observation a connection went into. */
  lemma MadeIsObserved(observed: seq<Observed>, rules: Grouped, made: seq<Seen>, m: nat, p: U16) returns (k: nat)
    requires Lists(observed, rules) && m < |made| && p in made[m].ports
    requires HoldsSeen(rules, Records(made))
    ensures k < |observed| && observed[k].dest == PlaceMade(made[m]) && observed[k].proto == made[m].proto
    ensures p in observed[k].ports
  {
    hide PlaceOf, AsRecorded;
    var r := Records(made);
    assert PlaceOf(r[m].ip) == PlaceMade(made[m]) && r[m].proto == made[m].proto && p in r[m].ports;
    assert SeenAt(r, PlaceMade(made[m]), made[m].proto, p);
    k :| 0 <= k < |observed| && (observed[k].dest, observed[k].proto) == (PlaceMade(made[m]), made[m].proto);
  }

  /** The ranges the rules have for one prefix. */
  function RangesAt(rules: seq<Rule>, net: Prefix): nat {
    RangeCount(rules, Members(rules, Allow, net))
  }

  /** What was seen is allowed, or its place has all the ranges there is room for. */
  lemma MadeIsAllowed(learned: seq<Learned>, observed: seq<Observed>, rules: Grouped, made: seq<Seen>, firstId: nat,
                      m: nat, p: U16)
    requires LearnedAll(learned, observed, rules, made) && firstId + |learned| < 0x1_0000_0000
    requires forall k :: 0 <= k < |learned| ==> Unmapped(learned[k].dest)
    requires m < |made| && p in made[m].ports
    ensures var q, r := Query(Normalize(made[m].ip), p, ProtoBit(made[m].proto)), LearnedRules(learned, firstId);
            || (exists i :: 0 <= i < |r| && Matches(r[i], Allow, q))
            || RangesAt(r, WhereNet(PlaceMade(made[m]))) == MAX_RANGES
  {
    var k := MadeIsObserved(observed, rules, made, m, p);
    LearnedDest(learned[k], observed[k]);
    KeptAndDropped(learned[k], observed[k], p);
    assert DroppedOnlyWhenFull(learned, k) && KeptFor(learned, learned[k].dest) <= MAX_RANGES;
    hide LearnedAll, LearnedFrom, LearnedRules, Unmapped, KeptFor, DroppedOnlyWhenFull, PlaceMade, WhereNet, Matches;
    if Denotes(learned[k].kept, p) {
      KeptIsAllowed(learned, firstId, k, made[m], p);
    } else {
      assert learned[k].dropped != [];
      DroppedIsFull(learned, firstId, k);
    }
  }

  lemma DroppedIsFull(learned: seq<Learned>, firstId: nat, k: nat)
    requires firstId + |learned| < 0x1_0000_0000 && k < |learned| && learned[k].dropped != []
    requires forall j :: 0 <= j < |learned| ==> Unmapped(learned[j].dest)
    requires DroppedOnlyWhenFull(learned, k) && KeptFor(learned, learned[k].dest) <= MAX_RANGES
    ensures RangesAt(LearnedRules(learned, firstId), WhereNet(learned[k].dest)) == MAX_RANGES
  {
    hide Unmapped, KeptFor, LearnedRules, WhereNet;
    KeptForGrows(learned, k + 1, learned[k].dest);
    MembersCount(learned, firstId, learned[k].dest);
  }

  lemma KeptIsAllowed(learned: seq<Learned>, firstId: nat, k: nat, s: Seen, p: U16)
    requires k < |learned| && firstId + |learned| < 0x1_0000_0000 && Denotes(learned[k].kept, p)
    requires learned[k].dest == PlaceMade(s) && learned[k].proto == s.proto
    ensures var q, r := Query(Normalize(s.ip), p, ProtoBit(s.proto)), LearnedRules(learned, firstId);
            exists i :: 0 <= i < |r| && Matches(r[i], Allow, q)
  {
    AnyPortIsDenotes(learned[k].kept, p);
    PlaceHoldsAddress(s);
    assert ProtoBit(s.proto) & ProtoBit(s.proto) != 0;
    hide WhereNet, ProtoBit, AnyPort, PlaceOf, AsRecorded, LearnedRules;
    RuleOfKept(learned, firstId, k);
    var r := LearnedRules(learned, firstId);
    var i :| 0 <= i < |r| && r[i] == LearnedRule(learned, firstId, k);
    assert Matches(r[i], Allow, Query(Normalize(s.ip), p, ProtoBit(s.proto)));
  }

  // ---------------------------------------------------------------------------
  // The suggestion
  // ---------------------------------------------------------------------------

  lemma LearnedUnmapped(learned: seq<Learned>, observed: seq<Observed>, rules: Grouped, made: seq<Seen>)
    requires LearnedAll(learned, observed, rules, made) && PlacesSeen(rules, Records(made))
    ensures forall k :: 0 <= k < |learned| ==> Unmapped(learned[k].dest)
  {
    hide Unmapped, PlaceOf, AsRecorded, HoldsSeen, KeptFor, DroppedOnlyWhenFull;
    forall k | 0 <= k < |learned| ensures Unmapped(learned[k].dest) {
      LearnedDest(learned[k], observed[k]);
      var key := (observed[k].dest, observed[k].proto);
      var m :| 0 <= m < |made| && PlaceOf(Records(made)[m].ip) == key.0;
      PlacesAreUnmapped(made[m].ip);
    }
  }

  /** All that is allowed was seen. */
  ghost predicate OnlyMade(prof: Profile, made: seq<Seen>) {
    forall q: Query :: Decide(prof, q).action == Allow ==> WasMade(made, q)
  }

  /** All that was seen is allowed, where there was room. */
  ghost predicate AllMade(prof: Profile, made: seq<Seen>) {
    forall m, p: U16 :: 0 <= m < |made| && p in made[m].ports ==>
      || Decide(prof, Query(Normalize(made[m].ip), p, NetKernel.ProtoBit(made[m].proto))).action == Allow
      || RangesAt(prof.rules, WhereNet(PlaceMade(made[m]))) == 8
  }

  lemma LearnedDecides(learned: seq<Learned>, firstId: nat, prof: Profile, q: Query)
    requires firstId + |learned| < 0x1_0000_0000
    requires prof.rules == LearnedRules(learned, firstId) && prof.netDefault == Deny
    ensures Decide(prof, q).action == Allow <==> Best(prof.rules, Allow, q).Some?
  {
    var d := Best(prof.rules, Deny, q);
    if d.Some? {
      var k := RuleFrom(learned, firstId, d.value);
    }
  }

  lemma SuggestedDecides(learned: seq<Learned>, observed: seq<Observed>, rules: Grouped, made: seq<Seen>, firstId: nat,
                         prof: Profile)
    requires LearnedAll(learned, observed, rules, made) && firstId + |learned| < 0x1_0000_0000
    requires forall k :: 0 <= k < |learned| ==> Unmapped(learned[k].dest)
    requires prof.rules == LearnedRules(learned, firstId) && prof.netDefault == Deny
    ensures OnlyMade(prof, made) && AllMade(prof, made)
  {
    hide LearnedAll, LearnedRules, Unmapped, Matches, WasMade, Decide, RangesAt, PlaceMade, WhereNet, ProtoBit;
    hide NetKernel.ProtoBit;
    forall q: Query | Decide(prof, q).action == Allow ensures WasMade(made, q) {
      LearnedDecides(learned, firstId, prof, q);
      AllowedWasMade(learned, observed, rules, made, firstId, Best(prof.rules, Allow, q).value, q);
    }
    forall m, p: U16 | 0 <= m < |made| && p in made[m].ports
      ensures || Decide(prof, Query(Normalize(made[m].ip), p, NetKernel.ProtoBit(made[m].proto))).action == Allow
              || RangesAt(prof.rules, WhereNet(PlaceMade(made[m]))) == 8
    {
      SameBit(made[m].proto);
      MadeIsAllowed(learned, observed, rules, made, firstId, m, p);
      LearnedDecides(learned, firstId, prof, Query(Normalize(made[m].ip), p, ProtoBit(made[m].proto)));
    }
  }

  /**
   Main result: from any connections, the network part of the suggested
   profile compiles; it allows only what was seen; and it allows all that was
   seen, but at a place whose rules already have every range the kernel holds.
   */
  method Suggest(made: seq<Seen>, id: U32, name: string, firstId: nat) returns (prof: Profile)
    requires firstId + |made| < 0x1_0000_0000
    ensures prof.id == id && prof.name == name && prof.mode == Enforce && prof.netDefault == Deny
    ensures TrieFor(prof, Allow).Ok? && TrieFor(prof, Deny) == Ok([])
    ensures OnlyMade(prof, made) && AllMade(prof, made)
  {
    hide OnlyMade, AllMade, TrieFor, LearnedRules, Unmapped, HoldsSeen, KeptFor, DroppedOnlyWhenFull, Lists;
    hide LearnedFrom, PlacesSeen, Records;
    var rules := GroupByPlace(Records(made));
    var observed := ListGroups(rules);
    assert |observed| == |rules| by { ListsAll(observed, rules); }
    var learned := Learn(observed);
    assert LearnedAll(learned, observed, rules, made);
    LearnedUnmapped(learned, observed, rules, made);
    prof := Profile(id, name, Enforce, Deny, LearnedRules(learned, firstId));
    LearnedRulesCompile(learned, firstId, prof);
    SuggestedDecides(learned, observed, rules, made, firstId, prof);
  }

  lemma ListsAll(observed: seq<Observed>, rules: Grouped)
    requires Lists(observed, rules)
    ensures |observed| == |rules|
  {
  }
}
