/**
 Learning network rules from observed connections: the observed ports as
 canonical ranges, a budget of ranges per address over all protocols, and the
 reason the learned rules always fit the compiler's limit.
 */
module PortSuggest {
  import opened Wrappers
  import opened BitStrings
  import opened NetPolicy
  import opened NetParse

  // ---------------------------------------------------------------------------
  // Ports as ranges
  // ---------------------------------------------------------------------------

  const PORTS: nat := 0x1_0000

  /** The ports of a set below `n`, in ascending order. */
  function SortedPorts(ports: set<U16>, n: nat): (r: seq<U16>)
    requires n <= PORTS
    ensures forall p: U16 :: p in r <==> p in ports && p < n
    ensures forall i, j :: 0 <= i < j < |r| ==> r[i] < r[j]
  {
    if n == 0 then []
    else
      var before := SortedPorts(ports, n - 1);
      var last: U16 := n - 1;
      assert forall i :: 0 <= i < |before| ==> before[i] in before;
      if last in ports then before + [last] else before
  }

  predicate Denotes(ranges: seq<PortRange>, p: U16) {
    exists k :: 0 <= k < |ranges| && ranges[k].lo <= p <= ranges[k].hi
  }

  /** Sorted, disjoint, non-adjacent, non-empty ranges. */
  predicate Canonical(ranges: seq<PortRange>) {
    && (forall k :: 0 <= k < |ranges| ==> ranges[k].lo <= ranges[k].hi)
    && (forall k, m :: 0 <= k < m < |ranges| ==> ranges[k].hi + 1 < ranges[m].lo)
  }

  /** Extends the last range by an adjacent port, or starts a new one. */
  function AddPort(ranges: seq<PortRange>, p: U16): seq<PortRange> {
    if ranges != [] && ranges[|ranges| - 1].hi + 1 == p
    then ranges[|ranges| - 1 := PortRange(ranges[|ranges| - 1].lo, p)]
    else ranges + [PortRange(p, p)]
  }

  lemma AddPortCanonical(ranges: seq<PortRange>, p: U16)
    requires Canonical(ranges)
    requires forall k :: 0 <= k < |ranges| ==> ranges[k].hi < p
    ensures Canonical(AddPort(ranges, p))
    ensures forall k :: 0 <= k < |AddPort(ranges, p)| ==> AddPort(ranges, p)[k].hi <= p
  {
  }

  lemma AddPortDenotes(ranges: seq<PortRange>, p: U16, x: U16)
    requires Canonical(ranges)
    ensures Denotes(AddPort(ranges, p), x) <==> Denotes(ranges, x) || x == p
  {
    var n := |ranges|;
    var r := AddPort(ranges, p);
    if Denotes(ranges, x) {
      var k :| 0 <= k < n && ranges[k].lo <= x <= ranges[k].hi;
      assert r[k].lo <= x <= r[k].hi;
    }
    if x == p {
      assert r[|r| - 1].hi == x;
      assert r[|r| - 1].lo <= x;
    }
    if Denotes(r, x) && x != p {
      var k :| 0 <= k < |r| && r[k].lo <= x <= r[k].hi;
      assert k < n && ranges[k].lo <= x <= ranges[k].hi;
    }
  }

  method PortRanges(ports: set<U16>) returns (out: seq<PortRange>)
    ensures Canonical(out)
    ensures forall p: U16 :: Denotes(out, p) <==> p in ports
  {
    out := [];
    var sorted := SortedPorts(ports, PORTS);
    for i := 0 to |sorted|
      invariant Canonical(out)
      invariant forall k :: 0 <= k < |out| ==> i > 0 && out[k].hi <= sorted[i - 1]
      invariant forall p: U16 :: Denotes(out, p) <==> p in sorted[..i]
    {
      AddPortCanonical(out, sorted[i]);
      forall x: U16 ensures Denotes(AddPort(out, sorted[i]), x) <==> Denotes(out, x) || x == sorted[i] {
        AddPortDenotes(out, sorted[i], x);
      }
      assert sorted[..i + 1] == sorted[..i] + [sorted[i]];
      hide Denotes, AddPort;
      out := AddPort(out, sorted[i]);
    }
    assert sorted[..|sorted|] == sorted;
  }

  lemma InFirst(a: seq<PortRange>, p: U16)
    ensures a != [] && a[0].lo <= p <= a[0].hi ==> Denotes(a, p)
  {
  }

  /** The port after the first range is not denoted. */
  lemma GapAfterFirst(a: seq<PortRange>, p: U16)
    requires Canonical(a)
    ensures a != [] && p == a[0].hi + 1 ==> !Denotes(a, p)
  {
  }

  lemma LowestFirst(a: seq<PortRange>, p: U16)
    requires Canonical(a)
    ensures a != [] && Denotes(a, p) ==> a[0].lo <= p
  {
  }

  /** A set of ports has only one canonical list of ranges. */
  lemma {:induction false} CanonicalUnique(a: seq<PortRange>, b: seq<PortRange>)
    requires Canonical(a) && Canonical(b)
    requires forall p: U16 :: Denotes(a, p) <==> Denotes(b, p)
    ensures a == b
  {
    if a != [] {
      InFirst(a, a[0].lo);
    }
    if b != [] {
      InFirst(b, b[0].lo);
    }
    if a != [] && b != [] {
      FirstRange(a, b);
      forall p: U16 ensures Denotes(a[1..], p) <==> Denotes(b[1..], p) {
        TailDenotes(a, p);
        TailDenotes(b, p);
      }
      CanonicalUnique(a[1..], b[1..]);
      assert a == [a[0]] + a[1..] && b == [b[0]] + b[1..];
    }
  }

  lemma TailDenotes(a: seq<PortRange>, p: U16)
    requires Canonical(a) && a != []
    ensures Denotes(a[1..], p) <==> Denotes(a, p) && p > a[0].hi
  {
    if Denotes(a[1..], p) {
      var k :| 0 <= k < |a[1..]| && a[1..][k].lo <= p <= a[1..][k].hi;
      assert a[k + 1] == a[1..][k];
    }
    if Denotes(a, p) && p > a[0].hi {
      var k :| 0 <= k < |a| && a[k].lo <= p <= a[k].hi;
      assert a[1..][k - 1] == a[k];
    }
  }

  lemma FirstRange(a: seq<PortRange>, b: seq<PortRange>)
    requires Canonical(a) && Canonical(b) && a != [] && b != []
    requires forall p: U16 :: Denotes(a, p) <==> Denotes(b, p)
    ensures a[0] == b[0]
  {
    hide Denotes;
    InFirst(a, a[0].lo);
    InFirst(b, b[0].lo);
    LowestFirst(a, b[0].lo);
    LowestFirst(b, a[0].lo);
    if a[0].hi < 0xffff {
      GapAfterFirst(a, a[0].hi + 1);
      InFirst(b, a[0].hi + 1);
    }
    if b[0].hi < 0xffff {
      GapAfterFirst(b, b[0].hi + 1);
      InFirst(a, b[0].hi + 1);
    }
  }

  // ---------------------------------------------------------------------------
  // The budget
  // ---------------------------------------------------------------------------

  /** Where a learned rule applies: loopback is one group, every other address its own. */
  datatype Where = Loopback | Host4(v4: V4Address) | Host6(v6: Address)

  /** Ports observed for one place and protocol. */
  datatype Observed = Observed(dest: Where, proto: nat, ports: set<U16>)

  /** Connections seen to one address. */
  datatype Seen = Seen(ip: IpAddr, proto: nat, ports: set<U16>)

  function PlaceOf(ip: IpAddr): Where {
    match ip
    case V4(a) => if LoopbackNet() <= Normalize(ip) then Loopback else Host4(a)
    case V6(a) => Host6(a)
  }

  /** A port was seen for a place and protocol. */
  ghost predicate SeenAt(seen: seq<Seen>, dest: Where, proto: nat, p: U16) {
    exists k :: 0 <= k < |seen| && PlaceOf(seen[k].ip) == dest && seen[k].proto == proto && p in seen[k].ports
  }

  lemma SeenAtNext(seen: seq<Seen>, s: Seen, dest: Where, proto: nat, p: U16)
    ensures SeenAt(seen + [s], dest, proto, p) <==>
              SeenAt(seen, dest, proto, p) || (PlaceOf(s.ip) == dest && s.proto == proto && p in s.ports)
  {
    hide PlaceOf;
    var all := seen + [s];
    assert all[|seen|] == s;
    if SeenAt(seen, dest, proto, p) {
      var k :| 0 <= k < |seen| && PlaceOf(seen[k].ip) == dest && seen[k].proto == proto && p in seen[k].ports;
      assert all[k] == seen[k];
    }
  }

  type Grouped = map<(Where, nat), set<U16>>

  function PortsAt(rules: Grouped, dest: Where, proto: nat): set<U16> {
    if (dest, proto) in rules then rules[(dest, proto)] else {}
  }

  function AddSeen(rules: Grouped, s: Seen): Grouped {
    var key := (PlaceOf(s.ip), s.proto);
    rules[key := PortsAt(rules, key.0, key.1) + s.ports]
  }

  lemma AddSeenPorts(seen: seq<Seen>, rules: Grouped, s: Seen, dest: Where, proto: nat, p: U16)
    requires SeenAt(seen, dest, proto, p) <==> p in PortsAt(rules, dest, proto)
    ensures SeenAt(seen + [s], dest, proto, p) <==> p in PortsAt(AddSeen(rules, s), dest, proto)
  {
    SeenAtNext(seen, s, dest, proto, p);
    hide SeenAt, PlaceOf;
  }

  /** Every group is of a place that was seen. */
  ghost predicate PlacesSeen(rules: Grouped, seen: seq<Seen>) {
    forall key :: key in rules ==> exists k :: 0 <= k < |seen| && PlaceOf(seen[k].ip) == key.0
  }

  lemma AddSeenPlaces(rules: Grouped, seen: seq<Seen>, i: nat)
    requires PlacesSeen(rules, seen) && i < |seen|
    ensures PlacesSeen(AddSeen(rules, seen[i]), seen) && |AddSeen(rules, seen[i])| <= |rules| + 1
  {
    var key := (PlaceOf(seen[i].ip), seen[i].proto);
    hide PlaceOf, PortsAt;
    assert AddSeen(rules, seen[i]).Keys == rules.Keys + {key};
  }

  /** The groups hold exactly the ports seen per place and protocol. */
  ghost predicate HoldsSeen(rules: Grouped, seen: seq<Seen>) {
    forall w, pr: nat, p: U16 :: SeenAt(seen, w, pr, p) <==> p in PortsAt(rules, w, pr)
  }

  lemma HoldsNext(rules: Grouped, seen: seq<Seen>, s: Seen)
    requires HoldsSeen(rules, seen)
    ensures HoldsSeen(AddSeen(rules, s), seen + [s])
  {
    hide SeenAt, PortsAt, AddSeen;
    forall w, pr: nat, p: U16 ensures SeenAt(seen + [s], w, pr, p) <==> p in PortsAt(AddSeen(rules, s), w, pr) {
      AddSeenPorts(seen, rules, s, w, pr, p);
    }
  }

  lemma NothingSeen(seen: seq<Seen>)
    ensures HoldsSeen(map[], []) && PlacesSeen(map[], seen)
  {
  }

  /** One group of ports per place and protocol; loopback addresses share one. */
  method GroupByPlace(seen: seq<Seen>) returns (rules: Grouped)
    ensures HoldsSeen(rules, seen) && PlacesSeen(rules, seen) && |rules| <= |seen|
  {
    hide HoldsSeen, PlacesSeen, AddSeen, SeenAt, PortsAt, PlaceOf, LoopbackNet;
    rules := map[];
    NothingSeen(seen);
    assert seen[..0] == [];
    for i := 0 to |seen|
      invariant HoldsSeen(rules, seen[..i]) && PlacesSeen(rules, seen) && |rules| <= i
    {
      assert seen[..i + 1] == seen[..i] + [seen[i]];
      HoldsNext(rules, seen[..i], seen[i]);
      AddSeenPlaces(rules, seen, i);
      rules := AddSeen(rules, seen[i]);
    }
    assert seen[..|seen|] == seen;
  }

  /** What was learned from one observation: the ranges kept, and those left out for want of room. */
  datatype Learned = Learned(dest: Where, proto: nat, kept: seq<PortRange>, dropped: seq<PortRange>)

  /** Ranges kept for one place over all protocols. */
  function KeptFor(learned: seq<Learned>, dest: Where): nat {
    if learned == [] then 0
    else
      var n := |learned| - 1;
      KeptFor(learned[..n], dest) + (if learned[n].dest == dest then |learned[n].kept| else 0)
  }

  ghost predicate LearnedFrom(l: Learned, o: Observed) {
    && l.dest == o.dest && l.proto == o.proto
    && Canonical(l.kept + l.dropped)
    && forall p: U16 :: Denotes(l.kept + l.dropped, p) <==> p in o.ports
  }

  /** Keeps the lowest ranges of one observation that fit in `left`. */
  method LearnOne(o: Observed, left: nat) returns (l: Learned)
    ensures LearnedFrom(l, o)
    ensures |l.kept| <= left && (l.dropped != [] ==> |l.kept| == left)
  {
    var ranges := PortRanges(o.ports);
    var cut := if left < |ranges| then left else |ranges|;
    l := Learned(o.dest, o.proto, ranges[..cut], ranges[cut..]);
    assert l.kept + l.dropped == ranges;
    hide Denotes, Canonical;
  }

  lemma KeptForAppend(learned: seq<Learned>, l: Learned, w: Where)
    ensures KeptFor(learned + [l], w) == KeptFor(learned, w) + (if l.dest == w then |l.kept| else 0)
  {
    assert (learned + [l])[..|learned|] == learned;
  }

  /** A range is left out only when its place has no room left. */
  predicate DroppedOnlyWhenFull(learned: seq<Learned>, k: nat)
    requires k < |learned|
  {
    learned[k].dropped != [] ==> KeptFor(learned[..k + 1], learned[k].dest) == MAX_RANGES
  }

  lemma DroppedAppend(learned: seq<Learned>, l: Learned, k: nat)
    requires k < |learned| && DroppedOnlyWhenFull(learned, k)
    ensures DroppedOnlyWhenFull(learned + [l], k)
  {
    assert (learned + [l])[..k + 1] == learned[..k + 1];
  }

  /**
   The lowest ranges of each observation are kept while its place has room for
   them; what is left out is reported, and only because the room ran out.
   */
  method Learn(observed: seq<Observed>) returns (learned: seq<Learned>)
    ensures |learned| == |observed|
    ensures forall k :: 0 <= k < |observed| ==> LearnedFrom(learned[k], observed[k])
    ensures forall w :: KeptFor(learned, w) <= MAX_RANGES
    ensures forall k :: 0 <= k < |learned| ==> DroppedOnlyWhenFull(learned, k)
  {
    hide LearnedFrom;
    learned := [];
    var room: map<Where, nat> := map[];
    for i := 0 to |observed|
      invariant |learned| == i
      invariant forall k :: 0 <= k < i ==> LearnedFrom(learned[k], observed[k])
      invariant forall w :: KeptFor(learned, w) + (if w in room then room[w] else MAX_RANGES) == MAX_RANGES
      invariant forall k :: 0 <= k < i ==> DroppedOnlyWhenFull(learned, k)
    {
      var dest := observed[i].dest;
      var left := if dest in room then room[dest] else MAX_RANGES;
      assert KeptFor(learned, dest) + left == MAX_RANGES;
      var l := LearnOne(observed[i], left);
      assert l.dest == dest by { LearnedDest(l, observed[i]); }
      var next := learned + [l];
      forall w ensures KeptFor(next, w) == KeptFor(learned, w) + (if dest == w then |l.kept| else 0) {
        KeptForAppend(learned, l, w);
      }
      forall k | 0 <= k < i ensures DroppedOnlyWhenFull(next, k) {
        DroppedAppend(learned, l, k);
      }
      assert next[..i + 1] == next;
      room := room[dest := left - |l.kept|];
      learned := next;
    }
  }

  lemma LearnedDest(l: Learned, o: Observed)
    requires LearnedFrom(l, o)
    ensures l.dest == o.dest
  {
  }

  lemma DenotesConcat(a: seq<PortRange>, b: seq<PortRange>, p: U16)
    ensures Denotes(a + b, p) <==> Denotes(a, p) || Denotes(b, p)
  {
    var all := a + b;
    assert forall k :: 0 <= k < |a| ==> all[k] == a[k];
    assert forall k :: 0 <= k < |b| ==> all[|a| + k] == b[k];
    if Denotes(all, p) {
      var k :| 0 <= k < |all| && all[k].lo <= p <= all[k].hi;
      assert all[k] == if k < |a| then a[k] else b[k - |a|];
    }
  }

  lemma ConcatOrder(a: seq<PortRange>, b: seq<PortRange>, p: U16, q: U16)
    requires Canonical(a + b)
    ensures Denotes(a, p) && Denotes(b, q) ==> p < q
  {
    if Denotes(a, p) && Denotes(b, q) {
      var k :| 0 <= k < |a| && a[k].lo <= p <= a[k].hi;
      var m :| 0 <= m < |b| && b[m].lo <= q <= b[m].hi;
      assert (a + b)[k] == a[k] && (a + b)[|a| + m] == b[m];
    }
  }

  /** The kept and the left-out ranges partition the observed ports, and what is left out lies above what is kept. */
  lemma KeptAndDropped(l: Learned, o: Observed, p: U16)
    requires LearnedFrom(l, o)
    ensures p in o.ports <==> Denotes(l.kept, p) || Denotes(l.dropped, p)
    ensures forall q: U16 :: Denotes(l.kept, p) && Denotes(l.dropped, q) ==> p < q
  {
    hide Denotes, Canonical;
    DenotesConcat(l.kept, l.dropped, p);
    forall q: U16 ensures Denotes(l.kept, p) && Denotes(l.dropped, q) ==> p < q {
      ConcatOrder(l.kept, l.dropped, p, q);
    }
  }

  // ---------------------------------------------------------------------------
  // Learned rules compile
  // ---------------------------------------------------------------------------

  /** `127.0.0.0/8` as an IPv4-mapped prefix. */
  function LoopbackNet(): (r: Prefix)
    ensures |r| == 104
  {
    MappedSpace() + BitsOf(127, 8)
  }

  /** An IPv4 address is in it exactly if its first byte is 127. */
  lemma LoopbackIs(a: V4Address)
    ensures LoopbackNet() <= Normalize(V4(a)) <==> a[..8] == [false, true, true, true, true, true, true, true]
  {
    assert BitsOf(127, 8) == [false, true, true, true, true, true, true, true];
    hide MappedSpace, BitsOf;
    TailContains(MappedSpace(), BitsOf(127, 8), a);
    assert BitsOf(127, 8) <= a <==> a[..8] == BitsOf(127, 8);
  }

  function WhereNet(w: Where): Prefix {
    match w
    case Loopback => LoopbackNet()
    case Host4(a) => MappedSpace() + a
    case Host6(a) => a
  }

  /** Addresses as audit records carry them: a mapped IPv6 address is written as IPv4, and loopback is grouped. */
  predicate Unmapped(w: Where) {
    match w
    case Loopback => true
    case Host4(a) => !(LoopbackNet() <= MappedSpace() + a)
    case Host6(a) => !(MappedSpace() <= a)
  }

  /** The address an audit record names: an IPv4-mapped one is written as IPv4. */
  function AsRecorded(ip: IpAddr): IpAddr {
    match ip
    case V6(a) => if MappedSpace() <= a then V4(a[96..]) else ip
    case V4(_) => ip
  }

  /** Every place a record names is unmapped, and the record names the address that was connected to. */
  lemma PlacesAreUnmapped(ip: IpAddr)
    ensures Unmapped(PlaceOf(AsRecorded(ip)))
    ensures Normalize(AsRecorded(ip)) == Normalize(ip)
  {
    hide MappedSpace, LoopbackNet;
    if ip.V6? && MappedSpace() <= ip.v6 {
      assert MappedSpace() + ip.v6[96..] == ip.v6;
    }
  }

  function ProtoBit(proto: nat): bv8 {
    if proto == 6 then 1 else if proto == 17 then 2 else 4
  }

  /** One allow rule per observation that kept a range. */
  function LearnedRules(learned: seq<Learned>, firstId: nat): (r: seq<Rule>)
    requires firstId + |learned| < 0x1_0000_0000
  {
    if learned == [] then []
    else
      var n := |learned| - 1;
      var l := learned[n];
      var before := LearnedRules(learned[..n], firstId);
      if l.kept == [] then before
      else before + [Rule(firstId + n, Allow, WhereNet(l.dest), l.kept, ProtoBit(l.proto))]
  }

  /** No learned prefix strictly contains another. */
  lemma NoCovering(v: Where, w: Where)
    requires Unmapped(v) && Unmapped(w) && WhereNet(v) <= WhereNet(w)
    ensures v == w
  {
    hide MappedSpace;
    assert MappedSpace() <= LoopbackNet();
    if v.Host4? && w.Host4? {
      assert (MappedSpace() + v.v4)[96..] == v.v4 && (MappedSpace() + w.v4)[96..] == w.v4;
    }
  }

  /** Port ranges over the rules of one prefix. */
  function RangeCount(rules: seq<Rule>, members: seq<nat>): nat
    requires Indices(rules, members)
  {
    if members == [] then 0
    else
      var n := |members| - 1;
      RangeCount(rules, members[..n]) + |rules[members[n]].ports|
  }

  lemma {:induction false} AddRuleSize(kept: seq<CompiledRange>, rule: Rule, n: nat)
    requires n <= |rule.ports|
    ensures |AddRule(kept, rule, n)| <= |kept| + n
  {
    if n == 0 {
    } else {
      AddRuleSize(kept, rule, n - 1);
    }
  }

  lemma {:induction false} FlattenSize(rules: seq<Rule>, members: seq<nat>)
    requires Indices(rules, members)
    ensures |Flatten(rules, members)| <= RangeCount(rules, members)
  {
    if members == [] {
    } else {
      var n := |members| - 1;
      FlattenSize(rules, members[..n]);
      AddRuleSize(Flatten(rules, members[..n]), rules[members[n]], |rules[members[n]].ports|);
    }
  }

  lemma {:induction false} RangeCountPrefix(rules: seq<Rule>, more: seq<Rule>, members: seq<nat>)
    requires Indices(rules, members)
    ensures Indices(rules + more, members) && RangeCount(rules + more, members) == RangeCount(rules, members)
  {
    if members == [] {
    } else {
      RangeCountPrefix(rules, more, members[..|members| - 1]);
    }
  }

  /** The learned rules of a prefix have as many ranges as its place kept. */
  lemma {:induction false} MembersCount(learned: seq<Learned>, firstId: nat, w: Where)
    requires firstId + |learned| < 0x1_0000_0000
    requires Unmapped(w) && forall k :: 0 <= k < |learned| ==> Unmapped(learned[k].dest)
    ensures var rules := LearnedRules(learned, firstId);
            RangeCount(rules, Members(rules, Allow, WhereNet(w))) == KeptFor(learned, w)
  {
    hide WhereNet, Unmapped, Members, RangeCount, ProtoBit;
    if learned == [] {
      NoMembers(WhereNet(w));
    } else {
      var n := |learned| - 1;
      var l := learned[n];
      MembersCount(learned[..n], firstId, w);
      if l.kept != [] {
        var before := LearnedRules(learned[..n], firstId);
        var rule := Rule(firstId + n, Allow, WhereNet(l.dest), l.kept, ProtoBit(l.proto));
        MembersAppend(before, rule, WhereNet(w));
        if WhereNet(l.dest) == WhereNet(w) {
          NoCovering(l.dest, w);
        }
      }
    }
  }

  lemma NoMembers(net: Prefix)
    ensures RangeCount([], Members([], Allow, net)) == 0
  {
  }

  lemma MembersAppend(rules: seq<Rule>, rule: Rule, net: Prefix)
    requires rule.action == Allow
    ensures RangeCount(rules + [rule], Members(rules + [rule], Allow, net)) ==
            RangeCount(rules, Members(rules, Allow, net)) + (if rule.net == net then |rule.ports| else 0)
  {
    var all, members := rules + [rule], Members(rules, Allow, net);
    assert all[..|rules|] == rules;
    RangeCountPrefix(rules, [rule], members);
    if rule.net == net {
      assert Members(all, Allow, net) == members + [|rules|];
      assert (members + [|rules|])[..|members|] == members;
    }
  }

  lemma {:induction false} RulesFromPlaces(learned: seq<Learned>, firstId: nat, i: nat)
    requires firstId + |learned| < 0x1_0000_0000 && i < |LearnedRules(learned, firstId)|
    ensures exists k :: 0 <= k < |learned| && LearnedRules(learned, firstId)[i].net == WhereNet(learned[k].dest)
    ensures LearnedRules(learned, firstId)[i].action == Allow
  {
    if learned == [] {
    } else {
      var n := |learned| - 1;
      if i < |LearnedRules(learned[..n], firstId)| {
        RulesFromPlaces(learned[..n], firstId, i);
        var k :| 0 <= k < n && LearnedRules(learned[..n], firstId)[i].net == WhereNet(learned[..n][k].dest);
        assert learned[k] == learned[..n][k];
      }
    }
  }

  lemma {:induction false} NothingCovers(groups: seq<Group>, net: Prefix)
    requires forall k :: 0 <= k < |groups| ==> !(groups[k].net != net && groups[k].net <= net)
    ensures Covering(groups, net) == []
  {
    if groups == [] {
    } else {
      NothingCovers(groups[1..], net);
    }
  }

  lemma PlaceOfGroup(learned: seq<Learned>, firstId: nat, g: Group) returns (w: Where)
    requires firstId + |learned| < 0x1_0000_0000
    requires forall k :: 0 <= k < |learned| ==> Unmapped(learned[k].dest)
    requires g in GroupsOf(LearnedRules(learned, firstId), Allow)
    ensures Unmapped(w) && g.net == WhereNet(w)
  {
    var rules := LearnedRules(learned, firstId);
    GroupNetsDistinct(rules, Allow);
    hide LearnedRules, Members, WhereNet, Unmapped;
    assert g.net in GroupNets(rules, Allow);
    var i :| 0 <= i < |rules| && rules[i].action == Allow && rules[i].net == g.net;
    RulesFromPlaces(learned, firstId, i);
    var k :| 0 <= k < |learned| && rules[i].net == WhereNet(learned[k].dest);
    w := learned[k].dest;
  }

  /** The entry of a learned prefix holds at most the ranges kept for its place. */
  lemma LearnedEntryFits(learned: seq<Learned>, firstId: nat, own: Group)
    requires firstId + |learned| < 0x1_0000_0000
    requires forall k :: 0 <= k < |learned| ==> Unmapped(learned[k].dest)
    requires forall w :: KeptFor(learned, w) <= MAX_RANGES
    requires own in GroupsOf(LearnedRules(learned, firstId), Allow)
    ensures var rules := LearnedRules(learned, firstId);
            |RangesFor(rules, GroupsOf(rules, Allow), own)| <= MAX_RANGES
  {
    var rules := LearnedRules(learned, firstId);
    var groups := GroupsOf(rules, Allow);
    var w := PlaceOfGroup(learned, firstId, own);
    forall k | 0 <= k < |groups| ensures !(groups[k].net != own.net && groups[k].net <= own.net) {
      if groups[k].net <= own.net {
        var v := PlaceOfGroup(learned, firstId, groups[k]);
        NoCovering(v, w);
      }
    }
    NothingCovers(groups, own.net);
    MembersCount(learned, firstId, w);
    OwnMembersOnly(groups, own);
    assert own.members == Members(rules, Allow, own.net);
    FlattenSize(rules, own.members);
  }

  lemma OwnMembersOnly(groups: seq<Group>, own: Group)
    requires Covering(groups, own.net) == []
    ensures AllMembers(Ordered(groups, own)) == own.members
  {
    assert SortByLength([]) == [];
    assert Ordered(groups, own) == [own];
    assert AllMembers([own]) == own.members + AllMembers([]);
  }

  lemma {:induction false} EntriesFit(prof: Profile, action: Action, groups: seq<Group>, n: nat)
    requires n <= |groups|
    requires forall g :: g in groups ==> |RangesFor(prof.rules, groups, g)| <= MAX_RANGES
    ensures EntriesFor(prof, action, groups, n).Ok?
  {
    hide RangesFor;
    if n == 0 {
    } else {
      EntriesFit(prof, action, groups, n - 1);
      assert groups[n - 1] in groups;
    }
  }

  /** Main result: rules learned from unmapped addresses never alone exceed the compiler's range limit. */
  lemma LearnedRulesCompile(learned: seq<Learned>, firstId: nat, prof: Profile)
    requires firstId + |learned| < 0x1_0000_0000
    requires forall k :: 0 <= k < |learned| ==> Unmapped(learned[k].dest)
    requires forall w :: KeptFor(learned, w) <= MAX_RANGES
    requires prof.rules == LearnedRules(learned, firstId)
    ensures TrieFor(prof, Allow).Ok? && TrieFor(prof, Deny) == Ok([])
  {
    var groups := GroupsOf(prof.rules, Allow);
    forall g | g in groups ensures |RangesFor(prof.rules, groups, g)| <= MAX_RANGES {
      LearnedEntryFits(learned, firstId, g);
    }
    EntriesFit(prof, Allow, groups, |groups|);
    forall i | 0 <= i < |prof.rules| ensures prof.rules[i].action == Allow {
      RulesFromPlaces(learned, firstId, i);
    }
    hide LearnedRules, RangesFor;
    NoGroups(prof.rules, Deny);
    assert GroupsOf(prof.rules, Deny) == [];
  }

  lemma {:induction false} NoGroups(rules: seq<Rule>, action: Action)
    requires forall i :: 0 <= i < |rules| ==> rules[i].action != action
    ensures GroupNets(rules, action) == []
  {
    if rules == [] {
    } else {
      NoGroups(rules[..|rules| - 1], action);
    }
  }
}
