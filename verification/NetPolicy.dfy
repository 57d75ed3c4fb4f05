/**
 Kernel network policy: the validated rules of a profile, the reference
 semantics (`Evaluate`), the compiler to longest-prefix entries (`Compile`) and
 the single-lookup semantics of the compiled form (`Lookup`).

 An address is its 128 bits, most significant first; a CIDR prefix is the bits
 it fixes, so `p <= a` (Dafny's prefix order) is "`p` contains `a`" and the
 length of a prefix is the length of the bit string.
 */
module NetPolicy {
  import opened Wrappers

  type Address = a: seq<bool> | |a| == 128 witness seq(128, _ => false)
  type Prefix = p: seq<bool> | |p| <= 128
  type U16 = n: int | 0 <= n < 0x1_0000
  type U32 = n: int | 0 <= n < 0x1_0000_0000

  const MAX_RANGES: nat := 8
  const MAX_PROFILES: nat := 1024

  datatype Action = Allow | Deny
  datatype Mode = Audit | Enforce
  datatype PortRange = PortRange(lo: U16, hi: U16)

  datatype Rule = Rule(id: U32, action: Action, net: Prefix, ports: seq<PortRange>, proto: bv8)

  datatype Profile = Profile(id: U32, name: string, mode: Mode, netDefault: Action, rules: seq<Rule>)

  datatype Policy = Policy(profiles: seq<Profile>)

  /** Rule id 0 means the profile default decided. */
  datatype Decision = Decision(action: Action, ruleId: U32)

  /** What is being decided: a destination, a port and one protocol bit. */
  datatype Query = Query(addr: Address, port: U16, proto: bv8)

  // ---------------------------------------------------------------------------
  // Reference semantics
  // ---------------------------------------------------------------------------

  predicate InRange(lo: U16, hi: U16, port: U16) {
    lo <= port <= hi
  }

  predicate AnyPort(ports: seq<PortRange>, port: U16) {
    exists i :: 0 <= i < |ports| && InRange(ports[i].lo, ports[i].hi, port)
  }

  /** The port and protocol part of a rule's condition. */
  predicate ServiceMatches(r: Rule, q: Query) {
    r.proto & q.proto != 0 && AnyPort(r.ports, q.port)
  }

  predicate Matches(r: Rule, action: Action, q: Query) {
    r.action == action && r.net <= q.addr && ServiceMatches(r, q)
  }

  /** `i` wins over `j`: longer prefix, then file order. */
  predicate Before(rules: seq<Rule>, i: nat, j: nat)
    requires i < |rules| && j < |rules|
  {
    |rules[i].net| > |rules[j].net| || (|rules[i].net| == |rules[j].net| && i < j)
  }

  /** The index of the rule that decides for `action`: the matching rule every other matching rule loses to. */
  function Best(rules: seq<Rule>, action: Action, q: Query): (r: Option<nat>)
    ensures r.Some? ==> r.value < |rules| && Matches(rules[r.value], action, q)
    ensures r.Some? ==> forall j :: 0 <= j < |rules| && Matches(rules[j], action, q) && j != r.value
                                    ==> Before(rules, r.value, j)
    ensures r.None? ==> forall j :: 0 <= j < |rules| ==> !Matches(rules[j], action, q)
  {
    if rules == [] then None
    else
      var n := |rules| - 1;
      var prev := Best(rules[..n], action, q);
      if Matches(rules[n], action, q) && (prev.None? || |rules[prev.value].net| < |rules[n].net|)
      then Some(n) else prev
  }

  function FindProfile(profiles: seq<Profile>, id: U32): (r: Option<Profile>)
    ensures r.Some? ==> r.value in profiles && r.value.id == id
    ensures r.None? ==> forall p :: p in profiles ==> p.id != id
  {
    if profiles == [] then None
    else if profiles[0].id == id then Some(profiles[0])
    else FindProfile(profiles[1..], id)
  }

  /** The decision of one profile: deny rules, then allow rules, then the default. */
  function Decide(prof: Profile, q: Query): Decision {
    var deny := Best(prof.rules, Deny, q);
    if deny.Some? then Decision(Deny, prof.rules[deny.value].id)
    else
      var allow := Best(prof.rules, Allow, q);
      if allow.Some? then Decision(Allow, prof.rules[allow.value].id)
      else Decision(prof.netDefault, 0)
  }

  function Evaluate(policy: Policy, profile: U32, q: Query): Option<Decision> {
    var prof := FindProfile(policy.profiles, profile);
    if prof.None? then None else Some(Decide(prof.value, q))
  }

  // ---------------------------------------------------------------------------
  // Compiled form
  // ---------------------------------------------------------------------------

  datatype CompiledRange = CompiledRange(ruleId: U32, lo: U16, hi: U16, proto: bv8) {
    predicate Covers(other: CompiledRange) {
      proto & other.proto == other.proto && lo <= other.lo && hi >= other.hi
    }

    predicate Hits(q: Query) {
      proto & q.proto != 0 && lo <= q.port <= hi
    }
  }

  /** One longest-prefix entry of one profile; its ranges are most specific first. */
  datatype Entry = Entry(profile: U32, net: Prefix, ranges: seq<CompiledRange>)

  datatype CompiledProfile = CompiledProfile(id: U32, mode: Mode, netDefault: Action)

  datatype Compiled = Compiled(generation: nat, profiles: seq<CompiledProfile>,
                               deny: seq<Entry>, allow: seq<Entry>)

  datatype PolicyError =
    | GenerationZero
    | TooManyRanges(profile: string, net: Prefix, count: nat, action: Action)

  function FirstHit(ranges: seq<CompiledRange>, q: Query): (r: Option<U32>) {
    if ranges == [] then None
    else if ranges[0].Hits(q) then Some(ranges[0].ruleId)
    else FirstHit(ranges[1..], q)
  }

  /** The entry a longest-prefix lookup of `addr` under `profile` finds. */
  function Longest(entries: seq<Entry>, profile: U32, addr: Address): (r: Option<nat>)
    ensures r.Some? ==> r.value < |entries| && entries[r.value].profile == profile && entries[r.value].net <= addr
    ensures r.Some? ==> forall j :: 0 <= j < |entries| && entries[j].profile == profile && entries[j].net <= addr
                                    ==> |entries[j].net| <= |entries[r.value].net|
    ensures r.None? ==> forall j :: 0 <= j < |entries| ==> !(entries[j].profile == profile && entries[j].net <= addr)
  {
    if entries == [] then None
    else
      var n := |entries| - 1;
      var prev := Longest(entries[..n], profile, addr);
      if entries[n].profile == profile && entries[n].net <= addr
         && (prev.None? || |entries[prev.value].net| <= |entries[n].net|)
      then Some(n) else prev
  }

  function TrieMatch(entries: seq<Entry>, profile: U32, q: Query): Option<U32> {
    var e := Longest(entries, profile, q.addr);
    if e.None? then None else FirstHit(entries[e.value].ranges, q)
  }

  function FindCompiled(profiles: seq<CompiledProfile>, id: U32): Option<CompiledProfile> {
    if profiles == [] then None
    else if profiles[0].id == id then Some(profiles[0])
    else FindCompiled(profiles[1..], id)
  }

  /** Simulates the kernel decision over the compiled entries. */
  function Lookup(c: Compiled, profile: U32, q: Query): Option<Decision> {
    var prof := FindCompiled(c.profiles, profile);
    if prof.None? then None
    else
      var deny := TrieMatch(c.deny, profile, q);
      if deny.Some? then Some(Decision(Deny, deny.value))
      else
        var allow := TrieMatch(c.allow, profile, q);
        if allow.Some? then Some(Decision(Allow, allow.value))
        else Some(Decision(prof.value.netDefault, 0))
  }

  // ---------------------------------------------------------------------------
  // What the compiler computes, as functions
  // ---------------------------------------------------------------------------

  /** The distinct prefixes of the rules of `action`, in order of first appearance. */
  function GroupNets(rules: seq<Rule>, action: Action): (r: seq<Prefix>) {
    if rules == [] then []
    else
      var n := |rules| - 1;
      var before := GroupNets(rules[..n], action);
      if rules[n].action == action && rules[n].net !in before then before + [rules[n].net] else before
  }

  /** The rules of `action` with exactly the prefix `net`, as indices in file order. */
  function Members(rules: seq<Rule>, action: Action, net: Prefix): (r: seq<nat>)
    ensures forall k :: 0 <= k < |r| ==> r[k] < |rules|
  {
    if rules == [] then []
    else
      var n := |rules| - 1;
      var before := Members(rules[..n], action, net);
      if rules[n].action == action && rules[n].net == net then before + [n] else before
  }

  /** The rules of one action that share a prefix. */
  datatype Group = Group(net: Prefix, members: seq<nat>)

  function GroupsOf(rules: seq<Rule>, action: Action): seq<Group> {
    var nets := GroupNets(rules, action);
    seq(|nets|, g requires 0 <= g < |nets| => Group(nets[g], Members(rules, action, nets[g])))
  }

  /** The groups whose prefix strictly contains `net`. */
  function Covering(groups: seq<Group>, net: Prefix): seq<Group> {
    if groups == [] then []
    else (if groups[0].net != net && groups[0].net <= net then [groups[0]] else []) + Covering(groups[1..], net)
  }

  function InsertByLength(g: Group, sorted: seq<Group>): seq<Group> {
    if sorted == [] || |sorted[0].net| <= |g.net| then [g] + sorted
    else [sorted[0]] + InsertByLength(g, sorted[1..])
  }

  /** Stable sort, longest prefix first. */
  function SortByLength(groups: seq<Group>): seq<Group> {
    if groups == [] then [] else InsertByLength(groups[0], SortByLength(groups[1..]))
  }

  /** A group, then every group whose prefix covers it, most specific first. */
  function Ordered(groups: seq<Group>, own: Group): seq<Group> {
    [own] + SortByLength(Covering(groups, own.net))
  }

  function AllMembers(groups: seq<Group>): seq<nat> {
    if groups == [] then [] else groups[0].members + AllMembers(groups[1..])
  }

  /** Adds a range unless an earlier one already covers it. */
  function AddRange(kept: seq<CompiledRange>, r: CompiledRange): seq<CompiledRange> {
    if exists i :: 0 <= i < |kept| && kept[i].Covers(r) then kept else kept + [r]
  }

  function RangeOf(rule: Rule, k: nat): CompiledRange
    requires k < |rule.ports|
  {
    CompiledRange(rule.id, rule.ports[k].lo, rule.ports[k].hi, rule.proto)
  }

  /** `kept` extended with the first `n` port ranges of `rule`. */
  function AddRule(kept: seq<CompiledRange>, rule: Rule, n: nat): seq<CompiledRange>
    requires n <= |rule.ports|
  {
    if n == 0 then kept else AddRange(AddRule(kept, rule, n - 1), RangeOf(rule, n - 1))
  }

  /** The flattened ranges of the rules `members`, in order. */
  function Flatten(rules: seq<Rule>, members: seq<nat>): seq<CompiledRange>
    requires Indices(rules, members)
  {
    if members == [] then []
    else
      var n := |members| - 1;
      AddRule(Flatten(rules, members[..n]), rules[members[n]], |rules[members[n]].ports|)
  }

  predicate Indices(rules: seq<Rule>, members: seq<nat>) {
    forall k :: 0 <= k < |members| ==> members[k] < |rules|
  }

  /** Every port range of the rules `members`, in order. */
  function AllRanges(rules: seq<Rule>, members: seq<nat>): seq<CompiledRange>
    requires Indices(rules, members)
  {
    if members == [] then []
    else
      var n := |members| - 1;
      AllRanges(rules, members[..n]) + RuleRanges(rules[members[n]], |rules[members[n]].ports|)
  }

  function RuleRanges(rule: Rule, n: nat): (r: seq<CompiledRange>)
    requires n <= |rule.ports|
    ensures |r| == n
  {
    if n == 0 then [] else RuleRanges(rule, n - 1) + [RangeOf(rule, n - 1)]
  }

  /** Covered by one of the first `n` ranges. */
  predicate CoveredBy(all: seq<CompiledRange>, n: nat, r: CompiledRange)
    requires n <= |all|
  {
    exists j :: 0 <= j < n && all[j].Covers(r)
  }

  /** The ranges no earlier one covers, in order: what an entry has to hold. */
  function Uncovered(all: seq<CompiledRange>): seq<CompiledRange> {
    if all == [] then []
    else
      var n := |all| - 1;
      Uncovered(all[..n]) + if CoveredBy(all, n, all[n]) then [] else [all[n]]
  }

  lemma CoversHits(a: CompiledRange, b: CompiledRange, q: Query)
    requires a.Covers(b) && b.Hits(q)
    ensures a.Hits(q)
  {
    ProtoCovers(a.proto, b.proto, q.proto);
  }

  lemma MissesProto(a: CompiledRange, b: CompiledRange, missed: bv8) returns (q: Query)
    requires b.lo <= b.hi && b.proto & missed != 0 && a.proto & missed == 0
    ensures b.Hits(q) && !a.Hits(q)
  {
    var addr: Address := seq(128, _ => false);
    q := Query(addr, b.lo, missed);
  }

  lemma MissesPort(a: CompiledRange, b: CompiledRange) returns (q: Query)
    requires b.lo <= b.hi && b.proto != 0 && (a.lo > b.lo || a.hi < b.hi)
    ensures b.Hits(q) && !a.Hits(q)
  {
    var addr: Address := seq(128, _ => false);
    var met := ProtoMet(b.proto);
    q := Query(addr, if a.lo <= b.lo then b.hi else b.lo, met);
  }

  /** What a range that does not cover another misses of it: a protocol, or one of its end ports. */
  lemma CoversMisses(a: CompiledRange, b: CompiledRange) returns (q: Query)
    requires b.lo <= b.hi && b.proto != 0 && !a.Covers(b)
    ensures b.Hits(q) && !a.Hits(q)
  {
    hide CompiledRange.Hits;
    if a.lo > b.lo || a.hi < b.hi {
      q := MissesPort(a, b);
    } else {
      var missed := ProtoMissed(a.proto, b.proto);
      q := MissesProto(a, b, missed);
    }
  }

  /** A range covers another that matches something exactly if whatever matches the other matches it. */
  lemma CoversExactly(a: CompiledRange, b: CompiledRange)
    requires b.lo <= b.hi && b.proto != 0
    ensures a.Covers(b) <==> forall q: Query :: b.Hits(q) ==> a.Hits(q)
  {
    hide CompiledRange.Covers, CompiledRange.Hits;
    if a.Covers(b) {
      forall q: Query | b.Hits(q) ensures a.Hits(q) {
        CoversHits(a, b, q);
      }
    } else {
      var q := CoversMisses(a, b);
    }
  }

  lemma ProtoCovers(a: bv8, b: bv8, q: bv8)
    requires a & b == b && b & q != 0
    ensures a & q != 0
  {
  }

  lemma ProtoMissed(a: bv8, b: bv8) returns (m: bv8)
    requires a & b != b
    ensures b & m != 0 && a & m == 0
  {
    m := b & !a;
  }

  lemma ProtoMet(b: bv8) returns (m: bv8)
    requires b != 0
    ensures b & m != 0
  {
    m := b;
  }

  lemma CoversTrans(a: CompiledRange, b: CompiledRange, d: CompiledRange)
    requires a.Covers(b) && b.Covers(d)
    ensures a.Covers(d)
  {
  }

  lemma CoveredPrefix(all: seq<CompiledRange>, n: nat, r: CompiledRange)
    requires n <= |all|
    ensures CoveredBy(all[..n], n, r) <==> CoveredBy(all, n, r)
  {
    if CoveredBy(all, n, r) {
      var j :| 0 <= j < n && all[j].Covers(r);
      assert all[..n][j].Covers(r);
    }
  }

  lemma CoveredLast(all: seq<CompiledRange>, r: CompiledRange)
    requires all != []
    ensures CoveredBy(all, |all|, r) <==> CoveredBy(all, |all| - 1, r) || all[|all| - 1].Covers(r)
  {
  }

  lemma CoveredTrans(all: seq<CompiledRange>, n: nat, a: CompiledRange, r: CompiledRange)
    requires n <= |all| && CoveredBy(all, n, a)
    ensures a.Covers(r) ==> CoveredBy(all, n, r)
  {
    if a.Covers(r) {
      var j :| 0 <= j < n && all[j].Covers(a);
      CoversTrans(all[j], a, r);
    }
  }

  /** Leaving covered ranges out covers no less. */
  lemma {:induction false} UncoveredCovers(all: seq<CompiledRange>, r: CompiledRange)
    ensures CoveredBy(Uncovered(all), |Uncovered(all)|, r) <==> CoveredBy(all, |all|, r)
  {
    if all == [] {
    } else {
      var n := |all| - 1;
      var before, kept := Uncovered(all[..n]), Uncovered(all);
      UncoveredCovers(all[..n], r);
      CoveredLast(all, r);
      CoveredPrefix(all, n, r);
      if CoveredBy(all, n, all[n]) {
        CoveredTrans(all, n, all[n], r);
        hide CoveredBy;
        assert kept == before;
      } else {
        hide CoveredBy;
        assert kept[..|before|] == before && kept[|before|] == all[n];
        CoveredLast(kept, r);
        CoveredPrefix(kept, |before|, r);
      }
    }
  }

  /** No range of `kept` is covered by an earlier one. */
  ghost predicate NoneCovered(kept: seq<CompiledRange>) {
    forall j :: 0 <= j < |kept| ==> !CoveredBy(kept, j, kept[j])
  }

  /** Each range of `all` is in `kept` or covered by one that comes before it. */
  ghost predicate AllKept(all: seq<CompiledRange>, kept: seq<CompiledRange>) {
    forall j :: 0 <= j < |all| ==> all[j] in kept || CoveredBy(all, j, all[j])
  }

  /** Whether the first `j` ranges cover `r` does not depend on what follows them. */
  lemma CoveredAlike(a: seq<CompiledRange>, b: seq<CompiledRange>, j: nat, r: CompiledRange)
    requires j <= |a| && j <= |b| && a[..j] == b[..j]
    ensures CoveredBy(a, j, r) <==> CoveredBy(b, j, r)
  {
    CoveredPrefix(a, j, r);
    CoveredPrefix(b, j, r);
  }

  lemma AllKeptStep(all: seq<CompiledRange>, before: seq<CompiledRange>, kept: seq<CompiledRange>)
    requires all != [] && AllKept(all[..|all| - 1], before) && before <= kept
    requires all[|all| - 1] in kept || CoveredBy(all, |all| - 1, all[|all| - 1])
    ensures AllKept(all, kept)
  {
    hide CoveredBy;
    var n := |all| - 1;
    forall j | 0 <= j < n ensures all[j] in kept || CoveredBy(all, j, all[j]) {
      assert all[..n][j] == all[j];
      CoveredAlike(all[..n], all, j, all[j]);
    }
  }

  lemma NoneCoveredStep(before: seq<CompiledRange>, last: CompiledRange)
    requires NoneCovered(before) && !CoveredBy(before, |before|, last)
    ensures NoneCovered(before + [last])
  {
    hide CoveredBy;
    var kept := before + [last];
    forall j | 0 <= j < |kept| ensures !CoveredBy(kept, j, kept[j]) {
      CoveredAlike(before, kept, j, kept[j]);
    }
  }

  lemma {:induction false} UncoveredKeepsAll(all: seq<CompiledRange>)
    ensures NoneCovered(Uncovered(all)) && AllKept(all, Uncovered(all))
  {
    if all == [] {
    } else {
      hide CoveredBy, NoneCovered, AllKept;
      var n := |all| - 1;
      var before, kept := Uncovered(all[..n]), Uncovered(all);
      UncoveredKeepsAll(all[..n]);
      AllKeptStep(all, before, kept);
      UncoveredCovers(all[..n], all[n]);
      CoveredPrefix(all, n, all[n]);
      if !CoveredBy(all, n, all[n]) {
        NoneCoveredStep(before, all[n]);
      }
    }
  }

  lemma AddRangeIs(kept: seq<CompiledRange>, r: CompiledRange)
    ensures AddRange(kept, r) == if CoveredBy(kept, |kept|, r) then kept else kept + [r]
  {
  }

  lemma UncoveredLast(all: seq<CompiledRange>, r: CompiledRange)
    ensures Uncovered(all + [r]) == Uncovered(all) + if CoveredBy(all, |all|, r) then [] else [r]
  {
    var more := all + [r];
    assert more[..|all|] == all;
    CoveredPrefix(more, |all|, r);
    hide CoveredBy;
  }

  lemma UncoveredAppend(all: seq<CompiledRange>, r: CompiledRange)
    ensures AddRange(Uncovered(all), r) == Uncovered(all + [r])
  {
    hide AddRange, Uncovered, CoveredBy;
    UncoveredCovers(all, r);
    AddRangeIs(Uncovered(all), r);
    UncoveredLast(all, r);
  }

  lemma {:induction false} UncoveredRule(all: seq<CompiledRange>, rule: Rule, n: nat)
    requires n <= |rule.ports|
    ensures AddRule(Uncovered(all), rule, n) == Uncovered(all + RuleRanges(rule, n))
  {
    hide Uncovered, AddRange;
    if n == 0 {
      assert all + [] == all;
    } else {
      UncoveredRule(all, rule, n - 1);
      UncoveredAppend(all + RuleRanges(rule, n - 1), RangeOf(rule, n - 1));
      assert all + RuleRanges(rule, n) == all + RuleRanges(rule, n - 1) + [RangeOf(rule, n - 1)];
    }
  }

  /** Flattening keeps exactly the ranges no earlier one covers. */
  lemma {:induction false} FlattenIsUncovered(rules: seq<Rule>, members: seq<nat>)
    requires Indices(rules, members)
    ensures Flatten(rules, members) == Uncovered(AllRanges(rules, members))
  {
    hide AddRule, RuleRanges;
    if members == [] {
    } else {
      var n := |members| - 1;
      FlattenIsUncovered(rules, members[..n]);
      hide Uncovered;
      UncoveredRule(AllRanges(rules, members[..n]), rules[members[n]], |rules[members[n]].ports|);
    }
  }

  function RangesFor(rules: seq<Rule>, groups: seq<Group>, own: Group): (r: seq<CompiledRange>) {
    var members := AllMembers(Ordered(groups, own));
    if Indices(rules, members) then Flatten(rules, members) else []
  }

  /** The entries for the first `n` groups of one profile and action, or the first that does not fit. */
  function EntriesFor(prof: Profile, action: Action, groups: seq<Group>, n: nat): (r: Result<seq<Entry>, PolicyError>)
    requires n <= |groups|
  {
    if n == 0 then Ok([])
    else
      var before := EntriesFor(prof, action, groups, n - 1);
      if before.Err? then before else NextEntry(prof, action, groups, groups[n - 1], before.value)
  }

  function NextEntry(prof: Profile, action: Action, groups: seq<Group>, own: Group, entries: seq<Entry>)
    : (r: Result<seq<Entry>, PolicyError>)
  {
    var e := EntryFor(prof, groups, own);
    if |e.ranges| > MAX_RANGES then Err(TooManyRanges(prof.name, own.net, |e.ranges|, action))
    else Ok(entries + [e])
  }

  function EntryFor(prof: Profile, groups: seq<Group>, own: Group): Entry {
    Entry(prof.id, own.net, RangesFor(prof.rules, groups, own))
  }

  function TrieFor(prof: Profile, action: Action): Result<seq<Entry>, PolicyError> {
    var groups := GroupsOf(prof.rules, action);
    EntriesFor(prof, action, groups, |groups|)
  }

  /** `out` extended with one profile's header and entries. */
  function AddProfile(out: Compiled, prof: Profile): Result<Compiled, PolicyError> {
    var deny := TrieFor(prof, Deny);
    if deny.Err? then Err(deny.error)
    else
      var allow := TrieFor(prof, Allow);
      if allow.Err? then Err(allow.error)
      else Ok(Compiled(out.generation, out.profiles + [Header(prof)], out.deny + deny.value, out.allow + allow.value))
  }

  function CompileProfiles(profiles: seq<Profile>, generation: nat): Result<Compiled, PolicyError> {
    if profiles == [] then Ok(Compiled(generation, [], [], []))
    else
      var n := |profiles| - 1;
      var before := CompileProfiles(profiles[..n], generation);
      if before.Err? then before else AddProfile(before.value, profiles[n])
  }

  function Header(prof: Profile): CompiledProfile {
    CompiledProfile(prof.id, prof.mode, prof.netDefault)
  }

  function CompileSpec(policy: Policy, generation: nat): Result<Compiled, PolicyError> {
    if generation == 0 then Err(GenerationZero) else CompileProfiles(policy.profiles, generation)
  }

  // ---------------------------------------------------------------------------
  // The compiler
  // ---------------------------------------------------------------------------

  /** Distinct prefixes in first-appearance order, each with its rules in file order. */
  method GroupRules(rules: seq<Rule>, action: Action) returns (groups: seq<Group>)
    ensures groups == GroupsOf(rules, action)
  {
    groups := [];
    for n := 0 to |rules|
      invariant |groups| == |GroupNets(rules[..n], action)|
      invariant forall g :: 0 <= g < |groups| ==>
                  groups[g] == Group(GroupNets(rules[..n], action)[g], Members(rules[..n], action, groups[g].net))
    {
      assert rules[..n + 1][..n] == rules[..n];
      GroupNetsDistinct(rules[..n], action);
      if rules[n].action == action {
        var k := 0;
        while k < |groups| && groups[k].net != rules[n].net
          invariant 0 <= k <= |groups|
          invariant forall g :: 0 <= g < k ==> groups[g].net != rules[n].net
        {
          k := k + 1;
        }
        if k < |groups| {
          groups := groups[k := Group(groups[k].net, groups[k].members + [n])];
        } else {
          MembersOfNewNet(rules[..n], action, rules[n].net);
          groups := groups + [Group(rules[n].net, [n])];
        }
      }
    }
    assert rules[..|rules|] == rules;
  }

  /** The ranges of the rules `members` in order, those covered by an earlier one left out. */
  method BuildRanges(rules: seq<Rule>, members: seq<nat>) returns (ranges: seq<CompiledRange>)
    requires Indices(rules, members)
    ensures ranges == Flatten(rules, members) == Uncovered(AllRanges(rules, members))
    ensures NoneCovered(ranges) && AllKept(AllRanges(rules, members), ranges)
  {
    FlattenIsUncovered(rules, members);
    UncoveredKeepsAll(AllRanges(rules, members));
    hide Uncovered, AllRanges, NoneCovered, AllKept;
    ranges := [];
    for m := 0 to |members|
      invariant ranges == Flatten(rules, members[..m])
    {
      var rule := rules[members[m]];
      assert members[..m + 1][..m] == members[..m];
      for p := 0 to |rule.ports|
        invariant ranges == AddRule(Flatten(rules, members[..m]), rule, p)
      {
        ranges := AddRange(ranges, RangeOf(rule, p));
      }
    }
    assert members[..|members|] == members;
  }

  method CompileTrie(prof: Profile, action: Action) returns (r: Result<seq<Entry>, PolicyError>)
    ensures r == TrieFor(prof, action)
  {
    hide Flatten, GroupsOf, AllMembers, Ordered, Indices;
    var groups := GroupRules(prof.rules, action);
    var entries: seq<Entry> := [];
    for g := 0 to |groups|
      invariant EntriesFor(prof, action, groups, g) == Ok(entries)
    {
      OrderedIndices(prof.rules, action, groups[g]);
      var ranges := BuildRanges(prof.rules, AllMembers(Ordered(groups, groups[g])));
      if |ranges| > MAX_RANGES {
        EntriesForError(prof, action, groups, g + 1);
        return Err(TooManyRanges(prof.name, groups[g].net, |ranges|, action));
      }
      entries := entries + [Entry(prof.id, groups[g].net, ranges)];
    }
    r := Ok(entries);
  }

  /** The ranges a prefix needs: of its own rules and those of every covering prefix, all that no earlier one covers. */
  function Needed(rules: seq<Rule>, groups: seq<Group>, own: Group): seq<CompiledRange> {
    var members := AllMembers(Ordered(groups, own));
    if Indices(rules, members) then Uncovered(AllRanges(rules, members)) else []
  }

  lemma RangesAreNeeded(rules: seq<Rule>, groups: seq<Group>, own: Group)
    ensures RangesFor(rules, groups, own) == Needed(rules, groups, own)
  {
    hide Flatten, Uncovered, AllRanges, Ordered, AllMembers;
    var members := AllMembers(Ordered(groups, own));
    if Indices(rules, members) {
      FlattenIsUncovered(rules, members);
    }
  }

  /** Each prefix of the action's rules needs no more ranges than a trie entry holds. */
  predicate Fits(prof: Profile, action: Action) {
    FirstFit(prof, action, |GroupsOf(prof.rules, action)|)
  }

  /** So do the first `n` prefixes. */
  predicate FirstFit(prof: Profile, action: Action, n: nat)
    requires n <= |GroupsOf(prof.rules, action)|
  {
    forall k :: 0 <= k < n ==>
                  |Needed(prof.rules, GroupsOf(prof.rules, action), GroupsOf(prof.rules, action)[k])| <= 8
  }

  /**
   `added` has one entry of the profile for each distinct prefix of the action's rules, in their file order, with the
   ranges that prefix needs.
   */
  predicate OnePerPrefix(added: seq<Entry>, prof: Profile, action: Action) {
    && |added| == |GroupNets(prof.rules, action)|
    && forall k :: 0 <= k < |added| ==>
                     && added[k].profile == prof.id
                     && added[k].net == GroupNets(prof.rules, action)[k]
                     && added[k].ranges == Needed(prof.rules, GroupsOf(prof.rules, action),
                                                  GroupsOf(prof.rules, action)[k])
                     && |added[k].ranges| <= 8
  }

  /** The error names the profile, the action, and the first prefix of its rules that needs too many ranges. */
  ghost predicate NamesMisfit(prof: Profile, action: Action, e: PolicyError) {
    && e.TooManyRanges? && e.profile == prof.name && e.action == action && e.count > 8
    && exists k :: && 0 <= k < |GroupsOf(prof.rules, action)| && GroupsOf(prof.rules, action)[k].net == e.net
                   && |Needed(prof.rules, GroupsOf(prof.rules, action), GroupsOf(prof.rules, action)[k])| == e.count
                   && FirstFit(prof, action, k)
  }

  lemma {:induction false} EntriesForFits(prof: Profile, action: Action, groups: seq<Group>, n: nat)
    requires n <= |groups| && groups == GroupsOf(prof.rules, action)
    ensures var r := EntriesFor(prof, action, groups, n);
            && (r.Ok? <==> FirstFit(prof, action, n))
            && (r.Err? ==> NamesMisfit(prof, action, r.error))
            && (r.Ok? ==> && |r.value| == n
                          && forall k :: 0 <= k < n ==> && r.value[k].profile == prof.id
                                                        && r.value[k].net == groups[k].net
                                                        && r.value[k].ranges == Needed(prof.rules, groups, groups[k])
                                                        && |r.value[k].ranges| <= MAX_RANGES)
  {
    hide RangesFor, Needed, GroupsOf;
    if n == 0 {
    } else {
      EntriesForFits(prof, action, groups, n - 1);
      RangesAreNeeded(prof.rules, groups, groups[n - 1]);
    }
  }

  lemma TrieForFits(prof: Profile, action: Action)
    ensures var r := TrieFor(prof, action);
            && (r.Ok? <==> Fits(prof, action))
            && (r.Ok? ==> OnePerPrefix(r.value, prof, action))
            && (r.Err? ==> NamesMisfit(prof, action, r.error))
  {
    hide RangesFor, Needed, NamesMisfit, FirstFit;
    var groups := GroupsOf(prof.rules, action);
    EntriesForFits(prof, action, groups, |groups|);
  }

  /**
   A profile compiles exactly when no prefix of its rules needs more than eight ranges. It then adds its header and,
   to each trie, one entry for each prefix of the rules of that action; otherwise the error names the misfit.
   */
  method CompileProfile(out: Compiled, prof: Profile) returns (r: Result<Compiled, PolicyError>)
    ensures r == AddProfile(out, prof)
    ensures r.Ok? <==> Fits(prof, Deny) && Fits(prof, Allow)
    ensures r.Err? ==>
              NamesMisfit(prof, Deny, r.error) || (Fits(prof, Deny) && NamesMisfit(prof, Allow, r.error))
    ensures r.Ok? ==>
              && r.value.generation == out.generation && r.value.profiles == out.profiles + [Header(prof)]
              && out.deny <= r.value.deny && OnePerPrefix(r.value.deny[|out.deny|..], prof, Deny)
              && out.allow <= r.value.allow && OnePerPrefix(r.value.allow[|out.allow|..], prof, Allow)
  {
    TrieForFits(prof, Deny);
    TrieForFits(prof, Allow);
    hide TrieFor, Fits, OnePerPrefix, NamesMisfit;
    var deny := CompileTrie(prof, Deny);
    if deny.Err? {
      return Err(deny.error);
    }
    var allow := CompileTrie(prof, Allow);
    if allow.Err? {
      return Err(allow.error);
    }
    r := Ok(Compiled(out.generation, out.profiles + [Header(prof)], out.deny + deny.value, out.allow + allow.value));
    assert r.value.deny[|out.deny|..] == deny.value;
    assert r.value.allow[|out.allow|..] == allow.value;
  }

  method Compile(policy: Policy, generation: nat) returns (r: Result<Compiled, PolicyError>)
    ensures r == CompileSpec(policy, generation)
  {
    if generation == 0 {
      return Err(GenerationZero);
    }
    var out := Compiled(generation, [], [], []);
    for n := 0 to |policy.profiles|
      invariant CompileProfiles(policy.profiles[..n], generation) == Ok(out)
    {
      var next := CompileProfile(out, policy.profiles[n]);
      assert policy.profiles[..n + 1][..n] == policy.profiles[..n];
      if next.Err? {
        CompileProfilesError(policy.profiles, generation, n + 1);
        return Err(next.error);
      }
      out := next.value;
    }
    assert policy.profiles[..|policy.profiles|] == policy.profiles;
    r := Ok(out);
  }

  /** An error for the first groups is the error for all of them. */
  lemma {:induction false} EntriesForError(prof: Profile, action: Action, groups: seq<Group>, n: nat)
    requires n <= |groups|
    requires EntriesFor(prof, action, groups, n).Err?
    ensures EntriesFor(prof, action, groups, |groups|) == EntriesFor(prof, action, groups, n)
    decreases |groups| - n
  {
    if n < |groups| {
      EntriesForError(prof, action, groups, n + 1);
    }
  }

  lemma {:induction false} CompileProfilesError(profiles: seq<Profile>, generation: nat, n: nat)
    requires n <= |profiles|
    requires CompileProfiles(profiles[..n], generation).Err?
    ensures CompileProfiles(profiles, generation) == CompileProfiles(profiles[..n], generation)
    decreases |profiles| - n
  {
    if n == |profiles| {
      assert profiles[..n] == profiles;
    } else {
      assert profiles[..n + 1][..n] == profiles[..n];
      CompileProfilesError(profiles, generation, n + 1);
    }
  }

  predicate Distinct<T(==)>(s: seq<T>) {
    forall i, j :: 0 <= i < j < |s| ==> s[i] != s[j]
  }

  /** The group prefixes are distinct, and they are exactly the prefixes of the rules of that action. */
  lemma {:induction false} GroupNetsDistinct(rules: seq<Rule>, action: Action)
    ensures Distinct(GroupNets(rules, action))
    ensures forall i :: 0 <= i < |rules| && rules[i].action == action ==> rules[i].net in GroupNets(rules, action)
    ensures forall net :: net in GroupNets(rules, action)
              ==> exists i :: 0 <= i < |rules| && rules[i].action == action && rules[i].net == net
  {
    if rules == [] {
    } else {
      GroupNetsDistinct(rules[..|rules| - 1], action);
    }
  }

  lemma {:induction false} MembersOfNewNet(rules: seq<Rule>, action: Action, net: Prefix)
    requires net !in GroupNets(rules, action)
    ensures Members(rules, action, net) == []
  {
    if rules == [] {
    } else {
      MembersOfNewNet(rules[..|rules| - 1], action, net);
    }
  }

  lemma {:induction false} CoveringContents(groups: seq<Group>, net: Prefix)
    ensures forall g :: g in Covering(groups, net) <==> g in groups && g.net != net && g.net <= net
  {
    if groups == [] {
    } else {
      CoveringContents(groups[1..], net);
    }
  }

  lemma {:induction false} InsertContents(g: Group, sorted: seq<Group>)
    ensures multiset(InsertByLength(g, sorted)) == multiset(sorted) + multiset{g}
  {
    if !(sorted == [] || |sorted[0].net| <= |g.net|) {
      InsertContents(g, sorted[1..]);
      assert sorted == [sorted[0]] + sorted[1..];
    }
  }

  /** Sorting is a permutation. */
  lemma {:induction false} SortContents(groups: seq<Group>)
    ensures multiset(SortByLength(groups)) == multiset(groups)
  {
    if groups == [] {
    } else {
      SortContents(groups[1..]);
      InsertContents(groups[0], SortByLength(groups[1..]));
      assert groups == [groups[0]] + groups[1..];
    }
  }

  /** The groups an entry is flattened from: exactly those whose prefix contains the entry's. */
  lemma OrderedContents(groups: seq<Group>, own: Group)
    ensures forall g :: g in Ordered(groups, own) <==> g == own || (g in groups && g.net != own.net && g.net <= own.net)
  {
    var covering := Covering(groups, own.net);
    CoveringContents(groups, own.net);
    SortContents(covering);
    assert forall g :: g in covering <==> g in multiset(covering);
    assert forall g :: g in SortByLength(covering) <==> g in multiset(SortByLength(covering));
  }

  lemma {:induction false} AllMembersIndices(rules: seq<Rule>, groups: seq<Group>)
    requires forall g :: g in groups ==> Indices(rules, g.members)
    ensures Indices(rules, AllMembers(groups))
  {
    if groups == [] {
    } else {
      AllMembersIndices(rules, groups[1..]);
    }
  }

  lemma OrderedIndices(rules: seq<Rule>, action: Action, own: Group)
    requires own in GroupsOf(rules, action)
    ensures Indices(rules, AllMembers(Ordered(GroupsOf(rules, action), own)))
  {
    OrderedContents(GroupsOf(rules, action), own);
    AllMembersIndices(rules, Ordered(GroupsOf(rules, action), own));
  }
}
