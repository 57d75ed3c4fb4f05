/**
 Building validated profiles: stable profile ids, the rules of a profile in
 file order, and the NAT64 twin of every IPv4 deny rule.
 */
module NetParse {
  import opened Wrappers
  import opened BitStrings
  import opened NetPolicy
  import opened NetRefinement

  type V4Address = a: seq<bool> | |a| == 32 witness seq(32, _ => false)

  datatype IpAddr = V4(v4: V4Address) | V6(v6: Address)

  /** A CIDR with its host bits already known to be zero. */
  datatype Cidr = Cidr4(bits4: seq<bool>) | Cidr6(bits6: Prefix)

  predicate ValidCidr(c: Cidr) {
    c.Cidr4? ==> |c.bits4| <= 32
  }

  function ZeroBits(n: nat): (r: seq<bool>)
    ensures |r| == n
  {
    seq(n, _ => false)
  }

  /** `::ffff:0:0/96` */
  function MappedSpace(): (r: Prefix)
    ensures |r| == 96
  {
    ZeroBits(80) + BitsOf(0xffff, 16)
  }

  /** `64:ff9b::/96` (section 2.1 of RFC 6052) */
  function Nat64Space(): (r: Prefix)
    ensures |r| == 96
  {
    BitsOf(0x64, 16) + BitsOf(0xff9b, 16) + ZeroBits(64)
  }

  function Normalize(addr: IpAddr): Address {
    match addr case V4(a) => MappedSpace() + a case V6(a) => a
  }

  /** The IPv4 destination as a NAT64 translator embeds it (section 2.2 of RFC 6052). */
  function Nat64Address(a: V4Address): Address {
    Nat64Space() + a
  }

  function NetOf(c: Cidr): Prefix
    requires ValidCidr(c)
  {
    match c case Cidr4(b) => MappedSpace() + b case Cidr6(b) => b
  }

  function Nat64Equivalent(net: Prefix): Option<Prefix> {
    if MappedSpace() <= net then Some(Nat64Space() + net[96..]) else None
  }

  /** A rule as the policy file gives it, ports and protocols already validated. */
  datatype RuleSpec = RuleSpec(cidr: Cidr, ports: seq<PortRange>, proto: bv8)

  predicate ValidRuleSpec(s: RuleSpec) {
    ValidCidr(s.cidr) && s.ports != [] && 1 <= s.proto <= 7
  }

  datatype NetworkSpec = NetworkSpec(netDefault: Action, nat64: bool,
                                     listed: seq<RuleSpec>, deny: seq<RuleSpec>, allow: seq<RuleSpec>)

  /** The entries of a network section, tagged with their action: included lists, denies, allows. */
  function Specs(net: NetworkSpec): seq<(Action, RuleSpec)> {
    var d := net.listed + net.deny;
    seq(|d|, i requires 0 <= i < |d| => (Deny, d[i])) +
        seq(|net.allow|, i requires 0 <= i < |net.allow| => (Allow, net.allow[i]))
  }

  function RuleOf(action: Action, s: RuleSpec, id: U32): Rule
    requires ValidRuleSpec(s)
  {
    Rule(id, action, NetOf(s.cidr), s.ports, s.proto)
  }

  /** What one entry adds: a NAT64 twin with the same id before a deny rule, when equivalence is on, then the rule. */
  function Added(action: Action, s: RuleSpec, id: U32, nat64: bool): seq<Rule>
    requires ValidRuleSpec(s)
  {
    var rule := RuleOf(action, s, id);
    var twin := Nat64Equivalent(rule.net);
    (if action == Deny && nat64 && twin.Some? then [rule.(net := twin.value)] else []) + [rule]
  }

  predicate ValidSpecs(specs: seq<(Action, RuleSpec)>) {
    forall i :: 0 <= i < |specs| ==> ValidRuleSpec(specs[i].1)
  }

  function RulesOf(specs: seq<(Action, RuleSpec)>, nat64: bool, firstId: nat): seq<Rule>
    requires ValidSpecs(specs) && firstId + |specs| < 0x1_0000_0000
  {
    if specs == [] then []
    else
      var n := |specs| - 1;
      RulesOf(specs[..n], nat64, firstId) + Added(specs[n].0, specs[n].1, firstId + n, nat64)
  }

  lemma RulesOfNone(nat64: bool, firstId: nat)
    requires firstId < 0x1_0000_0000
    ensures RulesOf([], nat64, firstId) == []
  {
  }

  lemma RulesOfNext(specs: seq<(Action, RuleSpec)>, nat64: bool, firstId: nat, i: nat)
    requires ValidSpecs(specs) && firstId + |specs| < 0x1_0000_0000 && i < |specs|
    ensures RulesOf(specs[..i + 1], nat64, firstId) ==
            RulesOf(specs[..i], nat64, firstId) + Added(specs[i].0, specs[i].1, firstId + i, nat64)
  {
    hide Added;
    assert specs[..i + 1][..i] == specs[..i];
  }

  /** The rules of one entry, appended. */
  method Push(rules: seq<Rule>, action: Action, s: RuleSpec, id: U32, nat64: bool) returns (more: seq<Rule>)
    requires ValidRuleSpec(s)
    ensures more == rules + Added(action, s, id, nat64)
  {
    hide Nat64Equivalent, NetOf;
    more := rules;
    var rule := RuleOf(action, s, id);
    if rule.action == Deny && nat64 {
      var twin := Nat64Equivalent(rule.net);
      if twin.Some? {
        more := more + [rule.(net := twin.value)];
      }
    }
    more := more + [rule];
  }

  // ---------------------------------------------------------------------------
  // The rules of a section, entry by entry
  // ---------------------------------------------------------------------------

  function Entries(net: NetworkSpec): nat {
    |net.listed| + |net.deny| + |net.allow|
  }

  predicate ValidNetwork(net: NetworkSpec) {
    && (forall i :: 0 <= i < |net.listed| ==> ValidRuleSpec(net.listed[i]))
    && (forall i :: 0 <= i < |net.deny| ==> ValidRuleSpec(net.deny[i]))
    && (forall i :: 0 <= i < |net.allow| ==> ValidRuleSpec(net.allow[i]))
  }

  /** The rule of entry `k`: the entries of included lists and the denies deny, the allows allow, numbered in turn. */
  function EntryRule(net: NetworkSpec, firstId: nat, k: nat): Rule
    requires ValidNetwork(net) && firstId + Entries(net) < 0x1_0000_0000 && k < Entries(net)
  {
    var n, m := |net.listed|, |net.listed| + |net.deny|;
    if k < n then
      Rule(firstId + k, Deny, NetOf(net.listed[k].cidr), net.listed[k].ports, net.listed[k].proto)
    else if k < m then
      Rule(firstId + k, Deny, NetOf(net.deny[k - n].cidr), net.deny[k - n].ports, net.deny[k - n].proto)
    else
      Rule(firstId + k, Allow, NetOf(net.allow[k - m].cidr), net.allow[k - m].ports, net.allow[k - m].proto)
  }

  /** The rules of the first `n` entries: each entry's own, and before a deny rule in the mapped space its twin. */
  function SectionRules(net: NetworkSpec, firstId: nat, n: nat): seq<Rule>
    requires ValidNetwork(net) && firstId + Entries(net) < 0x1_0000_0000 && n <= Entries(net)
  {
    if n == 0 then []
    else
      var rule := EntryRule(net, firstId, n - 1);
      SectionRules(net, firstId, n - 1)
      + (if net.nat64 && rule.action == Deny && MappedSpace() <= rule.net
         then [rule.(net := Nat64Space() + rule.net[96..])] else [])
      + [rule]
  }

  lemma SpecsAre(net: NetworkSpec)
    ensures |Specs(net)| == Entries(net) && (ValidSpecs(Specs(net)) <==> ValidNetwork(net))
  {
    var n, m, specs := |net.listed|, |net.listed| + |net.deny|, Specs(net);
    assert forall i :: 0 <= i < n ==> specs[i].1 == net.listed[i];
    assert forall i :: 0 <= i < |net.deny| ==> specs[n + i].1 == net.deny[i];
    assert forall i :: 0 <= i < |net.allow| ==> specs[m + i].1 == net.allow[i];
    assert forall i :: n <= i < m ==> specs[i].1 == net.deny[i - n];
    assert forall i :: m <= i < |specs| ==> specs[i].1 == net.allow[i - m];
    hide ValidRuleSpec;
  }

  lemma EntryIsSpec(net: NetworkSpec, firstId: nat, k: nat)
    requires ValidNetwork(net) && firstId + Entries(net) < 0x1_0000_0000 && k < Entries(net)
    ensures |Specs(net)| == Entries(net) && ValidRuleSpec(Specs(net)[k].1)
    ensures EntryRule(net, firstId, k) == RuleOf(Specs(net)[k].0, Specs(net)[k].1, firstId + k)
  {
    hide NetOf;
  }

  lemma {:induction false} RulesAreSections(net: NetworkSpec, firstId: nat, n: nat)
    requires ValidNetwork(net) && ValidSpecs(Specs(net)) && |Specs(net)| == Entries(net)
    requires firstId + Entries(net) < 0x1_0000_0000 && n <= Entries(net)
    ensures RulesOf(Specs(net)[..n], net.nat64, firstId) == SectionRules(net, firstId, n)
  {
    hide Specs, ValidRuleSpec, NetOf, EntryRule, MappedSpace, Nat64Space;
    if n == 0 {
    } else {
      RulesAreSections(net, firstId, n - 1);
      EntryIsSpec(net, firstId, n - 1);
      RulesOfNext(Specs(net), net.nat64, firstId, n - 1);
      hide RulesOf;
    }
  }

  /** The loops over a section give every entry its rule, in order, with the twins of the deny rules. */
  method BuildRules(net: NetworkSpec, nextRule: nat) returns (rules: seq<Rule>, next: nat)
    requires ValidSpecs(Specs(net)) && nextRule + |Specs(net)| < 0x1_0000_0000
    ensures rules == RulesOf(Specs(net), net.nat64, nextRule)
    ensures next == nextRule + |Specs(net)| == nextRule + Entries(net)
    ensures ValidNetwork(net) && rules == SectionRules(net, nextRule, Entries(net))
  {
    hide Specs, Added, ValidRuleSpec, SectionRules, ValidNetwork, RulesOf;
    rules, next := [], nextRule;
    var specs := Specs(net);
    assert specs[..0] == [];
    RulesOfNone(net.nat64, nextRule);
    for i := 0 to |specs|
      invariant rules == RulesOf(specs[..i], net.nat64, nextRule)
      invariant next == nextRule + i
    {
      RulesOfNext(specs, net.nat64, nextRule, i);
      rules := Push(rules, specs[i].0, specs[i].1, next, net.nat64);
      next := next + 1;
    }
    assert specs[..|specs|] == specs;
    SpecsAre(net);
    RulesAreSections(net, nextRule, |specs|);
  }

  // ---------------------------------------------------------------------------
  // NAT64 equivalence
  // ---------------------------------------------------------------------------

  /** The twin contains the embedded destination exactly when the rule contains the destination. */
  lemma TwinContains(net: Prefix, a: V4Address)
    requires Nat64Equivalent(net).Some?
    ensures Nat64Equivalent(net).value <= Nat64Address(a) <==> net <= Normalize(V4(a))
  {
    var twin := Nat64Equivalent(net).value;
    assert net == MappedSpace() + net[96..];
    assert Normalize(V4(a))[96..] == a && Nat64Address(a)[96..] == a;
    hide MappedSpace, Nat64Space;
    TailContains(MappedSpace(), net[96..], a);
    TailContains(Nat64Space(), net[96..], a);
  }

  lemma TailContains(space: seq<bool>, tail: seq<bool>, a: seq<bool>)
    ensures space + tail <= space + a <==> tail <= a
  {
    if space + tail <= space + a {
      forall j | 0 <= j < |tail| ensures tail[j] == a[j] {
        assert (space + tail)[|space| + j] == (space + a)[|space| + j];
      }
    }
  }

  /** A deny rule inside the IPv4-mapped space has its twin in the profile, with the same id, ports and protocols. */
  lemma {:induction false} TwinPresent(specs: seq<(Action, RuleSpec)>, firstId: nat, i: nat)
    requires ValidSpecs(specs) && firstId + |specs| < 0x1_0000_0000
    requires i < |RulesOf(specs, true, firstId)|
    requires var r := RulesOf(specs, true, firstId)[i]; r.action == Deny && Nat64Equivalent(r.net).Some?
    ensures var r := RulesOf(specs, true, firstId)[i];
            r.(net := Nat64Equivalent(r.net).value) in RulesOf(specs, true, firstId)
  {
    if specs == [] {
    } else {
      var n := |specs| - 1;
      var before := RulesOf(specs[..n], true, firstId);
      if i < |before| {
        TwinPresent(specs[..n], firstId, i);
      } else {
        SpacesDiffer(NetOf(specs[n].1.cidr));
      }
    }
  }

  /** A twin is outside the mapped space: it has no twin of its own. */
  lemma SpacesDiffer(net: Prefix)
    requires Nat64Equivalent(net).Some?
    ensures Nat64Equivalent(Nat64Equivalent(net).value).None?
  {
    hide BitsOf;
    var twin := Nat64Equivalent(net).value;
    assert twin[..16] == BitsOf(0x64, 16);
    if MappedSpace() <= twin {
      assert twin[..16] == MappedSpace()[..16] == ZeroBits(16);
      ZerosAreBits(16);
      assert Pow2(16) > 0x64 by {
        assert Pow2(8) == 256;
      }
      BitsOfInjective(0, 0x64, 16);
    }
  }

  lemma {:induction false} ZerosAreBits(n: nat)
    ensures BitsOf(0, n) == ZeroBits(n)
  {
    if n == 0 {
    } else {
      ZerosAreBits(n - 1);
    }
  }

  /** With equivalence on, a destination a mapped deny rule matches is denied in its embedded form too. */
  lemma Nat64Denied(prof: Profile, net: NetworkSpec, firstId: nat, i: nat, a: V4Address, port: U16, proto: bv8)
    requires net.nat64 && ValidSpecs(Specs(net)) && firstId + |Specs(net)| < 0x1_0000_0000
    requires prof.rules == RulesOf(Specs(net), net.nat64, firstId)
    requires i < |prof.rules| && MappedSpace() <= prof.rules[i].net
    requires Matches(prof.rules[i], Deny, Query(Normalize(V4(a)), port, proto))
    ensures Decide(prof, Query(Nat64Address(a), port, proto)).action == Deny
  {
    hide RulesOf, MappedSpace, Nat64Space;
    var r := prof.rules[i];
    TwinPresent(Specs(net), firstId, i);
    var twin := r.(net := Nat64Equivalent(r.net).value);
    var j :| 0 <= j < |prof.rules| && prof.rules[j] == twin;
    TwinContains(r.net, a);
    assert Matches(prof.rules[j], Deny, Query(Nat64Address(a), port, proto));
  }

  /** The same for the compiled lookup of any policy holding the profile. */
  lemma Nat64DeniedCompiled(policy: Policy, generation: nat, profile: U32, net: NetworkSpec, firstId: nat,
                            i: nat, a: V4Address, port: U16, proto: bv8)
    requires DistinctIds(policy.profiles) && CompileSpec(policy, generation).Ok?
    requires FindProfile(policy.profiles, profile).Some?
    requires net.nat64 && ValidSpecs(Specs(net)) && firstId + |Specs(net)| < 0x1_0000_0000
    requires FindProfile(policy.profiles, profile).value.rules == RulesOf(Specs(net), net.nat64, firstId)
    requires var rules := FindProfile(policy.profiles, profile).value.rules;
             && i < |rules| && MappedSpace() <= rules[i].net
             && Matches(rules[i], Deny, Query(Normalize(V4(a)), port, proto))
    ensures var d := Lookup(CompileSpec(policy, generation).value, profile, Query(Nat64Address(a), port, proto));
            d.Some? && d.value.action == Deny
  {
    hide RulesOf, CompileSpec, Lookup, MappedSpace, Nat64Space;
    var prof := FindProfile(policy.profiles, profile).value;
    Nat64Denied(prof, net, firstId, i, a, port, proto);
    LookupRefinesEvaluate(policy, generation, profile, Query(Nat64Address(a), port, proto));
  }

  // ---------------------------------------------------------------------------
  // Profile ids
  // ---------------------------------------------------------------------------

  const QUARANTINE := "quarantine"

  datatype ParseError = Reserved(name: string) | BadName(name: string) | TooManyProfiles(name: string)

  /** Every id given stays. */
  ghost predicate Kept(ids: map<string, nat>, ids': map<string, nat>) {
    forall n :: n in ids ==> n in ids' && ids'[n] == ids[n]
  }

  lemma KeptSame(ids: map<string, nat>)
    ensures Kept(ids, ids)
  {
  }

  /** Profile name to id, stable across reloads. */
  class ProfileIds {
    var ids: map<string, nat>
    var next: nat

    ghost predicate Valid()
      reads this
    {
      && next <= MAX_PROFILES
      && (forall n :: n in ids ==> ids[n] < next)
      && (forall n, m :: n in ids && m in ids && ids[n] == ids[m] ==> n == m)
    }

    constructor ()
      ensures Valid() && ids == map[] && next == 0
    {
      ids, next := map[], 0;
    }

    /** An id already given never changes and is never given to another name. */
    method Id(name: string) returns (r: Result<nat, ParseError>)
      requires Valid()
      modifies this
      ensures Valid()
      ensures Kept(old(ids), ids)
      ensures r.Ok? ==>
                && name in ids && ids[name] == r.value && r.value < MAX_PROFILES
                && ids.Keys == old(ids.Keys) + {name}
      ensures r.Ok? && name !in old(ids) ==> old(next) <= r.value
      ensures r.Err? <==> name !in old(ids) && old(next) >= 1024
      ensures r.Err? ==> ids == old(ids) && next == old(next) && r.error == TooManyProfiles(name)
      ensures r.Ok? ==> next == old(next) + (if name in old(ids) then 0 else 1)
    {
      if name in ids {
        return Ok(ids[name]);
      }
      if next >= MAX_PROFILES {
        return Err(TooManyProfiles(name));
      }
      var id := next;
      next := next + 1;
      ids := ids[name := id];
      return Ok(id);
    }
  }

  predicate ValidChar(c: char) {
    'a' <= c <= 'z' || 'A' <= c <= 'Z' || '0' <= c <= '9' || c in {'-', '_', '.'}
  }

  predicate ValidName(name: string) {
    0 < |name| <= 64 && forall i :: 0 <= i < |name| ==> ValidChar(name[i])
  }

  /** ASCII letters and digits, `-`, `.` and `_`, by code. */
  predicate NameCode(n: int) {
    48 <= n < 58 || 65 <= n < 91 || 97 <= n < 123 || n == 45 || n == 46 || n == 95
  }

  /** What a name may be: 1 to 64 of them. */
  predicate GoodName(name: string) {
    1 <= |name| < 65 && forall i :: 0 <= i < |name| ==> NameCode(name[i] as int)
  }

  lemma ValidNameIs(name: string)
    ensures ValidName(name) <==> GoodName(name)
  {
  }

  /** A profile section: its network part, and how many exec and file rules take ids after it. */
  datatype ProfileFile = ProfileFile(name: string, mode: Mode, net: NetworkSpec, otherRules: nat)

  function TotalRules(files: seq<ProfileFile>): nat {
    if files == [] then 0 else |Specs(files[0].net)| + files[0].otherRules + TotalRules(files[1..])
  }

  predicate DistinctNames(files: seq<ProfileFile>) {
    forall i, j :: 0 <= i < j < |files| ==> files[i].name != files[j].name
  }

  /** The id of the first rule of a section: ids start at 1 and run on over all rules of all sections. */
  function FirstRule(files: seq<ProfileFile>, i: nat): nat
    requires i <= |files|
  {
    if i == 0 then 1 else FirstRule(files, i - 1) + |Specs(files[i - 1].net)| + files[i - 1].otherRules
  }

  /** The profile of one file section: its id from the allocator, its rules from its specs, numbered from `firstId`. */
  predicate BuiltFrom(p: Profile, f: ProfileFile, ids: map<string, nat>, firstId: nat)
    requires ValidSpecs(Specs(f.net))
  {
    && f.name in ids && p.id == ids[f.name] && p.name == f.name && p.mode == f.mode && p.netDefault == f.net.netDefault
    && firstId + |Specs(f.net)| < 0x1_0000_0000 && p.rules == RulesOf(Specs(f.net), f.net.nat64, firstId)
  }

  lemma {:induction false} TotalRulesSplit(files: seq<ProfileFile>, i: nat)
    requires i < |files|
    ensures TotalRules(files[i..]) == |Specs(files[i].net)| + files[i].otherRules + TotalRules(files[i + 1..])
  {
    assert files[i..][1..] == files[i + 1..];
  }

  predicate Acceptable(name: string) {
    name != QUARANTINE && GoodName(name)
  }

  /** Why a section is refused: its name is taken or malformed, or it is new and no id is left. */
  function Refusal(name: string, ids: map<string, nat>, next: nat): Option<ParseError> {
    if name == QUARANTINE then Some(Reserved(name))
    else if !GoodName(name) then Some(BadName(name))
    else if name !in ids && next >= MAX_PROFILES then Some(TooManyProfiles(name))
    else None
  }

  method ParseProfile(f: ProfileFile, ids: ProfileIds, nextRule: nat)
    returns (r: Result<Profile, ParseError>, next: nat)
    requires ids.Valid() && ValidSpecs(Specs(f.net)) && nextRule + |Specs(f.net)| + f.otherRules < 0x1_0000_0000
    modifies ids
    ensures ids.Valid() && next == nextRule + |Specs(f.net)| + f.otherRules
    ensures Kept(old(ids.ids), ids.ids)
    ensures r.Ok? ==> BuiltFrom(r.value, f, ids.ids, nextRule) && r.value.id < MAX_PROFILES && Acceptable(f.name)
    ensures r.Ok? ==> ids.ids.Keys == old(ids.ids.Keys) + {f.name}
    ensures r.Ok? ==> ids.next == old(ids.next) + (if f.name in old(ids.ids) then 0 else 1)
    ensures match old(Refusal(f.name, ids.ids, ids.next)) case None => r.Ok? case Some(e) => r == Err(e)
    ensures r.Err? ==> ids.ids == old(ids.ids) && ids.next == old(ids.next)
  {
    KeptSame(ids.ids);
    ValidNameIs(f.name);
    hide RulesOf, Specs, ValidName, GoodName, Kept;
    next := nextRule + |Specs(f.net)| + f.otherRules;
    if f.name == QUARANTINE {
      return Err(Reserved(f.name)), next;
    }
    if !ValidName(f.name) {
      return Err(BadName(f.name)), next;
    }
    var id := ids.Id(f.name);
    if id.Err? {
      return Err(id.error), next;
    }
    var rules, after := BuildRules(f.net, nextRule);
    r := Ok(Profile(id.value, f.name, f.mode, f.net.netDefault, rules));
  }

  function Names(files: seq<ProfileFile>): set<string> {
    set i | 0 <= i < |files| :: files[i].name
  }

  /** The names of a policy that have no id yet. */
  function NewNames(files: seq<ProfileFile>, known: set<string>): set<string> {
    Names(files) + {QUARANTINE} - known
  }

  ghost predicate BadNames(files: seq<ProfileFile>) {
    exists i :: 0 <= i < |files| && !Acceptable(files[i].name)
  }

  /** A policy is refused exactly if a name is, or if its new names are more than the ids left. */
  ghost predicate PolicyRefused(files: seq<ProfileFile>, known: set<string>, next: nat) {
    BadNames(files) || next + |NewNames(files, known)| > 1024
  }

  lemma NamesNext(files: seq<ProfileFile>, i: nat)
    requires i < |files|
    ensures Names(files[..i + 1]) == Names(files[..i]) + {files[i].name}
    ensures Names(files[..i + 1]) <= Names(files)
  {
    assert files[..i + 1] == files[..i] + [files[i]];
    forall n | n in Names(files[..i + 1]) ensures n in Names(files[..i]) + {files[i].name} && n in Names(files) {
      var k :| 0 <= k <= i && files[..i + 1][k].name == n;
      assert files[k].name == n;
    }
    forall n | n in Names(files[..i]) ensures n in Names(files[..i + 1]) {
      var k :| 0 <= k < i && files[..i][k].name == n;
      assert files[..i + 1][k].name == n;
    }
    assert files[..i + 1][i].name == files[i].name;
  }

  lemma AddOne(taken: set<string>, known: set<string>, name: string)
    ensures |taken + {name} - known| == |taken - known| + (if name in known + taken then 0 else 1)
  {
    if name in known + taken {
      assert taken + {name} - known == taken - known;
    } else {
      assert taken + {name} - known == (taken - known) + {name};
    }
  }

  lemma SubsetSize<T>(a: set<T>, b: set<T>)
    requires a <= b
    ensures |a| <= |b|
  {
    assert b == a + (b - a);
  }

  /** A section with no id left for its new name: the sections have too many. */
  lemma TooMany(files: seq<ProfileFile>, i: nat, known: set<string>, next: nat)
    requires i < |files| && files[i].name !in known + Names(files[..i])
    requires next + |Names(files[..i]) - known| >= MAX_PROFILES
    ensures next + |Names(files) - known| > MAX_PROFILES
  {
    NamesNext(files, i);
    AddOne(Names(files[..i]), known, files[i].name);
    SubsetSize(Names(files[..i + 1]) - known, Names(files) - known);
  }

  /** The reserved name comes last, and no section has it. */
  lemma QuarantineIsNew(files: seq<ProfileFile>, known: set<string>)
    ensures |Names(files) - known| <= |NewNames(files, known)|
    ensures !BadNames(files) ==>
              && QUARANTINE !in Names(files)
              && |NewNames(files, known)| == |Names(files) - known| + (if QUARANTINE in known then 0 else 1)
  {
    SubsetSize(Names(files) - known, NewNames(files, known));
    AddOne(Names(files), known, QUARANTINE);
  }

  predicate ValidFiles(files: seq<ProfileFile>) {
    forall i :: 0 <= i < |files| ==> ValidSpecs(Specs(files[i].net))
  }

  /** The first profiles, one per section. */
  ghost predicate BuiltAll(profiles: seq<Profile>, files: seq<ProfileFile>, ids: map<string, nat>)
    requires ValidFiles(files)
  {
    && |profiles| <= |files|
    && forall k :: 0 <= k < |profiles| ==>
                     && BuiltFrom(profiles[k], files[k], ids, FirstRule(files, k))
                     && profiles[k].id < MAX_PROFILES && Acceptable(files[k].name)
  }

  lemma BuiltAllKept(profiles: seq<Profile>, files: seq<ProfileFile>, ids: map<string, nat>, ids': map<string, nat>)
    requires ValidFiles(files) && BuiltAll(profiles, files, ids) && Kept(ids, ids')
    ensures BuiltAll(profiles, files, ids')
  {
    hide BuiltFrom, Acceptable, Kept, FirstRule;
    forall k | 0 <= k < |profiles| ensures BuiltFrom(profiles[k], files[k], ids', FirstRule(files, k)) {
      BuiltFromKept(profiles[k], files[k], ids, ids', FirstRule(files, k));
    }
  }

  lemma {:induction false} BuiltAllNext(
    profiles: seq<Profile>, files: seq<ProfileFile>, ids: map<string, nat>, p: Profile)
    requires ValidFiles(files) && BuiltAll(profiles, files, ids) && |profiles| < |files|
    requires var f := files[|profiles|];
             BuiltFrom(p, f, ids, FirstRule(files, |profiles|)) && p.id < MAX_PROFILES && Acceptable(f.name)
    ensures BuiltAll(profiles + [p], files, ids)
  {
    hide BuiltFrom, Acceptable, FirstRule;
  }

  /** The names of the first `i` sections have ids, and exactly the new ones took one each. */
  ghost predicate Allocated(files: seq<ProfileFile>, i: nat, known: set<string>, first: nat, ids: map<string, nat>,
                            next: nat)
    requires i <= |files|
  {
    ids.Keys == known + Names(files[..i]) && next == first + |Names(files[..i]) - known|
  }

  lemma AllocatedNext(files: seq<ProfileFile>, i: nat, known: set<string>, first: nat, ids: map<string, nat>, next: nat,
                      ids': map<string, nat>, next': nat)
    requires i < |files| && Allocated(files, i, known, first, ids, next)
    requires ids'.Keys == ids.Keys + {files[i].name}
    requires next' == next + (if files[i].name in ids then 0 else 1)
    ensures Allocated(files, i + 1, known, first, ids', next')
  {
    hide Names;
    NamesNext(files, i);
    AddOne(Names(files[..i]), known, files[i].name);
  }

  lemma AllocatedNone(files: seq<ProfileFile>, ids: map<string, nat>, first: nat)
    ensures Allocated(files, 0, ids.Keys, first, ids, first)
  {
    assert Names(files[..0]) == {};
    assert ids.Keys + {} == ids.Keys && {} - ids.Keys == {};
  }

  /** Rule ids are left for the sections from `i` on. */
  predicate RulesLeft(files: seq<ProfileFile>, i: nat, nextRule: nat)
    requires i <= |files|
  {
    nextRule + TotalRules(files[i..]) < 0x1_0000_0000
  }

  lemma RulesLeftNext(files: seq<ProfileFile>, i: nat, nextRule: nat)
    requires i < |files| && RulesLeft(files, i, nextRule)
    ensures nextRule + |Specs(files[i].net)| + files[i].otherRules < 0x1_0000_0000
    ensures RulesLeft(files, i + 1, nextRule + |Specs(files[i].net)| + files[i].otherRules)
  {
    hide Specs, TotalRules;
    TotalRulesSplit(files, i);
  }

  ghost predicate SectionsRefused(files: seq<ProfileFile>, known: set<string>, first: nat) {
    BadNames(files) || first + |Names(files) - known| > MAX_PROFILES
  }

  /** Why section `i` is refused: its name, or too many new names. */
  lemma SectionRefused(files: seq<ProfileFile>, i: nat, known: set<string>, first: nat, ids: map<string, nat>,
                       next: nat)
    requires i < |files| && Allocated(files, i, known, first, ids, next)
    requires Refusal(files[i].name, ids, next).Some?
    ensures SectionsRefused(files, known, first)
  {
    hide Names, GoodName;
    if Acceptable(files[i].name) {
      TooMany(files, i, known, first);
    }
  }

  lemma AllAccepted(profiles: seq<Profile>, files: seq<ProfileFile>, ids: map<string, nat>,
                    known: set<string>, first: nat, next: nat)
    requires ValidFiles(files) && BuiltAll(profiles, files, ids) && |profiles| == |files|
    requires Allocated(files, |files|, known, first, ids, next) && next <= MAX_PROFILES
    ensures !SectionsRefused(files, known, first)
  {
    hide BuiltFrom, Acceptable, Names, FirstRule;
    assert files[..|files|] == files;
  }

  lemma KeptTrans(a: map<string, nat>, b: map<string, nat>, d: map<string, nat>)
    requires Kept(a, b) && Kept(b, d)
    ensures Kept(a, d)
  {
  }

  /** One more section, after those before it. */
  method ParseNext(files: seq<ProfileFile>, i: nat, profiles: seq<Profile>, ids: ProfileIds, nextRule: nat,
                   ghost known: set<string>, ghost first: nat)
    returns (r: Result<seq<Profile>, ParseError>, next: nat)
    requires ids.Valid() && ValidFiles(files) && |profiles| == i < |files| && BuiltAll(profiles, files, ids.ids)
    requires Allocated(files, i, known, first, ids.ids, ids.next)
    requires RulesLeft(files, i, nextRule) && nextRule == FirstRule(files, i)
    modifies ids
    ensures ids.Valid() && Kept(old(ids.ids), ids.ids)
    ensures r.Err? ==> SectionsRefused(files, known, first)
    ensures r.Ok? ==>
              && |r.value| == i + 1 && BuiltAll(r.value, files, ids.ids)
              && Allocated(files, i + 1, known, first, ids.ids, ids.next)
              && RulesLeft(files, i + 1, next) && next == FirstRule(files, i + 1)
  {
    assert ValidSpecs(Specs(files[i].net));
    assert FirstRule(files, i + 1) == FirstRule(files, i) + |Specs(files[i].net)| + files[i].otherRules;
    hide FirstRule, ValidFiles, RulesOf, Specs, Acceptable, BuiltFrom, BuiltAll, RulesLeft, Refusal, ValidSpecs;
    hide Allocated, SectionsRefused, Kept, ProfileIds.Valid;
    RulesLeftNext(files, i, nextRule);
    ghost var before, was := ids.ids, ids.next;
    if Refusal(files[i].name, before, was).Some? {
      SectionRefused(files, i, known, first, before, was);
    }
    var p;
    p, next := ParseProfile(files[i], ids, nextRule);
    if p.Err? {
      return Err(p.error), next;
    }
    AllocatedNext(files, i, known, first, before, was, ids.ids, ids.next);
    BuiltAllKept(profiles, files, before, ids.ids);
    BuiltAllNext(profiles, files, ids.ids, p.value);
    r := Ok(profiles + [p.value]);
  }

  /** The sections of a policy in order. */
  method ParseSections(files: seq<ProfileFile>, ids: ProfileIds) returns (r: Result<seq<Profile>, ParseError>)
    requires ids.Valid() && ValidFiles(files) && 1 + TotalRules(files) < 0x1_0000_0000
    modifies ids
    ensures ids.Valid() && Kept(old(ids.ids), ids.ids)
    ensures r.Ok? ==> |r.value| == |files| && BuiltAll(r.value, files, ids.ids)
    ensures r.Ok? ==> Allocated(files, |files|, old(ids.ids.Keys), old(ids.next), ids.ids, ids.next)
    ensures r.Err? <==> SectionsRefused(files, old(ids.ids.Keys), old(ids.next))
  {
    assert files[0..] == files;
    hide BuiltAll, TotalRules, Allocated, SectionsRefused, Kept, ValidFiles;
    var profiles: seq<Profile> := [];
    var nextRule: nat := 1;
    ghost var known, first, given := ids.ids.Keys, ids.next, ids.ids;
    AllocatedNone(files, given, first);
    BuiltNone(files, given);
    KeptSame(given);
    assert RulesLeft(files, 0, 1) && FirstRule(files, 0) == 1;
    hide RulesLeft, FirstRule;
    for i := 0 to |files|
      invariant ids.Valid() && Kept(given, ids.ids) && |profiles| == i
      invariant RulesLeft(files, i, nextRule) && nextRule == FirstRule(files, i)
      invariant Allocated(files, i, known, first, ids.ids, ids.next) && BuiltAll(profiles, files, ids.ids)
    {
      ghost var before := ids.ids;
      var longer, next := ParseNext(files, i, profiles, ids, nextRule, known, first);
      KeptTrans(given, before, ids.ids);
      if longer.Err? {
        return Err(longer.error);
      }
      profiles, nextRule := longer.value, next;
    }
    AllAccepted(profiles, files, ids.ids, known, first, ids.next);
    r := Ok(profiles);
  }

  /**
   Every profile of the file in order, then the built-in quarantine profile; ids are distinct and within the kernel's
   limit.
   */
  method ParseProfiles(files: seq<ProfileFile>, ids: ProfileIds) returns (r: Result<Policy, ParseError>)
    requires ids.Valid() && DistinctNames(files) && ValidFiles(files) && 1 + TotalRules(files) < 0x1_0000_0000
    modifies ids
    ensures ids.Valid() && Kept(old(ids.ids), ids.ids)
    ensures r.Ok? ==>
              && |r.value.profiles| == |files| + 1
              && (forall i :: 0 <= i < |files| ==>
                    BuiltFrom(r.value.profiles[i], files[i], ids.ids, FirstRule(files, i)))
              && (var q := r.value.profiles[|files|];
                  q.name == QUARANTINE && q.mode == Enforce && q.netDefault == Deny && q.rules == [])
              && DistinctIds(r.value.profiles)
              && (forall i :: 0 <= i <= |files| ==> r.value.profiles[i].id < MAX_PROFILES)
              && DistinctRules(r.value.profiles)
    ensures r.Err? <==> PolicyRefused(files, old(ids.ids.Keys), old(ids.next))
  {
    QuarantineLast(files, ids.ids.Keys, ids.next);
    hide BuiltFrom, BuiltAll, TotalRules, NewNames, SectionsRefused, PolicyRefused, Allocated, Kept;
    hide ValidFiles, DistinctNames, DistinctIds, DistinctRules, FirstRule;
    ghost var given, first := ids.ids, ids.next;
    var sections := ParseSections(files, ids);
    if sections.Err? {
      return Err(sections.error);
    }
    ghost var before, next := ids.ids, ids.next;
    QuarantineLeft(files, given.Keys, first, before, next);
    var q := ids.Id(QUARANTINE);
    if q.Err? {
      KeptTrans(given, before, ids.ids);
      return Err(q.error);
    }
    KeptTrans(given, before, ids.ids);
    BuiltAllKept(sections.value, files, before, ids.ids);
    var profiles := sections.value + [Profile(q.value, QUARANTINE, Enforce, Deny, [])];
    WholePolicy(files, sections.value, profiles, ids);
    SectionsDistinct(files, sections.value, ids.ids);
    RulesStayDistinct(sections.value, profiles[|files|]);
    r := Ok(Policy(profiles));
  }

  lemma QuarantineLast(files: seq<ProfileFile>, known: set<string>, first: nat)
    ensures SectionsRefused(files, known, first) ==> PolicyRefused(files, known, first)
  {
    QuarantineIsNew(files, known);
    hide Names, NewNames, BadNames;
  }

  /** With the sections accepted, the policy is refused exactly if no id is left for the quarantine profile. */
  lemma QuarantineLeft(files: seq<ProfileFile>, known: set<string>, first: nat, ids: map<string, nat>, next: nat)
    requires !SectionsRefused(files, known, first) && Allocated(files, |files|, known, first, ids, next)
    ensures PolicyRefused(files, known, first) <==> QUARANTINE !in ids && next >= MAX_PROFILES
  {
    assert files[..|files|] == files;
    QuarantineIsNew(files, known);
    hide Names, NewNames, BadNames;
  }

  lemma WholePolicy(files: seq<ProfileFile>, sections: seq<Profile>, profiles: seq<Profile>, ids: ProfileIds)
    requires ids.Valid() && ValidFiles(files) && DistinctNames(files) && BuiltAll(sections, files, ids.ids)
    requires |sections| == |files| && |profiles| == |files| + 1 && sections <= profiles
    requires var q := profiles[|files|]; q.name == QUARANTINE && QUARANTINE in ids.ids && ids.ids[QUARANTINE] == q.id
    ensures forall i :: 0 <= i < |files| ==>
              BuiltFrom(profiles[i], files[i], ids.ids, FirstRule(files, i)) && profiles[i].id < MAX_PROFILES
    ensures DistinctIds(profiles)
  {
    hide BuiltFrom, DistinctNames, Acceptable, ValidFiles, FirstRule;
    assert profiles[..|files|] == sections;
    NamesDistinct(files, profiles, ids.ids);
    DistinctFromNames(profiles, ids.ids);
  }

  // ---------------------------------------------------------------------------
  // Rule ids
  // ---------------------------------------------------------------------------

  /** `t` is the NAT64 twin of the deny rule `r`. */
  predicate TwinOf(t: Rule, r: Rule) {
    r.action == Deny && Nat64Equivalent(r.net) == Some(t.net) && t == r.(net := t.net)
  }

  /** Two rules stand for one entry of the file: they are the same one, or a deny rule and its twin. */
  predicate OneEntry(rules: seq<Rule>, a: nat, b: nat)
    requires a < |rules| && b < |rules|
  {
    a == b || TwinOf(rules[a], rules[b]) || TwinOf(rules[b], rules[a])
  }

  /** Rules with the same id are of one profile and one entry; 0, the id of the default, is no rule's. */
  ghost predicate DistinctRules(profiles: seq<Profile>) {
    && (forall i, a :: 0 <= i < |profiles| && 0 <= a < |profiles[i].rules| ==> profiles[i].rules[a].id > 0)
    && forall i, j, a, b ::
         0 <= i <= j < |profiles| && 0 <= a < |profiles[i].rules| && 0 <= b < |profiles[j].rules| ==>
           profiles[i].rules[a].id == profiles[j].rules[b].id ==> i == j && OneEntry(profiles[i].rules, a, b)
  }

  /** The rules of one entry are numbered alike. */
  lemma AddedIds(action: Action, s: RuleSpec, id: U32, nat64: bool)
    requires ValidRuleSpec(s)
    ensures var r := Added(action, s, id, nat64);
            && 1 <= |r| <= 2 && (forall k :: 0 <= k < |r| ==> r[k].id == id) && (|r| == 2 ==> TwinOf(r[0], r[1]))
  {
    hide Nat64Equivalent, NetOf;
  }

  lemma {:induction false} IdsWithin(specs: seq<(Action, RuleSpec)>, nat64: bool, firstId: nat, a: nat)
    requires ValidSpecs(specs) && firstId + |specs| < 0x1_0000_0000 && a < |RulesOf(specs, nat64, firstId)|
    ensures firstId <= RulesOf(specs, nat64, firstId)[a].id < firstId + |specs|
  {
    var n := |specs| - 1;
    AddedIds(specs[n].0, specs[n].1, firstId + n, nat64);
    hide Added;
    if a < |RulesOf(specs[..n], nat64, firstId)| {
      IdsWithin(specs[..n], nat64, firstId, a);
    }
  }

  /** Within a profile only a rule and its twin have the same id. */
  lemma {:induction false} SameIdTwins(specs: seq<(Action, RuleSpec)>, nat64: bool, firstId: nat, a: nat, b: nat)
    requires ValidSpecs(specs) && firstId + |specs| < 0x1_0000_0000 && a < b < |RulesOf(specs, nat64, firstId)|
    requires RulesOf(specs, nat64, firstId)[a].id == RulesOf(specs, nat64, firstId)[b].id
    ensures TwinOf(RulesOf(specs, nat64, firstId)[a], RulesOf(specs, nat64, firstId)[b])
  {
    var n := |specs| - 1;
    RulesOfNone(nat64, firstId);
    hide RulesOf, Added, TwinOf;
    RulesOfNext(specs, nat64, firstId, n);
    assert specs[..n + 1] == specs;
    AddedIds(specs[n].0, specs[n].1, firstId + n, nat64);
    var before := RulesOf(specs[..n], nat64, firstId);
    if b < |before| {
      SameIdTwins(specs[..n], nat64, firstId, a, b);
    } else if a < |before| {
      IdsWithin(specs[..n], nat64, firstId, a);
    }
  }

  lemma {:induction false} FirstRuleGrows(files: seq<ProfileFile>, i: nat, j: nat)
    requires i < j <= |files|
    ensures 1 <= FirstRule(files, i) && FirstRule(files, i) + |Specs(files[i].net)| <= FirstRule(files, j)
  {
    hide Specs;
    FirstRulePositive(files, i);
    if i < j - 1 {
      FirstRuleGrows(files, i, j - 1);
    }
  }

  lemma {:induction false} FirstRulePositive(files: seq<ProfileFile>, i: nat)
    requires i <= |files|
    ensures 1 <= FirstRule(files, i)
  {
    if i == 0 {
    } else {
      FirstRulePositive(files, i - 1);
    }
  }

  /** A rule of section `i` is numbered within what the section takes. */
  lemma SectionIds(files: seq<ProfileFile>, sections: seq<Profile>, ids: map<string, nat>, i: nat, a: nat)
    requires ValidFiles(files) && BuiltAll(sections, files, ids) && i < |sections| && a < |sections[i].rules|
    ensures FirstRule(files, i) <= sections[i].rules[a].id < FirstRule(files, i) + |Specs(files[i].net)|
  {
    assert BuiltFrom(sections[i], files[i], ids, FirstRule(files, i));
    hide RulesOf, Specs, FirstRule, Acceptable;
    IdsWithin(Specs(files[i].net), files[i].net.nat64, FirstRule(files, i), a);
  }

  lemma SameSectionTwins(files: seq<ProfileFile>, sections: seq<Profile>, ids: map<string, nat>, i: nat, a: nat, b: nat)
    requires ValidFiles(files) && BuiltAll(sections, files, ids) && i < |sections| && a < b < |sections[i].rules|
    requires sections[i].rules[a].id == sections[i].rules[b].id
    ensures TwinOf(sections[i].rules[a], sections[i].rules[b])
  {
    assert BuiltFrom(sections[i], files[i], ids, FirstRule(files, i));
    hide RulesOf, Specs, FirstRule, Acceptable, TwinOf;
    SameIdTwins(Specs(files[i].net), files[i].net.nat64, FirstRule(files, i), a, b);
  }

  lemma SameIdOneEntry(files: seq<ProfileFile>, sections: seq<Profile>, ids: map<string, nat>,
                       i: nat, j: nat, a: nat, b: nat)
    requires ValidFiles(files) && BuiltAll(sections, files, ids) && i <= j < |sections| <= |files|
    requires a < |sections[i].rules| && b < |sections[j].rules|
    requires sections[i].rules[a].id == sections[j].rules[b].id
    ensures i == j && OneEntry(sections[i].rules, a, b)
  {
    hide BuiltAll, FirstRule, Specs, TwinOf, ValidFiles;
    SectionIds(files, sections, ids, i, a);
    SectionIds(files, sections, ids, j, b);
    if i < j {
      FirstRuleGrows(files, i, j);
    } else if a < b {
      SameSectionTwins(files, sections, ids, i, a, b);
    } else if b < a {
      SameSectionTwins(files, sections, ids, i, b, a);
    }
  }

  lemma SectionsDistinct(files: seq<ProfileFile>, sections: seq<Profile>, ids: map<string, nat>)
    requires ValidFiles(files) && BuiltAll(sections, files, ids) && |sections| <= |files|
    ensures DistinctRules(sections)
  {
    hide BuiltAll, FirstRule, Specs, OneEntry, ValidFiles;
    forall i, a | 0 <= i < |sections| && 0 <= a < |sections[i].rules| ensures sections[i].rules[a].id > 0 {
      SectionIds(files, sections, ids, i, a);
      FirstRulePositive(files, i);
    }
    forall i, j, a, b | 0 <= i <= j < |sections| && 0 <= a < |sections[i].rules| && 0 <= b < |sections[j].rules|
      ensures sections[i].rules[a].id == sections[j].rules[b].id ==> i == j && OneEntry(sections[i].rules, a, b)
    {
      if sections[i].rules[a].id == sections[j].rules[b].id {
        SameIdOneEntry(files, sections, ids, i, j, a, b);
      }
    }
  }

  /** A profile without rules changes nothing. */
  lemma RulesStayDistinct(sections: seq<Profile>, q: Profile)
    requires DistinctRules(sections) && q.rules == []
    ensures DistinctRules(sections + [q])
  {
    hide OneEntry;
    var all := sections + [q];
    assert forall i :: 0 <= i < |sections| ==> all[i] == sections[i];
    assert forall i :: 0 <= i < |all| && |all[i].rules| > 0 ==> i < |sections|;
  }

  lemma BuiltNone(files: seq<ProfileFile>, ids: map<string, nat>)
    requires ValidFiles(files)
    ensures BuiltAll([], files, ids)
  {
  }

  lemma BuiltFromKept(p: Profile, f: ProfileFile, ids: map<string, nat>, ids': map<string, nat>, firstId: nat)
    requires ValidSpecs(Specs(f.net)) && BuiltFrom(p, f, ids, firstId) && Kept(ids, ids')
    ensures BuiltFrom(p, f, ids', firstId)
  {
    hide RulesOf, Specs;
  }

  lemma NamesDistinct(files: seq<ProfileFile>, profiles: seq<Profile>, ids: map<string, nat>)
    requires ValidFiles(files) && DistinctNames(files) && |profiles| == |files| + 1
    requires BuiltAll(profiles[..|files|], files, ids)
    requires profiles[|files|].name == QUARANTINE
    ensures forall i, j :: 0 <= i < j < |profiles| ==> profiles[i].name != profiles[j].name
    ensures forall k :: 0 <= k < |files| ==> profiles[k].name in ids && ids[profiles[k].name] == profiles[k].id
  {
    hide RulesOf, Specs, GoodName, FirstRule;
    forall k | 0 <= k < |files|
      ensures profiles[k].name == files[k].name != QUARANTINE
      ensures profiles[k].name in ids && ids[profiles[k].name] == profiles[k].id
    {
      assert profiles[..|files|][k] == profiles[k];
      assert BuiltFrom(profiles[k], files[k], ids, FirstRule(files, k));
    }
  }

  /** Distinct names under an injective allocation have distinct ids. */
  lemma DistinctFromNames(profiles: seq<Profile>, ids: map<string, nat>)
    requires forall k :: 0 <= k < |profiles| ==> profiles[k].name in ids && ids[profiles[k].name] == profiles[k].id
    requires forall n, m :: n in ids && m in ids && ids[n] == ids[m] ==> n == m
    requires forall i, j :: 0 <= i < j < |profiles| ==> profiles[i].name != profiles[j].name
    ensures DistinctIds(profiles)
  {
  }
}
