/**
 The kernel side of a network decision: the two longest-prefix tries that hold
 the compiled entries of both policy slots and every profile, the bounded range
 loop, the governance lookup and the verdict.

 A trie key is a bit string: the 32 bits of the scope (slot and profile), then
 the bits of the prefix. Every key fixes the whole scope.
 */
module NetKernel {
  import opened Wrappers
  import opened BitStrings
  import opened NetPolicy

  type Key = seq<bool>

  /** A trie value: a fixed array of ranges, of which the first `nranges` are used. */
  datatype NetRule = NetRule(nranges: U32, ranges: seq<CompiledRange>)

  type Trie = map<Key, NetRule>

  const FAIL_CLOSED_SCOPE: U32 := 0xffff_ffff

  /** Scopes written to the trie: the slot in the top bit, the profile below. */
  function Scope(slot: nat, profile: U32): (r: U32)
    requires slot < 2 && profile < MAX_PROFILES
    ensures r != FAIL_CLOSED_SCOPE
  {
    slot * 0x8000_0000 + profile
  }

  function ScopeBits(scope: U32): Key {
    BitsOf(scope, 32)
  }

  lemma ScopeBitsInjective(a: U32, b: U32)
    requires ScopeBits(a) == ScopeBits(b)
    ensures a == b
  {
    assert Pow2(8) == 256;
    assert Pow2(16) == 0x1_0000 by {
      assert Pow2(12) == 16 * Pow2(8);
      assert Pow2(16) == 16 * Pow2(12);
    }
    assert Pow2(32) == 0x1_0000_0000 by {
      assert Pow2(20) == 16 * Pow2(16);
      assert Pow2(24) == 16 * Pow2(20);
      assert Pow2(28) == 16 * Pow2(24);
      assert Pow2(32) == 16 * Pow2(28);
    }
    BitsOfInjective(a, b, 32);
  }

  function TrieKey(slot: nat, e: Entry): Key
    requires slot < 2 && e.profile < MAX_PROFILES
  {
    ScopeBits(Scope(slot, e.profile)) + e.net
  }

  /** An unused range: its protocol mask is empty. */
  const NO_RANGE := CompiledRange(0, 0, 0, 0)

  function TrieValue(e: Entry): NetRule
    requires |e.ranges| <= MAX_RANGES
  {
    NetRule(|e.ranges|, e.ranges + seq(MAX_RANGES - |e.ranges|, _ => NO_RANGE))
  }

  predicate Writable(entries: seq<Entry>) {
    forall i :: 0 <= i < |entries| ==> entries[i].profile < MAX_PROFILES && |entries[i].ranges| <= MAX_RANGES
  }

  /** Writes compiled entries into one slot. */
  function Install(trie: Trie, slot: nat, entries: seq<Entry>): Trie
    requires slot < 2 && Writable(entries)
  {
    if entries == [] then trie
    else
      var n := |entries| - 1;
      Install(trie, slot, entries[..n])[TrieKey(slot, entries[n]) := TrieValue(entries[n])]
  }

  /** The trie holding one policy slot's entries and the other's. */
  function BothSlots(slot0: seq<Entry>, slot1: seq<Entry>): Trie
    requires Writable(slot0) && Writable(slot1)
  {
    Install(Install(map[], 0, slot0), 1, slot1)
  }

  /** The longest key of the trie that is a prefix of `key[..n]`. */
  function Lpm(trie: Trie, key: Key, n: nat): (r: Option<NetRule>)
    requires n <= |key|
  {
    if key[..n] in trie then Some(trie[key[..n]])
    else if n == 0 then None
    else Lpm(trie, key, n - 1)
  }

  // ---------------------------------------------------------------------------
  // The match loop and the verdict
  // ---------------------------------------------------------------------------

  function Used(rule: NetRule): seq<CompiledRange>
    requires |rule.ranges| == MAX_RANGES
  {
    if rule.nranges <= MAX_RANGES then rule.ranges[..rule.nranges] else rule.ranges
  }

  predicate WellFormed(trie: Trie) {
    forall k :: k in trie ==> |trie[k].ranges| == MAX_RANGES
  }

  function LookupKey(scope: U32, addr: Address): Key {
    ScopeBits(scope) + addr
  }

  function MatchSpec(trie: Trie, scope: U32, q: Query): Option<U32>
    requires WellFormed(trie)
  {
    var key := LookupKey(scope, q.addr);
    LpmWellFormed(trie, key, |key|);
    var rule := Lpm(trie, key, |key|);
    if rule.None? then None else FirstHit(Used(rule.value), q)
  }

  lemma {:induction false} LpmWellFormed(trie: Trie, key: Key, n: nat)
    requires WellFormed(trie) && n <= |key|
    ensures var r := Lpm(trie, key, n); r.Some? ==> |r.value.ranges| == MAX_RANGES
  {
    if key[..n] !in trie && n > 0 {
      LpmWellFormed(trie, key, n - 1);
    }
  }

  /** The first matching range of the longest entry; `ruleId` is left as it was when nothing matches. */
  method NetMatch(trie: Trie, scope: U32, q: Query, before: U32) returns (matched: bool, ruleId: U32)
    requires WellFormed(trie)
    ensures matched == MatchSpec(trie, scope, q).Some?
    ensures ruleId == if matched then MatchSpec(trie, scope, q).value else before
  {
    matched, ruleId := false, before;
    var key := LookupKey(scope, q.addr);
    LpmWellFormed(trie, key, |key|);
    var rule := Lpm(trie, key, |key|);
    if rule.None? {
      return;
    }
    var n := rule.value.nranges;
    var used := Used(rule.value);
    for i := 0 to MAX_RANGES
      invariant i <= |used|
      invariant FirstHit(used, q) == FirstHit(used[i..], q)
    {
      if i >= n {
        break;
      }
      assert used[i] == rule.value.ranges[i];
      if rule.value.ranges[i].Hits(q) {
        return true, rule.value.ranges[i].ruleId;
      }
    }
    assert used[|used|..] == [];
  }

  /** The governance context of one decision. */
  datatype Governance = Governance(cgroup: nat, policyGen: nat, scope: U32, mode: Mode, netDefault: Action)

  function VerdictSpec(deny: Trie, allow: Trie, g: Governance, q: Query): Decision
    requires WellFormed(deny) && WellFormed(allow)
  {
    var d := MatchSpec(deny, g.scope, q);
    if d.Some? then Decision(Deny, d.value)
    else
      var a := MatchSpec(allow, g.scope, q);
      if a.Some? then Decision(Allow, a.value) else Decision(g.netDefault, 0)
  }

  method NetVerdict(deny: Trie, allow: Trie, g: Governance, q: Query, before: U32) returns (action: Action, ruleId: U32)
    requires WellFormed(deny) && WellFormed(allow)
    ensures Decision(action, ruleId) == VerdictSpec(deny, allow, g, q)
  {
    var matched;
    matched, ruleId := NetMatch(deny, g.scope, q, before);
    if matched {
      return Deny, ruleId;
    }
    matched, ruleId := NetMatch(allow, g.scope, q, ruleId);
    if matched {
      return Allow, ruleId;
    }
    return g.netDefault, 0;
  }

  /** The bit of a protocol number: TCP, UDP, any other. */
  function ProtoBit(protocol: nat): bv8 {
    match protocol case 6 => 1 case 17 => 2 case _ => 4
  }

  // ---------------------------------------------------------------------------
  // Governance
  // ---------------------------------------------------------------------------

  const MAX_DEPTH: nat := 16

  type CgroupId = n: int | 0 < n < 0x1_0000_0000_0000_0000 witness 1

  /** The cgroups of a task, from the hierarchy root (level 0) down to its own. */
  type CgroupPath = p: seq<CgroupId> | |p| > 0 && (forall i, j :: 0 <= i < j < |p| ==> p[i] != p[j]) witness [1]

  function Self(path: CgroupPath): CgroupId {
    path[|path| - 1]
  }

  predicate BitSet(levels: bv64, level: nat)
    requires level < 64
  {
    levels & ((1 as bv64) << level) != 0
  }

  /** The ancestor at a hierarchy level, 0 when it is not that deep. */
  function AncestorId(path: CgroupPath, level: nat): int {
    if level < |path| then path[level] else 0
  }

  /** The level of a cgroup the walk can reach: its own, or an ancestor at levels 1 to 16. */
  predicate Reachable(path: CgroupPath, level: nat) {
    level < |path| && (level == |path| - 1 || 1 <= level <= MAX_DEPTH)
  }

  /** Every bound cgroup at levels 1 to 16 has its bit in the mask. */
  predicate LevelsCover(path: CgroupPath, bindings: map<int, U32>, levels: bv64) {
    forall l :: 1 <= l < |path| && l <= MAX_DEPTH && path[l] in bindings ==> BitSet(levels, l)
  }

  /** The nearest bound cgroup of a task is at `level`. */
  ghost predicate NearestBound(path: CgroupPath, bindings: map<int, U32>, level: nat) {
    && Reachable(path, level) && path[level] in bindings
    && forall m: nat :: level < m && Reachable(path, m) ==> path[m] !in bindings
  }

  ghost predicate Unbound(path: CgroupPath, bindings: map<int, U32>) {
    forall l: nat :: Reachable(path, l) ==> path[l] !in bindings
  }

  /** The level of a cgroup the walk looks at: its own, or an ancestor at levels 1 to 16 whose bit is in the mask. */
  predicate LooksAt(path: CgroupPath, levels: bv64, level: nat) {
    level < |path| && (level == |path| - 1 || (1 <= level <= 16 && BitSet(levels, level)))
  }

  ghost predicate NearestMasked(path: CgroupPath, bindings: map<int, U32>, levels: bv64, level: nat) {
    && LooksAt(path, levels, level) && path[level] in bindings
    && forall m: nat :: level < m && LooksAt(path, levels, m) ==> path[m] !in bindings
  }

  /** With a mask that covers the bound cgroups the walk looks at every one it can reach. */
  lemma MaskCovers(path: CgroupPath, bindings: map<int, U32>, levels: bv64)
    requires LevelsCover(path, bindings, levels)
    ensures forall l: nat :: NearestMasked(path, bindings, levels, l) ==> NearestBound(path, bindings, l)
    ensures (forall l: nat :: LooksAt(path, levels, l) ==> path[l] !in bindings) ==> Unbound(path, bindings)
  {
    hide BitSet;
    forall l: nat | Reachable(path, l) && path[l] in bindings ensures LooksAt(path, levels, l) {
      assert l == |path| - 1 || BitSet(levels, l);
    }
    assert forall l: nat :: LooksAt(path, levels, l) ==> Reachable(path, l);
  }

  /** Bitmask-guided ancestor walk: the nearest bound cgroup among those the walk looks at, and only then. */
  method GovernedBinding(path: CgroupPath, bindings: map<int, U32>, levels: bv64) returns (r: Option<CgroupId>)
    ensures r.Some? ==> exists l: nat :: NearestMasked(path, bindings, levels, l) && path[l] == r.value
    ensures r.None? ==> forall l: nat :: LooksAt(path, levels, l) ==> path[l] !in bindings
  {
    var self := Self(path);
    if self in bindings {
      assert NearestMasked(path, bindings, levels, |path| - 1);
      return Some(self);
    }
    if levels == 0 {
      NoBits();
      return None;
    }
    hide BitSet;
    var level := MAX_DEPTH;
    while level >= 1
      invariant 0 <= level <= MAX_DEPTH
      invariant forall m: nat :: level < m && LooksAt(path, levels, m) ==> path[m] !in bindings
    {
      if BitSet(levels, level) {
        var anc := AncestorId(path, level);
        if anc != 0 && anc != self && anc in bindings {
          assert NearestMasked(path, bindings, levels, level);
          return Some(path[level]);
        }
      }
      level := level - 1;
    }
    return None;
  }

  lemma NoBits()
    ensures forall l: nat :: l < 64 ==> !BitSet(0, l)
  {
  }

  /** The mask of a level has its bit. */
  lemma OwnBit(level: nat)
    requires level < 64
    ensures BitSet((1 as bv64) << level, level)
  {
  }

  /** One entry of the profile array; generation 0 means never written. */
  datatype ProfileEntry = ProfileEntry(mode: Mode, netDefault: Action, policyGen: nat)

  datatype Maps = Maps(bindings: map<int, U32>, levels: bv64, activeSlot: nat,
                       profiles: seq<ProfileEntry>, deny: Trie, allow: Trie)

  /** The context of a task whose governing cgroup is bound to `profile`. */
  function GovernanceSpec(maps: Maps, cgroup: CgroupId, profile: U32): Governance
    requires |maps.profiles| == 2 * MAX_PROFILES
  {
    var slot := maps.activeSlot % 2;
    if profile >= MAX_PROFILES || maps.profiles[slot * MAX_PROFILES + profile].policyGen == 0
    then Governance(cgroup, 0, FAIL_CLOSED_SCOPE, Enforce, Deny)
    else
      var p := maps.profiles[slot * MAX_PROFILES + profile];
      Governance(cgroup, p.policyGen, Scope(slot, profile), p.mode, p.netDefault)
  }

  method Govern(maps: Maps, path: CgroupPath) returns (g: Option<Governance>)
    requires |maps.profiles| == 2 * MAX_PROFILES
    requires LevelsCover(path, maps.bindings, maps.levels)
    ensures g.None? ==> Unbound(path, maps.bindings)
    ensures g.Some? ==> exists l: nat ::
                          && NearestBound(path, maps.bindings, l)
                          && g.value == GovernanceSpec(maps, path[l], maps.bindings[path[l]])
  {
    MaskCovers(path, maps.bindings, maps.levels);
    var governed := GovernedBinding(path, maps.bindings, maps.levels);
    if governed.None? {
      return None;
    }
    return Some(GovernanceSpec(maps, governed.value, maps.bindings[governed.value]));
  }

  // ---------------------------------------------------------------------------
  // What a hook does with a decision
  // ---------------------------------------------------------------------------

  const RULE_HEARTBEAT: U32 := 0xffff_ffff

  datatype Verdict = Permitted | Refused | WouldRefuse

  /** What the hook tells userspace. */
  datatype Report = Report(cgroup: nat, policyGen: nat, verdict: Verdict, ruleId: U32)

  /** A stale heartbeat turns every enforced action into a denial. */
  predicate EffectiveDeny(mode: Mode, stale: bool, action: Action) {
    action == Deny || (stale && mode == Enforce)
  }

  function ReportedVerdict(mode: Mode, stale: bool, action: Action): Verdict {
    if !EffectiveDeny(mode, stale, action) then Permitted
    else if mode == Enforce then Refused
    else WouldRefuse
  }

  function ReportedRule(mode: Mode, stale: bool, d: Decision): U32 {
    if d.action != Deny && stale && mode == Enforce then RULE_HEARTBEAT else d.ruleId
  }
}
