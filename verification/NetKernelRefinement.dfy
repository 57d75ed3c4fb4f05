/**
 The kernel verdict over the shared tries is the reference decision of the
 active slot's profile: no other slot or profile influences it, the bounded
 range loop misses nothing, and an unconfigured profile fails closed.
 */
module NetKernelRefinement {
  import opened Wrappers
  import opened NetPolicy
  import opened NetRefinement
  import opened NetKernel

  // ---------------------------------------------------------------------------
  // Keys
  // ---------------------------------------------------------------------------

  /** No two entries have the same profile and prefix. */
  predicate DistinctKeys(es: seq<Entry>) {
    forall i, j :: 0 <= i < j < |es| ==> es[i].profile != es[j].profile || es[i].net != es[j].net
  }

  lemma TrieForDistinct(prof: Profile, action: Action)
    requires TrieFor(prof, action).Ok?
    ensures DistinctKeys(TrieFor(prof, action).value)
  {
    var groups := GroupsOf(prof.rules, action);
    EntriesForExact(prof, action, groups, |groups|);
    GroupsOfFacts(prof.rules, action);
    hide RangesFor, GroupsOf;
  }

  lemma {:induction false} CompiledDistinct(profiles: seq<Profile>, generation: nat, action: Action)
    requires DistinctIds(profiles) && CompileProfiles(profiles, generation).Ok?
    ensures DistinctKeys(EntriesOf(CompileProfiles(profiles, generation).value, action))
  {
    hide TrieFor, AddProfile;
    if profiles == [] {
    } else {
      var n := |profiles| - 1;
      CompileProfilesStep(profiles, generation, action);
      CompiledDistinct(profiles[..n], generation, action);
      TrieForDistinct(profiles[n], action);
      TrieForIds(profiles[n], action);
      NoForeignEntries(profiles[..n], generation, profiles[n].id, action);
      DistinctConcat(EntriesOf(CompileProfiles(profiles[..n], generation).value, action),
                     TrieFor(profiles[n], action).value, profiles[n].id);
    }
  }

  lemma DistinctConcat(a: seq<Entry>, b: seq<Entry>, id: U32)
    requires DistinctKeys(a) && DistinctKeys(b)
    requires forall e :: e in a ==> e.profile != id
    requires forall e :: e in b ==> e.profile == id
    ensures DistinctKeys(a + b)
  {
    var c := a + b;
    forall i, j | 0 <= i < j < |c| ensures c[i].profile != c[j].profile || c[i].net != c[j].net {
      assert c[i] == if i < |a| then a[i] else b[i - |a|];
      assert c[j] == if j < |a| then a[j] else b[j - |a|];
      assert i < |a| ==> a[i] in a;
      assert j >= |a| ==> b[j - |a|] in b;
    }
  }

  lemma {:induction false} CompiledWritable(profiles: seq<Profile>, generation: nat, action: Action)
    requires CompileProfiles(profiles, generation).Ok?
    requires forall p :: p in profiles ==> p.id < MAX_PROFILES
    ensures Writable(EntriesOf(CompileProfiles(profiles, generation).value, action))
  {
    hide TrieFor, AddProfile;
    if profiles == [] {
    } else {
      var n := |profiles| - 1;
      CompileProfilesStep(profiles, generation, action);
      CompiledWritable(profiles[..n], generation, action);
      TrieForBounded(profiles[n], action);
    }
  }

  lemma TrieForBounded(prof: Profile, action: Action)
    requires TrieFor(prof, action).Ok?
    ensures forall k :: 0 <= k < |TrieFor(prof, action).value| ==>
              TrieFor(prof, action).value[k].profile == prof.id && |TrieFor(prof, action).value[k].ranges| <= MAX_RANGES
  {
    var groups := GroupsOf(prof.rules, action);
    EntriesForExact(prof, action, groups, |groups|);
    hide RangesFor, GroupsOf;
  }

  /** A key names one slot, one profile and one prefix. */
  lemma TrieKeyInjective(slot: nat, e: Entry, slot': nat, e': Entry)
    requires slot < 2 && slot' < 2 && e.profile < MAX_PROFILES && e'.profile < MAX_PROFILES
    requires TrieKey(slot, e) == TrieKey(slot', e')
    ensures slot == slot' && e.profile == e'.profile && e.net == e'.net
  {
    var k := TrieKey(slot, e);
    assert k[..32] == ScopeBits(Scope(slot, e.profile)) && k[32..] == e.net;
    assert k[..32] == ScopeBits(Scope(slot', e'.profile)) && k[32..] == e'.net;
    ScopeBitsInjective(Scope(slot, e.profile), Scope(slot', e'.profile));
  }

  // ---------------------------------------------------------------------------
  // What the trie holds
  // ---------------------------------------------------------------------------

  /** The trie holds the entries of one slot. */
  ghost predicate Holds(trie: Trie, slot: nat, es: seq<Entry>)
    requires slot < 2 && Writable(es)
  {
    forall i :: 0 <= i < |es| ==> TrieKey(slot, es[i]) in trie && trie[TrieKey(slot, es[i])] == TrieValue(es[i])
  }

  ghost predicate KeyOf(k: Key, slot: nat, es: seq<Entry>)
    requires slot < 2 && Writable(es)
  {
    exists i :: 0 <= i < |es| && k == TrieKey(slot, es[i])
  }

  lemma {:induction false} InstallHolds(trie: Trie, slot: nat, es: seq<Entry>)
    requires slot < 2 && Writable(es) && DistinctKeys(es)
    ensures Holds(Install(trie, slot, es), slot, es)
  {
    hide TrieKey, TrieValue;
    if es == [] {
    } else {
      var n := |es| - 1;
      InstallHolds(trie, slot, es[..n]);
      assert forall i :: 0 <= i < n ==> es[..n][i] == es[i];
      forall i | 0 <= i < n ensures TrieKey(slot, es[i]) != TrieKey(slot, es[n]) {
        if TrieKey(slot, es[i]) == TrieKey(slot, es[n]) {
          TrieKeyInjective(slot, es[i], slot, es[n]);
        }
      }
    }
  }

  lemma {:induction false} InstallOnly(trie: Trie, slot: nat, es: seq<Entry>, k: Key)
    requires slot < 2 && Writable(es) && k in Install(trie, slot, es)
    ensures k in trie || KeyOf(k, slot, es)
  {
    hide TrieKey, TrieValue;
    if es == [] {
    } else {
      var n := |es| - 1;
      if k != TrieKey(slot, es[n]) {
        InstallOnly(trie, slot, es[..n], k);
        assert forall i :: 0 <= i < n ==> es[..n][i] == es[i];
      }
    }
  }

  lemma {:induction false} InstallKeeps(trie: Trie, slot: nat, es: seq<Entry>, k: Key)
    requires slot < 2 && Writable(es) && !KeyOf(k, slot, es) && k in trie
    ensures k in Install(trie, slot, es) && Install(trie, slot, es)[k] == trie[k]
  {
    hide TrieKey, TrieValue;
    if es == [] {
    } else {
      var n := |es| - 1;
      assert forall i :: 0 <= i < n ==> es[..n][i] == es[i];
      InstallKeeps(trie, slot, es[..n], k);
    }
  }

  /** Both slots are held, and nothing else. */
  lemma BothSlotsHold(a: seq<Entry>, b: seq<Entry>)
    requires Writable(a) && Writable(b) && DistinctKeys(a) && DistinctKeys(b)
    ensures Holds(BothSlots(a, b), 0, a) && Holds(BothSlots(a, b), 1, b)
    ensures forall k :: k in BothSlots(a, b) ==> KeyOf(k, 0, a) || KeyOf(k, 1, b)
  {
    hide TrieKey, TrieValue;
    InstallHolds(map[], 0, a);
    InstallHolds(Install(map[], 0, a), 1, b);
    forall k | k in BothSlots(a, b) ensures KeyOf(k, 0, a) || KeyOf(k, 1, b) {
      InstallOnly(Install(map[], 0, a), 1, b, k);
      if k in Install(map[], 0, a) {
        InstallOnly(map[], 0, a, k);
      }
    }
    forall i | 0 <= i < |a|
        ensures var k := TrieKey(0, a[i]); k in BothSlots(a, b) && BothSlots(a, b)[k] == TrieValue(a[i]) {
      if KeyOf(TrieKey(0, a[i]), 1, b) {
        var j :| 0 <= j < |b| && TrieKey(0, a[i]) == TrieKey(1, b[j]);
        TrieKeyInjective(0, a[i], 1, b[j]);
      }
      InstallKeeps(Install(map[], 0, a), 1, b, TrieKey(0, a[i]));
    }
  }

  lemma BothSlotsWellFormed(a: seq<Entry>, b: seq<Entry>)
    requires Writable(a) && Writable(b) && DistinctKeys(a) && DistinctKeys(b)
    ensures WellFormed(BothSlots(a, b))
  {
    hide TrieKey, BothSlots;
    BothSlotsHold(a, b);
  }

  // ---------------------------------------------------------------------------
  // One lookup
  // ---------------------------------------------------------------------------

  lemma {:induction false} LpmNone(trie: Trie, key: Key, n: nat)
    requires n <= |key|
    requires forall m :: 0 <= m <= n ==> key[..m] !in trie
    ensures Lpm(trie, key, n).None?
  {
    if n == 0 {
    } else {
      LpmNone(trie, key, n - 1);
    }
  }

  lemma {:induction false} LpmLongest(trie: Trie, key: Key, n: nat, best: nat)
    requires best <= n <= |key|
    requires key[..best] in trie
    requires forall m :: best < m <= n ==> key[..m] !in trie
    ensures Lpm(trie, key, n) == Some(trie[key[..best]])
  {
    if best < n {
      LpmLongest(trie, key, n - 1, best);
    }
  }

  /**
   A key that is a prefix of the looked-up key belongs to the same slot and profile, and its prefix contains the
   address.
   */
  lemma PrefixKey(slot: nat, e: Entry, scope: U32, addr: Address, m: nat)
    requires slot < 2 && e.profile < MAX_PROFILES
    requires m <= |LookupKey(scope, addr)| && LookupKey(scope, addr)[..m] == TrieKey(slot, e)
    ensures scope == Scope(slot, e.profile) && e.net <= addr && m == 32 + |e.net|
  {
    var k := TrieKey(slot, e);
    assert k[..32] == ScopeBits(Scope(slot, e.profile)) && k[32..] == e.net;
    assert k[..32] == ScopeBits(scope);
    forall j | 0 <= j < |e.net| ensures e.net[j] == addr[j] {
      assert k[32 + j] == LookupKey(scope, addr)[32 + j];
    }
    ScopeBitsInjective(scope, Scope(slot, e.profile));
  }

  lemma KeyOfPrefix(slot: nat, e: Entry, addr: Address)
    requires slot < 2 && e.profile < MAX_PROFILES && e.net <= addr
    ensures var k := LookupKey(Scope(slot, e.profile), addr);
            32 + |e.net| <= |k| && k[..32 + |e.net|] == TrieKey(slot, e)
  {
    assert addr[..|e.net|] == e.net;
  }

  ghost predicate HoldsBoth(trie: Trie, a: seq<Entry>, b: seq<Entry>)
    requires Writable(a) && Writable(b)
  {
    && Holds(trie, 0, a) && Holds(trie, 1, b)
    && forall k :: k in trie ==> KeyOf(k, 0, a) || KeyOf(k, 1, b)
  }

  /** The keys that can answer: those of the slot and profile looked up whose prefix contains the address. */
  lemma OwnKeysOnly(trie: Trie, a: seq<Entry>, b: seq<Entry>, slot: nat, profile: U32, addr: Address, m: nat)
    requires Writable(a) && Writable(b) && HoldsBoth(trie, a, b)
    requires slot < 2 && profile < MAX_PROFILES
    requires m <= |LookupKey(Scope(slot, profile), addr)|
    requires LookupKey(Scope(slot, profile), addr)[..m] in trie
    ensures var es := if slot == 0 then a else b;
            exists i :: 0 <= i < |es| && es[i].profile == profile && es[i].net <= addr && m == 32 + |es[i].net|
  {
    hide TrieKey, TrieValue, LookupKey, Holds;
    var k := LookupKey(Scope(slot, profile), addr)[..m];
    if KeyOf(k, 0, a) {
      var i :| 0 <= i < |a| && k == TrieKey(0, a[i]);
      PrefixKey(0, a[i], Scope(slot, profile), addr, m);
    } else {
      var i :| 0 <= i < |b| && k == TrieKey(1, b[i]);
      PrefixKey(1, b[i], Scope(slot, profile), addr, m);
    }
  }

  lemma UsedIsAll(e: Entry)
    requires |e.ranges| <= MAX_RANGES
    ensures Used(TrieValue(e)) == e.ranges
  {
  }

  /** The longest-prefix lookup over both slots is the longest-prefix search of one slot's entries of one profile. */
  lemma LpmIsLongest(trie: Trie, a: seq<Entry>, b: seq<Entry>, slot: nat, profile: U32, addr: Address)
    requires Writable(a) && Writable(b) && HoldsBoth(trie, a, b)
    requires slot < 2 && profile < MAX_PROFILES
    ensures var es := if slot == 0 then a else b;
            var key := LookupKey(Scope(slot, profile), addr);
            var found := Longest(es, profile, addr);
            Lpm(trie, key, |key|) == if found.Some? then Some(TrieValue(es[found.value])) else None
  {
    hide TrieKey, TrieValue, Lpm, Longest, LookupKey;
    var es := if slot == 0 then a else b;
    var key := LookupKey(Scope(slot, profile), addr);
    var found := Longest(es, profile, addr);
    if found.Some? {
      var e := es[found.value];
      KeyOfPrefix(slot, e, addr);
      forall m | 32 + |e.net| < m <= |key| ensures key[..m] !in trie {
        if key[..m] in trie {
          OwnKeysOnly(trie, a, b, slot, profile, addr, m);
        }
      }
      LpmLongest(trie, key, |key|, 32 + |e.net|);
    } else {
      forall m | 0 <= m <= |key| ensures key[..m] !in trie {
        if key[..m] in trie {
          OwnKeysOnly(trie, a, b, slot, profile, addr, m);
        }
      }
      LpmNone(trie, key, |key|);
    }
  }

  /** The kernel match of one trie is the simulated match of the active slot's entries. */
  lemma MatchIsTrieMatch(a: seq<Entry>, b: seq<Entry>, slot: nat, profile: U32, q: Query)
    requires Writable(a) && Writable(b) && DistinctKeys(a) && DistinctKeys(b)
    requires slot < 2 && profile < MAX_PROFILES
    ensures WellFormed(BothSlots(a, b))
    ensures MatchSpec(BothSlots(a, b), Scope(slot, profile), q) == TrieMatch(if slot == 0 then a else b, profile, q)
  {
    hide TrieKey, TrieValue, Lpm, Longest, BothSlots, FirstHit;
    BothSlotsHold(a, b);
    BothSlotsWellFormed(a, b);
    LpmIsLongest(BothSlots(a, b), a, b, slot, profile, q.addr);
    var es := if slot == 0 then a else b;
    var found := Longest(es, profile, q.addr);
    if found.Some? {
      UsedIsAll(es[found.value]);
    }
  }

  /** The fail-closed scope matches no entry of any slot or profile. */
  lemma FailClosedMatchesNothing(a: seq<Entry>, b: seq<Entry>, q: Query)
    requires Writable(a) && Writable(b) && DistinctKeys(a) && DistinctKeys(b)
    ensures WellFormed(BothSlots(a, b))
    ensures MatchSpec(BothSlots(a, b), FAIL_CLOSED_SCOPE, q).None?
  {
    hide TrieKey, TrieValue, BothSlots, Lpm;
    BothSlotsHold(a, b);
    BothSlotsWellFormed(a, b);
    var trie, key := BothSlots(a, b), LookupKey(FAIL_CLOSED_SCOPE, q.addr);
    forall m | 0 <= m <= |key| ensures key[..m] !in trie {
      if KeyOf(key[..m], 0, a) {
        var i :| 0 <= i < |a| && key[..m] == TrieKey(0, a[i]);
        PrefixKey(0, a[i], FAIL_CLOSED_SCOPE, q.addr, m);
      } else if KeyOf(key[..m], 1, b) {
        var i :| 0 <= i < |b| && key[..m] == TrieKey(1, b[i]);
        PrefixKey(1, b[i], FAIL_CLOSED_SCOPE, q.addr, m);
      }
    }
    LpmNone(trie, key, |key|);
  }

  // ---------------------------------------------------------------------------
  // The whole decision
  // ---------------------------------------------------------------------------

  /** What a slot was last written from: a policy and its generation, or nothing. */
  datatype Slot = Empty | Written(policy: Policy, generation: nat)

  ghost predicate ValidSlot(s: Slot) {
    s.Written? ==>
      && DistinctIds(s.policy.profiles)
      && (forall p :: p in s.policy.profiles ==> p.id < MAX_PROFILES)
      && CompileSpec(s.policy, s.generation).Ok?
  }

  function SlotEntries(s: Slot, action: Action): seq<Entry> {
    if s.Empty? then []
    else
      var c := CompileSpec(s.policy, s.generation);
      if c.Ok? then EntriesOf(c.value, action) else []
  }

  lemma SlotFacts(s: Slot, action: Action)
    requires ValidSlot(s)
    ensures Writable(SlotEntries(s, action)) && DistinctKeys(SlotEntries(s, action))
  {
    hide CompileProfiles;
    if s.Written? {
      CompiledWritable(s.policy.profiles, s.generation, action);
      CompiledDistinct(s.policy.profiles, s.generation, action);
    }
  }

  /** What the slot's compiled form gives the profile table at `id`; 0 is the generation of an unused entry. */
  function ProfileEntryOf(s: Slot, id: U32): ProfileEntry {
    var unused := ProfileEntry(Audit, Allow, 0);
    if s.Empty? then unused
    else
      var c := CompileSpec(s.policy, s.generation);
      if c.Err? then unused
      else
        var p := FindCompiled(c.value.profiles, id);
        if p.None? then unused else ProfileEntry(p.value.mode, p.value.netDefault, c.value.generation)
  }

  /** The table entry of a profile the policy has carries its mode and default; any other entry is unused. */
  lemma EntryIsProfile(s: Slot, id: U32)
    requires ValidSlot(s)
    ensures var p := if s.Empty? then None else FindProfile(s.policy.profiles, id);
            ProfileEntryOf(s, id) == if p.None? then ProfileEntry(Audit, Allow, 0)
                                     else ProfileEntry(p.value.mode, p.value.netDefault, s.generation)
  {
    hide CompileProfiles;
    if s.Written? {
      CompiledHeaders(s.policy.profiles, s.generation);
      FindHeader(s.policy.profiles, CompileSpec(s.policy, s.generation).value.profiles, id);
    }
  }

  /** The kernel maps hold what the two slots were written from. */
  ghost predicate Loaded(maps: Maps, slots: seq<Slot>) {
    && |slots| == 2 && ValidSlot(slots[0]) && ValidSlot(slots[1])
    && Writable(SlotEntries(slots[0], Deny)) && Writable(SlotEntries(slots[1], Deny))
    && Writable(SlotEntries(slots[0], Allow)) && Writable(SlotEntries(slots[1], Allow))
    && maps.deny == BothSlots(SlotEntries(slots[0], Deny), SlotEntries(slots[1], Deny))
    && maps.allow == BothSlots(SlotEntries(slots[0], Allow), SlotEntries(slots[1], Allow))
    && |maps.profiles| == 2 * MAX_PROFILES
    && (forall s, id :: 0 <= s < 2 && 0 <= id < MAX_PROFILES
                        ==> maps.profiles[s * MAX_PROFILES + id] == ProfileEntryOf(slots[s], id))
  }

  lemma LoadedWellFormed(maps: Maps, slots: seq<Slot>)
    requires Loaded(maps, slots)
    ensures WellFormed(maps.deny) && WellFormed(maps.allow)
  {
    hide SlotEntries, BothSlots, ValidSlot;
    SlotFacts(slots[0], Deny);
    SlotFacts(slots[1], Deny);
    BothSlotsWellFormed(SlotEntries(slots[0], Deny), SlotEntries(slots[1], Deny));
    SlotFacts(slots[0], Allow);
    SlotFacts(slots[1], Allow);
    BothSlotsWellFormed(SlotEntries(slots[0], Allow), SlotEntries(slots[1], Allow));
  }

  lemma LoadedSlot(maps: Maps, slots: seq<Slot>, slot: nat, profile: U32)
    requires Loaded(maps, slots) && slot < 2
    ensures |slots| == 2 && ValidSlot(slots[slot]) && |maps.profiles| == 2 * MAX_PROFILES
    ensures profile < MAX_PROFILES ==>
              maps.profiles[slot * MAX_PROFILES + profile] == ProfileEntryOf(slots[slot], profile)
  {
    hide SlotEntries, BothSlots, ValidSlot, ProfileEntryOf, Writable;
  }

  /** The decision a bound task must get: the active policy's, or a denial when the active slot has no such profile. */
  function Required(slot: Slot, profile: U32, q: Query): Decision {
    if slot.Empty? then Decision(Deny, 0)
    else
      var d := Evaluate(slot.policy, profile, q);
      if d.None? then Decision(Deny, 0) else d.value
  }

  lemma SlotMatch(slots: seq<Slot>, slot: nat, profile: U32, action: Action, q: Query)
    requires |slots| == 2 && ValidSlot(slots[0]) && ValidSlot(slots[1]) && slot < 2 && profile < MAX_PROFILES
    requires Writable(SlotEntries(slots[0], action)) && Writable(SlotEntries(slots[1], action))
    ensures WellFormed(BothSlots(SlotEntries(slots[0], action), SlotEntries(slots[1], action)))
    ensures var trie := BothSlots(SlotEntries(slots[0], action), SlotEntries(slots[1], action));
            MatchSpec(trie, Scope(slot, profile), q) == TrieMatch(SlotEntries(slots[slot], action), profile, q)
  {
    hide SlotEntries, BothSlots, ValidSlot, MatchSpec, TrieMatch, Scope;
    SlotFacts(slots[0], action);
    SlotFacts(slots[1], action);
    MatchIsTrieMatch(SlotEntries(slots[0], action), SlotEntries(slots[1], action), slot, profile, q);
  }

  lemma SlotFails(slots: seq<Slot>, action: Action, q: Query)
    requires |slots| == 2 && ValidSlot(slots[0]) && ValidSlot(slots[1])
    requires Writable(SlotEntries(slots[0], action)) && Writable(SlotEntries(slots[1], action))
    ensures WellFormed(BothSlots(SlotEntries(slots[0], action), SlotEntries(slots[1], action)))
    ensures var trie := BothSlots(SlotEntries(slots[0], action), SlotEntries(slots[1], action));
            MatchSpec(trie, FAIL_CLOSED_SCOPE, q).None?
  {
    hide SlotEntries, BothSlots, ValidSlot, MatchSpec;
    SlotFacts(slots[0], action);
    SlotFacts(slots[1], action);
    FailClosedMatchesNothing(SlotEntries(slots[0], action), SlotEntries(slots[1], action), q);
  }

  /** A decision from the answers of the two tries. */
  function FromMatches(deny: Option<U32>, allow: Option<U32>, netDefault: Action): Decision {
    if deny.Some? then Decision(Deny, deny.value)
    else if allow.Some? then Decision(Allow, allow.value)
    else Decision(netDefault, 0)
  }

  lemma RequiredFromMatches(s: Slot, profile: U32, q: Query)
    requires ValidSlot(s) && ProfileEntryOf(s, profile).policyGen != 0
    ensures Required(s, profile, q) ==
            FromMatches(TrieMatch(SlotEntries(s, Deny), profile, q), TrieMatch(SlotEntries(s, Allow), profile, q),
                        ProfileEntryOf(s, profile).netDefault)
  {
    hide CompileProfiles, TrieMatch, Evaluate;
    LookupRefinesEvaluate(s.policy, s.generation, profile, q);
  }

  lemma VerdictFromMatches(maps: Maps, slots: seq<Slot>, g: Governance, slot: nat, profile: U32, q: Query)
    requires Loaded(maps, slots) && slot < 2 && profile < MAX_PROFILES && g.scope == Scope(slot, profile)
    ensures WellFormed(maps.deny) && WellFormed(maps.allow)
    ensures VerdictSpec(maps.deny, maps.allow, g, q) ==
            FromMatches(TrieMatch(SlotEntries(slots[slot], Deny), profile, q),
                        TrieMatch(SlotEntries(slots[slot], Allow), profile, q), g.netDefault)
  {
    LoadedWellFormed(maps, slots);
    hide SlotEntries, BothSlots, MatchSpec, TrieMatch, WellFormed, Scope, ValidSlot;
    SlotMatch(slots, slot, profile, Deny, q);
    SlotMatch(slots, slot, profile, Allow, q);
  }

  /** A task bound to a profile the active slot does not hold is denied everything. */
  lemma FailClosedVerdict(maps: Maps, slots: seq<Slot>, g: Governance, q: Query)
    requires Loaded(maps, slots)
    requires g.scope == FAIL_CLOSED_SCOPE && g.netDefault == Deny
    ensures WellFormed(maps.deny) && WellFormed(maps.allow)
    ensures VerdictSpec(maps.deny, maps.allow, g, q) == Decision(Deny, 0)
  {
    LoadedWellFormed(maps, slots);
    hide SlotEntries, BothSlots, MatchSpec, WellFormed, ValidSlot;
    SlotFails(slots, Deny, q);
    SlotFails(slots, Allow, q);
  }

  /** Main result: the kernel's verdict for a bound task is the reference decision of the active slot's policy. */
  lemma VerdictIsEvaluate(maps: Maps, slots: seq<Slot>, cgroup: CgroupId, profile: U32, q: Query)
    requires Loaded(maps, slots)
    ensures WellFormed(maps.deny) && WellFormed(maps.allow)
    ensures VerdictSpec(maps.deny, maps.allow, GovernanceSpec(maps, cgroup, profile), q) ==
            Required(slots[maps.activeSlot % 2], profile, q)
  {
    LoadedWellFormed(maps, slots);
    var slot := maps.activeSlot % 2;
    LoadedSlot(maps, slots, slot, profile);
    hide Loaded, WellFormed, ValidSlot, Required, VerdictSpec, ProfileEntryOf;
    var g := GovernanceSpec(maps, cgroup, profile);
    if profile >= MAX_PROFILES {
      FailClosedVerdict(maps, slots, g, q);
      NoSuchProfile(slots[slot], profile, q);
    } else {
      if ProfileEntryOf(slots[slot], profile).policyGen == 0 {
        FailClosedVerdict(maps, slots, g, q);
        NoSuchProfile(slots[slot], profile, q);
      } else {
        VerdictFromMatches(maps, slots, g, slot, profile, q);
        RequiredFromMatches(slots[slot], profile, q);
      }
    }
  }

  lemma NoSuchProfile(s: Slot, profile: U32, q: Query)
    requires ValidSlot(s)
    requires profile >= MAX_PROFILES || ProfileEntryOf(s, profile).policyGen == 0
    ensures Required(s, profile, q) == Decision(Deny, 0)
  {
    EntryIsProfile(s, profile);
    hide CompileProfiles, ProfileEntryOf;
  }

  // ---------------------------------------------------------------------------
  // The hook
  // ---------------------------------------------------------------------------

  /** The mode a bound task runs under; a profile the active slot does not hold is enforced. */
  function RequiredMode(slot: Slot, profile: U32): Mode {
    if slot.Empty? then Enforce
    else
      var p := FindProfile(slot.policy.profiles, profile);
      if p.None? then Enforce else p.value.mode
  }

  /** The generation a report carries: 0 when the active slot does not hold the profile. */
  function HeldGeneration(slot: Slot, profile: U32): nat {
    if slot.Empty? || FindProfile(slot.policy.profiles, profile).None? then 0 else slot.generation
  }

  lemma ModeIsRequired(maps: Maps, slots: seq<Slot>, cgroup: CgroupId, profile: U32)
    requires Loaded(maps, slots)
    ensures GovernanceSpec(maps, cgroup, profile).mode == RequiredMode(slots[maps.activeSlot % 2], profile)
    ensures GovernanceSpec(maps, cgroup, profile).policyGen == HeldGeneration(slots[maps.activeSlot % 2], profile)
  {
    hide SlotEntries, BothSlots, CompileProfiles, Writable, ProfileEntryOf;
    var slot := maps.activeSlot % 2;
    EntryIsProfile(slots[slot], profile);
    if profile < MAX_PROFILES {
      assert maps.profiles[slot * MAX_PROFILES + profile] == ProfileEntryOf(slots[slot], profile);
    }
  }

  /** What the policy asks of the hook for a task bound to `profile`: pass or block, and the event it reports. */
  ghost predicate Obeys(slot: Slot, profile: U32, stale: bool, q: Query, pass: bool, report: Report) {
    var d := Required(slot, profile, q);
    if RequiredMode(slot, profile) == Audit then
      pass && report.ruleId == d.ruleId && report.verdict == (if d.action == Deny then WouldRefuse else Permitted)
    else if d.action == Deny then
      !pass && report.ruleId == d.ruleId && report.verdict == Refused
    else if stale then
      !pass && report.ruleId == 0xffff_ffff && report.verdict == Refused
    else
      pass && report.ruleId == d.ruleId && report.verdict == Permitted
  }

  /**
   The connect and sendmsg hooks: an ungoverned task passes unreported; any other gets what the active slot's policy
   asks of the profile bound at its nearest bound cgroup, and the report names that cgroup.
   */
  method SockAddr(maps: Maps, ghost slots: seq<Slot>, path: CgroupPath, stale: bool, q: Query)
    returns (pass: bool, report: Option<Report>)
    requires Loaded(maps, slots) && LevelsCover(path, maps.bindings, maps.levels)
    ensures report.None? <==> Unbound(path, maps.bindings)
    ensures report.None? ==> pass
    ensures report.Some? ==>
              exists l: nat ::
                && NearestBound(path, maps.bindings, l)
                && report.value.cgroup == path[l]
                && report.value.policyGen == HeldGeneration(slots[maps.activeSlot % 2], maps.bindings[path[l]])
                && Obeys(slots[maps.activeSlot % 2], maps.bindings[path[l]], stale, q, pass, report.value)
  {
    var g := Govern(maps, path);
    if g.None? {
      return true, None;
    }
    ghost var l: nat :| && NearestBound(path, maps.bindings, l)
                        && g.value == GovernanceSpec(maps, path[l], maps.bindings[path[l]]);
    VerdictIsEvaluate(maps, slots, path[l], maps.bindings[path[l]], q);
    ModeIsRequired(maps, slots, path[l], maps.bindings[path[l]]);
    var action, ruleId := NetVerdict(maps.deny, maps.allow, g.value, q, 0);
    hide Loaded, Required, RequiredMode, HeldGeneration, VerdictSpec, WellFormed, LevelsCover;
    var mode := g.value.mode;
    pass := !(EffectiveDeny(mode, stale, action) && mode == Enforce);
    var rule := ReportedRule(mode, stale, Decision(action, ruleId));
    report := Some(Report(g.value.cgroup, g.value.policyGen, ReportedVerdict(mode, stale, action), rule));
    assert Obeys(slots[maps.activeSlot % 2], maps.bindings[path[l]], stale, q, pass, report.value);
  }
}
