/**
 The compiled form refines the reference semantics: one longest-prefix lookup
 over flattened, shadow-free entries gives the action and the rule id of the
 linear scan, for every profile, address, port and protocol mask.
 */
module NetRefinement {
  import opened Wrappers
  import opened NetPolicy

  // ---------------------------------------------------------------------------
  // Leaving out covered ranges does not change the first hit
  // ---------------------------------------------------------------------------

  /** The first of two answers. */
  function OrElse(a: Option<U32>, b: Option<U32>): Option<U32> {
    if a.Some? then a else b
  }

  lemma {:induction false} FirstHitNone(ranges: seq<CompiledRange>, q: Query)
    ensures FirstHit(ranges, q).None? <==> forall i :: 0 <= i < |ranges| ==> !ranges[i].Hits(q)
  {
    if ranges == [] {
    } else {
      FirstHitNone(ranges[1..], q);
      assert ranges == [ranges[0]] + ranges[1..];
    }
  }

  lemma {:induction false} FirstHitAppend(ranges: seq<CompiledRange>, r: CompiledRange, q: Query)
    ensures FirstHit(ranges + [r], q) == OrElse(FirstHit(ranges, q), if r.Hits(q) then Some(r.ruleId) else None)
  {
    if ranges == [] {
      assert [] + [r] == [r];
    } else {
      FirstHitAppend(ranges[1..], r, q);
      assert (ranges + [r])[1..] == ranges[1..] + [r];
    }
  }

  /** A covered range can never hit first. */
  lemma FirstHitAddRange(kept: seq<CompiledRange>, r: CompiledRange, q: Query)
    ensures FirstHit(AddRange(kept, r), q) == OrElse(FirstHit(kept, q), if r.Hits(q) then Some(r.ruleId) else None)
  {
    if i :| 0 <= i < |kept| && kept[i].Covers(r) {
      if r.Hits(q) {
        assert kept[i].Hits(q);
        FirstHitNone(kept, q);
      }
    } else {
      FirstHitAppend(kept, r, q);
    }
  }

  predicate AnyOfFirstPorts(rule: Rule, n: nat, port: U16)
    requires n <= |rule.ports|
  {
    exists i :: 0 <= i < n && InRange(rule.ports[i].lo, rule.ports[i].hi, port)
  }

  lemma {:induction false} FirstHitAddRule(kept: seq<CompiledRange>, rule: Rule, n: nat, q: Query)
    requires n <= |rule.ports|
    ensures FirstHit(AddRule(kept, rule, n), q) ==
            OrElse(FirstHit(kept, q),
                   if rule.proto & q.proto != 0 && AnyOfFirstPorts(rule, n, q.port) then Some(rule.id) else None)
  {
    if n == 0 {
    } else {
      FirstHitAddRule(kept, rule, n - 1, q);
      FirstHitAddRange(AddRule(kept, rule, n - 1), RangeOf(rule, n - 1), q);
    }
  }

  lemma FirstHitAddWholeRule(kept: seq<CompiledRange>, rule: Rule, q: Query)
    ensures FirstHit(AddRule(kept, rule, |rule.ports|), q) ==
            OrElse(FirstHit(kept, q), if ServiceMatches(rule, q) then Some(rule.id) else None)
  {
    FirstHitAddRule(kept, rule, |rule.ports|, q);
    assert AnyOfFirstPorts(rule, |rule.ports|, q.port) == AnyPort(rule.ports, q.port);
  }

  /** The first rule of `members` that matches port and protocol. */
  function FirstService(rules: seq<Rule>, members: seq<nat>, q: Query): (r: Option<nat>)
    requires Indices(rules, members)
    ensures r.Some? ==> r.value < |rules|
  {
    if members == [] then None
    else
      var n := |members| - 1;
      var prev := FirstService(rules, members[..n], q);
      if prev.Some? then prev else if ServiceMatches(rules[members[n]], q) then Some(members[n]) else None
  }

  lemma {:induction false} FirstServiceMember(rules: seq<Rule>, members: seq<nat>, q: Query)
    requires Indices(rules, members)
    ensures var r := FirstService(rules, members, q);
            && (r.Some? ==> exists k ::
                0 <= k < |members| && members[k] == r.value && ServiceMatches(rules[members[k]], q)
                                        && forall j :: 0 <= j < k ==> !ServiceMatches(rules[members[j]], q))
            && (r.None? ==> forall k :: 0 <= k < |members| ==> !ServiceMatches(rules[members[k]], q))
  {
    if members == [] {
    } else {
      FirstServiceMember(rules, members[..|members| - 1], q);
    }
  }

  /** The flattened ranges answer with the first matching rule of the flattened order. */
  lemma {:induction false} FlattenKeepsFirst(rules: seq<Rule>, members: seq<nat>, q: Query)
    requires Indices(rules, members)
    ensures var first := FirstService(rules, members, q);
            FirstHit(Flatten(rules, members), q) == if first.Some? then Some(rules[first.value].id) else None
  {
    if members == [] {
    } else {
      var n := |members| - 1;
      FlattenKeepsFirst(rules, members[..n], q);
      FirstHitAddWholeRule(Flatten(rules, members[..n]), rules[members[n]], q);
    }
  }

  // ---------------------------------------------------------------------------
  // The flattened order is the priority order
  // ---------------------------------------------------------------------------

  predicate DistinctNets(groups: seq<Group>) {
    forall i, j :: 0 <= i < j < |groups| ==> groups[i].net != groups[j].net
  }

  predicate DistinctLengths(groups: seq<Group>) {
    forall i, j :: 0 <= i < j < |groups| ==> |groups[i].net| != |groups[j].net|
  }

  predicate LongestFirst(groups: seq<Group>) {
    forall i, j :: 0 <= i < j < |groups| ==> |groups[i].net| > |groups[j].net|
  }

  /** Two prefixes of one string with the same length are the same prefix. */
  lemma SameLengthPrefixes(a: Prefix, b: Prefix, s: seq<bool>)
    requires a <= s && b <= s && |a| == |b|
    ensures a == b
  {
    assert a == s[..|a|];
  }

  lemma {:induction false} CoveringLengths(groups: seq<Group>, net: Prefix)
    requires DistinctNets(groups)
    ensures DistinctLengths(Covering(groups, net))
  {
    if groups == [] {
    } else {
      CoveringLengths(groups[1..], net);
      CoveringContents(groups[1..], net);
      if groups[0].net != net && groups[0].net <= net {
        forall g | g in Covering(groups[1..], net) ensures |g.net| != |groups[0].net| {
          assert g in groups[1..];
          if |g.net| == |groups[0].net| {
            SameLengthPrefixes(g.net, groups[0].net, net);
          }
        }
      }
    }
  }

  lemma {:induction false} InsertLongestFirst(g: Group, sorted: seq<Group>)
    requires LongestFirst(sorted)
    requires forall x :: x in sorted ==> |x.net| != |g.net|
    ensures LongestFirst(InsertByLength(g, sorted))
  {
    if !(sorted == [] || |sorted[0].net| <= |g.net|) {
      var rest := InsertByLength(g, sorted[1..]);
      InsertLongestFirst(g, sorted[1..]);
      InsertMembers(g, sorted[1..]);
      assert forall i :: 0 <= i < |rest| ==> rest[i] in rest;
    }
  }

  lemma InsertMembers(g: Group, sorted: seq<Group>)
    ensures forall x :: x in InsertByLength(g, sorted) <==> x == g || x in sorted
  {
    InsertContents(g, sorted);
    hide InsertByLength;
    assert forall x :: x in InsertByLength(g, sorted) <==> x in multiset(InsertByLength(g, sorted));
  }

  lemma {:induction false} SortLongestFirst(groups: seq<Group>)
    requires DistinctLengths(groups)
    ensures LongestFirst(SortByLength(groups))
  {
    if groups == [] {
    } else {
      var rest := SortByLength(groups[1..]);
      SortLongestFirst(groups[1..]);
      SortContents(groups[1..]);
      forall x | x in rest ensures |x.net| != |groups[0].net| {
        assert x in multiset(rest);
        assert x in groups[1..];
      }
      InsertLongestFirst(groups[0], rest);
    }
  }

  /** The groups an entry is flattened from come longest prefix first. */
  lemma OrderedLongestFirst(groups: seq<Group>, own: Group)
    requires DistinctNets(groups)
    ensures LongestFirst(Ordered(groups, own))
  {
    var covering := Covering(groups, own.net);
    CoveringLengths(groups, own.net);
    SortLongestFirst(covering);
    OrderedContents(groups, own);
    forall g | g in SortByLength(covering) ensures |g.net| < |own.net| {
      CoveringContents(groups, own.net);
      SortContents(covering);
      assert g in multiset(SortByLength(covering));
      assert g in covering;
      if |g.net| == |own.net| {
        SameLengthPrefixes(g.net, own.net, own.net);
      }
    }
  }

  /** The members of a prefix: exactly its rules, in file order. */
  lemma MembersExact(rules: seq<Rule>, action: Action, net: Prefix)
    ensures forall i: nat :: i in Members(rules, action, net) <==>
        i < |rules| && rules[i].action == action && rules[i].net == net
    ensures Ascending(Members(rules, action, net))
  {
    MembersAre(rules, action, net);
    MembersInOrder(rules, action, net);
  }

  predicate Ascending(m: seq<nat>) {
    forall p, q :: 0 <= p < q < |m| ==> m[p] < m[q]
  }

  lemma AppendAscends(m: seq<nat>, n: nat)
    requires Ascending(m) && forall k :: 0 <= k < |m| ==> m[k] < n
    ensures Ascending(m + [n])
  {
  }

  lemma {:induction false} MembersAre(rules: seq<Rule>, action: Action, net: Prefix)
    ensures forall i: nat :: i in Members(rules, action, net) <==>
        i < |rules| && rules[i].action == action && rules[i].net == net
  {
    if rules == [] {
    } else {
      MembersAre(rules[..|rules| - 1], action, net);
    }
  }

  lemma {:induction false} MembersInOrder(rules: seq<Rule>, action: Action, net: Prefix)
    ensures Ascending(Members(rules, action, net))
  {
    if rules == [] {
      assert Ascending([]);
    } else {
      var n := |rules| - 1;
      MembersInOrder(rules[..n], action, net);
      AppendAscends(Members(rules[..n], action, net), n);
    }
    hide Ascending;
  }

  predicate InPriorityOrder(rules: seq<Rule>, members: seq<nat>) {
    && Indices(rules, members)
    && forall p, q :: 0 <= p < q < |members| ==> Before(rules, members[p], members[q])
  }

  ghost predicate OfRules(rules: seq<Rule>, action: Action, groups: seq<Group>) {
    forall g :: g in groups ==> g.members == Members(rules, action, g.net)
  }

  /** Two flattened rules, the first from the first group. */
  lemma MembersThenRest(rules: seq<Rule>, action: Action, groups: seq<Group>, p: nat, q: nat)
    requires groups != [] && OfRules(rules, action, groups) && LongestFirst(groups)
    requires InPriorityOrder(rules, AllMembers(groups[1..]))
    requires forall i: nat :: i in AllMembers(groups[1..]) ==> exists g :: g in groups[1..] && g.net == rules[i].net
    requires p < q < |AllMembers(groups)|
    ensures var all := AllMembers(groups); all[p] < |rules| && all[q] < |rules| && Before(rules, all[p], all[q])
  {
    var own, rest, all := groups[0], groups[1..], AllMembers(groups);
    var k := |own.members|;
    MembersExact(rules, action, own.net);
    assert own in groups;
    assert own.members == Members(rules, action, own.net);
    if q < k {
      assert all[p] == own.members[p] && all[q] == own.members[q];
      assert all[p] in own.members && all[q] in own.members;
      assert rules[all[p]].net == own.net == rules[all[q]].net;
    } else if p < k {
      assert all[p] == own.members[p] && all[q] == AllMembers(rest)[q - k];
      assert all[p] in own.members && all[q] in AllMembers(rest);
      var j :| 0 <= j < |rest| && rest[j].net == rules[all[q]].net;
      assert groups[j + 1] == rest[j];
    } else {
      assert all[p] == AllMembers(rest)[p - k] && all[q] == AllMembers(rest)[q - k];
    }
  }

  lemma {:induction false} AllMembersOrder(rules: seq<Rule>, action: Action, groups: seq<Group>)
    requires OfRules(rules, action, groups) && LongestFirst(groups)
    ensures InPriorityOrder(rules, AllMembers(groups))
    ensures forall i: nat :: i in AllMembers(groups) <==>
              i < |rules| && rules[i].action == action && exists g :: g in groups && g.net == rules[i].net
  {
    if groups == [] {
    } else {
      var own, rest := groups[0], groups[1..];
      AllMembersOrder(rules, action, rest);
      MembersExact(rules, action, own.net);
      assert forall g :: g in groups <==> g == own || g in rest;
      var all := AllMembers(groups);
      assert all == own.members + AllMembers(rest);
      forall p, q | 0 <= p < q < |all| ensures Before(rules, all[p], all[q]) {
        MembersThenRest(rules, action, groups, p, q);
      }
    }
  }

  // ---------------------------------------------------------------------------
  // One profile and action
  // ---------------------------------------------------------------------------

  lemma GroupsOfFacts(rules: seq<Rule>, action: Action)
    ensures var groups := GroupsOf(rules, action);
            && DistinctNets(groups)
            && OfRules(rules, action, groups)
            && (forall i :: 0 <= i < |rules| && rules[i].action == action ==>
                exists g :: g in groups && g.net == rules[i].net)
  {
    GroupNetsDistinct(rules, action);
    var groups := GroupsOf(rules, action);
    forall i | 0 <= i < |rules| && rules[i].action == action ensures exists g :: g in groups && g.net == rules[i].net {
      var k :| 0 <= k < |GroupNets(rules, action)| && GroupNets(rules, action)[k] == rules[i].net;
      assert groups[k] in groups;
    }
  }

  /** The rules flattened into the entry of `own`: every rule whose prefix contains it, in priority order. */
  lemma FlattenedRules(rules: seq<Rule>, action: Action, own: Group)
    requires own in GroupsOf(rules, action)
    ensures var all := AllMembers(Ordered(GroupsOf(rules, action), own));
            && InPriorityOrder(rules, all)
            && forall i: nat :: i in all <==> i < |rules| && rules[i].action == action && rules[i].net <= own.net
  {
    var groups := GroupsOf(rules, action);
    GroupsOfFacts(rules, action);
    OrderedContents(groups, own);
    OrderedLongestFirst(groups, own);
    var ordered := Ordered(groups, own);
    assert OfRules(rules, action, ordered);
    AllMembersOrder(rules, action, ordered);
    forall i: nat | i < |rules| && rules[i].action == action
      ensures (exists g :: g in ordered && g.net == rules[i].net) <==> rules[i].net <= own.net
    {
      var g :| g in groups && g.net == rules[i].net;
      if rules[i].net <= own.net {
        assert g in ordered || g.net == own.net;
        assert own in ordered;
      }
    }
  }

  /** First in priority order among the matching rules is the rule the linear scan picks. */
  lemma FirstIsBest(rules: seq<Rule>, action: Action, all: seq<nat>, q: Query)
    requires InPriorityOrder(rules, all)
    requires forall i: nat :: i < |rules| ==>
        (Matches(rules[i], action, q) <==> i in all && ServiceMatches(rules[i], q))
    ensures FirstService(rules, all, q) == Best(rules, action, q)
  {
    FirstServiceMember(rules, all, q);
    var best := Best(rules, action, q);
    var first := FirstService(rules, all, q);
    if first.Some? {
      var k :| 0 <= k < |all| && all[k] == first.value && ServiceMatches(rules[all[k]], q)
               && forall j :: 0 <= j < k ==> !ServiceMatches(rules[all[j]], q);
      assert Matches(rules[all[k]], action, q);
      var m :| 0 <= m < |all| && all[m] == best.value;
      assert m >= k;
    } else {
      assert forall i :: 0 <= i < |rules| ==> !Matches(rules[i], action, q);
    }
  }

  /** `e` is the compiled entry of one group of the profile. */
  ghost predicate EntryOf(prof: Profile, action: Action, e: Entry) {
    exists own :: own in GroupsOf(prof.rules, action) && e == EntryFor(prof, GroupsOf(prof.rules, action), own)
  }

  /** Under the longest group that contains the address, the flattened rules are the ones whose prefix contains it. */
  lemma FlattenedRulesMatch(rules: seq<Rule>, action: Action, own: Group, q: Query)
    requires own in GroupsOf(rules, action) && own.net <= q.addr
    requires forall g :: g in GroupsOf(rules, action) && g.net <= q.addr ==> |g.net| <= |own.net|
    ensures var all := AllMembers(Ordered(GroupsOf(rules, action), own));
            && InPriorityOrder(rules, all)
            && forall i: nat :: i < |rules| ==>
                (Matches(rules[i], action, q) <==> i in all && ServiceMatches(rules[i], q))
  {
    FlattenedRules(rules, action, own);
    GroupsOfFacts(rules, action);
    forall i: nat | i < |rules| && rules[i].action == action
      ensures rules[i].net <= q.addr <==> rules[i].net <= own.net
    {
      if rules[i].net <= q.addr {
        assert rules[i].net == q.addr[..|rules[i].net|] && own.net == q.addr[..|own.net|];
      }
    }
  }

  /** The longest entry that contains the address answers as the linear scan does. */
  lemma LongestEntryAnswers(rules: seq<Rule>, action: Action, own: Group, q: Query)
    requires own in GroupsOf(rules, action) && own.net <= q.addr
    requires forall g :: g in GroupsOf(rules, action) && g.net <= q.addr ==> |g.net| <= |own.net|
    ensures var best := Best(rules, action, q);
            FirstHit(RangesFor(rules, GroupsOf(rules, action), own), q) ==
            if best.Some? then Some(rules[best.value].id) else None
  {
    var all := AllMembers(Ordered(GroupsOf(rules, action), own));
    FlattenedRulesMatch(rules, action, own, q);
    FirstIsBest(rules, action, all, q);
    FlattenKeepsFirst(rules, all, q);
  }

  /** The entry `addr` finds is one of the profile's, and no group of the profile that contains `addr` is longer. */
  ghost predicate FindsLongestGroup(es: seq<Entry>, prof: Profile, action: Action, addr: Address) {
    var found := Longest(es, prof.id, addr);
    && (found.Some? ==> EntryOf(prof, action, es[found.value]))
    && (forall g :: g in GroupsOf(prof.rules, action) && g.net <= addr ==>
        found.Some? && |g.net| <= |es[found.value].net|)
  }

  lemma NoGroupNoMatch(rules: seq<Rule>, action: Action, q: Query)
    requires forall g :: g in GroupsOf(rules, action) ==> !(g.net <= q.addr)
    ensures Best(rules, action, q).None?
  {
    GroupsOfFacts(rules, action);
  }

  lemma EntryAnswers(prof: Profile, action: Action, e: Entry, q: Query)
    requires EntryOf(prof, action, e) && e.net <= q.addr
    requires forall g :: g in GroupsOf(prof.rules, action) && g.net <= q.addr ==> |g.net| <= |e.net|
    ensures var best := Best(prof.rules, action, q);
            FirstHit(e.ranges, q) == if best.Some? then Some(prof.rules[best.value].id) else None
  {
    var own :| own in GroupsOf(prof.rules, action) && e == EntryFor(prof, GroupsOf(prof.rules, action), own);
    LongestEntryAnswers(prof.rules, action, own, q);
  }

  /** A single longest-prefix lookup finds what the linear scan finds, whatever other profiles' entries are there. */
  lemma TrieMatchAnswers(es: seq<Entry>, prof: Profile, action: Action, q: Query)
    requires FindsLongestGroup(es, prof, action, q.addr)
    ensures var best := Best(prof.rules, action, q);
            TrieMatch(es, prof.id, q) == if best.Some? then Some(prof.rules[best.value].id) else None
  {
    var found := Longest(es, prof.id, q.addr);
    if found.Some? {
      EntryAnswers(prof, action, es[found.value], q);
    } else {
      NoGroupNoMatch(prof.rules, action, q);
    }
  }

  // ---------------------------------------------------------------------------
  // The whole policy
  // ---------------------------------------------------------------------------

  predicate DistinctIds(profiles: seq<Profile>) {
    forall i, j :: 0 <= i < j < |profiles| ==> profiles[i].id != profiles[j].id
  }

  lemma {:induction false} EntriesForExact(prof: Profile, action: Action, groups: seq<Group>, n: nat)
    requires n <= |groups|
    requires EntriesFor(prof, action, groups, n).Ok?
    ensures var es := EntriesFor(prof, action, groups, n).value;
            && |es| == n
            && forall k :: 0 <= k < n ==> es[k] == EntryFor(prof, groups, groups[k]) && |es[k].ranges| <= MAX_RANGES
  {
    hide EntryFor;
    if n == 0 {
    } else {
      EntriesForExact(prof, action, groups, n - 1);
    }
  }

  /** The entries of a compiled profile: one per group, each within the kernel's range limit. */
  lemma TrieForExact(prof: Profile, action: Action)
    requires TrieFor(prof, action).Ok?
    ensures var es := TrieFor(prof, action).value;
            && (forall e :: e in es ==> EntryOf(prof, action, e) && |e.ranges| <= MAX_RANGES)
            && (forall g :: g in GroupsOf(prof.rules, action) ==> exists e :: e in es && e.net == g.net)
            && Distinct(es)
  {
    var groups := GroupsOf(prof.rules, action);
    EntriesForExact(prof, action, groups, |groups|);
    GroupsOfFacts(prof.rules, action);
    var es := TrieFor(prof, action).value;
    forall g | g in groups ensures exists e :: e in es && e.net == g.net {
      var k :| 0 <= k < |groups| && groups[k] == g;
      assert es[k] in es;
    }
    forall e | e in es ensures EntryOf(prof, action, e) && |e.ranges| <= MAX_RANGES {
      var k :| 0 <= k < |es| && es[k] == e;
      assert groups[k] in groups;
    }
  }

  function EntriesOf(c: Compiled, action: Action): seq<Entry> {
    match action case Deny => c.deny case Allow => c.allow
  }

  lemma CompileProfilesStep(profiles: seq<Profile>, generation: nat, action: Action)
    requires profiles != [] && CompileProfiles(profiles, generation).Ok?
    ensures var n := |profiles| - 1;
            && CompileProfiles(profiles[..n], generation).Ok?
            && TrieFor(profiles[n], action).Ok?
            && EntriesOf(CompileProfiles(profiles, generation).value, action) ==
               EntriesOf(CompileProfiles(profiles[..n], generation).value, action) + TrieFor(profiles[n], action).value
  {
  }

  /** The compiled entries carrying a profile's id are that profile's entries, and only those. */
  lemma {:induction false} CompiledEntries(profiles: seq<Profile>, generation: nat, n: nat, action: Action)
    requires DistinctIds(profiles) && n < |profiles|
    requires CompileProfiles(profiles, generation).Ok?
    ensures TrieFor(profiles[n], action).Ok?
    ensures forall e ::
              (e in EntriesOf(CompileProfiles(profiles, generation).value, action) && e.profile == profiles[n].id) <==>
              e in TrieFor(profiles[n], action).value
    decreases |profiles|
  {
    var last := |profiles| - 1;
    CompileProfilesStep(profiles, generation, action);
    TrieForIds(profiles[last], action);
    if n < last {
      CompiledEntries(profiles[..last], generation, n, action);
    } else {
      NoForeignEntries(profiles[..last], generation, profiles[last].id, action);
    }
  }

  lemma {:induction false} NoForeignEntries(profiles: seq<Profile>, generation: nat, id: U32, action: Action)
    requires forall p :: p in profiles ==> p.id != id
    requires CompileProfiles(profiles, generation).Ok?
    ensures forall e :: e in EntriesOf(CompileProfiles(profiles, generation).value, action) ==> e.profile != id
  {
    if profiles == [] {
    } else {
      var last := |profiles| - 1;
      CompileProfilesStep(profiles, generation, action);
      NoForeignEntries(profiles[..last], generation, id, action);
      TrieForIds(profiles[last], action);
    }
  }

  lemma TrieForIds(prof: Profile, action: Action)
    requires TrieFor(prof, action).Ok?
    ensures forall e :: e in TrieFor(prof, action).value ==> e.profile == prof.id
  {
    TrieForExact(prof, action);
  }

  lemma FoundIsOwn(es: seq<Entry>, own: seq<Entry>, prof: Profile, action: Action, addr: Address)
    requires forall e :: e in es && e.profile == prof.id <==> e in own
    requires forall e :: e in own ==> EntryOf(prof, action, e)
    ensures var found := Longest(es, prof.id, addr); found.Some? ==> EntryOf(prof, action, es[found.value])
  {
    hide EntryOf;
    var found := Longest(es, prof.id, addr);
    if found.Some? {
      assert es[found.value] in es;
    }
  }

  lemma FoundIsLongest(es: seq<Entry>, own: seq<Entry>, prof: Profile, groups: seq<Group>, addr: Address)
    requires forall e :: e in es && e.profile == prof.id <==> e in own
    requires forall g :: g in groups ==> exists e :: e in own && e.net == g.net
    ensures var found := Longest(es, prof.id, addr);
            forall g :: g in groups && g.net <= addr ==> found.Some? && |g.net| <= |es[found.value].net|
  {
  }

  lemma CompiledFindsGroup(profiles: seq<Profile>, generation: nat, n: nat, action: Action, addr: Address)
    requires DistinctIds(profiles) && n < |profiles|
    requires CompileProfiles(profiles, generation).Ok?
    ensures FindsLongestGroup(EntriesOf(CompileProfiles(profiles, generation).value, action), profiles[n], action, addr)
  {
    hide EntryOf, GroupsOf, TrieFor, CompileProfiles;
    CompiledEntries(profiles, generation, n, action);
    TrieForExact(profiles[n], action);
    var es := EntriesOf(CompileProfiles(profiles, generation).value, action);
    var own := TrieFor(profiles[n], action).value;
    FoundIsOwn(es, own, profiles[n], action, addr);
    FoundIsLongest(es, own, profiles[n], GroupsOf(profiles[n].rules, action), addr);
  }

  lemma HeadersStep(profiles: seq<Profile>, generation: nat)
    requires profiles != [] && CompileProfiles(profiles, generation).Ok?
    ensures var n := |profiles| - 1;
            && CompileProfiles(profiles[..n], generation).Ok?
            && CompileProfiles(profiles, generation).value.generation ==
                CompileProfiles(profiles[..n], generation).value.generation
            && CompileProfiles(profiles, generation).value.profiles ==
               CompileProfiles(profiles[..n], generation).value.profiles + [Header(profiles[n])]
  {
  }

  /** The header carries what the kernel needs of the profile besides its rules. */
  ghost predicate HeaderOf(prof: Profile, header: CompiledProfile) {
    header.id == prof.id && header.mode == prof.mode && header.netDefault == prof.netDefault
  }

  /** Each compiled profile carries the id, mode and default it was compiled from. */
  lemma {:induction false} CompiledHeaders(profiles: seq<Profile>, generation: nat)
    requires CompileProfiles(profiles, generation).Ok?
    ensures var c := CompileProfiles(profiles, generation).value;
            && c.generation == generation
            && |c.profiles| == |profiles|
            && (forall k :: 0 <= k < |profiles| ==> HeaderOf(profiles[k], c.profiles[k]))
  {
    hide AddProfile;
    if profiles == [] {
    } else {
      CompiledHeaders(profiles[..|profiles| - 1], generation);
      HeadersStep(profiles, generation);
    }
  }

  lemma {:induction false} FindHeader(profiles: seq<Profile>, headers: seq<CompiledProfile>, id: U32)
    requires |headers| == |profiles|
    requires forall k :: 0 <= k < |profiles| ==> HeaderOf(profiles[k], headers[k])
    ensures var p, h := FindProfile(profiles, id), FindCompiled(headers, id);
            (p.None? <==> h.None?) && (p.Some? ==> HeaderOf(p.value, h.value))
  {
    if profiles == [] {
    } else {
      FindHeader(profiles[1..], headers[1..], id);
    }
  }

  /**
   Main result: for every policy that compiles, the single-lookup form decides as the linear scan, rule id included.
   */
  lemma LookupRefinesEvaluate(policy: Policy, generation: nat, profile: U32, q: Query)
    requires DistinctIds(policy.profiles)
    requires CompileSpec(policy, generation).Ok?
    ensures Lookup(CompileSpec(policy, generation).value, profile, q) == Evaluate(policy, profile, q)
  {
    var profiles := policy.profiles;
    var c := CompileSpec(policy, generation).value;
    CompiledHeaders(profiles, generation);
    FindHeader(profiles, c.profiles, profile);
    var prof := FindProfile(profiles, profile);
    if prof.Some? {
      var n :| 0 <= n < |profiles| && profiles[n] == prof.value;
      CompiledFindsGroup(profiles, generation, n, Deny, q.addr);
      CompiledFindsGroup(profiles, generation, n, Allow, q.addr);
      TrieMatchAnswers(c.deny, prof.value, Deny, q);
      TrieMatchAnswers(c.allow, prof.value, Allow, q);
    }
  }
}
