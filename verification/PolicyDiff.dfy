/**
 Comparing two policies line by line: an empty difference means that same-named
 profiles take the same network action everywhere, whatever their rule order
 and rule ids. It rests on the rule lines being an injective rendering.

 How a prefix is written is left to the address library: `show` is any
 injective rendering without spaces.
 */
module PolicyDiff {
  import opened Wrappers
  import opened NetPolicy

  type Show = Prefix -> string

  ghost predicate Faithful(show: Show) {
    && (forall a: Prefix, b: Prefix :: show(a) == show(b) ==> a == b)
    && (forall a: Prefix :: ' ' !in show(a))
  }

  /** The bits of a prefix, one digit each. */
  function BitText(p: seq<bool>): string {
    if p == [] then "" else [if p[0] then '1' else '0'] + BitText(p[1..])
  }

  lemma {:induction false} BitTextInjective(a: seq<bool>, b: seq<bool>)
    requires BitText(a) == BitText(b)
    ensures a == b
  {
    if a == [] {
    } else {
      assert BitText(a)[0] == BitText(b)[0];
      assert BitText(a)[1..] == BitText(a[1..]) && BitText(b)[1..] == BitText(b[1..]);
      BitTextInjective(a[1..], b[1..]);
      assert a == [a[0]] + a[1..] && b == [b[0]] + b[1..];
    }
  }

  lemma {:induction false} BitTextHasNoSpace(p: seq<bool>)
    ensures ' ' !in BitText(p)
  {
    if p == [] {
    } else {
      BitTextHasNoSpace(p[1..]);
    }
  }

  /** A faithful rendering exists. */
  lemma FaithfulIsMet() returns (show: Show)
    ensures Faithful(show)
  {
    show := p => BitText(p);
    forall a: Prefix, b: Prefix | show(a) == show(b) ensures a == b {
      BitTextInjective(a, b);
    }
    forall a: Prefix ensures ' ' !in show(a) {
      BitTextHasNoSpace(a);
    }
  }

  // ---------------------------------------------------------------------------
  // Rendering
  // ---------------------------------------------------------------------------

  const DIGITS := "0123456789"

  function Decimal(n: nat): (s: string)
    ensures s != [] && (|s| == 1 <==> n < 10)
    ensures forall i :: 0 <= i < |s| ==> s[i] in DIGITS
  {
    if n < 10 then [DIGITS[n]] else Decimal(n / 10) + [DIGITS[n % 10]]
  }

  function RangeText(p: PortRange): string {
    if p.lo == p.hi then Decimal(p.lo) else Decimal(p.lo) + "-" + Decimal(p.hi)
  }

  function PortList(ports: seq<PortRange>): string
    requires ports != []
  {
    if |ports| == 1 then RangeText(ports[0]) else RangeText(ports[0]) + "," + PortList(ports[1..])
  }

  const ALL_PORTS := PortRange(0, 0xffff)

  /** The two words that describe the ports. */
  function PortWords(ports: seq<PortRange>): (string, string)
    requires ports != []
  {
    if ports == [ALL_PORTS] then ("all", "ports") else ("ports", PortList(ports))
  }

  predicate Bit(mask: bv8, bit: bv8) {
    mask & bit != 0
  }

  function ProtoText(mask: bv8): string {
    if mask == 7 then "any proto"
    else if Bit(mask, 1) then
      (if Bit(mask, 2) then (if Bit(mask, 4) then "tcp+udp+other" else "tcp+udp")
       else if Bit(mask, 4) then "tcp+other" else "tcp")
    else if Bit(mask, 2) then (if Bit(mask, 4) then "udp+other" else "udp")
    else if Bit(mask, 4) then "other" else ""
  }

  function RuleHead(action: Action): string {
    match action case Deny => "network.deny" case Allow => "network.allow"
  }

  predicate ValidRule(r: Rule) {
    r.ports != [] && 1 <= r.proto <= 7
  }

  /** A line of words: `w0`, a space, the rest. */
  function Spaced(word: string, rest: string): string {
    word + " " + rest
  }

  function RuleLine(show: Show, r: Rule): string
    requires ValidRule(r)
  {
    var (p0, p1) := PortWords(r.ports);
    Spaced(RuleHead(r.action), Spaced(show(r.net), Spaced(p0, Spaced(p1, ProtoText(r.proto)))))
  }

  function ModeText(mode: Mode): string {
    match mode case Audit => "= audit" case Enforce => "= enforce"
  }

  function ActionText(action: Action): string {
    match action case Deny => "= deny" case Allow => "= allow"
  }

  function RawText(denied: bool): string {
    if denied then "= true" else "= false"
  }

  function ModeLine(mode: Mode): string {
    Spaced("mode", ModeText(mode))
  }

  function DefaultLine(action: Action): string {
    Spaced("network.default", ActionText(action))
  }

  function RawLine(denied: bool): string {
    Spaced("network.deny_raw_sockets", RawText(denied))
  }

  /** The settings as they are written. */
  lemma SettingLines()
    ensures ModeLine(Audit) == "mode = audit" && ModeLine(Enforce) == "mode = enforce"
    ensures DefaultLine(Deny) == "network.default = deny" && DefaultLine(Allow) == "network.default = allow"
    ensures RawLine(true) == "network.deny_raw_sockets = true" && RawLine(false) == "network.deny_raw_sockets = false"
  {
  }

  /** A profile with what the comparison also sees of it: exec, file and launch lines. */
  datatype Described = Described(profile: Profile, denyRaw: bool, other: set<string>)

  predicate ValidDescribed(d: Described) {
    && (forall i :: 0 <= i < |d.profile.rules| ==> ValidRule(d.profile.rules[i]))
    && (forall l :: l in d.other ==> !("network." <= l) && !("mode " <= l))
  }

  function RuleLines(show: Show, rules: seq<Rule>): set<string>
    requires forall i :: 0 <= i < |rules| ==> ValidRule(rules[i])
  {
    set i | 0 <= i < |rules| :: RuleLine(show, rules[i])
  }

  /** Every setting and rule of a profile as one line each. */
  function Describe(show: Show, d: Described): set<string>
    requires ValidDescribed(d)
  {
    {ModeLine(d.profile.mode), DefaultLine(d.profile.netDefault), RawLine(d.denyRaw)}
    + RuleLines(show, d.profile.rules) + d.other
  }

  // ---------------------------------------------------------------------------
  // The comparison
  // ---------------------------------------------------------------------------

  function FindByName(ds: seq<Described>, name: string): (r: Option<Described>)
    ensures r.Some? ==> r.value in ds && r.value.profile.name == name
    ensures r.None? ==> forall d :: d in ds ==> d.profile.name != name
  {
    if ds == [] then None else if ds[0].profile.name == name then Some(ds[0]) else FindByName(ds[1..], name)
  }

  predicate AllValid(ds: seq<Described>) {
    forall d :: d in ds ==> ValidDescribed(d)
  }

  function Lines(show: Show, d: Option<Described>): set<string>
    requires d.Some? ==> ValidDescribed(d.value)
  {
    if d.None? then {} else Describe(show, d.value)
  }

  /** A name that both policies describe the same way, or neither has. */
  predicate SameUnder(show: Show, before: seq<Described>, after: seq<Described>, name: string)
    requires AllValid(before) && AllValid(after)
  {
    var b, a := FindByName(before, name), FindByName(after, name);
    b.Some? == a.Some? && Lines(show, b) == Lines(show, a)
  }

  /** `out` is the lines, each once and after `prefix`. */
  ghost predicate Marked(out: seq<string>, lines: set<string>, prefix: string) {
    && |out| == |lines|
    && (forall l :: l in lines ==> prefix + l in out)
    && (forall i :: 0 <= i < |out| ==> prefix <= out[i] && out[i][|prefix|..] in lines)
  }

  lemma MarkedNext(out: seq<string>, lines: set<string>, prefix: string, l: string)
    requires Marked(out, lines, prefix) && l !in lines
    ensures Marked(out + [prefix + l], lines + {l}, prefix)
  {
    var more := out + [prefix + l];
    assert more[|out|] == prefix + l;
    assert (prefix + l)[|prefix|..] == l;
    forall m | m in lines + {l} ensures prefix + m in more {
      if m in lines {
        assert prefix + m in out;
      }
    }
  }

  lemma MarkedNone(out: seq<string>, lines: set<string>, prefix: string)
    requires Marked(out, lines, prefix)
    ensures out == [] <==> lines == {}
  {
  }

  method Prefixed(lines: set<string>, prefix: string) returns (out: seq<string>)
    ensures Marked(out, lines, prefix)
  {
    out := [];
    var rest := lines;
    assert lines - rest == {};
    while rest != {}
      invariant rest <= lines && Marked(out, lines - rest, prefix)
      decreases rest
    {
      var l :| l in rest;
      MarkedNext(out, lines - rest, prefix, l);
      assert lines - (rest - {l}) == lines - rest + {l};
      out := out + [prefix + l];
      rest := rest - {l};
    }
    assert lines - rest == lines;
  }

  /** The line for a profile only one side has: `+` if it is new, `-` if it is gone. */
  ghost function ProfileLine(before: bool, after: bool, name: string): seq<string> {
    if !before && after then ["+ profile " + name] else if before && !after then ["- profile " + name] else []
  }

  /** How a line that is gone is marked. */
  ghost function Gone(name: string): string {
    "- " + name + ": "
  }

  ghost function New(name: string): string {
    "+ " + name + ": "
  }

  /** What is reported under a name: the profile if one side lacks it, lines only before as `-`, only after as `+`. */
  ghost predicate Reported(show: Show, before: seq<Described>, after: seq<Described>, name: string, out: seq<string>)
    requires AllValid(before) && AllValid(after)
  {
    var b, a := FindByName(before, name), FindByName(after, name);
    exists removed, added ::
      && out == ProfileLine(b.Some?, a.Some?, name) + removed + added
      && Marked(removed, Lines(show, b) - Lines(show, a), Gone(name))
      && Marked(added, Lines(show, a) - Lines(show, b), New(name))
  }

  lemma ReportedIs(show: Show, before: seq<Described>, after: seq<Described>, name: string, removed: seq<string>,
                   added: seq<string>)
    requires AllValid(before) && AllValid(after)
    requires var b, a := FindByName(before, name), FindByName(after, name);
      && Marked(removed, Lines(show, b) - Lines(show, a), Gone(name))
      && Marked(added, Lines(show, a) - Lines(show, b), New(name))
    ensures var b, a := FindByName(before, name), FindByName(after, name);
      var out := ProfileLine(b.Some?, a.Some?, name) + removed + added;
      && Reported(show, before, after, name, out)
      && (out == [] <==> SameUnder(show, before, after, name))
  {
    hide Lines, Marked, FindByName, Gone, New;
    var b, a := FindByName(before, name), FindByName(after, name);
    var was, now := Lines(show, b), Lines(show, a);
    MarkedNone(removed, was - now, Gone(name));
    MarkedNone(added, now - was, New(name));
    assert was == now <==> was - now == {} == now - was;
  }

  method DiffName(show: Show, before: seq<Described>, after: seq<Described>, name: string) returns (out: seq<string>)
    requires AllValid(before) && AllValid(after)
    ensures Reported(show, before, after, name, out)
    ensures out == [] <==> SameUnder(show, before, after, name)
  {
    hide AllValid, Lines, Marked, Reported, SameUnder;
    out := [];
    var minus, plus := "- " + name + ": ", "+ " + name + ": ";
    assert minus == Gone(name) && plus == New(name);
    hide Gone, New;
    var b, a := FindByName(before, name), FindByName(after, name);
    FoundValid(before, name);
    FoundValid(after, name);
    hide FindByName;
    if b.None? && a.Some? {
      out := out + ["+ profile " + name];
    } else if b.Some? && a.None? {
      out := out + ["- profile " + name];
    }
    assert out == ProfileLine(b.Some?, a.Some?, name);
    hide ProfileLine;
    var was, now := Lines(show, b), Lines(show, a);
    var removed := Prefixed(was - now, minus);
    var added := Prefixed(now - was, plus);
    ReportedIs(show, before, after, name, removed, added);
    out := out + removed + added;
  }

  lemma FoundValid(ds: seq<Described>, name: string)
    requires AllValid(ds)
    ensures FindByName(ds, name).Some? ==> ValidDescribed(FindByName(ds, name).value)
  {
  }

  /** The reports of the names of one order, in that order. */
  ghost predicate ReportedAll(show: Show, before: seq<Described>, after: seq<Described>, names: seq<string>,
                              out: seq<string>)
    requires AllValid(before) && AllValid(after)
    decreases |names|
  {
    if names == [] then out == []
    else
      var n := |names| - 1;
      exists k :: && 0 <= k <= |out| && Reported(show, before, after, names[n], out[k..])
                  && ReportedAll(show, before, after, names[..n], out[..k])
  }

  lemma ReportedNext(show: Show, before: seq<Described>, after: seq<Described>, names: seq<string>, out: seq<string>,
                     name: string, lines: seq<string>)
    requires AllValid(before) && AllValid(after)
    requires ReportedAll(show, before, after, names, out) && Reported(show, before, after, name, lines)
    ensures ReportedAll(show, before, after, names + [name], out + lines)
  {
    hide Reported;
    var more, k := names + [name], |out|;
    assert more[..|names|] == names && more[|names|] == name;
    assert (out + lines)[..k] == out && (out + lines)[k..] == lines;
  }

  function NamesOf(ds: seq<Described>): set<string> {
    set i | 0 <= i < |ds| :: ds[i].profile.name
  }

  /** The names, each once, in some order. */
  ghost predicate Listing(names: seq<string>, all: set<string>) {
    |names| == |all| && (set n | n in names) == all
  }

  /**
   One line per profile, setting or rule added or removed, name by name; nothing exactly when every name is described
   the same way.
   */
  method Diff(show: Show, before: seq<Described>, after: seq<Described>)
    returns (out: seq<string>, ghost names: seq<string>)
    requires AllValid(before) && AllValid(after)
    ensures Listing(names, NamesOf(before + after)) && ReportedAll(show, before, after, names, out)
    ensures out == [] <==> forall name :: SameUnder(show, before, after, name)
  {
    out, names := [], [];
    var all := NamesOf(before + after);
    NothingYet(show, before, after);
    hide AllValid, SameUnder, Reported, ReportedAll, NamesOf, Listing, SameOutside;
    var rest := all;
    ListingNone(all);
    ReportedNone(show, before, after);
    while rest != {}
      invariant rest <= all && Listing(names, all - rest)
      invariant ReportedAll(show, before, after, names, out)
      invariant out == [] <==> SameOutside(show, before, after, rest)
      decreases rest
    {
      var name :| name in rest;
      var lines := DiffName(show, before, after, name);
      ReportedNext(show, before, after, names, out, name, lines);
      ListingNext(names, all, rest, name);
      SameNext(show, before, after, rest, name);
      out := out + lines;
      names := names + [name];
      rest := rest - {name};
    }
    assert all - rest == all;
    SameEverywhere(show, before, after);
  }

  predicate SameOutside(show: Show, before: seq<Described>, after: seq<Described>, rest: set<string>)
    requires AllValid(before) && AllValid(after)
  {
    forall name :: name in NamesOf(before + after) - rest ==> SameUnder(show, before, after, name)
  }

  lemma SameNext(show: Show, before: seq<Described>, after: seq<Described>, rest: set<string>, name: string)
    requires AllValid(before) && AllValid(after) && name in rest && rest <= NamesOf(before + after)
    ensures SameOutside(show, before, after, rest - {name}) <==>
            SameOutside(show, before, after, rest) && SameUnder(show, before, after, name)
  {
    hide SameUnder, NamesOf;
  }

  lemma SameEverywhere(show: Show, before: seq<Described>, after: seq<Described>)
    requires AllValid(before) && AllValid(after)
    ensures SameOutside(show, before, after, {}) <==> forall name :: SameUnder(show, before, after, name)
  {
    NamesElsewhere(show, before, after);
    hide SameUnder, NamesOf;
  }

  lemma NothingYet(show: Show, before: seq<Described>, after: seq<Described>)
    requires AllValid(before) && AllValid(after)
    ensures SameOutside(show, before, after, NamesOf(before + after))
  {
  }

  lemma ListingNone(all: set<string>)
    ensures Listing([], all - all)
  {
    assert all - all == {};
  }

  lemma ReportedNone(show: Show, before: seq<Described>, after: seq<Described>)
    requires AllValid(before) && AllValid(after)
    ensures ReportedAll(show, before, after, [], [])
  {
  }

  lemma ListingNext(names: seq<string>, all: set<string>, rest: set<string>, name: string)
    requires rest <= all && name in rest && Listing(names, all - rest)
    ensures Listing(names + [name], all - (rest - {name}))
  {
    assert all - (rest - {name}) == all - rest + {name};
    assert (set n | n in names + [name]) == (set n | n in names) + {name};
  }

  lemma NamesElsewhere(show: Show, before: seq<Described>, after: seq<Described>)
    requires AllValid(before) && AllValid(after)
    ensures forall name :: name !in NamesOf(before + after) ==> SameUnder(show, before, after, name)
  {
    var all := before + after;
    forall name | name !in NamesOf(all) ensures SameUnder(show, before, after, name) {
      assert forall d :: d in before || d in after ==> d in all;
      assert forall d :: d in all ==> d.profile.name in NamesOf(all);
    }
  }

  // ---------------------------------------------------------------------------
  // The rendering is injective
  // ---------------------------------------------------------------------------

  /** Two strings equal up to a separator neither head holds are equal on both sides of it. */
  lemma Cut(c: char, a: string, x: string, b: string, y: string)
    requires c !in a && c !in b
    requires a + [c] + x == b + [c] + y
    ensures a == b && x == y
  {
    var s := a + [c] + x;
    assert s[|a|] == c && s[|b|] == c;
    assert forall i :: 0 <= i < |a| ==> s[i] == a[i];
    assert forall i :: 0 <= i < |b| ==> s[i] == b[i];
    assert s[..|a|] == a && s[..|b|] == b;
    assert s[|a| + 1..] == x && s[|b| + 1..] == y;
  }

  lemma SpacedInjective(a: string, x: string, b: string, y: string)
    requires ' ' !in a && ' ' !in b
    requires Spaced(a, x) == Spaced(b, y)
    ensures a == b && x == y
  {
    Cut(' ', a, x, b, y);
  }

  lemma {:induction false} DecimalInjective(a: nat, b: nat)
    requires Decimal(a) == Decimal(b)
    ensures a == b
  {
    var s := Decimal(a);
    if a >= 10 {
      assert s[..|s| - 1] == Decimal(a / 10) && s[..|s| - 1] == Decimal(b / 10);
      assert s[|s| - 1] == DIGITS[a % 10] == DIGITS[b % 10];
      DecimalInjective(a / 10, b / 10);
    }
  }

  lemma DecimalChars(n: nat, c: char)
    requires c !in DIGITS
    ensures c !in Decimal(n)
  {
    assert forall i :: 0 <= i < |Decimal(n)| ==> Decimal(n)[i] in DIGITS;
  }

  lemma RangeTextInjective(p: PortRange, q: PortRange)
    requires RangeText(p) == RangeText(q)
    ensures p == q
  {
    assert '-' !in DIGITS;
    DecimalChars(p.lo, '-');
    DecimalChars(q.lo, '-');
    hide Decimal;
    if p.lo == p.hi && q.lo == q.hi {
      DecimalInjective(p.lo, q.lo);
    } else if p.lo != p.hi && q.lo != q.hi {
      Cut('-', Decimal(p.lo), Decimal(p.hi), Decimal(q.lo), Decimal(q.hi));
      DecimalInjective(p.lo, q.lo);
      DecimalInjective(p.hi, q.hi);
    } else if p.lo != p.hi {
      DashInRange(p);
    } else {
      DashInRange(q);
    }
  }

  lemma DashInRange(p: PortRange)
    requires p.lo != p.hi
    ensures '-' in RangeText(p)
  {
    hide Decimal;
    assert RangeText(p)[|Decimal(p.lo)|] == '-';
  }

  lemma RangeTextChars(p: PortRange, c: char)
    requires c !in DIGITS && c != '-'
    ensures c !in RangeText(p)
  {
    DecimalChars(p.lo, c);
    DecimalChars(p.hi, c);
    hide Decimal;
  }

  /** Two lists of several ranges with the same text start with the same range. */
  lemma ListHead(p: seq<PortRange>)
    requires |p| > 1
    ensures PortList(p) == RangeText(p[0]) + [','] + PortList(p[1..]) && ',' !in RangeText(p[0])
  {
    assert ',' !in DIGITS;
    RangeTextChars(p[0], ',');
    hide RangeText;
    assert "," == [','];
  }

  lemma ListCut(p: seq<PortRange>, q: seq<PortRange>)
    requires |p| > 1 && |q| > 1 && PortList(p) == PortList(q)
    ensures p[0] == q[0] && PortList(p[1..]) == PortList(q[1..])
  {
    hide RangeText, PortList;
    ListHead(p);
    ListHead(q);
    Cut(',', RangeText(p[0]), PortList(p[1..]), RangeText(q[0]), PortList(q[1..]));
    RangeTextInjective(p[0], q[0]);
  }

  lemma SingleList(p: seq<PortRange>)
    requires |p| == 1
    ensures PortList(p) == RangeText(p[0]) && ',' !in PortList(p)
  {
    assert ',' !in DIGITS;
    RangeTextChars(p[0], ',');
  }

  lemma {:induction false} PortListInjective(p: seq<PortRange>, q: seq<PortRange>)
    requires p != [] && q != [] && PortList(p) == PortList(q)
    ensures p == q
  {
    hide PortList, RangeText;
    if |p| > 1 && |q| > 1 {
      ListCut(p, q);
      PortListInjective(p[1..], q[1..]);
      assert p == [p[0]] + p[1..] && q == [q[0]] + q[1..];
    } else if |p| > 1 {
      CommaInList(p);
      SingleList(q);
    } else if |q| > 1 {
      CommaInList(q);
      SingleList(p);
    } else {
      SingleList(p);
      SingleList(q);
      RangeTextInjective(p[0], q[0]);
      assert p == [p[0]] && q == [q[0]];
    }
  }

  lemma CommaInList(p: seq<PortRange>)
    requires |p| > 1
    ensures ',' in PortList(p)
  {
    hide RangeText;
    assert PortList(p)[|RangeText(p[0])|] == ',';
  }

  lemma {:induction false} PortListChars(p: seq<PortRange>, c: char)
    requires p != [] && c !in DIGITS && c != '-' && c != ','
    ensures c !in PortList(p)
  {
    RangeTextChars(p[0], c);
    hide RangeText;
    if |p| > 1 {
      PortListChars(p[1..], c);
    }
  }

  lemma PortWordsInjective(p: seq<PortRange>, q: seq<PortRange>)
    requires p != [] && q != [] && PortWords(p) == PortWords(q)
    ensures p == q
  {
    hide PortList;
    assert |"all"| != |"ports"|;
    if p != [ALL_PORTS] && q != [ALL_PORTS] {
      PortListInjective(p, q);
    }
  }

  lemma PortWordsChars(p: seq<PortRange>)
    requires p != []
    ensures ' ' !in PortWords(p).0 && ' ' !in PortWords(p).1
  {
    assert ' ' !in DIGITS;
    PortListChars(p, ' ');
    hide PortList;
  }

  lemma ProtoTextInjective(a: bv8, b: bv8)
    requires 1 <= a <= 7 && 1 <= b <= 7 && ProtoText(a) == ProtoText(b)
    ensures a == b
  {
    ProtoCases(a);
    ProtoCases(b);
    hide ProtoText;
    assert "tcp"[0] == 't' && "udp"[0] == 'u' && "other"[0] == 'o' && "any proto"[0] == 'a';
    assert "tcp+udp"[0] == 't' && "tcp+other"[0] == 't' && "udp+other"[0] == 'u';
    assert |"tcp"| == 3 && |"tcp+udp"| == 7 && |"tcp+other"| == 9 && |"udp"| == 3 && |"udp+other"| == 9;
  }

  lemma ProtoCases(m: bv8)
    requires 1 <= m <= 7
    ensures ProtoText(m) == (if m == 1 then "tcp" else if m == 2 then "udp" else if m == 3 then "tcp+udp"
                             else if m == 4 then "other" else if m == 5 then "tcp+other"
                             else if m == 6 then "udp+other" else "any proto")
  {
    assert Bit(m, 1) == (m == 1 || m == 3 || m == 5 || m == 7);
    assert Bit(m, 2) == (m == 2 || m == 3 || m == 6 || m == 7);
    assert Bit(m, 4) == (m == 4 || m == 5 || m == 6 || m == 7);
  }

  lemma RuleHeadChars(action: Action)
    ensures ' ' !in RuleHead(action) && |RuleHead(action)| == if action == Deny then 12 else 13
  {
    assert ' ' !in "network.deny" && ' ' !in "network.allow";
  }

  /** Equal lines of four spaced words and a rest are equal word by word. */
  lemma FourWords(a: seq<string>, x: string, b: seq<string>, y: string)
    requires |a| == 4 && |b| == 4
    requires forall i :: 0 <= i < 4 ==> ' ' !in a[i] && ' ' !in b[i]
    requires Spaced(a[0], Spaced(a[1], Spaced(a[2], Spaced(a[3], x)))) ==
        Spaced(b[0], Spaced(b[1], Spaced(b[2], Spaced(b[3], y))))
    ensures a == b && x == y
  {
    hide Spaced;
    SpacedInjective(a[0], Spaced(a[1], Spaced(a[2], Spaced(a[3], x))),
                    b[0], Spaced(b[1], Spaced(b[2], Spaced(b[3], y))));
    SpacedInjective(a[1], Spaced(a[2], Spaced(a[3], x)), b[1], Spaced(b[2], Spaced(b[3], y)));
    SpacedInjective(a[2], Spaced(a[3], x), b[2], Spaced(b[3], y));
    SpacedInjective(a[3], x, b[3], y);
  }

  /** Two rules with the same line differ at most in their id. */
  lemma RuleLineInjective(show: Show, r: Rule, s: Rule)
    requires Faithful(show) && ValidRule(r) && ValidRule(s)
    requires RuleLine(show, r) == RuleLine(show, s)
    ensures r.action == s.action && r.net == s.net && r.ports == s.ports && r.proto == s.proto
  {
    RuleHeadChars(r.action);
    RuleHeadChars(s.action);
    PortWordsChars(r.ports);
    PortWordsChars(s.ports);
    hide RuleHead, PortWords, ProtoText, Spaced;
    var (p0, p1) := PortWords(r.ports);
    var (q0, q1) := PortWords(s.ports);
    var a := [RuleHead(r.action), show(r.net), p0, p1];
    var b := [RuleHead(s.action), show(s.net), q0, q1];
    FourWords(a, ProtoText(r.proto), b, ProtoText(s.proto));
    assert a[0] == b[0] && a[1] == b[1] && a[2] == b[2] && a[3] == b[3];
    PortWordsInjective(r.ports, s.ports);
    ProtoTextInjective(r.proto, s.proto);
  }

  // ---------------------------------------------------------------------------
  // An empty difference means the same decisions
  // ---------------------------------------------------------------------------

  /** The first word of a line tells what kind of line it is. */
  lemma RuleLineIsNoSetting(show: Show, r: Rule, d: Described)
    requires Faithful(show) && ValidRule(r) && ValidDescribed(d)
    ensures RuleLine(show, r) != ModeLine(d.profile.mode)
    ensures RuleLine(show, r) != DefaultLine(d.profile.netDefault)
    ensures RuleLine(show, r) != RawLine(d.denyRaw)
    ensures RuleLine(show, r) !in d.other
  {
    var head := RuleHead(r.action);
    assert |"network.deny"| == 12 && |"network.allow"| == 13 && |"network.default"| == 15;
    assert |"network.deny_raw_sockets"| == 24 && |"mode"| == 4;
    assert ' ' !in "network.deny" && ' ' !in "network.allow" && ' ' !in "network.default";
    assert ' ' !in "network.deny_raw_sockets" && ' ' !in "mode";
    var (p0, p1) := PortWords(r.ports);
    var rest := Spaced(show(r.net), Spaced(p0, Spaced(p1, ProtoText(r.proto))));
    assert RuleLine(show, r) == Spaced(head, rest);
    OtherFirstWord(head, rest, "mode", ModeText(d.profile.mode));
    OtherFirstWord(head, rest, "network.default", ActionText(d.profile.netDefault));
    OtherFirstWord(head, rest, "network.deny_raw_sockets", RawText(d.denyRaw));
    hide PortWords, ProtoText;
    assert "network." <= Spaced(head, rest);
  }

  lemma OtherFirstWord(a: string, x: string, b: string, y: string)
    requires ' ' !in a && ' ' !in b && |a| != |b|
    ensures Spaced(a, x) != Spaced(b, y)
  {
    if Spaced(a, x) == Spaced(b, y) {
      SpacedInjective(a, x, b, y);
    }
  }

  lemma LineOfRule(show: Show, d: Described, e: Described, r: Rule)
    requires Faithful(show) && ValidDescribed(d) && ValidDescribed(e) && Describe(show, d) == Describe(show, e)
    requires r in d.profile.rules
    ensures ValidRule(r) && exists j ::
        0 <= j < |e.profile.rules| && RuleLine(show, e.profile.rules[j]) == RuleLine(show, r)
  {
    hide RuleLine, ModeLine, DefaultLine, RawLine, ValidRule;
    RuleLineIsNoSetting(show, r, e);
    assert RuleLine(show, r) in Describe(show, d);
    assert RuleLine(show, r) in RuleLines(show, e.profile.rules);
  }

  /** A rule of one profile has, in an equally described profile, a rule that differs at most in its id. */
  lemma SameRules(show: Show, d: Described, e: Described, i: nat)
    requires Faithful(show) && ValidDescribed(d) && ValidDescribed(e) && Describe(show, d) == Describe(show, e)
    requires i < |d.profile.rules|
    ensures exists j ::
        0 <= j < |e.profile.rules| && e.profile.rules[j].(id := d.profile.rules[i].id) == d.profile.rules[i]
  {
    var r := d.profile.rules[i];
    hide RuleLine, ModeLine, DefaultLine, RawLine, ValidRule;
    LineOfRule(show, d, e, r);
    var j :| 0 <= j < |e.profile.rules| && RuleLine(show, e.profile.rules[j]) == RuleLine(show, r);
    RuleLineInjective(show, e.profile.rules[j], r);
  }

  lemma DefaultLineIsNoOther(action: Action, e: Described)
    requires ValidDescribed(e)
    ensures DefaultLine(action) != ModeLine(e.profile.mode) && DefaultLine(action) != RawLine(e.denyRaw)
    ensures DefaultLine(action) !in e.other
  {
    assert |"network.default"| == 15 && |"network.deny_raw_sockets"| == 24 && |"mode"| == 4;
    assert ' ' !in "network.default" && ' ' !in "network.deny_raw_sockets" && ' ' !in "mode";
    assert "network." <= DefaultLine(action);
    OtherFirstWord("network.default", ActionText(action), "mode", ModeText(e.profile.mode));
    OtherFirstWord("network.default", ActionText(action), "network.deny_raw_sockets", RawText(e.denyRaw));
  }

  lemma DefaultLineIsNoRule(show: Show, action: Action, rules: seq<Rule>)
    requires Faithful(show) && forall j :: 0 <= j < |rules| ==> ValidRule(rules[j])
    ensures DefaultLine(action) !in RuleLines(show, rules)
  {
    hide RuleLine, ModeLine, RawLine, DefaultLine, ValidRule;
    var d := Described(Profile(0, "", Audit, action, []), false, {});
    forall j | 0 <= j < |rules| ensures RuleLine(show, rules[j]) != DefaultLine(action) {
      RuleLineIsNoSetting(show, rules[j], d);
    }
  }

  /** The only default line of a description is its own. */
  lemma OneDefaultLine(show: Show, action: Action, e: Described)
    requires Faithful(show) && ValidDescribed(e) && DefaultLine(action) in Describe(show, e)
    ensures DefaultLine(action) == DefaultLine(e.profile.netDefault)
  {
    DefaultLineIsNoOther(action, e);
    DefaultLineIsNoRule(show, action, e.profile.rules);
    hide RuleLines, ModeLine, RawLine, DefaultLine, ValidRule;
  }

  lemma SameDefault(show: Show, d: Described, e: Described)
    requires Faithful(show) && ValidDescribed(d) && ValidDescribed(e) && Describe(show, d) == Describe(show, e)
    ensures d.profile.netDefault == e.profile.netDefault
  {
    hide RuleLines, ModeLine, RawLine, DefaultLine, ValidDescribed;
    assert DefaultLine(d.profile.netDefault) in Describe(show, d);
    OneDefaultLine(show, d.profile.netDefault, e);
    DefaultLineInjective(d.profile.netDefault, e.profile.netDefault);
  }

  lemma DefaultLineInjective(a: Action, b: Action)
    requires DefaultLine(a) == DefaultLine(b)
    ensures a == b
  {
    assert ' ' !in "network.default";
    SpacedInjective("network.default", ActionText(a), "network.default", ActionText(b));
    assert |"= deny"| != |"= allow"|;
  }

  lemma ModeLineIsNoOther(mode: Mode, e: Described)
    requires ValidDescribed(e)
    ensures ModeLine(mode) != DefaultLine(e.profile.netDefault) && ModeLine(mode) != RawLine(e.denyRaw)
    ensures ModeLine(mode) !in e.other
  {
    assert |"network.default"| == 15 && |"network.deny_raw_sockets"| == 24 && |"mode"| == 4;
    assert ' ' !in "network.default" && ' ' !in "network.deny_raw_sockets" && ' ' !in "mode";
    assert "mode " <= ModeLine(mode);
    OtherFirstWord("mode", ModeText(mode), "network.default", ActionText(e.profile.netDefault));
    OtherFirstWord("mode", ModeText(mode), "network.deny_raw_sockets", RawText(e.denyRaw));
  }

  lemma RawLineIsNoOther(denied: bool, e: Described)
    requires ValidDescribed(e)
    ensures RawLine(denied) != DefaultLine(e.profile.netDefault) && RawLine(denied) != ModeLine(e.profile.mode)
    ensures RawLine(denied) !in e.other
  {
    assert |"network.default"| == 15 && |"network.deny_raw_sockets"| == 24 && |"mode"| == 4;
    assert ' ' !in "network.default" && ' ' !in "network.deny_raw_sockets" && ' ' !in "mode";
    assert "network." <= RawLine(denied);
    OtherFirstWord("network.deny_raw_sockets", RawText(denied), "network.default", ActionText(e.profile.netDefault));
    OtherFirstWord("network.deny_raw_sockets", RawText(denied), "mode", ModeText(e.profile.mode));
  }

  lemma SettingsAreNoRules(show: Show, mode: Mode, denied: bool, rules: seq<Rule>)
    requires Faithful(show) && forall j :: 0 <= j < |rules| ==> ValidRule(rules[j])
    ensures ModeLine(mode) !in RuleLines(show, rules) && RawLine(denied) !in RuleLines(show, rules)
  {
    hide RuleLine, ModeLine, RawLine, DefaultLine, ValidRule;
    var d := Described(Profile(0, "", mode, Deny, []), denied, {});
    forall j | 0 <= j < |rules|
      ensures RuleLine(show, rules[j]) != ModeLine(mode) && RuleLine(show, rules[j]) != RawLine(denied)
    {
      RuleLineIsNoSetting(show, rules[j], d);
    }
  }

  lemma ModeLineInjective(a: Mode, b: Mode)
    requires ModeLine(a) == ModeLine(b)
    ensures a == b
  {
    assert ' ' !in "mode";
    SpacedInjective("mode", ModeText(a), "mode", ModeText(b));
    assert |"= audit"| != |"= enforce"|;
  }

  lemma RawLineInjective(a: bool, b: bool)
    requires RawLine(a) == RawLine(b)
    ensures a == b
  {
    assert ' ' !in "network.deny_raw_sockets";
    SpacedInjective("network.deny_raw_sockets", RawText(a), "network.deny_raw_sockets", RawText(b));
    assert |"= true"| != |"= false"|;
  }

  /** Equally described profiles have the same mode and the same raw-socket setting. */
  lemma SameSettings(show: Show, d: Described, e: Described)
    requires Faithful(show) && ValidDescribed(d) && ValidDescribed(e) && Describe(show, d) == Describe(show, e)
    ensures d.profile.mode == e.profile.mode && d.denyRaw == e.denyRaw
  {
    ModeLineIsNoOther(d.profile.mode, e);
    RawLineIsNoOther(d.denyRaw, e);
    SettingsAreNoRules(show, d.profile.mode, d.denyRaw, e.profile.rules);
    hide RuleLines, ModeLine, RawLine, DefaultLine, ValidDescribed;
    assert ModeLine(d.profile.mode) in Describe(show, d) && RawLine(d.denyRaw) in Describe(show, d);
    ModeLineInjective(d.profile.mode, e.profile.mode);
    RawLineInjective(d.denyRaw, e.denyRaw);
  }

  lemma SomeMatch(show: Show, d: Described, e: Described, action: Action, q: Query)
    requires Faithful(show) && ValidDescribed(d) && ValidDescribed(e) && Describe(show, d) == Describe(show, e)
    requires Best(d.profile.rules, action, q).Some?
    ensures Best(e.profile.rules, action, q).Some?
  {
    hide Describe;
    var i := Best(d.profile.rules, action, q).value;
    SameRules(show, d, e, i);
    var j :| 0 <= j < |e.profile.rules| && e.profile.rules[j].(id := d.profile.rules[i].id) == d.profile.rules[i];
    assert Matches(e.profile.rules[j], action, q);
  }

  /** The action does not depend on rule order or rule ids, so equally described profiles take the same one. */
  lemma SameAction(show: Show, d: Described, e: Described, q: Query)
    requires Faithful(show) && ValidDescribed(d) && ValidDescribed(e) && Describe(show, d) == Describe(show, e)
    ensures Decide(d.profile, q).action == Decide(e.profile, q).action
  {
    SameDefault(show, d, e);
    forall action: Action ensures Best(d.profile.rules, action, q).Some? == Best(e.profile.rules, action, q).Some? {
      if Best(d.profile.rules, action, q).Some? {
        SomeMatch(show, d, e, action, q);
      } else if Best(e.profile.rules, action, q).Some? {
        SomeMatch(show, e, d, action, q);
      }
    }
    hide Describe;
  }

  /**
   Main result: when the difference is empty, a name is in both policies or in neither, with the same network action.
   */
  lemma EmptyDiffSameAction(show: Show, before: seq<Described>, after: seq<Described>, name: string, q: Query)
    requires Faithful(show) && AllValid(before) && AllValid(after)
    requires forall n :: SameUnder(show, before, after, n)
    ensures var b, a := FindByName(before, name), FindByName(after, name);
            && b.Some? == a.Some?
            && (b.Some? ==> && Decide(b.value.profile, q).action == Decide(a.value.profile, q).action
                            && b.value.profile.mode == a.value.profile.mode && b.value.denyRaw == a.value.denyRaw)
  {
    var b, a := FindByName(before, name), FindByName(after, name);
    assert SameUnder(show, before, after, name);
    hide Describe, Decide;
    if b.Some? {
      SameAction(show, b.value, a.value, q);
      SameSettings(show, b.value, a.value);
    }
  }
}
