/**
 The file access check: a rule on the object itself, then a walk up its
 directory tree for subtree rules. The walk takes at most 32 steps and fails
 closed when it runs out of them.
 */
module FileWalk {
  import opened Wrappers

  const MAX_DEPTH: nat := 32

  datatype Inode = Inode(dev: nat, ino: nat)

  /** A directory entry and its chain of parents. The top of a tree is its own parent. */
  datatype Dentry =
    | Top(inode: Option<Inode>)
    | Under(inode: Option<Inode>, parent: Dentry)

  datatype FileRule = FileRule(ruleId: nat, denyMask: bv32, subtree: bool)

  datatype FileKey = FileKey(scope: nat, inode: Inode)

  type Protected = map<FileKey, FileRule>

  datatype Governed = Governed(scope: nat, enforce: bool, stale: bool)

  datatype Verdict =
    | Allowed
    | Denied(ruleId: nat, subtree: bool)
    | DepthExceeded

  // ---------------------------------------------------------------------------
  // What the rules say
  // ---------------------------------------------------------------------------

  /** The directories above an entry, nearest first. */
  function Ancestors(d: Dentry): seq<Dentry> {
    match d case Top(_) => [] case Under(_, p) => [p] + Ancestors(p)
  }

  predicate Denies(rule: FileRule, access: bv32) {
    rule.denyMask & access != 0
  }

  predicate DirectRule(rules: Protected, scope: nat, inode: Inode, access: bv32) {
    FileKey(scope, inode) in rules && Denies(rules[FileKey(scope, inode)], access)
  }

  /** A subtree rule on a directory that denies one of the accesses. */
  predicate SubtreeRule(rules: Protected, scope: nat, dir: Dentry, access: bv32) {
    && dir.inode.Some?
    && DirectRule(rules, scope, dir.inode.value, access)
    && rules[FileKey(scope, dir.inode.value)].subtree
  }

  /** The ancestors the walk looks at: it takes a directory without an inode for the root. */
  function Visible(d: Dentry): seq<Dentry> {
    if d.Top? || d.parent.inode.None? then [] else [d.parent] + Visible(d.parent)
  }

  /** Every ancestor has an inode, as in any live directory tree. */
  predicate HasInodes(d: Dentry) {
    d.Under? ==> d.parent.inode.Some? && HasInodes(d.parent)
  }

  lemma {:induction false} VisibleIsAll(d: Dentry)
    requires HasInodes(d)
    ensures Visible(d) == Ancestors(d)
  {
    match d
    case Top(_) =>
    case Under(_, p) => VisibleIsAll(p);
  }

  /** A subtree rule on one of the directories. */
  predicate Covered(rules: Protected, scope: nat, dirs: seq<Dentry>, access: bv32) {
    exists i :: 0 <= i < |dirs| && SubtreeRule(rules, scope, dirs[i], access)
  }

  /** The covered directory nearest to the object is the `i`-th. */
  predicate Nearest(rules: Protected, scope: nat, dirs: seq<Dentry>, access: bv32, i: nat) {
    && i < |dirs|
    && SubtreeRule(rules, scope, dirs[i], access)
    && forall j :: 0 <= j < i ==> !SubtreeRule(rules, scope, dirs[j], access)
  }

  predicate Live(start: Option<Dentry>) {
    start.Some? ==> HasInodes(start.value)
  }

  function DirsAbove(start: Option<Dentry>): seq<Dentry> {
    if start.Some? then Ancestors(start.value) else []
  }

  /** There are `n` directories or more, and no rule on the first `n` of them. */
  predicate Unreached(rules: Protected, scope: nat, dirs: seq<Dentry>, access: bv32, n: nat) {
    |dirs| >= n && forall i :: 0 <= i < n ==> !SubtreeRule(rules, scope, dirs[i], access)
  }

  /** The policy, whatever the depth: a rule on the object, or a subtree rule on any directory above it. */
  predicate Forbidden(rules: Protected, scope: nat, inode: Inode, dirs: seq<Dentry>, access: bv32) {
    DirectRule(rules, scope, inode, access) || Covered(rules, scope, dirs, access)
  }

  // ---------------------------------------------------------------------------
  // The walk
  // ---------------------------------------------------------------------------

  /** The nearest subtree rule within `steps` directories. */
  function WalkSpec(rules: Protected, scope: nat, dirs: seq<Dentry>, access: bv32, steps: nat): Verdict {
    if steps == 0 then DepthExceeded
    else if dirs == [] then Allowed
    else if SubtreeRule(rules, scope, dirs[0], access)
    then Denied(rules[FileKey(scope, dirs[0].inode.value)].ruleId, true)
    else WalkSpec(rules, scope, dirs[1..], access, steps - 1)
  }

  method MaskHits(rule: FileRule, access: bv32) returns (hit: bool)
    ensures hit <==> Denies(rule, access)
  {
    hit := rule.denyMask & access != 0;
  }

  method Walk(rules: Protected, scope: nat, start: Dentry, access: bv32) returns (v: Verdict)
    ensures v == WalkSpec(rules, scope, Visible(start), access, MAX_DEPTH)
  {
    hide Denies;
    var curr := start;
    var i := 0;
    while i < MAX_DEPTH
      invariant 0 <= i <= MAX_DEPTH
      invariant WalkSpec(rules, scope, Visible(curr), access, MAX_DEPTH - i) ==
                WalkSpec(rules, scope, Visible(start), access, MAX_DEPTH)
    {
      if curr.Top? {
        return Allowed;
      }
      curr := curr.parent;
      if curr.inode.None? {
        return Allowed;
      }
      var key := FileKey(scope, curr.inode.value);
      if key in rules && rules[key].subtree {
        var hit := MaskHits(rules[key], access);
        if hit {
          return Denied(rules[key].ruleId, true);
        }
      }
      i := i + 1;
    }
    return DepthExceeded;
  }

  /** The walk allows exactly when no directory is covered and it did not run out of steps. */
  lemma {:induction false} WalkAllows(rules: Protected, scope: nat, dirs: seq<Dentry>, access: bv32, steps: nat)
    ensures WalkSpec(rules, scope, dirs, access, steps).Allowed? <==>
              !Covered(rules, scope, dirs, access) && |dirs| < steps
    ensures WalkSpec(rules, scope, dirs, access, steps).DepthExceeded? <==> Unreached(rules, scope, dirs, access, steps)
  {
    hide SubtreeRule;
    if steps == 0 || dirs == [] {
    } else {
      WalkAllows(rules, scope, dirs[1..], access, steps - 1);
      assert dirs == [dirs[0]] + dirs[1..];
    }
  }

  /** A walk that denies names the rule of the nearest covered directory. */
  lemma {:induction false} WalkFindsNearest(rules: Protected, scope: nat, dirs: seq<Dentry>, access: bv32, steps: nat)
    returns (i: nat)
    requires WalkSpec(rules, scope, dirs, access, steps).Denied?
    ensures Nearest(rules, scope, dirs, access, i)
    ensures WalkSpec(rules, scope, dirs, access, steps) ==
            Denied(rules[FileKey(scope, dirs[i].inode.value)].ruleId, true)
  {
    if SubtreeRule(rules, scope, dirs[0], access) {
      i := 0;
    } else {
      var k := WalkFindsNearest(rules, scope, dirs[1..], access, steps - 1);
      hide SubtreeRule;
      i := k + 1;
    }
  }

  function DecideSpec(rules: Protected, scope: nat, inode: Inode, start: Option<Dentry>, access: bv32): Verdict {
    if DirectRule(rules, scope, inode, access)
    then Denied(rules[FileKey(scope, inode)].ruleId, rules[FileKey(scope, inode)].subtree)
    else if start.None? then Allowed
    else WalkSpec(rules, scope, Visible(start.value), access, MAX_DEPTH)
  }

  /** The rule a denial names: the object's own, or else that of the nearest covered directory. */
  ghost predicate NamesRule(rules: Protected, scope: nat, inode: Inode, dirs: seq<Dentry>, access: bv32, v: Verdict) {
    if DirectRule(rules, scope, inode, access)
    then v == Denied(rules[FileKey(scope, inode)].ruleId, rules[FileKey(scope, inode)].subtree)
    else exists i: nat ::
        && Nearest(rules, scope, dirs, access, i)
        && v == Denied(rules[FileKey(scope, dirs[i].inode.value)].ruleId, true)
  }

  /** An access is denied exactly when the policy forbids it or 32 directories or more lie above. */
  method Decide(rules: Protected, scope: nat, inode: Inode, start: Option<Dentry>, access: bv32) returns (v: Verdict)
    ensures v == DecideSpec(rules, scope, inode, start, access)
    ensures Live(start) ==>
              (v.Allowed? <==>
               !Forbidden(rules, scope, inode, DirsAbove(start), access) && |DirsAbove(start)| < MAX_DEPTH)
    ensures Live(start) && v.Denied? ==> NamesRule(rules, scope, inode, DirsAbove(start), access, v)
    ensures Live(start) ==>
              (v.DepthExceeded? <==>
               && !DirectRule(rules, scope, inode, access)
               && Unreached(rules, scope, DirsAbove(start), access, 32))
  {
    if Live(start) {
      DeniesExactly(rules, scope, inode, start, access);
    }
    var key := FileKey(scope, inode);
    if key in rules {
      var hit := MaskHits(rules[key], access);
      if hit {
        return Denied(rules[key].ruleId, rules[key].subtree);
      }
    }
    if start.None? {
      return Allowed;
    }
    v := Walk(rules, scope, start.value, access);
  }

  /** Main result: an access is denied exactly when the policy forbids it or 32 directories or more lie above. */
  lemma DeniesExactly(rules: Protected, scope: nat, inode: Inode, start: Option<Dentry>, access: bv32)
    requires Live(start)
    ensures var v := DecideSpec(rules, scope, inode, start, access);
            && (!v.Allowed? <==>
                Forbidden(rules, scope, inode, DirsAbove(start), access) || |DirsAbove(start)| >= MAX_DEPTH)
            && (v.DepthExceeded? <==>
                !DirectRule(rules, scope, inode, access) && Unreached(rules, scope, DirsAbove(start), access, 32))
            && (v.Denied? ==> NamesRule(rules, scope, inode, DirsAbove(start), access, v))
  {
    hide SubtreeRule, DirectRule;
    if start.Some? {
      VisibleIsAll(start.value);
      WalkAllows(rules, scope, Visible(start.value), access, MAX_DEPTH);
      if WalkSpec(rules, scope, Visible(start.value), access, MAX_DEPTH).Denied? {
        var i := WalkFindsNearest(rules, scope, Visible(start.value), access, MAX_DEPTH);
      }
    }
  }

  // ---------------------------------------------------------------------------
  // Hooks
  // ---------------------------------------------------------------------------

  /** What the hook returns: a deny takes effect only in enforce mode, where a stale heartbeat denies everything. */
  predicate Blocks(g: Governed, v: Verdict) {
    g.enforce && (!v.Allowed? || g.stale)
  }

  predicate Refused(rules: Protected, g: Governed, inode: Inode, start: Option<Dentry>, access: bv32) {
    Blocks(g, DecideSpec(rules, g.scope, inode, start, access))
  }

  /**
   In enforce mode a hook blocks everything on a stale heartbeat and otherwise exactly what the policy forbids or
   lies too deep; outside it, nothing.
   */
  method FileCheck(rules: Protected, g: Governed, inode: Inode, start: Option<Dentry>, access: bv32)
    returns (blocked: bool)
    ensures blocked == Refused(rules, g, inode, start, access)
    ensures Live(start) ==>
              (blocked <==>
               && g.enforce
               && (|| g.stale
                   || Forbidden(rules, g.scope, inode, DirsAbove(start), access)
                   || |DirsAbove(start)| >= MAX_DEPTH))
  {
    var v := Decide(rules, g.scope, inode, start, access);
    hide Forbidden;
    blocked := g.enforce && (!v.Allowed? || g.stale);
  }

  const CREATE: bv32 := 8
  const DELETE: bv32 := 16
  const RENAME: bv32 := 32

  function ParentOf(d: Dentry): Option<Dentry> {
    match d case Top(_) => Some(d) case Under(_, p) => Some(p)
  }

  /**
   A rename needs the rename right on what moves, delete and rename on what it replaces, and create in the
   destination.
   */
  predicate RenameRefused(rules: Protected, g: Governed, from: Dentry, dir: Inode, to: Dentry) {
    || (from.inode.Some? && Refused(rules, g, from.inode.value, Some(from), RENAME))
    || (to.inode.Some? && Refused(rules, g, to.inode.value, Some(to), DELETE | RENAME))
    || Refused(rules, g, dir, ParentOf(to), CREATE)
  }

  /** An access the policy forbids, or to something too deep to tell. */
  predicate Stopped(rules: Protected, scope: nat, inode: Inode, dirs: seq<Dentry>, access: bv32) {
    Forbidden(rules, scope, inode, dirs, access) || |dirs| >= 32
  }

  /**
   In enforce mode a rename is blocked exactly on a stale heartbeat, or if the policy stops renaming what moves,
   deleting or renaming what it replaces, or creating in the directory that receives it; each by a rule on the object
   itself or on a directory above it.
   */
  method RenameCheck(rules: Protected, g: Governed, from: Dentry, dir: Inode, to: Dentry) returns (blocked: bool)
    ensures blocked <==> RenameRefused(rules, g, from, dir, to)
    ensures HasInodes(from) && HasInodes(to) ==>
              (blocked <==>
               && g.enforce
               && (|| g.stale
                   || (from.inode.Some? && Stopped(rules, g.scope, from.inode.value, Ancestors(from), 32))
                   || (to.inode.Some? && Stopped(rules, g.scope, to.inode.value, Ancestors(to), 48))
                   || Stopped(rules, g.scope, dir, if to.Under? then Ancestors(to.parent) else [], 8)))
  {
    assert DELETE | RENAME == 48;
    hide Refused, Forbidden;
    if from.inode.Some? {
      blocked := FileCheck(rules, g, from.inode.value, Some(from), RENAME);
      if blocked {
        return;
      }
    }
    if to.inode.Some? {
      blocked := FileCheck(rules, g, to.inode.value, Some(to), DELETE | RENAME);
      if blocked {
        return;
      }
    }
    blocked := FileCheck(rules, g, dir, ParentOf(to), CREATE);
  }

  // ---------------------------------------------------------------------------
  // Consequences
  // ---------------------------------------------------------------------------

  /** In enforce mode, no object anywhere below a directory with a subtree rule can be accessed against it. */
  lemma SubtreeRefused(rules: Protected, g: Governed, dir: Dentry, inode: Inode, d: Dentry, access: bv32)
    requires g.enforce && HasInodes(d)
    requires dir in Ancestors(d) && SubtreeRule(rules, g.scope, dir, access)
    ensures Refused(rules, g, inode, Some(d), access)
  {
    DeniesExactly(rules, g.scope, inode, Some(d), access);
    hide SubtreeRule, DirectRule, DecideSpec;
    var i :| 0 <= i < |Ancestors(d)| && Ancestors(d)[i] == dir;
  }

  /** In enforce mode, a rule on an object itself is enforced on it. */
  lemma DirectRefused(rules: Protected, g: Governed, inode: Inode, start: Option<Dentry>, access: bv32)
    requires g.enforce && DirectRule(rules, g.scope, inode, access)
    ensures Refused(rules, g, inode, start, access)
  {
  }

  /** `d` lies in the subtree of `above`: it is `above` itself or below it. */
  predicate Within(d: Dentry, above: Dentry) {
    d == above || above in Ancestors(d)
  }

  /**
   No rename takes an object from under a subtree rule that denies renames, puts one under a subtree rule that denies
   creation, or replaces one under a subtree rule that denies deletion or renames. The destination may be
   the protected directory itself; `dir` is its inode.
   */
  lemma RenameCannotEscape(rules: Protected, g: Governed, from: Dentry, dir: Inode, to: Dentry, above: Dentry)
    requires g.enforce && HasInodes(from) && HasInodes(to)
    requires to.Under? && to.parent.inode == Some(dir)
    requires
      || (from.inode.Some? && above in Ancestors(from) && SubtreeRule(rules, g.scope, above, RENAME))
      || (Within(to.parent, above) && SubtreeRule(rules, g.scope, above, CREATE))
      || (to.inode.Some? && above in Ancestors(to) && SubtreeRule(rules, g.scope, above, DELETE | RENAME))
    ensures RenameRefused(rules, g, from, dir, to)
  {
    hide Refused;
    if from.inode.Some? && above in Ancestors(from) && SubtreeRule(rules, g.scope, above, RENAME) {
      SubtreeRefused(rules, g, above, from.inode.value, from, RENAME);
    } else if Within(to.parent, above) && SubtreeRule(rules, g.scope, above, CREATE) {
      if to.parent == above {
        DirectRefused(rules, g, dir, ParentOf(to), CREATE);
      } else {
        SubtreeRefused(rules, g, above, dir, to.parent, CREATE);
      }
    } else {
      SubtreeRefused(rules, g, above, to.inode.value, to, DELETE | RENAME);
    }
  }
}
