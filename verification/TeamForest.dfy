/** The team hierarchy as a value: a finite map from team ids to their links.
    Parent and child links are stored at both ends, as in the orchestrator's own map.
    An absent `parentTeamId` and an empty one behave alike in the code (both are falsy),
    so the empty string stands for "no parent". */
module TeamForest {
  import opened Sequences

  datatype Team = Team(parent: string, children: seq<string>, level: int)

  type Forest = map<string, Team>

  // ----- The invariant -------------------------------------------------------------

  /** The links stored at `id` agree with those stored at its parent and its children,
      and no child is listed twice. */
  ghost predicate LinkOk(f: Forest, id: string)
    requires id in f
  {
    && (f[id].parent != "" ==> f[id].parent in f && id in f[f[id].parent].children)
    && (forall c :: c in f[id].children ==> c in f && f[c].parent == id)
    && NoDuplicates(f[id].children)
  }

  ghost predicate Linked(f: Forest) {
    "" !in f && forall id {:trigger LinkOk(f, id)} :: id in f ==> LinkOk(f, id)
  }

  /** The team the upward walk visits after `id`, or "" where the walk stops. */
  function Up(f: Forest, id: string): string {
    if id in f && f[id].parent != "" && f[id].parent in f then f[id].parent else ""
  }

  /** The team reached after `n` steps of the upward walk ("" once the walk has stopped). */
  function Climb(f: Forest, id: string, n: nat): string
    decreases n
  {
    if n == 0 || id == "" then id else Climb(f, Up(f, id), n - 1)
  }

  /** The upward walk from `id` stops. */
  ghost predicate WalkEnds(f: Forest, id: string) {
    exists n: nat :: Climb(f, id, n) == ""
  }

  ghost predicate IsForest(f: Forest) {
    Linked(f) && forall id {:trigger WalkEnds(f, id)} :: id in f ==> WalkEnds(f, id)
  }

  ghost predicate Bounded(f: Forest, maxChildren: nat) {
    forall id :: id in f ==> |f[id].children| <= maxChildren
  }

  // ----- The path from the root ------------------------------------------------------

  ghost function PathWithin(f: Forest, id: string, n: nat): seq<string>
    requires "" !in f && id in f && Climb(f, id, n) == ""
    decreases n
  {
    if Up(f, id) == "" then [id] else PathWithin(f, Up(f, id), n - 1) + [id]
  }

  lemma {:induction false} PathWithinStable(f: Forest, id: string, n: nat, m: nat)
    requires "" !in f && id in f && Climb(f, id, n) == "" && Climb(f, id, m) == ""
    ensures PathWithin(f, id, n) == PathWithin(f, id, m)
    decreases n
  {
    if Up(f, id) != "" {
      PathWithinStable(f, Up(f, id), n - 1, m - 1);
    }
  }

  /** The ids on the way from the root down to `id`. */
  ghost function Path(f: Forest, id: string): seq<string>
    requires IsForest(f) && id in f
  {
    assert WalkEnds(f, id);
    var n: nat :| Climb(f, id, n) == "";
    PathWithin(f, id, n)
  }

  lemma PathUnfold(f: Forest, id: string)
    requires IsForest(f) && id in f
    ensures f[id].parent == "" ==> Path(f, id) == [id]
    ensures f[id].parent != "" ==> f[id].parent in f && Path(f, id) == Path(f, f[id].parent) + [id]
  {
    assert WalkEnds(f, id) && LinkOk(f, id);
    var n: nat :| Climb(f, id, n) == "" && Path(f, id) == PathWithin(f, id, n);
    if f[id].parent != "" {
      var up := f[id].parent;
      assert WalkEnds(f, up);
      var m: nat :| Climb(f, up, m) == "" && Path(f, up) == PathWithin(f, up, m);
      PathWithinStable(f, up, n - 1, m);
      assert Up(f, id) == up;
      assert PathWithin(f, id, n) == PathWithin(f, up, n - 1) + [id];
    }
  }

  /** The path starts at a parentless team, follows parent links, ends at the team,
      and every prefix of it is the path of the prefix's last team. */
  lemma {:induction false} PathShape(f: Forest, id: string)
    requires IsForest(f) && id in f
    ensures var p := Path(f, id);
      && |p| > 0 && p[|p| - 1] == id
      && (forall i :: 0 <= i < |p| ==> p[i] in f)
      && f[p[0]].parent == ""
      && (forall i :: 0 < i < |p| ==> f[p[i]].parent == p[i - 1])
      && (forall i :: 0 <= i < |p| ==> p[i] in f && Path(f, p[i]) == p[..i + 1])
    decreases |Path(f, id)|
  {
    PathUnfold(f, id);
    var p := Path(f, id);
    if f[id].parent != "" {
      var up := f[id].parent;
      PathShape(f, up);
      var q := Path(f, up);
      forall i | 0 <= i < |p| ensures p[i] in f && Path(f, p[i]) == p[..i + 1] {
        if i < |q| {
          assert q[..i + 1] == p[..i + 1];
        } else {
          assert p[..i + 1] == p;
        }
      }
    } else {
      assert p[..1] == p;
    }
  }

  lemma PathHasNoRepeats(f: Forest, id: string)
    requires IsForest(f) && id in f
    ensures NoDuplicates(Path(f, id))
  {
    PathShape(f, id);
    var p := Path(f, id);
    forall i, j | 0 <= i < j < |p| ensures p[i] != p[j] {
      assert |p[..i + 1]| != |p[..j + 1]|;
    }
  }

  lemma PathFitsForest(f: Forest, id: string)
    requires IsForest(f) && id in f
    ensures 1 <= |Path(f, id)| <= |f|
  {
    PathShape(f, id);
    PathHasNoRepeats(f, id);
    NoDuplicatesSize(Path(f, id), f.Keys);
  }

  /** Everything on the path of a team on the path of `d` is on the path of `d`. */
  lemma OnPathTransitive(f: Forest, a: string, b: string, d: string)
    requires IsForest(f) && b in f && d in f
    requires a in Path(f, b) && b in Path(f, d)
    ensures a in Path(f, d)
  {
    PathShape(f, d);
    var p := Path(f, d);
    var i :| 0 <= i < |p| && p[i] == b;
    assert Path(f, b) == p[..i + 1];
  }

  // ----- Descendants and the level order ------------------------------------------------

  /** The proper descendants of `t`: every other team whose root path passes through `t`. */
  ghost function ProperDescendants(f: Forest, t: string): set<string>
    requires IsForest(f)
  {
    set d | d in f && d != t && t in Path(f, d)
  }

  /** The children of the teams of one level, in order. */
  ghost function ChildrenOf(f: Forest, level: seq<string>): seq<string>
    requires forall x :: x in level ==> x in f
  {
    if level == [] then [] else f[level[0]].children + ChildrenOf(f, level[1..])
  }

  lemma {:induction false} ChildrenOfConcat(f: Forest, a: seq<string>, b: seq<string>)
    requires forall x :: x in a + b ==> x in f
    ensures (forall x :: x in a ==> x in f) && (forall x :: x in b ==> x in f)
    ensures ChildrenOf(f, a + b) == ChildrenOf(f, a) + ChildrenOf(f, b)
  {
    forall x | x in a ensures x in f { assert x in a + b; }
    forall x | x in b ensures x in f { assert x in a + b; }
    if a == [] {
      assert a + b == b;
    } else {
      assert (a + b)[1..] == a[1..] + b;
      forall x | x in a[1..] + b ensures x in f { assert x in a + b; }
      ChildrenOfConcat(f, a[1..], b);
      assert f[a[0]].children + (ChildrenOf(f, a[1..]) + ChildrenOf(f, b))
          == (f[a[0]].children + ChildrenOf(f, a[1..])) + ChildrenOf(f, b);
    }
  }

  lemma {:induction false} ChildrenOfMember(f: Forest, level: seq<string>, c: string)
    requires forall x :: x in level ==> x in f
    ensures c in ChildrenOf(f, level) <==> exists x :: x in level && c in f[x].children
  {
    if level != [] {
      ChildrenOfMember(f, level[1..], c);
      assert forall x :: x in level <==> x == level[0] || x in level[1..];
    }
  }

  /** `level` holds teams of depth `depth` only. */
  ghost predicate AtDepth(f: Forest, level: seq<string>, depth: nat)
    requires IsForest(f)
  {
    forall x :: x in level ==> x in f && |Path(f, x)| == depth
  }

  lemma ChildrenAtDepth(f: Forest, level: seq<string>, depth: nat)
    requires IsForest(f) && AtDepth(f, level, depth)
    ensures AtDepth(f, ChildrenOf(f, level), depth + 1)
  {
    forall c | c in ChildrenOf(f, level) ensures c in f && |Path(f, c)| == depth + 1 {
      ChildrenOfMember(f, level, c);
      var x :| x in level && c in f[x].children;
      assert LinkOk(f, x);
      PathUnfold(f, c);
    }
  }

  lemma LevelMembers(f: Forest, level: seq<string>, depth: nat)
    requires IsForest(f) && AtDepth(f, level, depth)
    ensures Linked(f) && forall x :: x in level ==> x in f
  {
  }

  lemma DepthWithin(f: Forest, level: seq<string>, depth: nat)
    requires IsForest(f) && AtDepth(f, level, depth) && level != []
    ensures depth <= |f|
  {
    assert level[0] in level;
    PathFitsForest(f, level[0]);
  }

  /** Level by level below `level`: the order the breadth-first walk must deliver. */
  ghost function LevelOrder(f: Forest, level: seq<string>, depth: nat): seq<string>
    requires IsForest(f) && AtDepth(f, level, depth)
    decreases if depth <= |f| then |f| - depth + 1 else 0
  {
    if level == [] then []
    else
      DepthWithin(f, level, depth);
      ChildrenAtDepth(f, level, depth);
      level + LevelOrder(f, ChildrenOf(f, level), depth + 1)
  }

  /** Some team of `level` lies on the root path of `d`. */
  ghost predicate Meets(f: Forest, level: seq<string>, d: string)
    requires IsForest(f) && d in f
  {
    exists x :: x in level && x in Path(f, d)
  }

  /** One level down: the path of `d` meets `level` when `d` is in it or its path meets the children. */
  lemma MeetsNext(f: Forest, level: seq<string>, d: string)
    requires IsForest(f) && d in f && forall x :: x in level ==> x in f
    ensures Meets(f, level, d) <==> d in level || Meets(f, ChildrenOf(f, level), d)
  {
    var next := ChildrenOf(f, level);
    PathShape(f, d);
    if x :| x in level && x in Path(f, d) && x != d {
      NextOnPath(f, x, d);
      var c :| c in f && c in Path(f, d) && f[c].parent == x;
      assert LinkOk(f, c);
      ChildrenOfMember(f, level, c);
      assert Meets(f, next, d);
    }
    if c :| c in next && c in Path(f, d) {
      ChildrenOfMember(f, level, c);
      var x :| x in level && c in f[x].children;
      assert LinkOk(f, x);
      PathUnfold(f, c);
      PathShape(f, x);
      OnPathTransitive(f, x, c, d);
      assert Meets(f, level, d);
    }
  }

  /** The level order holds exactly the teams whose root path meets the starting level. */
  lemma {:induction false} LevelOrderMember(f: Forest, level: seq<string>, depth: nat, d: string)
    requires IsForest(f) && AtDepth(f, level, depth)
    ensures d in LevelOrder(f, level, depth) <==> d in f && Meets(f, level, d)
    decreases if depth <= |f| then |f| - depth + 1 else 0
  {
    hide IsForest, AtDepth, Path, ChildrenOf;
    if level != [] {
      DepthWithin(f, level, depth);
      ChildrenAtDepth(f, level, depth);
      LevelMembers(f, level, depth);
      var next := ChildrenOf(f, level);
      LevelOrderMember(f, next, depth + 1, d);
      assert d in LevelOrder(f, level, depth) <==> d in level || d in LevelOrder(f, next, depth + 1);
      if d in f {
        MeetsNext(f, level, d);
      }
    }
  }

  /** A path that passes through `x` and goes on, goes on to a child of `x`. */
  lemma NextOnPath(f: Forest, x: string, d: string)
    requires IsForest(f) && x in f && d in f && x != d && x in Path(f, d)
    ensures exists c :: c in f && c in Path(f, d) && f[c].parent == x
  {
    PathShape(f, d);
    var p := Path(f, d);
    var i :| 0 <= i < |p| && p[i] == x;
    assert p[i + 1] in f && p[i + 1] in p && f[p[i + 1]].parent == x;
  }

  lemma {:induction false} ChildrenOfNoDuplicates(f: Forest, level: seq<string>)
    requires Linked(f) && NoDuplicates(level) && forall x :: x in level ==> x in f
    ensures NoDuplicates(ChildrenOf(f, level))
  {
    if level != [] {
      var rest := level[1..];
      ChildrenOfNoDuplicates(f, rest);
      assert LinkOk(f, level[0]);
      forall c | c in f[level[0]].children ensures c !in ChildrenOf(f, rest) {
        ChildrenOfMember(f, rest, c);
        forall x | x in rest ensures c !in f[x].children {
          assert LinkOk(f, x);
        }
      }
      NoDuplicatesConcat(f[level[0]].children, ChildrenOf(f, rest));
    }
  }

  /** Teams at `depth` or below, none twice, none before a shallower one. */
  ghost predicate ByDepth(f: Forest, r: seq<string>, depth: nat)
    requires IsForest(f)
  {
    && NoDuplicates(r)
    && (forall i :: 0 <= i < |r| ==> r[i] in f && |Path(f, r[i])| >= depth)
    && (forall i, j :: 0 <= i < j < |r| ==> |Path(f, r[i])| <= |Path(f, r[j])|)
  }

  lemma {:induction false} LevelOrderSorted(f: Forest, level: seq<string>, depth: nat)
    requires IsForest(f) && AtDepth(f, level, depth) && NoDuplicates(level)
    ensures ByDepth(f, LevelOrder(f, level, depth), depth)
    decreases if depth <= |f| then |f| - depth + 1 else 0
  {
    hide IsForest, AtDepth, Path, ChildrenOf;
    if level != [] {
      DepthWithin(f, level, depth);
      ChildrenAtDepth(f, level, depth);
      LevelMembers(f, level, depth);
      ChildrenOfNoDuplicates(f, level);
      var next := ChildrenOf(f, level);
      LevelOrderSorted(f, next, depth + 1);
      LevelBeforeRest(f, level, LevelOrder(f, next, depth + 1), depth);
    }
  }

  lemma LevelBeforeRest(f: Forest, level: seq<string>, rest: seq<string>, depth: nat)
    requires IsForest(f) && AtDepth(f, level, depth) && NoDuplicates(level)
    requires ByDepth(f, rest, depth + 1)
    ensures ByDepth(f, level + rest, depth)
  {
    forall x | x in level ensures x !in rest {
      assert |Path(f, x)| == depth;
    }
    NoDuplicatesConcat(level, rest);
    var r := level + rest;
    forall i | 0 <= i < |r| ensures r[i] in f && |Path(f, r[i])| >= depth
                                 && (i < |level| ==> |Path(f, r[i])| == depth) {
      if i < |level| { assert r[i] in level; } else { assert r[i] == rest[i - |level|]; }
    }
    forall i, j | 0 <= i < j < |r| ensures |Path(f, r[i])| <= |Path(f, r[j])| {
      if i >= |level| { assert r[i] == rest[i - |level|] && r[j] == rest[j - |level|]; }
    }
  }

  /** What `getDescendants` is to return for `t`. */
  ghost function Descendants(f: Forest, t: string): seq<string>
    requires IsForest(f) && t in f
  {
    ChildrenStartLevel(f, t);
    LevelOrder(f, f[t].children, |Path(f, t)| + 1)
  }

  lemma ChildrenStartLevel(f: Forest, t: string)
    requires IsForest(f) && t in f
    ensures AtDepth(f, f[t].children, |Path(f, t)| + 1)
  {
    assert LinkOk(f, t);
    forall c | c in f[t].children ensures c in f && |Path(f, c)| == |Path(f, t)| + 1 {
      PathUnfold(f, c);
    }
  }

  /** The two walks are dual, and the downward one delivers every proper descendant
      once, in nondecreasing depth. */
  lemma DescendantsExact(f: Forest, t: string)
    requires IsForest(f) && t in f
    ensures var r := Descendants(f, t);
      && NoDuplicates(r)
      && (forall d :: d in r <==> d in ProperDescendants(f, t))
      && (forall i :: 0 <= i < |r| ==> r[i] in f)
      && (forall i, j :: 0 <= i < j < |r| ==> |Path(f, r[i])| <= |Path(f, r[j])|)
  {
    ChildrenStartLevel(f, t);
    var depth := |Path(f, t)| + 1;
    assert LinkOk(f, t);
    LevelOrderSorted(f, f[t].children, depth);
    forall d ensures d in Descendants(f, t) <==> d in ProperDescendants(f, t) {
      LevelOrderMember(f, f[t].children, depth, d);
      if d in f {
        BelowMeetsChildren(f, t, d);
      }
    }
  }

  lemma BelowMeetsChildren(f: Forest, t: string, d: string)
    requires IsForest(f) && t in f && d in f
    ensures Meets(f, f[t].children, d) <==> d != t && t in Path(f, d)
  {
    assert LinkOk(f, t);
    MeetsNext(f, [t], d);
    assert ChildrenOf(f, [t]) == f[t].children;
    assert t in [t];
    assert t in Path(f, d) ==> Meets(f, [t], d);
    forall c | c in f[t].children ensures c !in Path(f, t) {
      PathUnfold(f, c);
      PathShape(f, t);
      var p := Path(f, t);
      forall i | 0 <= i < |p| ensures p[i] != c {
        assert |p[..i + 1]| <= |p|;
      }
    }
  }

  // ----- How many descendants there can be ----------------------------------------------

  function Power(c: nat, n: nat): nat {
    if n == 0 then 1 else c * Power(c, n - 1)
  }

  /** c + c^2 + ... + c^h */
  function GeometricSum(c: nat, h: nat): nat {
    if h == 0 then 0 else GeometricSum(c, h - 1) + Power(c, h)
  }

  lemma {:induction false} GeometricSumShift(c: nat, h: nat)
    ensures GeometricSum(c, h + 1) == c * (1 + GeometricSum(c, h))
  {
    if h == 0 {
      assert GeometricSum(c, 1) == GeometricSum(c, 0) + Power(c, 1);
      assert Power(c, 1) == c * Power(c, 0);
    } else {
      GeometricSumShift(c, h - 1);
      assert Power(c, h + 1) == c * Power(c, h);
      assert c * (1 + GeometricSum(c, h - 1)) + c * Power(c, h)
          == c * (1 + GeometricSum(c, h - 1) + Power(c, h));
    }
  }

  lemma {:induction false} ChildrenOfSize(f: Forest, level: seq<string>, c: nat)
    requires Bounded(f, c) && forall x :: x in level ==> x in f
    ensures |ChildrenOf(f, level)| <= c * |level|
  {
    if level != [] {
      ChildrenOfSize(f, level[1..], c);
      assert level[0] in level;
      assert c * |level| == c + c * |level[1..]|;
    }
  }

  /** The subtree below `t` has height at most `h`. */
  ghost predicate HeightAtMost(f: Forest, t: string, h: nat)
    requires IsForest(f) && t in f
  {
    forall d :: d in ProperDescendants(f, t) ==> |Path(f, d)| <= |Path(f, t)| + h
  }

  ghost predicate Shallower(f: Forest, r: seq<string>, bound: nat)
    requires IsForest(f)
  {
    forall d :: d in r ==> d in f && |Path(f, d)| < bound
  }

  lemma {:induction false} LevelOrderSize(f: Forest, level: seq<string>, depth: nat, c: nat, h: nat)
    requires IsForest(f) && AtDepth(f, level, depth) && Bounded(f, c)
    requires Shallower(f, LevelOrder(f, level, depth), depth + h)
    ensures |LevelOrder(f, level, depth)| <= if h == 0 then 0 else |level| * (1 + GeometricSum(c, h - 1))
    decreases h
  {
    hide IsForest, AtDepth, Path, ChildrenOf, Bounded, Shallower, GeometricSum;
    if level != [] {
      DepthWithin(f, level, depth);
      ChildrenAtDepth(f, level, depth);
      LevelMembers(f, level, depth);
      var next := ChildrenOf(f, level);
      var rest := LevelOrder(f, next, depth + 1);
      ShallowerParts(f, level, rest, depth, h);
      LevelOrderSize(f, next, depth + 1, c, h - 1);
      ChildrenOfSize(f, level, c);
      SizeStep(|level|, |next|, |rest|, c, h);
    }
  }

  lemma ShallowerParts(f: Forest, level: seq<string>, rest: seq<string>, depth: nat, h: nat)
    requires IsForest(f) && AtDepth(f, level, depth) && level != []
    requires Shallower(f, level + rest, depth + h)
    ensures h > 0 && Shallower(f, rest, depth + 1 + (h - 1))
  {
    assert level[0] in level + rest;
    forall d | d in rest ensures d in f && |Path(f, d)| < depth + h {
      assert d in level + rest;
    }
  }

  lemma SizeStep(here: nat, next: nat, rest: nat, c: nat, h: nat)
    requires h > 0 && next <= c * here
    requires rest <= if h == 1 then 0 else next * (1 + GeometricSum(c, h - 2))
    ensures here + rest <= here * (1 + GeometricSum(c, h - 1))
  {
    if h > 1 {
      GeometricSumShift(c, h - 2);
      LevelProduct(here, next, rest, c, 1 + GeometricSum(c, h - 2));
    } else {
      assert GeometricSum(c, 0) == 0;
    }
  }

  lemma LevelProduct(here: nat, next: nat, rest: nat, c: nat, g: nat)
    requires next <= c * here && rest <= next * g
    ensures here + rest <= here * (1 + c * g)
  {
    MulMonotone(next, c * here, g);
    assert (c * here) * g == here * (c * g);
    assert here * (1 + c * g) == here + here * (c * g);
  }

  lemma MulMonotone(a: nat, b: nat, g: nat)
    requires a <= b
    ensures a * g <= b * g
  {
    assert b * g == a * g + (b - a) * g;
  }

  lemma DescendantsWithin(f: Forest, t: string, h: nat)
    requires IsForest(f) && t in f && HeightAtMost(f, t, h)
    ensures AtDepth(f, f[t].children, |Path(f, t)| + 1)
    ensures Shallower(f, LevelOrder(f, f[t].children, |Path(f, t)| + 1), |Path(f, t)| + 1 + h)
  {
    ChildrenStartLevel(f, t);
    DescendantsExact(f, t);
    forall d | d in Descendants(f, t) ensures d in f && |Path(f, d)| < |Path(f, t)| + 1 + h {
      assert d in ProperDescendants(f, t);
    }
  }

  /** A team whose subtree has height h, under a child limit of c, has at most
      c + c^2 + ... + c^h descendants. */
  lemma DescendantBound(f: Forest, t: string, c: nat, h: nat)
    requires IsForest(f) && t in f && Bounded(f, c) && HeightAtMost(f, t, h)
    ensures |Descendants(f, t)| <= GeometricSum(c, h)
  {
    DescendantsWithin(f, t, h);
    LevelOrderSize(f, f[t].children, |Path(f, t)| + 1, c, h);
    FirstLevel(|f[t].children|, c, h);
  }

  lemma FirstLevel(start: nat, c: nat, h: nat)
    requires start <= c
    ensures (if h == 0 then 0 else start * (1 + GeometricSum(c, h - 1))) <= GeometricSum(c, h)
  {
    if h > 0 {
      GeometricSumShift(c, h - 1);
      MulMonotone(start, c, 1 + GeometricSum(c, h - 1));
    }
  }
}
