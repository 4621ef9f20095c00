/** Registration and reparenting of teams on the value view of the hierarchy, and
    exactly when they keep the forest invariant. */
module TeamMoves {
  import opened Wrappers
  import opened Sequences
  import opened TeamForest

  datatype Config = Config(maxLevels: int, maxChildren: nat)

  datatype HierarchyError = LevelTooHigh | ParentNotFound | ChildNotFound | ParentFull

  // ----- The two operations ----------------------------------------------------------

  /** `same` says that the object being registered is already the one stored under `id`;
      it matters only when the team names itself as its parent. */
  function Attach(f: Forest, id: string, t: Team, same: bool): Forest
    requires t.parent != "" ==> t.parent in f
  {
    if t.parent == "" then f[id := t]
    else if t.parent == id then f[id := if same then t.(children := t.children + [id]) else t]
    else f[id := t][t.parent := f[t.parent].(children := f[t.parent].children + [id])]
  }

  function Register(cfg: Config, f: Forest, id: string, t: Team, same: bool): Result<Forest, HierarchyError> {
    if t.level > cfg.maxLevels then Err(LevelTooHigh)
    else if t.parent != "" && t.parent !in f then Err(ParentNotFound)
    else if t.parent != "" && |f[t.parent].children| >= cfg.maxChildren then Err(ParentFull)
    else Ok(Attach(f, id, t, same))
  }

  /** Takes `child` off its current parent's list. */
  function Detach(f: Forest, child: string): Forest
    requires child in f
  {
    var from := f[child].parent;
    if from != "" && from in f then f[from := f[from].(children := Without(f[from].children, child))] else f
  }

  function Move(f: Forest, parent: string, child: string): Forest
    requires parent in f && child in f
  {
    Adopt(Detach(f, child), parent, child)
  }

  /** Points `child` at `parent` and appends it to that list; the two may be the same team. */
  function Adopt(g: Forest, parent: string, child: string): Forest
    requires parent in g && child in g
  {
    var h := g[child := g[child].(parent := parent, level := g[parent].level + 1)];
    h[parent := h[parent].(children := h[parent].children + [child])]
  }

  function Reparent(cfg: Config, f: Forest, parent: string, child: string): Result<Forest, HierarchyError> {
    if parent !in f then Err(ParentNotFound)
    else if child !in f then Err(ChildNotFound)
    else if |f[parent].children| >= cfg.maxChildren then Err(ParentFull)
    else Ok(Move(f, parent, child))
  }

  // ----- Chains of parent links ----------------------------------------------------------

  /** `p` runs along parent links of `g` from a parentless team downwards. */
  ghost predicate Chain(g: Forest, p: seq<string>) {
    && |p| > 0
    && (forall i :: 0 <= i < |p| ==> p[i] in g)
    && g[p[0]].parent == ""
    && (forall i :: 0 < i < |p| ==> g[p[i]].parent == p[i - 1])
  }

  lemma {:induction false} ChainEnds(g: Forest, p: seq<string>)
    requires "" !in g && Chain(g, p)
    ensures Climb(g, p[|p| - 1], |p|) == ""
  {
    var n := |p| - 1;
    if n > 0 {
      var q := p[..n];
      assert Chain(g, q) && q[|q| - 1] == p[n - 1];
      ChainEnds(g, q);
      assert Up(g, p[n]) == p[n - 1];
    }
  }

  lemma {:induction false} ChainIsPath(g: Forest, p: seq<string>)
    requires IsForest(g) && Chain(g, p)
    ensures Path(g, p[|p| - 1]) == p
  {
    var n := |p| - 1;
    PathUnfold(g, p[n]);
    if n > 0 {
      var q := p[..n];
      assert Chain(g, q) && q[|q| - 1] == p[n - 1];
      ChainIsPath(g, q);
      assert g[p[n]].parent == p[n - 1] && p[n - 1] != "";
      assert p == q + [p[n]];
    } else {
      assert p == [p[0]];
    }
  }

  // ----- Hanging a team under a parent outside its own subtree -----------------------------

  /** `g` has the parents of `f`, except that `c` (new or old) hangs under `p`. */
  ghost predicate Regrafted(f: Forest, g: Forest, c: string, p: string) {
    && g.Keys == f.Keys + {c}
    && (p != "" ==> p in f)
    && g[c].parent == p
    && forall x :: x in f && x != c ==> g[x].parent == f[x].parent
  }

  /** The path of `x` after the regraft: whatever hangs below `c` moves along with it,
      and nothing else moves. */
  ghost function MovedPath(f: Forest, c: string, p: string, x: string): seq<string>
    requires IsForest(f) && (p != "" ==> p in f) && (x in f || x == c)
  {
    var base := if p == "" then [] else Path(f, p);
    if x == c then base + [c]
    else if c in f && c in Path(f, x) && |Path(f, c)| <= |Path(f, x)| then base + Path(f, x)[|Path(f, c)| - 1..]
    else Path(f, x)
  }

  lemma MovedPathIsChain(f: Forest, g: Forest, c: string, p: string, x: string)
    requires IsForest(f) && "" !in g && Regrafted(f, g, c, p) && x in g
    requires p != "" && c in f ==> c !in Path(f, p)
    ensures Chain(g, MovedPath(f, c, p, x))
    ensures var q := MovedPath(f, c, p, x); q[|q| - 1] == x
  {
    var base := if p == "" then [] else Path(f, p);
    if p != "" {
      PathShape(f, p);
      OffPathUnchanged(f, g, c, p, base);
    }
    if x == c {
      HangBelow(g, base, [c], p);
    } else if c in f && c in Path(f, x) {
      SubtreeTailMoves(f, g, c, p, x, base);
    } else {
      PathShape(f, x);
      OffPathUnchanged(f, g, c, p, Path(f, x));
    }
  }

  lemma SubtreeTailMoves(f: Forest, g: Forest, c: string, p: string, x: string, base: seq<string>)
    requires IsForest(f) && Regrafted(f, g, c, p) && x in f && c in f && c in Path(f, x)
    requires base == [] <==> p == ""
    requires base != [] ==> Chain(g, base) && base[|base| - 1] == p
    ensures |Path(f, c)| <= |Path(f, x)|
    ensures Chain(g, base + Path(f, x)[|Path(f, c)| - 1..])
    ensures Path(f, x)[|Path(f, x)| - 1] == x
  {
    PathShape(f, x);
    PathHasNoRepeats(f, x);
    var q := Path(f, x);
    var k :| 0 <= k < |q| && q[k] == c;
    assert |Path(f, c)| == k + 1;
    HangBelow(g, base, q[k..], p);
  }

  lemma OffPathUnchanged(f: Forest, g: Forest, c: string, p: string, q: seq<string>)
    requires Regrafted(f, g, c, p) && Chain(f, q) && c !in q
    ensures Chain(g, q)
  {
    forall i | 0 <= i < |q| ensures q[i] in g && g[q[i]].parent == f[q[i]].parent {
      assert q[i] in q;
    }
  }

  lemma HangBelow(g: Forest, base: seq<string>, tail: seq<string>, p: string)
    requires base == [] <==> p == ""
    requires base != [] ==> Chain(g, base) && base[|base| - 1] == p
    requires |tail| > 0 && (forall i :: 0 <= i < |tail| ==> tail[i] in g)
    requires g[tail[0]].parent == p
    requires forall i :: 0 < i < |tail| ==> g[tail[i]].parent == tail[i - 1]
    ensures Chain(g, base + tail)
  {
  }

  /** A regraft outside the own subtree keeps all walks finite, and moves exactly the subtree. */
  lemma RegraftKeepsForest(f: Forest, g: Forest, c: string, p: string)
    requires IsForest(f) && Linked(g) && Regrafted(f, g, c, p)
    requires p != "" && c in f ==> c !in Path(f, p)
    ensures IsForest(g)
    ensures forall x :: x in g ==> Path(g, x) == MovedPath(f, c, p, x)
  {
    forall x | x in g ensures WalkEnds(g, x) {
      MovedPathIsChain(f, g, c, p, x);
      var q := MovedPath(f, c, p, x);
      ChainEnds(g, q);
      assert Climb(g, x, |q|) == "";
    }
    forall x | x in g ensures Path(g, x) == MovedPath(f, c, p, x) {
      MovedPathIsChain(f, g, c, p, x);
      ChainIsPath(g, MovedPath(f, c, p, x));
    }
  }

  // ----- Hanging a team under its own subtree ------------------------------------------------

  /** The teams between `c` and `p`, when `p` lies in the subtree of `c`. */
  ghost function Between(f: Forest, c: string, p: string): set<string>
    requires IsForest(f) && p in f
  {
    set x | x in f && c in Path(f, x) && x in Path(f, p)
  }

  /** `y` has its parent, and one of its children, in `s`. */
  ghost predicate OnCycle(g: Forest, s: set<string>, y: string) {
    y in g && g[y].parent in s && exists z :: z in s && z in g[y].children
  }

  ghost predicate Cyclic(g: Forest, s: set<string>) {
    forall y {:trigger OnCycle(g, s, y)} :: y in s ==> OnCycle(g, s, y)
  }

  lemma {:induction false} CycleNeverEnds(g: Forest, s: set<string>, x: string, n: nat)
    requires "" !in g && x in s && Cyclic(g, s)
    ensures Climb(g, x, n) != ""
    decreases n
  {
    assert OnCycle(g, s, x);
    if n > 0 {
      assert OnCycle(g, s, g[x].parent);
      CycleNeverEnds(g, s, g[x].parent, n - 1);
    }
  }

  /** The queue of the downward walk after `n` rounds ([] once it has run empty). */
  ghost function QueueAfter(g: Forest, queue: seq<string>, n: nat): seq<string>
    decreases n
  {
    if n == 0 || queue == [] then queue
    else
      var head := queue[0];
      QueueAfter(g, queue[1..] + (if head in g then g[head].children else []), n - 1)
  }

  lemma {:induction false} QueueNeverEmpties(g: Forest, s: set<string>, queue: seq<string>, n: nat)
    requires Cyclic(g, s) && exists y :: y in s && y in queue
    ensures QueueAfter(g, queue, n) != []
    decreases n
  {
    if n > 0 {
      var y :| y in s && y in queue;
      var head := queue[0];
      var next := queue[1..] + (if head in g then g[head].children else []);
      if y == head {
        assert OnCycle(g, s, y);
        var z :| z in s && z in g[y].children;
        assert z in next;
      } else {
        assert y in queue[1..] && y in next;
      }
      QueueNeverEmpties(g, s, next, n - 1);
    }
  }

  /** In the new links every team between `c` and `p` has its parent, and a child, between them. */
  lemma BetweenIsCycle(f: Forest, g: Forest, c: string, p: string, y: string)
    requires IsForest(f) && Linked(g) && Regrafted(f, g, c, p)
    requires c in f && p in f && c in Path(f, p) && y in Between(f, c, p)
    ensures OnCycle(g, Between(f, c, p), y)
  {
    PathShape(f, p);
    if y != c {
      PathUnfold(f, y);
      var up := f[y].parent;
      PathShape(f, up);
      OnPathTransitive(f, up, y, p);
    }
    if y == p {
      PathShape(f, c);
      assert LinkOk(g, c);
      assert c in Between(f, c, p) && c in g[y].children;
    } else {
      NextOnPath(f, y, p);
      var z :| z in f && z in Path(f, p) && f[z].parent == y;
      PathUnfold(f, z);
      assert c in Path(f, z);
      NotOnOwnParentsPath(f, z);
      assert z != c;
      assert LinkOk(g, z);
      assert z in Between(f, c, p) && z in g[y].children;
    }
  }

  lemma NotOnOwnParentsPath(f: Forest, z: string)
    requires IsForest(f) && z in f && f[z].parent != "" && f[z].parent in f
    ensures z !in Path(f, f[z].parent)
  {
    PathUnfold(f, z);
    PathHasNoRepeats(f, z);
    var q := Path(f, f[z].parent);
    forall i | 0 <= i < |q| ensures q[i] != z {
      assert Path(f, z)[i] == q[i] && Path(f, z)[|q|] == z;
    }
  }

  lemma BetweenCyclic(f: Forest, g: Forest, c: string, p: string)
    requires IsForest(f) && Linked(g) && Regrafted(f, g, c, p)
    requires c in f && p in f && c in Path(f, p)
    ensures Cyclic(g, Between(f, c, p)) && c in Between(f, c, p)
  {
    var s := Between(f, c, p);
    forall y | y in s ensures OnCycle(g, s, y) {
      BetweenIsCycle(f, g, c, p, y);
    }
    PathShape(f, c);
  }

  lemma CycleRunsForever(g: Forest, s: set<string>, c: string)
    requires "" !in g && Cyclic(g, s) && c in s
    ensures c in g
    ensures forall n: nat :: Climb(g, c, n) != ""
    ensures forall n: nat :: QueueAfter(g, g[c].children, n) != []
  {
    assert OnCycle(g, s, c);
    forall n: nat ensures Climb(g, c, n) != "" {
      CycleNeverEnds(g, s, c, n);
    }
    forall n: nat ensures QueueAfter(g, g[c].children, n) != [] {
      QueueNeverEmpties(g, s, g[c].children, n);
    }
  }

  /** A regraft under the own subtree closes a cycle: neither the upward walk from `c`
      nor the downward walk below it ever stops. */
  lemma RegraftBreaksForest(f: Forest, g: Forest, c: string, p: string)
    requires IsForest(f) && Linked(g) && Regrafted(f, g, c, p)
    requires c in f && p in f && c in Path(f, p)
    ensures forall n: nat :: Climb(g, c, n) != ""
    ensures forall n: nat :: QueueAfter(g, g[c].children, n) != []
    ensures !WalkEnds(g, c)
  {
    BetweenCyclic(f, g, c, p);
    CycleRunsForever(g, Between(f, c, p), c);
  }

  // ----- Reparenting ------------------------------------------------------------------------

  /** The whole new state: the child leaves every list it was on and joins its new parent's,
      its parent and level change, and nothing else does. */
  lemma MoveEffect(f: Forest, parent: string, child: string)
    requires Linked(f) && parent in f && child in f
    ensures var g := Move(f, parent, child);
      && g.Keys == f.Keys
      && g[child].parent == parent
      && (forall x :: x in f && x != child ==> g[x].parent == f[x].parent)
      && (forall x :: x in f ==>
            g[x].children == Without(f[x].children, child) + (if x == parent then [child] else []))
      && g[child].level == f[parent].level + 1
      && (forall x :: x in f && x != child ==> g[x].level == f[x].level)
  {
    DetachEffect(f, child);
    AdoptEffect(Detach(f, child), parent, child);
  }

  lemma AdoptEffect(g: Forest, parent: string, child: string)
    requires parent in g && child in g
    ensures var m := Adopt(g, parent, child);
      && m.Keys == g.Keys
      && (forall x :: x in g ==>
            m[x] == Team(if x == child then parent else g[x].parent,
                         g[x].children + (if x == parent then [child] else []),
                         if x == child then g[parent].level + 1 else g[x].level))
  {
    var m := Adopt(g, parent, child);
    forall x | x in g ensures m[x].children == g[x].children + (if x == parent then [child] else []) {
    }
  }

  lemma DetachEffect(f: Forest, child: string)
    requires Linked(f) && child in f
    ensures var g := Detach(f, child);
      && g.Keys == f.Keys
      && (forall x :: x in f ==> g[x] == f[x].(children := Without(f[x].children, child)))
  {
    assert LinkOk(f, child);
    var g := Detach(f, child);
    forall x | x in f ensures g[x] == f[x].(children := Without(f[x].children, child)) {
      if x != f[child].parent {
        assert LinkOk(f, x);
        WithoutAbsent(f[x].children, child);
      }
    }
  }

  /** Reparenting keeps both ends of every link in agreement, legal or not. */
  lemma MoveKeepsLinks(f: Forest, parent: string, child: string)
    requires Linked(f) && parent in f && child in f
    ensures Linked(Move(f, parent, child))
  {
    var g := Move(f, parent, child);
    MoveEffect(f, parent, child);
    forall x | x in g ensures LinkOk(g, x) {
      assert LinkOk(f, x);
      NoDuplicatesConcat(Without(f[x].children, child), if x == parent then [child] else []);
    }
  }

  /** Reparenting keeps the forest if and only if the child is not on the path of its new
      parent, and then exactly the child's subtree moves. */
  lemma ReparentKeepsForest(cfg: Config, f: Forest, parent: string, child: string)
    requires IsForest(f) && Reparent(cfg, f, parent, child).Ok?
    ensures var g := Reparent(cfg, f, parent, child).value;
      && Linked(g)
      && (IsForest(g) <==> child !in Path(f, parent))
      && (IsForest(g) ==> forall x :: x in g ==> Path(g, x) == MovedPath(f, child, parent, x))
      && (!IsForest(g) ==> forall n: nat :: Climb(g, child, n) != "")
      && (!IsForest(g) ==> forall n: nat :: QueueAfter(g, g[child].children, n) != [])
  {
    var g := Move(f, parent, child);
    MoveEffect(f, parent, child);
    MoveKeepsLinks(f, parent, child);
    assert parent != "";
    assert Regrafted(f, g, child, parent);
    if child in Path(f, parent) {
      RegraftBreaksForest(f, g, child, parent);
    } else {
      RegraftKeepsForest(f, g, child, parent);
    }
  }

  lemma ReparentKeepsBound(cfg: Config, f: Forest, parent: string, child: string)
    requires Linked(f) && Bounded(f, cfg.maxChildren) && Reparent(cfg, f, parent, child).Ok?
    ensures Bounded(Reparent(cfg, f, parent, child).value, cfg.maxChildren)
  {
    MoveEffect(f, parent, child);
  }

  // ----- Levels -------------------------------------------------------------------------------

  ghost predicate LevelsAgree(f: Forest) {
    forall x :: x in f && f[x].parent != "" && f[x].parent in f ==> f[x].level == f[f[x].parent].level + 1
  }

  ghost predicate LevelsWithin(f: Forest, maxLevels: int) {
    forall x :: x in f ==> f[x].level <= maxLevels
  }

  /** The code recomputes the level of the moved team only, and does not compare it with the
      maximum.  Levels therefore survive a legal move exactly when a leaf moves or the level
      stays the same, and the maximum exactly when there is room below the new parent. */
  lemma ReparentLevels(cfg: Config, f: Forest, parent: string, child: string)
    requires IsForest(f) && Reparent(cfg, f, parent, child).Ok? && child !in Path(f, parent)
    requires LevelsAgree(f) && LevelsWithin(f, cfg.maxLevels)
    ensures var g := Reparent(cfg, f, parent, child).value;
      && (LevelsAgree(g) <==> f[child].children == [] || f[parent].level + 1 == f[child].level)
      && (LevelsWithin(g, cfg.maxLevels) <==> f[parent].level < cfg.maxLevels)
  {
    MoveEffect(f, parent, child);
    PathShape(f, parent);
    ChildrenAreOthers(f, child);
    hide Move, IsForest, Linked, Path;
    LevelsAfterMove(f, Move(f, parent, child), parent, child);
  }

  lemma ChildrenAreOthers(f: Forest, child: string)
    requires IsForest(f) && child in f
    ensures forall x :: x in f[child].children ==> x in f && x != child && f[x].parent == child
    ensures forall x :: x in f && f[x].parent == child ==> x in f[child].children
    ensures f[child].parent != child
  {
    assert LinkOk(f, child);
    PathUnfold(f, child);
    if f[child].parent != "" { NotOnOwnParentsPath(f, child); PathShape(f, f[child].parent); }
    forall x | x in f && f[x].parent == child ensures x in f[child].children {
      assert LinkOk(f, x);
    }
  }

  lemma LevelsAfterMove(f: Forest, g: Forest, parent: string, child: string)
    requires "" !in f && parent in f && child in f && child != parent && g.Keys == f.Keys
    requires LevelsAgree(f)
    requires forall x :: x in f[child].children ==> x in f && x != child && f[x].parent == child
    requires forall x :: x in f && f[x].parent == child ==> x in f[child].children
    requires g[child].parent == parent && g[child].level == f[parent].level + 1
    requires forall x :: x in f && x != child ==> g[x].parent == f[x].parent && g[x].level == f[x].level
    ensures LevelsAgree(g) <==> f[child].children == [] || f[parent].level + 1 == f[child].level
    ensures forall max :: LevelsWithin(f, max) ==> (LevelsWithin(g, max) <==> f[parent].level < max)
  {
    if f[child].children != [] && f[parent].level + 1 != f[child].level {
      var x := f[child].children[0];
      assert x in f[child].children;
      assert g[x].level != g[child].level + 1;
    }
  }

  /** Where levels agree, a team lies as many levels below another as it lies deeper in the tree. */
  lemma {:induction false} LevelFollowsDepth(f: Forest, t: string, d: string)
    requires IsForest(f) && LevelsAgree(f) && t in f && d in f && t in Path(f, d)
    ensures f[d].level - f[t].level == |Path(f, d)| - |Path(f, t)|
    decreases |Path(f, d)|
  {
    PathUnfold(f, d);
    if d != t {
      LevelFollowsDepth(f, t, f[d].parent);
    }
  }

  /** Agreeing levels within the maximum bound the height below a team, and with it the number
      of its descendants. */
  lemma LevelsBoundDescendants(cfg: Config, f: Forest, t: string)
    requires IsForest(f) && Bounded(f, cfg.maxChildren) && t in f
    requires LevelsAgree(f) && LevelsWithin(f, cfg.maxLevels)
    ensures |Descendants(f, t)| <= GeometricSum(cfg.maxChildren, cfg.maxLevels - f[t].level)
  {
    var h := cfg.maxLevels - f[t].level;
    forall d | d in ProperDescendants(f, t) ensures |Path(f, d)| <= |Path(f, t)| + h {
      LevelFollowsDepth(f, t, d);
    }
    DescendantBound(f, t, cfg.maxChildren, h);
  }

  // ----- Registration -------------------------------------------------------------------------

  /** The whole new state: the team stands under its id as it was given, its parent's list grows by the
      id, and nothing else changes.  A team that is its own parent grows only if it is the object
      already stored: otherwise the list that grows is that of the object it replaces. */
  lemma AttachEffect(f: Forest, id: string, t: Team, same: bool)
    requires t.parent != "" ==> t.parent in f
    ensures var g := Attach(f, id, t, same);
      && g.Keys == f.Keys + {id}
      && g[id].parent == t.parent && g[id].level == t.level
      && g[id].children == t.children + (if t.parent == id && id != "" && same then [id] else [])
      && (forall x :: x in f && x != id ==> g[x].parent == f[x].parent && g[x].level == f[x].level)
      && (forall x :: x in f && x != id ==>
            g[x].children == f[x].children + (if x == t.parent && x != "" then [id] else []))
  {
  }

  /** What keeps the invariant when `t` is registered under `id`: a fresh id with no children
      yet, or the replacement of a root by a team with the same children and a parent outside
      the root's subtree. */
  ghost predicate CanRegister(f: Forest, id: string, t: Team)
    requires IsForest(f)
  {
    && id != ""
    && if id !in f then t.children == []
       else
         && f[id].parent == ""
         && NoDuplicates(t.children)
         && (forall c :: c in t.children <==> c in f[id].children)
         && (t.parent in f ==> id !in Path(f, t.parent))
  }

  lemma AttachKeepsForest(f: Forest, id: string, t: Team, same: bool)
    requires IsForest(f) && (t.parent != "" ==> t.parent in f) && CanRegister(f, id, t)
    ensures var g := Attach(f, id, t, same);
      && IsForest(g)
      && forall x :: x in g ==> Path(g, x) == MovedPath(f, id, t.parent, x)
  {
    var g := Attach(f, id, t, same);
    if t.parent in f { PathShape(f, t.parent); }
    assert t.parent != id;
    AttachKeepsLinks(f, id, t, same);
    assert Regrafted(f, g, id, t.parent);
    hide Attach, Regrafted, CanRegister, IsForest, Path, MovedPath;
    RegraftKeepsForest(f, g, id, t.parent);
  }

  lemma AttachKeepsLinks(f: Forest, id: string, t: Team, same: bool)
    requires IsForest(f) && (t.parent != "" ==> t.parent in f) && t.parent != id && CanRegister(f, id, t)
    ensures Linked(Attach(f, id, t, same))
  {
    hide Path;
    var g := Attach(f, id, t, same);
    forall x | x in g ensures LinkOk(g, x) {
      if x in f { assert LinkOk(f, x); }
      if id in f { assert LinkOk(f, id); }
    }
  }

  lemma AttachNeedsCanRegister(f: Forest, id: string, t: Team, same: bool)
    requires IsForest(f) && (t.parent != "" ==> t.parent in f)
    requires IsForest(Attach(f, id, t, same))
    ensures CanRegister(f, id, t)
  {
    var g := Attach(f, id, t, same);
    assert Regrafted(f, g, id, t.parent);
    assert LinkOk(g, id) && WalkEnds(g, id);
    if id in f {
      if t.parent in f && id in Path(f, t.parent) {
        RegraftBreaksForest(f, g, id, t.parent);
        assert false;
      }
      if t.parent in f { PathShape(f, t.parent); }
      assert t.parent != id;
      ReplacedIsRoot(f, id, t, same);
      forall c | c in f ensures c in t.children <==> c in f[id].children {
        assert LinkOk(g, c) && LinkOk(f, c) && LinkOk(f, id);
        PathUnfold(f, id);
      }
      forall c ensures c in t.children <==> c in f[id].children {
        assert LinkOk(f, id);
      }
    } else {
      forall c | c in g ensures g[c].parent != id {
        if c in f { assert LinkOk(f, c); }
      }
      forall c ensures c !in t.children {
        assert g[id].children == t.children;
      }
      SameElementsSameSize(t.children, []);
    }
  }

  lemma ReplacedIsRoot(f: Forest, id: string, t: Team, same: bool)
    requires IsForest(f) && id in f && (t.parent != "" ==> t.parent in f) && t.parent != id
    requires Linked(Attach(f, id, t, same))
    ensures f[id].parent == ""
  {
    var g := Attach(f, id, t, same);
    var q := f[id].parent;
    assert LinkOk(f, id) && LinkOk(g, id);
    if q != "" {
      assert LinkOk(g, q);
      PathUnfold(f, id);
      PathHasNoRepeats(f, id);
      PathShape(f, q);
      var p := Path(f, id);
      assert p[|p| - 2] == q && p[|p| - 1] == id;
      assert q != id;
      AppendedIsNew(f[q].children, id);
      assert false;
    }
  }

  lemma AppendedIsNew(s: seq<string>, x: string)
    ensures NoDuplicates(s + [x]) ==> x !in s
  {
    forall i | 0 <= i < |s| ensures NoDuplicates(s + [x]) ==> s[i] != x {
      assert (s + [x])[i] == s[i] && (s + [x])[|s|] == x;
    }
  }

  /** Registration keeps the forest if and only if `CanRegister`, and the child limit with it. */
  lemma RegisterKeepsForest(cfg: Config, f: Forest, id: string, t: Team, same: bool)
    requires IsForest(f) && Register(cfg, f, id, t, same).Ok?
    ensures var g := Register(cfg, f, id, t, same).value;
      && (IsForest(g) <==> CanRegister(f, id, t))
      && (IsForest(g) ==> forall x :: x in g ==> Path(g, x) == MovedPath(f, id, t.parent, x))
  {
    if CanRegister(f, id, t) {
      AttachKeepsForest(f, id, t, same);
    }
    if IsForest(Attach(f, id, t, same)) {
      AttachNeedsCanRegister(f, id, t, same);
    }
  }

  lemma RegisterKeepsBound(cfg: Config, f: Forest, id: string, t: Team, same: bool)
    requires IsForest(f) && Bounded(f, cfg.maxChildren) && Register(cfg, f, id, t, same).Ok?
    requires CanRegister(f, id, t)
    ensures Bounded(Register(cfg, f, id, t, same).value, cfg.maxChildren)
  {
    if id in f {
      assert LinkOk(f, id);
      SameElementsSameSize(t.children, f[id].children);
      if t.parent in f { PathShape(f, t.parent); }
    }
  }

  lemma SameElementsSameSize(a: seq<string>, b: seq<string>)
    requires NoDuplicates(a) && NoDuplicates(b) && forall x :: x in a <==> x in b
    ensures |a| == |b|
  {
    var s := set x | x in a;
    NoDuplicatesSize(a, s);
    NoDuplicatesSize(b, s);
    SetOfSize(a);
    SetOfSize(b);
    assert s == set x | x in b;
  }

  lemma {:induction false} SetOfSize(a: seq<string>)
    ensures |set x | x in a| <= |a|
  {
    if a != [] {
      SetOfSize(a[1..]);
      assert (set x | x in a) == {a[0]} + set x | x in a[1..];
    } else {
      assert (set x | x in a) == {};
    }
  }

  // ----- Whole runs ---------------------------------------------------------------------------

  datatype Op = OpRegister(id: string, team: Team, same: bool) | OpReparent(parent: string, child: string)

  function Outcome(cfg: Config, f: Forest, op: Op): Result<Forest, HierarchyError> {
    match op
    case OpRegister(id, t, same) => Register(cfg, f, id, t, same)
    case OpReparent(p, c) => Reparent(cfg, f, p, c)
  }

  /** An operation that throws leaves the hierarchy as it was. */
  function After(cfg: Config, f: Forest, ops: seq<Op>): Forest {
    if ops == [] then f
    else
      var g := After(cfg, f, ops[..|ops| - 1]);
      match Outcome(cfg, g, ops[|ops| - 1])
      case Ok(h) => h
      case Err(_) => g
  }

  ghost predicate Legal(cfg: Config, f: Forest, op: Op)
    requires IsForest(f)
  {
    Outcome(cfg, f, op).Err? ||
    match op
    case OpRegister(id, t, _) => CanRegister(f, id, t)
    case OpReparent(p, c) => p in f && c !in Path(f, p)
  }

  ghost predicate Good(cfg: Config, f: Forest) {
    IsForest(f) && Bounded(f, cfg.maxChildren)
  }

  lemma StepIsExact(cfg: Config, f: Forest, op: Op)
    requires Good(cfg, f)
    ensures Legal(cfg, f, op) <==> Good(cfg, After(cfg, f, [op]))
  {
    assert [op][..0] == [];
    assert After(cfg, f, [op][..0]) == f;
    if Outcome(cfg, f, op).Ok? {
      match op
      case OpRegister(id, t, same) =>
        RegisterKeepsForest(cfg, f, id, t, same);
        if CanRegister(f, id, t) { RegisterKeepsBound(cfg, f, id, t, same); }
      case OpReparent(p, c) =>
        ReparentKeepsForest(cfg, f, p, c);
        ReparentKeepsBound(cfg, f, p, c);
    }
  }

  lemma AfterOneMore(cfg: Config, f: Forest, ops: seq<Op>)
    requires ops != []
    ensures After(cfg, f, ops) == After(cfg, After(cfg, f, ops[..|ops| - 1]), [ops[|ops| - 1]])
  {
    var op := ops[|ops| - 1];
    var g := After(cfg, f, ops[..|ops| - 1]);
    assert [op][..0] == [];
    assert After(cfg, g, [op][..0]) == g;
  }

  /** Every state of the run of `ops` from the empty hierarchy is a forest within the limit. */
  ghost predicate AllGood(cfg: Config, ops: seq<Op>) {
    forall k :: 0 <= k <= |ops| ==> Good(cfg, After(cfg, map[], ops[..k]))
  }

  /** Every operation that did not throw, and was made on a forest, was legal there. */
  ghost predicate AllLegal(cfg: Config, ops: seq<Op>) {
    forall k :: 0 <= k < |ops| ==> LegalAt(cfg, After(cfg, map[], ops[..k]), ops[k])
  }

  /** Legality speaks of the operation alone: nothing is asked where the state is no forest. */
  ghost predicate LegalAt(cfg: Config, f: Forest, op: Op) {
    IsForest(f) ==> Legal(cfg, f, op)
  }

  lemma AllGoodSplit(cfg: Config, ops: seq<Op>)
    requires ops != []
    ensures AllGood(cfg, ops) <==> AllGood(cfg, ops[..|ops| - 1]) && Good(cfg, After(cfg, map[], ops))
  {
    hide Good, After;
    var n := |ops| - 1;
    var before := ops[..n];
    assert forall k :: 0 <= k <= n ==> before[..k] == ops[..k];
    assert ops[..n + 1] == ops;
  }

  lemma AllLegalSplit(cfg: Config, ops: seq<Op>)
    requires ops != []
    ensures AllLegal(cfg, ops) <==>
              AllLegal(cfg, ops[..|ops| - 1]) && LegalAt(cfg, After(cfg, map[], ops[..|ops| - 1]), ops[|ops| - 1])
  {
    hide LegalAt, After;
    var n := |ops| - 1;
    var before := ops[..n];
    assert forall k :: 0 <= k < n ==> before[..k] == ops[..k] && before[k] == ops[k];
  }

  /** Along any run from the empty hierarchy, every state is a forest within the child limit
      if and only if every operation that did not throw was legal where it was made.  That the
      states are forests is not part of the condition. */
  lemma {:induction false} EveryReachableStateIsForest(cfg: Config, ops: seq<Op>)
    ensures AllGood(cfg, ops) <==> AllLegal(cfg, ops)
  {
    if ops == [] {
      assert After(cfg, map[], ops[..0]) == map[];
      assert Good(cfg, map[]);
    } else {
      var n := |ops| - 1;
      EveryReachableStateIsForest(cfg, ops[..n]);
      AllGoodSplit(cfg, ops);
      AllLegalSplit(cfg, ops);
      AfterOneMore(cfg, map[], ops);
      var f := After(cfg, map[], ops[..n]);
      assert ops[..n][..n] == ops[..n];
      assert AllGood(cfg, ops[..n]) ==> Good(cfg, f);
      if Good(cfg, f) {
        StepIsExact(cfg, f, ops[n]);
      }
    }
  }

  // ----- States that are no forests ------------------------------------------------------------

  const LIMITS := Config(3, 5)

  lemma AfterNext(cfg: Config, f: Forest, ops: seq<Op>, op: Op)
    ensures var g := After(cfg, f, ops);
      After(cfg, f, ops + [op]) == if Outcome(cfg, g, op).Ok? then Outcome(cfg, g, op).value else g
  {
    assert (ops + [op])[..|ops|] == ops;
  }

  function NewTeam(id: string, parent: string, level: int): Op {
    OpRegister(id, Team(parent, [], level), false)
  }

  /** Two operations: register a team, then reparent it under itself.  Neither throws, and no
      walk from the team ends. */
  lemma SelfParentRunsForever()
    ensures var g := After(LIMITS, map[], [NewTeam("a", "", 0)] + [OpReparent("a", "a")]);
      && g == map["a" := Team("a", ["a"], 1)]
      && (forall n: nat :: Climb(g, "a", n) != "")
      && (forall n: nat :: QueueAfter(g, g["a"].children, n) != [])
  {
    var one: Forest := map["a" := Team("", [], 0)];
    var g: Forest := map["a" := Team("a", ["a"], 1)];
    AfterNext(LIMITS, map[], [], NewTeam("a", "", 0));
    assert [] + [NewTeam("a", "", 0)] == [NewTeam("a", "", 0)];
    AfterNext(LIMITS, map[], [NewTeam("a", "", 0)], OpReparent("a", "a"));
    assert Detach(one, "a") == one;
    assert [] + ["a"] == ["a"];
    assert Move(one, "a", "a") == g;
    assert OnCycle(g, {"a"}, "a");
    CycleRunsForever(g, {"a"}, "a");
  }

  /** A root with one child. */
  lemma RootAndChild(cfg: Config)
    requires cfg.maxLevels >= 1 && cfg.maxChildren >= 1
    ensures After(cfg, map[], [NewTeam("r", "", 0)] + [NewTeam("a", "r", 1)])
         == map["r" := Team("", ["a"], 0), "a" := Team("r", [], 1)]
  {
    AfterNext(cfg, map[], [], NewTeam("r", "", 0));
    assert [] + [NewTeam("r", "", 0)] == [NewTeam("r", "", 0)];
    AfterNext(cfg, map[], [NewTeam("r", "", 0)], NewTeam("a", "r", 1));
    assert [] + ["a"] == ["a"];
  }

  /** Registering a team again under its parent lists it twice there. */
  lemma ReregisteringDuplicates()
    ensures var ops := [NewTeam("r", "", 0)] + [NewTeam("a", "r", 1)] + [NewTeam("a", "r", 1)];
      var g := After(LIMITS, map[], ops);
      g == map["r" := Team("", ["a", "a"], 0), "a" := Team("r", [], 1)] && !IsForest(g)
  {
    var two := [NewTeam("r", "", 0)] + [NewTeam("a", "r", 1)];
    RootAndChild(LIMITS);
    AfterNext(LIMITS, map[], two, NewTeam("a", "r", 1));
    hide After;
    var g := After(LIMITS, map[], two + [NewTeam("a", "r", 1)]);
    assert ["a"] + ["a"] == ["a", "a"];
    assert g["r"].children[0] == g["r"].children[1];
    assert !LinkOk(g, "r");
  }

  const THREE_TEAMS := [NewTeam("r", "", 0)] + [NewTeam("a", "r", 1)] + [NewTeam("b", "", 0)]

  /** A root r with child a, and a second root b. */
  lemma TwoRoots(cfg: Config)
    requires cfg.maxLevels >= 1 && cfg.maxChildren >= 1
    ensures After(cfg, map[], THREE_TEAMS)
         == map["r" := Team("", ["a"], 0), "a" := Team("r", [], 1), "b" := Team("", [], 0)]
  {
    RootAndChild(cfg);
    AfterNext(cfg, map[], [NewTeam("r", "", 0)] + [NewTeam("a", "r", 1)], NewTeam("b", "", 0));
  }

  /** Reparenting r under b leaves the level of a as it was, so that it no longer agrees. */
  lemma LevelGoesStale()
    ensures var g := After(LIMITS, map[], THREE_TEAMS + [OpReparent("b", "r")]);
      && g == map["r" := Team("b", ["a"], 1), "a" := Team("r", [], 1), "b" := Team("", ["r"], 0)]
      && !LevelsAgree(g)
  {
    TwoRoots(LIMITS);
    AfterNext(LIMITS, map[], THREE_TEAMS, OpReparent("b", "r"));
    hide After;
    var g := After(LIMITS, map[], THREE_TEAMS + [OpReparent("b", "r")]);
    assert [] + ["r"] == ["r"];
    assert g["a"].level != g[g["a"].parent].level + 1;
  }

  /** With one level allowed, reparenting b under a puts it on level 2. */
  lemma LevelExceedsMaximum()
    ensures var cfg := Config(1, 5);
      var g := After(cfg, map[], THREE_TEAMS + [OpReparent("a", "b")]);
      && g == map["r" := Team("", ["a"], 0), "a" := Team("r", ["b"], 1), "b" := Team("a", [], 2)]
      && !LevelsWithin(g, cfg.maxLevels)
  {
    var cfg := Config(1, 5);
    TwoRoots(cfg);
    AfterNext(cfg, map[], THREE_TEAMS, OpReparent("a", "b"));
    hide After;
    var g := After(cfg, map[], THREE_TEAMS + [OpReparent("a", "b")]);
    assert [] + ["b"] == ["b"];
    assert g["b"].level == 2;
  }
}
