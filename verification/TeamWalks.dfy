/** The two walks on any hierarchy, forest or not: when they stop, and what they return then.  On a
    forest both stop, with the path and the descendants of TeamForest. */
module TeamWalks {
  import opened Sequences
  import opened TeamForest
  import opened TeamMoves

  // ----- Upwards -------------------------------------------------------------------------------

  /** The upward walk from `id` visits at most `n` teams. */
  ghost predicate StopsIn(f: Forest, id: string, n: nat)
    requires id in f
    decreases n
  {
    n > 0 && (Up(f, id) == "" || StopsIn(f, Up(f, id), n - 1))
  }

  ghost predicate WalkStops(f: Forest, id: string)
    requires id in f
  {
    exists n: nat :: StopsIn(f, id, n)
  }

  ghost function WalkBack(f: Forest, id: string, n: nat): seq<string>
    requires id in f && StopsIn(f, id, n)
    decreases n
  {
    if Up(f, id) == "" then [id] else WalkBack(f, Up(f, id), n - 1) + [id]
  }

  lemma {:induction false} WalkBackStable(f: Forest, id: string, n: nat, m: nat)
    requires id in f && StopsIn(f, id, n) && StopsIn(f, id, m)
    ensures WalkBack(f, id, n) == WalkBack(f, id, m)
    decreases n
  {
    if Up(f, id) != "" {
      WalkBackStable(f, Up(f, id), n - 1, m - 1);
    }
  }

  /** The teams the upward walk visits, the last one first. */
  ghost function RootPath(f: Forest, id: string): seq<string>
    requires id in f && WalkStops(f, id)
  {
    var n: nat :| StopsIn(f, id, n);
    WalkBack(f, id, n)
  }

  lemma RootPathUnfold(f: Forest, id: string)
    requires id in f && WalkStops(f, id)
    ensures Up(f, id) == "" ==> RootPath(f, id) == [id]
    ensures Up(f, id) != "" ==> WalkStops(f, Up(f, id)) && RootPath(f, id) == RootPath(f, Up(f, id)) + [id]
  {
    var n: nat :| StopsIn(f, id, n) && RootPath(f, id) == WalkBack(f, id, n);
    if Up(f, id) != "" {
      assert StopsIn(f, Up(f, id), n - 1);
      var m: nat :| StopsIn(f, Up(f, id), m) && RootPath(f, Up(f, id)) == WalkBack(f, Up(f, id), m);
      WalkBackStable(f, Up(f, id), n - 1, m);
      assert WalkBack(f, id, n) == WalkBack(f, Up(f, id), n - 1) + [id];
    }
  }

  /** The walk stops exactly when climbing ends. */
  lemma {:induction false} StopsWhenClimbEnds(f: Forest, id: string, n: nat)
    requires "" !in f && id in f
    ensures StopsIn(f, id, n) <==> Climb(f, id, n) == ""
    decreases n
  {
    if n > 0 {
      assert Climb(f, id, n) == Climb(f, Up(f, id), n - 1);
      if Up(f, id) != "" {
        StopsWhenClimbEnds(f, Up(f, id), n - 1);
      } else {
        assert Climb(f, "", n - 1) == "";
      }
    }
  }

  /** On a forest the walk stops at the root, with the path. */
  lemma {:induction false} ForestWalkStops(f: Forest, id: string)
    requires IsForest(f) && id in f
    ensures WalkStops(f, id) && RootPath(f, id) == Path(f, id)
    decreases |Path(f, id)|
  {
    assert WalkEnds(f, id);
    var n: nat :| Climb(f, id, n) == "";
    StopsWhenClimbEnds(f, id, n);
    RootPathUnfold(f, id);
    PathUnfold(f, id);
    if Up(f, id) != "" {
      ForestWalkStops(f, Up(f, id));
    }
  }

  // ----- Downwards, on any hierarchy -------------------------------------------------------------

  ghost predicate QueueEmpties(f: Forest, queue: seq<string>) {
    exists n: nat :: QueueAfter(f, queue, n) == []
  }

  /** The queue after its head has been taken. */
  function QueueNext(f: Forest, queue: seq<string>): seq<string>
    requires queue != []
  {
    queue[1..] + (if queue[0] in f then f[queue[0]].children else [])
  }

  /** The known teams among the first `n` heads. */
  ghost function Delivered(f: Forest, queue: seq<string>, n: nat): seq<string>
    decreases n
  {
    if n == 0 || queue == [] then []
    else (if queue[0] in f then [queue[0]] else []) + Delivered(f, QueueNext(f, queue), n - 1)
  }

  lemma {:induction false} DeliveredStable(f: Forest, queue: seq<string>, n: nat, m: nat)
    requires QueueAfter(f, queue, n) == [] && QueueAfter(f, queue, m) == []
    ensures Delivered(f, queue, n) == Delivered(f, queue, m)
    decreases n
  {
    if n > 0 && m > 0 && queue != [] {
      DeliveredStable(f, QueueNext(f, queue), n - 1, m - 1);
    }
  }

  /** What the queue walk delivers from `queue`. */
  ghost function Walked(f: Forest, queue: seq<string>): seq<string>
    requires QueueEmpties(f, queue)
  {
    var n: nat :| QueueAfter(f, queue, n) == [];
    Delivered(f, queue, n)
  }

  lemma WalkedIn(f: Forest, queue: seq<string>, n: nat)
    requires QueueAfter(f, queue, n) == []
    ensures QueueEmpties(f, queue) && Walked(f, queue) == Delivered(f, queue, n)
  {
    var m: nat :| QueueAfter(f, queue, m) == [] && Walked(f, queue) == Delivered(f, queue, m);
    DeliveredStable(f, queue, n, m);
  }

  /** On a forest the queue runs empty, and what it has delivered is the level order. */
  lemma ForestQueueEmpties(f: Forest, t: string)
    requires IsForest(f) && t in f
    ensures QueueEmpties(f, f[t].children) && Walked(f, f[t].children) == Descendants(f, t)
  {
    var whole := Descendants(f, t);
    var at := StartWalk(f, t);
    RestDelivered(f, whole, at, [], f[t].children);
    assert [] + Delivered(f, f[t].children, |whole|) == Delivered(f, f[t].children, |whole|);
    WalkedIn(f, f[t].children, |whole|);
  }

  lemma {:induction false} RestDelivered(f: Forest, whole: seq<string>, at: Position, ids: seq<string>,
                                         queue: seq<string>)
    requires WalkedTo(f, whole, at, ids, queue)
    ensures |ids| <= |whole|
    ensures QueueAfter(f, queue, |whole| - |ids|) == []
    ensures ids + Delivered(f, queue, |whole| - |ids|) == whole
    decreases |whole| - |ids|
  {
    hide WalkedTo;
    if queue == [] {
      WalkDone(f, whole, at, ids);
    } else {
      var next := WalkOn(f, whole, at, ids, queue);
      assert QueueNext(f, queue) == queue[1..] + f[queue[0]].children;
      RestDelivered(f, whole, next, ids + [queue[0]], QueueNext(f, queue));
      var n := |whole| - |ids|;
      assert ids + ([queue[0]] + Delivered(f, QueueNext(f, queue), n - 1))
          == (ids + [queue[0]]) + Delivered(f, QueueNext(f, queue), n - 1);
    }
  }

  // ----- The queue walk delivers the level order ---------------------------------------------

  /** How far the walk has come: `done` holds the finished levels, `level` the current one,
      of which `k` teams have been taken. */
  datatype Position = Position(done: seq<string>, level: seq<string>, depth: nat, k: nat)

  ghost predicate WalkedTo(f: Forest, whole: seq<string>, at: Position, ids: seq<string>, queue: seq<string>) {
    && IsForest(f) && AtDepth(f, at.level, at.depth) && at.k <= |at.level|
    && (forall x :: x in at.level[..at.k] ==> x in f)
    && whole == at.done + LevelOrder(f, at.level, at.depth)
    && ids == at.done + at.level[..at.k]
    && queue == at.level[at.k..] + ChildrenOf(f, at.level[..at.k])
  }

  lemma StartWalk(f: Forest, t: string) returns (at: Position)
    requires IsForest(f) && t in f
    ensures WalkedTo(f, Descendants(f, t), at, [], f[t].children)
  {
    ChildrenStartLevel(f, t);
    at := Position([], f[t].children, |Path(f, t)| + 1, 0);
    assert at.level[..0] == [] && at.level[0..] == at.level;
  }

  /** Taking the head of the queue and appending its children keeps the position exact. */
  lemma WalkOn(f: Forest, whole: seq<string>, at: Position, ids: seq<string>, queue: seq<string>)
    returns (next: Position)
    requires WalkedTo(f, whole, at, ids, queue) && queue != []
    ensures queue[0] in f && |ids| < |whole|
    ensures WalkedTo(f, whole, next, ids + [queue[0]], queue[1..] + f[queue[0]].children)
  {
    next := at;
    if at.k == |at.level| {
      assert at.level[..at.k] == at.level && at.level[at.k..] == [];
      next := Position(at.done + at.level, ChildrenOf(f, at.level), at.depth + 1, 0);
      NextLevel(f, at.done, at.level, at.depth);
      assert [] + ChildrenOf(f, at.level) == ChildrenOf(f, at.level);
      AtLevelStart(f, whole, next, queue);
    }
    TakeOne(f, whole, next, ids, queue);
    next := next.(k := next.k + 1);
  }

  lemma TakeOne(f: Forest, whole: seq<string>, at: Position, ids: seq<string>, queue: seq<string>)
    requires WalkedTo(f, whole, at, ids, queue) && at.k < |at.level|
    ensures queue != [] && queue[0] in f && |ids| < |whole|
    ensures WalkedTo(f, whole, at.(k := at.k + 1), ids + [queue[0]], queue[1..] + f[queue[0]].children)
  {
    hide IsForest, AtDepth, ChildrenOf, LevelOrder;
    LevelMembers(f, at.level, at.depth);
    StepThroughLevel(f, at.level, at.k);
    QueueStep(f, at.level, at.k, queue);
    LevelThenNext(f, at.level, at.depth);
    assert |whole| >= |at.done| + |at.level|;
    assert at.level[..at.k + 1] == at.level[..at.k] + [at.level[at.k]];
    assert ids + [queue[0]] == at.done + at.level[..at.k + 1];
  }

  lemma QueueStep(f: Forest, level: seq<string>, k: nat, queue: seq<string>)
    requires k < |level| && level[k] in f
    requires (forall x :: x in level[..k] ==> x in f) && (forall x :: x in level[..k + 1] ==> x in f)
    requires ChildrenOf(f, level[..k + 1]) == ChildrenOf(f, level[..k]) + f[level[k]].children
    requires queue == level[k..] + ChildrenOf(f, level[..k])
    ensures queue != [] && queue[0] == level[k]
    ensures queue[1..] + f[level[k]].children == level[k + 1..] + ChildrenOf(f, level[..k + 1])
  {
    var before := ChildrenOf(f, level[..k]);
    assert level[k..] == [level[k]] + level[k + 1..];
    assert queue[1..] == level[k + 1..] + before;
    assert (level[k + 1..] + before) + f[level[k]].children == level[k + 1..] + (before + f[level[k]].children);
  }

  lemma NextLevel(f: Forest, done: seq<string>, level: seq<string>, depth: nat)
    requires IsForest(f) && AtDepth(f, level, depth)
    ensures AtDepth(f, ChildrenOf(f, level), depth + 1)
    ensures done + LevelOrder(f, level, depth)
         == (done + level) + LevelOrder(f, ChildrenOf(f, level), depth + 1)
  {
    LevelThenNext(f, level, depth);
    var rest := LevelOrder(f, ChildrenOf(f, level), depth + 1);
    assert done + (level + rest) == (done + level) + rest;
  }

  lemma AtLevelStart(f: Forest, whole: seq<string>, at: Position, queue: seq<string>)
    requires IsForest(f) && AtDepth(f, at.level, at.depth) && at.k == 0 && queue == at.level
    requires whole == at.done + LevelOrder(f, at.level, at.depth)
    ensures WalkedTo(f, whole, at, at.done, queue)
  {
    assert at.level[..0] == [] && at.level[0..] == at.level;
  }

  lemma WalkDone(f: Forest, whole: seq<string>, at: Position, ids: seq<string>)
    requires WalkedTo(f, whole, at, ids, [])
    ensures ids == whole
  {
    assert |at.level[at.k..] + ChildrenOf(f, at.level[..at.k])| == 0;
    assert at.level[..at.k] == at.level;
    LevelThenNext(f, at.level, at.depth);
    assert at.level + [] == at.level;
  }

  lemma LevelThenNext(f: Forest, level: seq<string>, depth: nat)
    requires IsForest(f) && AtDepth(f, level, depth)
    ensures AtDepth(f, ChildrenOf(f, level), depth + 1)
    ensures LevelOrder(f, level, depth) == level + LevelOrder(f, ChildrenOf(f, level), depth + 1)
  {
    ChildrenAtDepth(f, level, depth);
    if level == [] {
      assert LevelOrder(f, ChildrenOf(f, level), depth + 1) == [];
    }
  }

  lemma StepThroughLevel(f: Forest, level: seq<string>, k: nat)
    requires k < |level| && forall x :: x in level ==> x in f
    ensures level[k] in f
    ensures forall x :: x in level[..k] ==> x in f
    ensures forall x :: x in level[..k + 1] ==> x in f
    ensures level[k..] == [level[k]] + level[k + 1..]
    ensures ChildrenOf(f, level[..k + 1]) == ChildrenOf(f, level[..k]) + f[level[k]].children
  {
    assert level[..k + 1] == level[..k] + [level[k]];
    assert level[k] in level;
    assert forall x :: x in level[..k + 1] ==> x in level;
    ChildrenOfConcat(f, level[..k], [level[k]]);
    assert ChildrenOf(f, [level[k]]) == f[level[k]].children;
  }
}
