/** The limits of the hierarchy: which operations throw, and when levels stay within the maximum
    along a run. */
module TeamLimits {
  import opened Wrappers
  import opened Sequences
  import opened TeamForest
  import opened TeamMoves

  /** A registration that would keep the forest throws exactly when its parent is unknown or the
      resulting hierarchy would exceed a limit, and a level above the maximum is what it reports
      first. */
  lemma RegisterThrowsExactly(cfg: Config, f: Forest, id: string, t: Team, same: bool)
    requires Good(cfg, f) && LevelsWithin(f, cfg.maxLevels) && CanRegister(f, id, t)
    ensures var r := Register(cfg, f, id, t, same);
      && (r.Ok? <==>
            && (t.parent == "" || t.parent in f)
            && Bounded(Attach(f, id, t, same), cfg.maxChildren)
            && LevelsWithin(Attach(f, id, t, same), cfg.maxLevels))
      && (r == Err(LevelTooHigh) <==> t.level > cfg.maxLevels)
      && (r == Err(ParentNotFound) ==> t.parent != "" && t.parent !in f)
      && (r == Err(ParentFull) ==> t.parent in f && !Bounded(Attach(f, id, t, same), cfg.maxChildren))
  {
    if t.parent in f { PathShape(f, t.parent); }
    if Register(cfg, f, id, t, same).Ok? {
      RegisterKeepsBound(cfg, f, id, t, same);
    } else if t.parent == "" || t.parent in f {
      var g := Attach(f, id, t, same);
      assert g[id].level == t.level;
      assert t.parent != "" ==> g[t.parent].children == f[t.parent].children + [id];
    }
  }

  /** A reparenting of known teams throws exactly when the new parent is full: when the list would
      exceed the limit, or the child already stands on a full list and would only move to its end. */
  lemma ReparentThrowsExactly(cfg: Config, f: Forest, parent: string, child: string)
    requires Linked(f) && Bounded(f, cfg.maxChildren)
    ensures var r := Reparent(cfg, f, parent, child);
      && (r == Err(ParentNotFound) <==> parent !in f)
      && (r == Err(ChildNotFound) <==> parent in f && child !in f)
      && (parent in f && child in f ==>
            (r == Err(ParentFull) <==>
               || !Bounded(Move(f, parent, child), cfg.maxChildren)
               || (child in f[parent].children && |f[parent].children| == cfg.maxChildren)))
  {
    if parent in f && child in f {
      MoveEffect(f, parent, child);
      if child !in f[parent].children {
        WithoutAbsent(f[parent].children, child);
      }
    }
  }

  // ----- Levels along a run ----------------------------------------------------------------------

  /** A reparenting that does not throw is under a team below the maximum. */
  ghost predicate RoomAbove(cfg: Config, f: Forest, op: Op) {
    op.OpReparent? && Outcome(cfg, f, op).Ok? ==> op.parent in f && f[op.parent].level < cfg.maxLevels
  }

  /** From a state within the maximum, a registration stays within it unless it throws, and a
      reparenting if and only if the new parent lies below the maximum. */
  lemma StepStaysWithinExactly(cfg: Config, f: Forest, op: Op)
    requires LevelsWithin(f, cfg.maxLevels)
    ensures LevelsWithin(After(cfg, f, [op]), cfg.maxLevels) <==> RoomAbove(cfg, f, op)
  {
    assert [op][..0] == [];
    assert After(cfg, f, [op][..0]) == f;
    if op.OpReparent? && Outcome(cfg, f, op).Ok? {
      AdoptEffect(Detach(f, op.child), op.parent, op.child);
      var g := Move(f, op.parent, op.child);
      assert forall x :: x in f ==> g[x].level == if x == op.child then f[op.parent].level + 1 else f[x].level;
      assert g.Keys == f.Keys;
    }
  }

  /** Along any run from the empty hierarchy every state keeps its levels within the maximum if and
      only if every reparenting that did not throw was under a team below the maximum.  Nothing is
      asked of registrations. */
  lemma {:induction false} EveryLevelIsWithinExactly(cfg: Config, ops: seq<Op>)
    ensures (forall k :: 0 <= k <= |ops| ==> LevelsWithin(After(cfg, map[], ops[..k]), cfg.maxLevels)) <==>
            (forall k :: 0 <= k < |ops| ==> RoomAbove(cfg, After(cfg, map[], ops[..k]), ops[k]))
  {
    hide LevelsWithin, RoomAbove, After;
    if ops == [] {
      NothingToExceed(cfg);
    } else {
      var n := |ops| - 1;
      var before := ops[..n];
      EveryLevelIsWithinExactly(cfg, before);
      AfterOneMore(cfg, map[], ops);
      assert forall k :: 0 <= k <= n ==> before[..k] == ops[..k];
      assert forall k :: 0 <= k < n ==> before[k] == ops[k];
      assert ops[..n + 1] == ops;
      if LevelsWithin(After(cfg, map[], before), cfg.maxLevels) {
        StepStaysWithinExactly(cfg, After(cfg, map[], before), ops[n]);
      }
    }
  }

  lemma NothingToExceed(cfg: Config)
    ensures LevelsWithin(After(cfg, map[], []), cfg.maxLevels)
  {
  }
}
