/** The two walks from a session up its continuation links: the root of a row's lineage, and the
    root with its distance. Both stop on cyclic links, and both agree with the trees below. */
module ContinuationWalk {
  import opened Forest
  import opened Options
  import opened SessionRows

  /** The walk from `x` ends at `r` after `k` links: nothing is met twice, and `r` has no
      continuation parent, or one that was met already. */
  ghost predicate EndsAt(up: Up, x: Id, r: Id, k: nat) {
    && Climb(up, x, k) == Some(r)
    && (forall i: nat, j: nat | i < j <= k :: Climb(up, x, i) != Climb(up, x, j))
    && (r in up ==> exists i: nat :: i <= k && Climb(up, x, i) == Some(up[r]))
  }

  /** Only one end is possible. */
  lemma EndIsUnique(up: Up, x: Id, r: Id, k: nat, s: Id, m: nat)
    requires EndsAt(up, x, r, k) && EndsAt(up, x, s, m)
    ensures r == s && k == m
  {
    if k < m {
      NoFurther(up, x, r, k, s, m);
    } else if m < k {
      NoFurther(up, x, s, m, r, k);
    }
  }

  lemma NoFurther(up: Up, x: Id, r: Id, k: nat, s: Id, m: nat)
    requires EndsAt(up, x, r, k) && EndsAt(up, x, s, m)
    ensures !(k < m)
  {
    if k < m {
      ClimbPrefix(up, x, k + 1, m);
      ClimbAdd(up, x, k, 1);
    }
  }

  /** For a session of a root's tree the walk ends at that root. */
  lemma EndsAtRoot(up: Up, x: Id, r: Id, k: nat, root: Id)
    requires EndsAt(up, x, r, k) && IsRoot(up, root) && Below(up, x, root)
    ensures r == root && k + 1 == Depth(up, x, root)
  {
    var d := Depth(up, x, root);
    RootEnds(up, x, root);
    assert r !in up by {
      if r in up {
        var i: nat :| i <= k && Climb(up, x, i) == Some(up[r]);
        ClimbAdd(up, x, k, 1);
      }
    }
    OneRootClimb(up, x, r, k, root, d - 1);
  }

  lemma OneRootClimb(up: Up, x: Id, r: Id, k: nat, s: Id, m: nat)
    requires IsRoot(up, r) && IsRoot(up, s) && Climb(up, x, k) == Some(r) && Climb(up, x, m) == Some(s)
    ensures r == s && k == m
  {
    if k < m {
      ClimbAdd(up, x, k, m - k);
    } else if m < k {
      ClimbAdd(up, x, m, k - m);
    }
  }

  /** Set of sessions seen by a walk that met nothing twice so far. */
  lemma SeenFits(up: Up, ids: set<Id>, x: Id, k: nat)
    requires Within(up, ids) && x in ids && Climb(up, x, k).Some?
    requires forall i: nat, j: nat | i < j <= k :: Climb(up, x, i) != Climb(up, x, j)
    ensures k < |ids|
  {
    forall i: nat | i <= k ensures Climb(up, x, i).Some? {
      ClimbPrefix(up, x, i, k);
    }
    PathFits(up, ids, x, k + 1);
  }

  /** After `k` links from `x` the walk stands at `current`, and `seen` holds all it met, once each. */
  ghost predicate Walking(up: Up, x: Id, k: nat, current: Id, seen: set<Id>) {
    && Climb(up, x, k) == Some(current)
    && (forall i: nat, j: nat | i < j <= k :: Climb(up, x, i) != Climb(up, x, j))
    && seen == Path(up, x, k + 1)
  }

  lemma WalkStart(up: Up, x: Id)
    ensures Walking(up, x, 0, x, {x})
  {
    assert Climb(up, x, 0) == Some(x);
    assert Path(up, x, 1) == {x};
  }

  lemma WalkOn(up: Up, ids: set<Id>, x: Id, k: nat, current: Id, seen: set<Id>)
    requires Within(up, ids) && Walking(up, x, k, current, seen) && current in up && up[current] !in seen
    ensures Walking(up, x, k + 1, up[current], seen + {up[current]})
    ensures x in up && x in ids && k + 1 < |ids|
  {
    var next, seen' := up[current], seen + {up[current]};
    ClimbAdd(up, x, k, 1);
    ClimbPrefix(up, x, 1, k + 1);
    assert Path(up, x, k + 2) == seen';
    SeenFits(up, ids, x, k + 1);
  }

  lemma WalkStop(up: Up, x: Id, k: nat, current: Id, seen: set<Id>)
    requires Walking(up, x, k, current, seen) && (current in up ==> up[current] in seen)
    ensures EndsAt(up, x, current, k)
  {
  }

  /** The lineage root of `sessionId`, in at most one iteration more than there are rows. */
  method ContinuationRootId(t: Table, sessionId: Id) returns (root: Option<Id>)
    requires ValidTable(t)
    ensures sessionId == "" <==> root.None?
    ensures root.Some? ==> exists k: nat :: EndsAt(Links(t), sessionId, root.value, k)
  {
    hide IsContinuation, Links, Walking, EndsAt;
    if sessionId == "" {
      return None;
    }
    ghost var up := Links(t);
    var rootId := sessionId;
    var currentId := rootId;
    var seen := {currentId};
    WalkStart(up, sessionId);
    for n := 0 to |t| + 1
      invariant rootId == currentId && Walking(up, sessionId, n, currentId, seen)
      invariant n > 0 ==> n < |t.Keys|
    {
      var continues := false;
      if currentId in t && t[currentId].parent in t {
        continues := IsContinuationSession(t[t[currentId].parent], t[currentId]);
      }
      if !continues {
        WalkStop(up, sessionId, n, currentId, seen);
        return Some(rootId);
      }
      var parentId := t[currentId].parent;
      if parentId in seen {
        WalkStop(up, sessionId, n, currentId, seen);
        return Some(rootId);
      }
      WalkOn(up, t.Keys, sessionId, n, currentId, seen);
      rootId := parentId;
      currentId := parentId;
      seen := seen + {currentId};
    }
    // One iteration more than there are rows always suffices.
    assert false;
  }

  /** The lineage root of `sid` and the number of segments from it down to `sid`. */
  method ContinuationRootAndDepth(t: Table, sid: Id) returns (rootId: Id, depth: nat)
    requires ValidTable(t)
    ensures depth >= 1 && EndsAt(Links(t), sid, rootId, depth - 1)
  {
    hide IsContinuation, Links, Walking, EndsAt;
    ghost var up := Links(t);
    rootId := sid;
    var currentId := sid;
    depth := 1;
    var seen := {sid};
    WalkStart(up, sid);
    while true
      invariant depth >= 1 && rootId == currentId && Walking(up, sid, depth - 1, currentId, seen)
      decreases |t| - depth
    {
      var parentId := if currentId in t then t[currentId].parent else "";
      if parentId == "" || parentId !in t || parentId in seen {
        break;
      }
      var continues := IsContinuationSession(t[parentId], t[currentId]);
      if !continues {
        break;
      }
      WalkOn(up, t.Keys, sid, depth - 1, currentId, seen);
      rootId := parentId;
      currentId := parentId;
      seen := seen + {parentId};
      depth := depth + 1;
    }
    WalkStop(up, sid, depth - 1, currentId, seen);
  }

  /** Walk up and traversal down agree: for every session of a root's tree both walks return that
      root, and the second one also the session's depth. */
  lemma WalksFindTheRoot(t: Table, x: Id, root: Id, walked: Id, k: nat)
    requires ValidTable(t) && IsRoot(Links(t), root) && x in Tree(Links(t), t.Keys, root)
    requires EndsAt(Links(t), x, walked, k)
    ensures walked == root && k + 1 == Depth(Links(t), x, root)
  {
    hide IsContinuation, Links;
    EndsAtRoot(Links(t), x, walked, k, root);
  }

  /** On cyclic links a walk ends inside the cycle, after every session on the way was met once. */
  lemma WalksEndInCycle(up: Up, ids: set<Id>, x: Id, r: Id, k: nat)
    requires Within(up, ids) && x in ids && EndsAt(up, x, r, k) && EntersCycle(up, x)
    ensures r in up && exists i: nat :: i <= k && Climb(up, x, i) == Some(up[r])
    ensures k < |ids|
  {
    CycleIsEndless(up, x);
    assert Climb(up, x, k + 1).Some?;
    ClimbAdd(up, x, k, 1);
    SeenFits(up, ids, x, k);
  }
}
