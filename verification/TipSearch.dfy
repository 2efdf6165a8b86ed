/** The two worklist searches for the freshest segment below a session: one for the sidebar
    projection, with a segment count and a project, and one for the lineage metadata. */
module TipSearch {
  import opened Forest
  import opened Options
  import opened SessionRows
  import opened Text

  /** Rows by parent, in any order. */
  type Kids = map<Id, seq<Row>>

  type Scores = map<Id, real>

  ghost predicate KidsOf(kids: Kids, t: Table) {
    && (forall p, i | p in kids && 0 <= i < |kids[p]| ::
        kids[p][i].id in t && t[kids[p][i].id] == kids[p][i] && kids[p][i].parent == p)
    && (forall x | x in t && t[x].parent != "" :: t[x].parent in kids && t[x] in kids[t[x].parent])
  }

  function ByActivity(row: Row): real {
    AsScore(row.lastActivity, row.startedAt)
  }

  function ByMessage(row: Row): real {
    AsScore(row.lastMessageAt, row.startedAt)
  }

  predicate Importable(row: Row) {
    row.messages > 0
  }

  predicate Assigned(row: Row) {
    Strip(row.projectId) != ""
  }

  function Max(a: nat, b: nat): nat {
    if a >= b then a else b
  }

  // ---- What is searched ----

  /** `y` does not beat `z`: a lower score, or the same score and no greater depth. */
  predicate Behind(scoreY: real, depthY: nat, scoreZ: real, depthZ: nat) {
    scoreY < scoreZ || (scoreY == scoreZ && depthY <= depthZ)
  }

  /** No importable segment below `root` beats the pair (score, depth). */
  ghost predicate NoneBeats(t: Table, up: Up, root: Id, score: real, depth: nat, byMessage: bool) {
    forall y | y in Tree(up, t.Keys, root) && Importable(t[y]) ::
      Behind(if byMessage then ByMessage(t[y]) else ByActivity(t[y]), Depth(up, y, root), score, depth)
  }

  /** `tip` is a freshest importable segment below `root`. Under an empty root only segments with a
      non-negative score count. */
  ghost predicate IsTip(t: Table, up: Up, root: Id, tip: Option<Id>)
    requires root in t
  {
    match tip
    case None =>
      !Importable(t[root]) && forall y | y in Tree(up, t.Keys, root) && Importable(t[y]) :: ByActivity(t[y]) < 0.0
    case Some(z) =>
      && z in Tree(up, t.Keys, root) && Importable(t[z])
      && (Importable(t[root]) || ByActivity(t[z]) >= 0.0)
      && NoneBeats(t, up, root, ByActivity(t[z]), Depth(up, z, root), false)
  }

  /** `project` is the project of a freshest assigned segment below `root`; scores below -1 do not count. */
  ghost predicate IsProject(t: Table, up: Up, root: Id, project: Option<string>) {
    match project
    case None => forall y | y in Tree(up, t.Keys, root) && Assigned(t[y]) :: ByActivity(t[y]) < -1.0
    case Some(p) =>
      exists z :: z in Tree(up, t.Keys, root) && IsFreshestAssigned(t, up, root, z) && p == Strip(t[z].projectId)
  }

  ghost predicate IsFreshestAssigned(t: Table, up: Up, root: Id, z: Id)
    requires z in Tree(up, t.Keys, root)
  {
    && Assigned(t[z]) && ByActivity(t[z]) >= -1.0
    && forall y | y in Tree(up, t.Keys, root) && Assigned(t[y]) ::
      Behind(ByActivity(t[y]), Depth(up, y, root), ByActivity(t[z]), Depth(up, z, root))
  }

  // ---- The frontier of a traversal ----

  predicate OnStack(stack: seq<(Id, nat)>, x: Id) {
    exists i :: 0 <= i < |stack| && stack[i].0 == x
  }

  /** Everything seen or stacked is below `root`, stacked depths are right, and whatever continues
      a seen session is seen or stacked. */
  ghost predicate Frontier(t: Table, up: Up, root: Id, seen: set<Id>, stack: seq<(Id, nat)>) {
    && seen <= Tree(up, t.Keys, root)
    && (forall i | 0 <= i < |stack| ::
        && stack[i].0 in Tree(up, t.Keys, root)
        && (stack[i].0 in seen || stack[i].1 == Depth(up, stack[i].0, root)))
    && (forall x | x in up && up[x] in seen :: x in seen || OnStack(stack, x))
    && (root in seen || OnStack(stack, root))
  }

  /** An exhausted frontier has seen the whole tree. */
  lemma FrontierDone(t: Table, up: Up, root: Id, seen: set<Id>)
    requires Within(up, t.Keys) && Frontier(t, up, root, seen, [])
    ensures seen == Tree(up, t.Keys, root)
  {
    forall x | x in Tree(up, t.Keys, root) ensures x in seen {
      var k: nat :| Climb(up, x, k) == Some(root);
      AllSeen(t, up, root, seen, x, k);
    }
  }

  lemma {:induction false} AllSeen(t: Table, up: Up, root: Id, seen: set<Id>, x: Id, k: nat)
    requires Frontier(t, up, root, seen, []) && Climb(up, x, k) == Some(root)
    ensures x in seen
    decreases k
  {
    hide Tree;
    if k > 0 {
      AllSeen(t, up, root, seen, up[x], k - 1);
    }
  }

  lemma FrontierStart(t: Table, up: Up, root: Id)
    requires root in t
    ensures Frontier(t, up, root, {}, [(root, 1)])
  {
    DepthSelf(up, root);
    assert [(root, 1)][0].0 == root;
  }

  /** Dropping a stacked session that was seen before. */
  lemma FrontierDrop(t: Table, up: Up, root: Id, seen: set<Id>, stack: seq<(Id, nat)>)
    requires stack != [] && Frontier(t, up, root, seen, stack) && stack[|stack| - 1].0 in seen
    ensures Frontier(t, up, root, seen, stack[..|stack| - 1])
  {
    hide Tree, Depth;
    var rest := stack[..|stack| - 1];
    forall x | OnStack(stack, x) && x !in seen ensures OnStack(rest, x) {
      var i :| 0 <= i < |stack| && stack[i].0 == x;
      assert rest[i].0 == x;
    }
  }

  /** Halfway through pushing the continuations of `current`: the first `n` kids are dealt with. */
  ghost predicate Expanding(t: Table, up: Up, root: Id, seen: set<Id>, stack: seq<(Id, nat)>, current: Id, kids: seq<Row>, n: nat) {
    && seen <= Tree(up, t.Keys, root)
    && (forall i | 0 <= i < |stack| ::
        && stack[i].0 in Tree(up, t.Keys, root)
        && (stack[i].0 in seen || stack[i].1 == Depth(up, stack[i].0, root)))
    && (forall x | x in up && up[x] in seen && up[x] != current :: x in seen || OnStack(stack, x))
    && (forall i | 0 <= i < n <= |kids| :: kids[i].id in up ==> kids[i].id in seen || OnStack(stack, kids[i].id))
    && (root in seen || OnStack(stack, root))
  }

  lemma FrontierTake(t: Table, up: Up, root: Id, seen: set<Id>, stack: seq<(Id, nat)>, kids: seq<Row>)
    requires stack != [] && Frontier(t, up, root, seen, stack)
    ensures var (current, depth) := stack[|stack| - 1];
      && Expanding(t, up, root, seen + {current}, stack[..|stack| - 1], current, kids, 0)
      && current in Tree(up, t.Keys, root) && current in t
      && (current !in seen ==> depth == Depth(up, current, root))
  {
    hide Depth;
    var rest, current := stack[..|stack| - 1], stack[|stack| - 1].0;
    forall x | OnStack(stack, x) && x != current ensures OnStack(rest, x) {
      var i :| 0 <= i < |stack| && stack[i].0 == x;
      assert rest[i].0 == x;
    }
  }

  /** Pushing, or skipping, the next kid. */
  lemma FrontierPush(t: Table, up: Up, root: Id, seen: set<Id>, stack: seq<(Id, nat)>, current: Id, kids: seq<Row>, n: nat, pushed: bool)
    requires n < |kids| && Within(up, t.Keys) && Expanding(t, up, root, seen, stack, current, kids, n)
    requires current in seen && root in seen
    requires pushed ==> kids[n].id in up && up[kids[n].id] == current
    requires !pushed ==> kids[n].id in seen || kids[n].id !in up
    ensures var stack' := if pushed then stack + [(kids[n].id, Depth(up, current, root) + 1)] else stack;
      Expanding(t, up, root, seen, stack', current, kids, n + 1)
  {
    hide Depth;
    if pushed {
      var child := kids[n].id;
      var stack' := stack + [(child, Depth(up, current, root) + 1)];
      forall x | OnStack(stack, x) ensures OnStack(stack', x) {
        var i :| 0 <= i < |stack| && stack[i].0 == x;
        assert stack'[i].0 == x;
      }
      assert stack'[|stack|].0 == child;
      BelowStep(up, child, root);
      if child != root {
        DepthStep(up, child, root);
      }
    }
  }

  lemma FrontierExpanded(t: Table, up: Up, root: Id, seen: set<Id>, stack: seq<(Id, nat)>, current: Id, kids: Kids)
    requires KidsOf(kids, t)
    requires up == Links(t) && ValidTable(t) && current != ""
    requires Expanding(t, up, root, seen, stack, current, Expanded(kids, current), |Expanded(kids, current)|)
    ensures Frontier(t, up, root, seen, stack)
  {
    hide Tree, Depth, Links, IsContinuation;
    var list := Expanded(kids, current);
    forall x | x in up && up[x] == current && current in seen ensures x in seen || OnStack(stack, x) {
      assert t[x] in list;
      var i :| 0 <= i < |list| && list[i] == t[x];
      assert list[i].id == x;
    }
  }

  function Expanded(kids: Kids, current: Id): seq<Row> {
    if current in kids then kids[current] else []
  }

  // ---- The running best ----

  ghost predicate BestSoFar(t: Table, up: Up, root: Id, seen: set<Id>, latest: Option<Id>, score: real, depth: nat)
    requires root in t && seen <= Tree(up, t.Keys, root)
  {
    && (forall y | y in seen && Importable(t[y]) ::
        if latest.Some? then Behind(ByActivity(t[y]), Depth(up, y, root), score, depth) else ByActivity(t[y]) < 0.0)
    && match latest
       case None => score == 0.0 && depth == 1 && !Importable(t[root])
       case Some(z) =>
         && z in Tree(up, t.Keys, root) && Importable(t[z])
         && (Importable(t[root]) || ByActivity(t[z]) >= 0.0)
         && score == ByActivity(t[z]) && depth == Depth(up, z, root)
  }

  ghost predicate ProjectSoFar(
    t: Table, up: Up, root: Id, seen: set<Id>, project: Option<string>, score: real, depth: nat, holder: Id)
    requires seen <= Tree(up, t.Keys, root)
  {
    && (forall y | y in seen && Assigned(t[y]) ::
        if project.Some? then Behind(ByActivity(t[y]), Depth(up, y, root), score, depth) else ByActivity(t[y]) < -1.0)
    && match project
       case None => score == -1.0 && depth == 0
       case Some(p) =>
         && holder in Tree(up, t.Keys, root) && Assigned(t[holder]) && p == Strip(t[holder].projectId)
         && score == ByActivity(t[holder]) >= -1.0 && depth == Depth(up, holder, root)
  }

  /** The test both searches make before they replace their best. */
  predicate Beats(score: real, depth: nat, bestScore: real, bestDepth: nat) {
    score > bestScore || (score == bestScore && depth >= bestDepth)
  }

  lemma BestStep(t: Table, up: Up, root: Id, seen: set<Id>, latest: Option<Id>, score: real, depth: nat, x: Id)
    requires root in t && seen <= Tree(up, t.Keys, root) && x in Tree(up, t.Keys, root)
    requires BestSoFar(t, up, root, seen, latest, score, depth)
    ensures var d := Depth(up, x, root);
      if Importable(t[x]) && Beats(ByActivity(t[x]), d, score, depth)
      then BestSoFar(t, up, root, seen + {x}, Some(x), ByActivity(t[x]), d)
      else BestSoFar(t, up, root, seen + {x}, latest, score, depth)
  {
    hide ByActivity;
  }

  lemma ProjectStep(
    t: Table, up: Up, root: Id, seen: set<Id>, project: Option<string>, score: real, depth: nat, holder: Id, x: Id)
    requires seen <= Tree(up, t.Keys, root) && x in Tree(up, t.Keys, root)
    requires ProjectSoFar(t, up, root, seen, project, score, depth, holder)
    ensures var d := Depth(up, x, root);
      if Assigned(t[x]) && Beats(ByActivity(t[x]), d, score, depth)
      then ProjectSoFar(t, up, root, seen + {x}, Some(Strip(t[x].projectId)), ByActivity(t[x]), d, x)
      else ProjectSoFar(t, up, root, seen + {x}, project, score, depth, holder)
  {
    hide ByActivity, Strip;
  }

  lemma BestStart(t: Table, up: Up, root: Id)
    requires root in t
    ensures if Importable(t[root]) then BestSoFar(t, up, root, {}, Some(root), ByActivity(t[root]), 1)
            else BestSoFar(t, up, root, {}, None, 0.0, 1)
    ensures ProjectSoFar(t, up, root, {}, None, -1.0, 0, root)
  {
    DepthSelf(up, root);
  }

  lemma BestDone(t: Table, up: Up, root: Id, latest: Option<Id>, score: real, depth: nat)
    requires root in t && BestSoFar(t, up, root, Tree(up, t.Keys, root), latest, score, depth)
    ensures IsTip(t, up, root, latest)
  {
  }

  lemma ProjectDone(t: Table, up: Up, root: Id, project: Option<string>, score: real, depth: nat, holder: Id)
    requires ProjectSoFar(t, up, root, Tree(up, t.Keys, root), project, score, depth, holder)
    ensures IsProject(t, up, root, project)
  {
    hide Strip;
    if project.Some? {
      assert IsFreshestAssigned(t, up, root, holder);
    }
  }

  lemma Smaller(all: set<Id>, seen: set<Id>, x: Id)
    requires x in all && x !in seen
    ensures |all - (seen + {x})| < |all - seen|
  {
    assert all - seen == (all - (seen + {x})) + {x};
  }

  // ---- The searches ----

  /** Stacks the continuations of `current` that were not seen yet. */
  method PushUnseen(t: Table, kids: Kids, ghost root: Id, seen: set<Id>, before: seq<(Id, nat)>, current: Id, depth: nat)
    returns (stack: seq<(Id, nat)>)
    requires ValidTable(t) && KidsOf(kids, t) && current in t && current in seen
    requires seen <= Tree(Links(t), t.Keys, root) && root in seen && depth == Depth(Links(t), current, root)
    requires Expanding(t, Links(t), root, seen, before, current, Expanded(kids, current), 0)
    ensures Frontier(t, Links(t), root, seen, stack)
  {
    hide Links, IsContinuation, Frontier, Expanding, Depth, KidsOf;
    ghost var up := Links(t);
    stack := before;
    var list := Expanded(kids, current);
    for n := 0 to |list|
      invariant Expanding(t, up, root, seen, stack, current, list, n)
    {
      var child := list[n];
      KidIsLinked(t, kids, current, n);
      var continues := IsContinuationSession(t[current], child);
      FrontierPush(t, up, root, seen, stack, current, list, n, child.id !in seen && continues);
      if child.id in seen {
        continue;
      }
      if !continues {
        continue;
      }
      stack := stack + [(child.id, depth + 1)];
    }
    FrontierExpanded(t, up, root, seen, stack, current, kids);
  }

  /** Stacks all continuations of `current`. */
  method PushAll(t: Table, kids: Kids, ghost root: Id, ghost seen: set<Id>, before: seq<(Id, nat)>, current: Id, depth: nat)
    returns (stack: seq<(Id, nat)>)
    requires ValidTable(t) && KidsOf(kids, t) && current in t && current in seen
    requires seen <= Tree(Links(t), t.Keys, root) && root in seen && depth == Depth(Links(t), current, root)
    requires Expanding(t, Links(t), root, seen, before, current, Expanded(kids, current), 0)
    ensures Frontier(t, Links(t), root, seen, stack)
  {
    hide Links, IsContinuation, Frontier, Expanding, Depth, KidsOf;
    ghost var up := Links(t);
    stack := before;
    var list := Expanded(kids, current);
    for n := 0 to |list|
      invariant Expanding(t, up, root, seen, stack, current, list, n)
    {
      var child := list[n];
      KidIsLinked(t, kids, current, n);
      var continues := IsContinuationSession(t[current], child);
      FrontierPush(t, up, root, seen, stack, current, list, n, continues);
      if continues {
        stack := stack + [(child.id, depth + 1)];
      }
    }
    FrontierExpanded(t, up, root, seen, stack, current, kids);
  }

  /** The freshest importable segment below `root`, the number of segments and the project. */
  method CompressionTip(t: Table, kids: Kids, root: Id) returns (tip: Option<Id>, segments: nat, project: Option<string>)
    requires ValidTable(t) && KidsOf(kids, t) && root in t
    ensures segments == |Tree(Links(t), t.Keys, root)|
    ensures IsTip(t, Links(t), root, tip)
    ensures IsProject(t, Links(t), root, project)
  {
    hide Links, IsContinuation, Strip, Frontier, Expanding, BestSoFar, ProjectSoFar, Depth, IsTip, IsProject, AsScore, KidsOf;
    ghost var up := Links(t);
    var latest := if t[root].messages > 0 then Some(root) else None;
    var segmentCount := 0;
    var bestDepth: nat := 1;
    var latestProject: Option<string> := None;
    var projectDepth: nat := 0;
    var projectScore := -1.0;
    var bestScore := 0.0;
    if t[root].messages > 0 {
      bestScore := Score(t[root].lastActivity, t[root].startedAt);
    }
    var stack: seq<(Id, nat)> := [(root, 1)];
    var seen: set<Id> := {};
    ghost var holder := root;
    FrontierStart(t, up, root);
    BestStart(t, up, root);
    while stack != []
      invariant Frontier(t, up, root, seen, stack) && segmentCount == |seen|
      invariant seen <= Tree(up, t.Keys, root) && (root in seen || stack == [(root, 1)])
      invariant BestSoFar(t, up, root, seen, latest, bestScore, bestDepth)
      invariant ProjectSoFar(t, up, root, seen, latestProject, projectScore, projectDepth, holder)
      decreases |t.Keys - seen|, |stack|
    {
      var (current, depth) := stack[|stack| - 1];
      if current in seen {
        FrontierDrop(t, up, root, seen, stack);
        stack := stack[..|stack| - 1];
        continue;
      }
      var list := Expanded(kids, current);
      FrontierTake(t, up, root, seen, stack, list);
      Smaller(t.Keys, seen, current);
      BestStep(t, up, root, seen, latest, bestScore, bestDepth, current);
      ProjectStep(t, up, root, seen, latestProject, projectScore, projectDepth, holder, current);
      stack := stack[..|stack| - 1];
      seen := seen + {current};
      segmentCount := segmentCount + 1;
      var currentScore := Score(t[current].lastActivity, t[current].startedAt);
      var currentProject := Strip(t[current].projectId);
      if currentProject != "" && (currentScore > projectScore || (currentScore == projectScore && depth >= projectDepth)) {
        latestProject := Some(currentProject);
        projectDepth := depth;
        projectScore := currentScore;
        holder := current;
      }
      if t[current].messages > 0 && (currentScore > bestScore || (currentScore == bestScore && depth >= bestDepth)) {
        latest := Some(current);
        bestDepth := depth;
        bestScore := currentScore;
      }
      stack := PushUnseen(t, kids, root, seen, stack, current, depth);
    }
    FrontierDone(t, up, root, seen);
    BestDone(t, up, root, latest, bestScore, bestDepth);
    ProjectDone(t, up, root, latestProject, projectScore, projectDepth, holder);
    BelowSelf(up, root);
    assert |Tree(up, t.Keys, root)| >= 1 by { assert root in Tree(up, t.Keys, root); }
    return latest, Max(segmentCount, 1), latestProject;
  }

  /** A kid is linked to its parent exactly when it continues it. */
  lemma KidIsLinked(t: Table, kids: Kids, current: Id, n: nat)
    requires ValidTable(t) && KidsOf(kids, t) && current in t && n < |Expanded(kids, current)|
    ensures var child := Expanded(kids, current)[n];
      && (IsContinuation(t[current], child) <==> child.id in Links(t))
      && (child.id in Links(t) ==> Links(t)[child.id] == current)
  {
    hide IsContinuation;
  }

  // ---- The search of the lineage metadata ----

  /** `tip` is the root or an importable segment below it, and beats the root and all of those. */
  ghost predicate IsFreshest(t: Table, up: Up, root: Id, tip: Id)
    requires root in t
  {
    && tip in Tree(up, t.Keys, root) && (tip == root || Importable(t[tip]))
    && Behind(ByMessage(t[root]), 1, ByMessage(t[tip]), Depth(up, tip, root))
    && NoneBeats(t, up, root, ByMessage(t[tip]), Depth(up, tip, root), true)
  }

  ghost predicate FreshestSoFar(t: Table, up: Up, root: Id, seen: set<Id>, best: Id, score: real, depth: nat)
    requires root in t && seen <= Tree(up, t.Keys, root)
  {
    && best in Tree(up, t.Keys, root) && (best == root || Importable(t[best]))
    && score == ByMessage(t[best]) && depth == Depth(up, best, root)
    && Behind(ByMessage(t[root]), 1, score, depth)
    && (forall y | y in seen && Importable(t[y]) :: Behind(ByMessage(t[y]), Depth(up, y, root), score, depth))
  }

  lemma FreshestStep(t: Table, up: Up, root: Id, seen: set<Id>, best: Id, score: real, depth: nat, x: Id)
    requires root in t && seen <= Tree(up, t.Keys, root) && x in Tree(up, t.Keys, root)
    requires FreshestSoFar(t, up, root, seen, best, score, depth)
    ensures var d := Depth(up, x, root);
      if Importable(t[x]) && Beats(ByMessage(t[x]), d, score, depth)
      then FreshestSoFar(t, up, root, seen + {x}, x, ByMessage(t[x]), d)
      else FreshestSoFar(t, up, root, seen + {x}, best, score, depth)
  {
    hide ByMessage;
  }

  lemma FreshestStart(t: Table, up: Up, root: Id)
    requires root in t
    ensures FreshestSoFar(t, up, root, {}, root, ByMessage(t[root]), 1)
  {
    DepthSelf(up, root);
  }

  lemma FreshestDone(t: Table, up: Up, root: Id, best: Id, score: real, depth: nat)
    requires root in t && Within(up, t.Keys)
    requires FreshestSoFar(t, up, root, Tree(up, t.Keys, root), best, score, depth)
    ensures IsFreshest(t, up, root, best) && depth <= |Tree(up, t.Keys, root)|
  {
    hide ByMessage;
    DepthFits(up, t.Keys, best, root);
  }

  /** The freshest segment below `root` by its last message, and the larger of the number of
      segments and the depth of that segment. The second is never larger. */
  method FreshestContinuationTip(t: Table, kids: Kids, root: Id) returns (tip: Id, segments: nat)
    requires ValidTable(t) && KidsOf(kids, t)
    ensures root !in t ==> tip == root && segments == 1
    ensures root in t ==> IsFreshest(t, Links(t), root, tip) && segments == |Tree(Links(t), t.Keys, root)|
  {
    hide Links, IsContinuation, Frontier, Expanding, FreshestSoFar, Depth, IsFreshest, AsScore, KidsOf;
    ghost var up := Links(t);
    tip := root;
    var bestDepth: nat := 1;
    var segmentCount := 0;
    var bestScore := 0.0;
    if root in t {
      bestScore := Score(t[root].lastMessageAt, t[root].startedAt);
    }
    var stack: seq<(Id, nat)> := [(root, 1)];
    var seen: set<Id> := {};
    if root !in t {
      // The only stacked id has no row: it is popped and skipped.
      return root, 1;
    }
    FrontierStart(t, up, root);
    FreshestStart(t, up, root);
    while stack != []
      invariant Frontier(t, up, root, seen, stack) && segmentCount == |seen|
      invariant seen <= Tree(up, t.Keys, root) && (root in seen || stack == [(root, 1)])
      invariant FreshestSoFar(t, up, root, seen, tip, bestScore, bestDepth)
      decreases |t.Keys - seen|, |stack|
    {
      var (current, depth) := stack[|stack| - 1];
      if current in seen {
        FrontierDrop(t, up, root, seen, stack);
        stack := stack[..|stack| - 1];
        continue;
      }
      FrontierTake(t, up, root, seen, stack, Expanded(kids, current));
      Smaller(t.Keys, seen, current);
      FreshestStep(t, up, root, seen, tip, bestScore, bestDepth, current);
      stack := stack[..|stack| - 1];
      seen := seen + {current};
      segmentCount := segmentCount + 1;
      var score := Score(t[current].lastMessageAt, t[current].startedAt);
      if t[current].messages > 0 && (score > bestScore || (score == bestScore && depth >= bestDepth)) {
        tip := current;
        bestDepth := depth;
        bestScore := score;
      }
      stack := PushAll(t, kids, root, seen, stack, current, depth);
    }
    FrontierDone(t, up, root, seen);
    FreshestDone(t, up, root, tip, bestScore, bestDepth);
    return tip, Max(segmentCount, bestDepth);
  }

  // ---- What the searches agree on ----

  /** Both searches, on the same rows and whatever order their stacks visit them in, find segments of
      equal score and depth below a root that has messages, when the columns they score segments with
      messages by agree. */
  lemma TipsAgree(t: Table, up: Up, root: Id, tip: Option<Id>, freshest: Id)
    requires root in t && Importable(t[root])
    requires forall y | y in Tree(up, t.Keys, root) && Importable(t[y]) :: ByActivity(t[y]) == ByMessage(t[y])
    requires IsTip(t, up, root, tip) && IsFreshest(t, up, root, freshest)
    ensures tip.Some? && Importable(t[freshest])
    ensures ByActivity(t[tip.value]) == ByMessage(t[freshest])
    ensures Depth(up, tip.value, root) == Depth(up, freshest, root)
  {
    hide ByActivity, ByMessage;
    BelowSelf(up, root);
    assert root in Tree(up, t.Keys, root);
  }
}
