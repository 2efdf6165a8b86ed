/** Parent links between sessions as a partial map, cycles included: walking up, the tree below a
    session, and the depth of a session in it. */
module Forest {
  import opened Options

  type Id = string

  /** Each session that continues another one, with the session it continues. */
  type Up = map<Id, Id>

  /** Links stay inside `ids`. */
  predicate Within(up: Up, ids: set<Id>) {
    up.Keys <= ids && forall x | x in up :: up[x] in ids
  }

  /** The session `k` links above `x`. */
  function Climb(up: Up, x: Id, k: nat): Option<Id>
    decreases k
  {
    if k == 0 then Some(x) else if x in up then Climb(up, up[x], k - 1) else None
  }

  /** `x` is `r` or continues it, directly or not. */
  ghost predicate Below(up: Up, x: Id, r: Id) {
    exists k: nat :: Climb(up, x, k) == Some(r)
  }

  predicate IsRoot(up: Up, r: Id) {
    r !in up
  }

  /** Walking up from `x` never ends. */
  ghost predicate Endless(up: Up, x: Id) {
    forall k: nat :: Climb(up, x, k).Some?
  }

  /** Walking up from `x` meets some session twice. */
  ghost predicate EntersCycle(up: Up, x: Id) {
    exists i: nat, j: nat :: i < j && Climb(up, x, i).Some? && Climb(up, x, i) == Climb(up, x, j)
  }

  ghost predicate Acyclic(up: Up, ids: set<Id>) {
    forall x | x in ids :: !EntersCycle(up, x)
  }

  ghost function Tree(up: Up, ids: set<Id>, r: Id): set<Id> {
    set x | x in ids && Below(up, x, r)
  }

  // ---- Climbing ----

  lemma {:induction false} ClimbAdd(up: Up, x: Id, j: nat, k: nat)
    requires Climb(up, x, j).Some?
    ensures Climb(up, x, j + k) == Climb(up, Climb(up, x, j).value, k)
    decreases j
  {
    if j > 0 {
      ClimbAdd(up, up[x], j - 1, k);
    }
  }

  /** A walk that got somewhere passed everywhere before. */
  lemma {:induction false} ClimbPrefix(up: Up, x: Id, j: nat, k: nat)
    requires j <= k && Climb(up, x, k).Some?
    ensures Climb(up, x, j).Some?
    decreases j
  {
    if j > 0 {
      ClimbPrefix(up, up[x], j - 1, k - 1);
    }
  }

  lemma {:induction false} ClimbStays(up: Up, ids: set<Id>, x: Id, k: nat)
    requires Within(up, ids) && x in ids && Climb(up, x, k).Some?
    ensures Climb(up, x, k).value in ids
    decreases k
  {
    if k > 0 {
      ClimbStays(up, ids, up[x], k - 1);
    }
  }

  lemma BelowSelf(up: Up, r: Id)
    ensures Below(up, r, r)
  {
    assert Climb(up, r, 0) == Some(r);
  }

  /** Below `r`, and not `r` itself, exactly when linked to something below `r`. */
  lemma BelowStep(up: Up, x: Id, r: Id)
    ensures x in up && Below(up, up[x], r) ==> Below(up, x, r)
    ensures Below(up, x, r) && x != r ==> x in up && Below(up, up[x], r)
  {
    if x in up && Below(up, up[x], r) {
      var k: nat :| Climb(up, up[x], k) == Some(r);
      assert Climb(up, x, k + 1) == Some(r);
    }
    if Below(up, x, r) && x != r {
      var k: nat :| Climb(up, x, k) == Some(r);
      assert k > 0 && Climb(up, up[x], k - 1) == Some(r);
    }
  }

  // ---- Roots ----

  /** A session is below at most one root. */
  lemma OneRoot(up: Up, x: Id, r: Id, s: Id)
    requires IsRoot(up, r) && IsRoot(up, s) && Below(up, x, r) && Below(up, x, s)
    ensures r == s
  {
    var j: nat :| Climb(up, x, j) == Some(r);
    var k: nat :| Climb(up, x, k) == Some(s);
    if j < k {
      ClimbAdd(up, x, j, k - j);
    } else if k < j {
      ClimbAdd(up, x, k, j - k);
    }
  }

  /** A walk that ends does so at a root. */
  lemma {:induction false} RootOf(up: Up, x: Id, k: nat) returns (r: Id)
    requires Climb(up, x, k).None?
    ensures IsRoot(up, r) && Below(up, x, r)
    decreases k
  {
    if x in up {
      r := RootOf(up, up[x], k - 1);
      BelowStep(up, x, r);
    } else {
      r := x;
      BelowSelf(up, r);
    }
  }

  /** Below a root no walk is endless, and no walk meets a session twice. */
  lemma RootEnds(up: Up, x: Id, r: Id)
    requires IsRoot(up, r) && Below(up, x, r)
    ensures !Endless(up, x) && !EntersCycle(up, x)
  {
    var k: nat :| Climb(up, x, k) == Some(r);
    ClimbAdd(up, x, k, 1);
    if EntersCycle(up, x) {
      CycleIsEndless(up, x);
    }
  }

  lemma CycleIsEndless(up: Up, x: Id)
    requires EntersCycle(up, x)
    ensures Endless(up, x)
  {
    var i: nat, j: nat :| i < j && Climb(up, x, i).Some? && Climb(up, x, i) == Climb(up, x, j);
    forall k: nat ensures Climb(up, x, k).Some? {
      CycleGoesOn(up, x, i, j, k);
    }
  }

  lemma {:induction false} CycleGoesOn(up: Up, x: Id, i: nat, j: nat, k: nat)
    requires i < j && Climb(up, x, i).Some? && Climb(up, x, i) == Climb(up, x, j)
    ensures Climb(up, x, k).Some?
    decreases k
  {
    if k <= j {
      ClimbPrefix(up, x, k, j);
    } else {
      CycleGoesOn(up, x, i, j, k - (j - i));
      ClimbAdd(up, x, i, k - j);
      ClimbAdd(up, x, j, k - j);
    }
  }

  // ---- Counting ----

  /** The sessions met in the first `k` steps. */
  ghost function Path(up: Up, x: Id, k: nat): set<Id> {
    set i: nat | i < k && Climb(up, x, i).Some? :: Climb(up, x, i).value
  }

  /** A walk that repeats nothing in `k` steps meets `k` sessions. */
  lemma {:induction false} PathSize(up: Up, x: Id, k: nat)
    requires forall i: nat | i < k :: Climb(up, x, i).Some?
    requires forall i: nat, j: nat | i < j < k :: Climb(up, x, i) != Climb(up, x, j)
    ensures |Path(up, x, k)| == k
    decreases k
  {
    if k > 0 {
      PathSize(up, x, k - 1);
      var last := Climb(up, x, k - 1).value;
      assert last !in Path(up, x, k - 1);
      assert Path(up, x, k) == Path(up, x, k - 1) + {last};
    }
  }

  /** No walk meets more different sessions than there are. */
  lemma PathFits(up: Up, ids: set<Id>, x: Id, k: nat)
    requires Within(up, ids) && x in ids
    requires forall i: nat | i < k :: Climb(up, x, i).Some?
    requires forall i: nat, j: nat | i < j < k :: Climb(up, x, i) != Climb(up, x, j)
    ensures k <= |ids|
  {
    PathSize(up, x, k);
    forall y | y in Path(up, x, k) ensures y in ids {
      var i: nat :| i < k && Climb(up, x, i) == Some(y);
      ClimbStays(up, ids, x, i);
    }
    SubsetSize(Path(up, x, k), ids);
  }

  lemma SubsetSize(a: set<Id>, b: set<Id>)
    requires a <= b
    ensures |a| <= |b|
  {
    assert b == a + (b - a);
  }

  /** Endless walks are exactly those that enter a cycle. */
  lemma EndlessMeansCycle(up: Up, ids: set<Id>, x: Id)
    requires Within(up, ids) && x in ids
    ensures Endless(up, x) <==> EntersCycle(up, x)
  {
    if EntersCycle(up, x) {
      CycleIsEndless(up, x);
    } else if Endless(up, x) {
      PathFits(up, ids, x, |ids| + 1);
    }
  }

  /** The trees of the roots cover exactly the sessions whose upward walk does not enter a cycle. */
  lemma CoverExactly(up: Up, ids: set<Id>, x: Id)
    requires Within(up, ids) && x in ids
    ensures !EntersCycle(up, x) <==> exists r :: r in ids && IsRoot(up, r) && x in Tree(up, ids, r)
  {
    EndlessMeansCycle(up, ids, x);
    if !EntersCycle(up, x) {
      var k: nat :| Climb(up, x, k).None?;
      var r := RootOf(up, x, k);
      var j: nat :| Climb(up, x, j) == Some(r);
      ClimbStays(up, ids, x, j);
      assert x in Tree(up, ids, r);
    }
    forall r | r in ids && IsRoot(up, r) && x in Tree(up, ids, r) ensures !EntersCycle(up, x) {
      RootEnds(up, x, r);
    }
  }

  // ---- Depth ----

  /** One more than the fewest links from `x` up to `r`. */
  ghost function Depth(up: Up, x: Id, r: Id): (d: nat)
    requires Below(up, x, r)
    ensures d >= 1 && Climb(up, x, d - 1) == Some(r)
    ensures forall k: nat | k < d - 1 :: Climb(up, x, k) != Some(r)
  {
    var k: nat :| Climb(up, x, k) == Some(r);
    LeastClimb(up, x, r, k) + 1
  }

  ghost function LeastClimb(up: Up, x: Id, r: Id, k: nat): (m: nat)
    requires Climb(up, x, k) == Some(r)
    ensures Climb(up, x, m) == Some(r) && forall j: nat | j < m :: Climb(up, x, j) != Some(r)
    decreases k
  {
    if j: nat :| j < k && Climb(up, x, j) == Some(r) then LeastClimb(up, x, r, j) else k
  }

  lemma DepthSelf(up: Up, r: Id)
    ensures Below(up, r, r) && Depth(up, r, r) == 1
  {
    BelowSelf(up, r);
    assert Climb(up, r, 0) == Some(r);
  }

  lemma DepthStep(up: Up, x: Id, r: Id)
    requires x != r && x in up && Below(up, up[x], r)
    ensures Below(up, x, r) && Depth(up, x, r) == Depth(up, up[x], r) + 1
  {
    BelowStep(up, x, r);
    var d, e := Depth(up, x, r), Depth(up, up[x], r);
    assert d > 1;
    assert Climb(up, up[x], d - 2) == Some(r);
    assert Climb(up, x, e) == Some(r);
  }

  /** A session lies no deeper than its tree has sessions. */
  lemma DepthFits(up: Up, ids: set<Id>, x: Id, r: Id)
    requires Within(up, ids) && x in ids && Below(up, x, r)
    ensures Depth(up, x, r) <= |Tree(up, ids, r)|
  {
    var d := Depth(up, x, r);
    forall i: nat | i < d ensures Climb(up, x, i).Some? && Climb(up, x, i).value in Tree(up, ids, r) {
      ClimbPrefix(up, x, i, d - 1);
      ClimbStays(up, ids, x, i);
      ClimbAdd(up, x, i, d - 1 - i);
    }
    forall i: nat, j: nat | i < j < d ensures Climb(up, x, i) != Climb(up, x, j) {
      if Climb(up, x, i) == Climb(up, x, j) {
        ClimbAdd(up, x, i, d - 1 - j);
        ClimbAdd(up, x, j, d - 1 - j);
      }
    }
    PathSize(up, x, d);
    SubsetSize(Path(up, x, d), Tree(up, ids, r));
  }

  // ---- Conservation ----

  /** Sessions of the trees of the given roots. */
  ghost function TreeTotal(up: Up, ids: set<Id>, roots: seq<Id>): nat {
    if roots == [] then 0 else |Tree(up, ids, roots[0])| + TreeTotal(up, ids, roots[1..])
  }

  ghost function Union(up: Up, ids: set<Id>, roots: seq<Id>): set<Id> {
    if roots == [] then {} else Tree(up, ids, roots[0]) + Union(up, ids, roots[1..])
  }

  lemma {:induction false} UnionMembers(up: Up, ids: set<Id>, roots: seq<Id>)
    ensures forall x :: x in Union(up, ids, roots) <==> exists r :: r in roots && x in Tree(up, ids, r)
    decreases |roots|
  {
    hide Tree;
    if roots != [] {
      UnionMembers(up, ids, roots[1..]);
      assert roots == [roots[0]] + roots[1..];
    }
  }

  /** Trees of different roots share nothing, so their sizes add up to the size of their union. */
  lemma {:induction false} TotalIsUnion(up: Up, ids: set<Id>, roots: seq<Id>)
    requires forall r | r in roots :: IsRoot(up, r)
    requires forall i, j | 0 <= i < j < |roots| :: roots[i] != roots[j]
    ensures TreeTotal(up, ids, roots) == |Union(up, ids, roots)|
    decreases |roots|
  {
    hide Tree;
    if roots != [] {
      var rest := roots[1..];
      TotalIsUnion(up, ids, rest);
      TreesApart(up, ids, roots);
    }
  }

  lemma TreesApart(up: Up, ids: set<Id>, roots: seq<Id>)
    requires roots != [] && forall r | r in roots :: IsRoot(up, r)
    requires forall i, j | 0 <= i < j < |roots| :: roots[i] != roots[j]
    ensures Tree(up, ids, roots[0]) !! Union(up, ids, roots[1..])
  {
    hide Union, Below;
    UnionMembers(up, ids, roots[1..]);
    forall x | x in Tree(up, ids, roots[0]) && x in Union(up, ids, roots[1..]) ensures false {
      var r :| r in roots[1..] && x in Tree(up, ids, r);
      var j :| 0 <= j < |roots[1..]| && roots[1..][j] == r;
      assert roots[j + 1] == r;
      OneRoot(up, x, roots[0], r);
    }
  }
}
