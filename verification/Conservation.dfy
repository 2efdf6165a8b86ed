/** What collapsing conversations keeps: every row is counted in exactly one conversation, every
    visible conversation is shown once under its own id, and it points at its freshest segment. */
module Conservation {
  import opened ContinuationWalk
  import opened Forest
  import opened Options
  import opened Ordering
  import opened Projection
  import opened SessionRows
  import opened Text
  import opened TipSearch

  // ---- Counting rows ----

  /** The heads of conversations, in the order of their rows. */
  function Heads(t: Table, rows: seq<Row>): (heads: seq<Id>)
    ensures forall r | r in heads :: r !in Links(t) && exists i :: 0 <= i < |rows| && rows[i].id == r
  {
    hide Links;
    if rows == [] then []
    else
      var before, last := Heads(t, rows[..|rows| - 1]), rows[|rows| - 1].id;
      if last in Links(t) then before else before + [last]
  }

  lemma DistinctBefore(rows: seq<Row>)
    requires DistinctRows(rows) && rows != []
    ensures DistinctRows(rows[..|rows| - 1])
    ensures forall i | 0 <= i < |rows| - 1 :: rows[..|rows| - 1][i] == rows[i] && rows[i].id != rows[|rows| - 1].id
  {
  }

  lemma {:induction false} HeadsAll(t: Table, rows: seq<Row>)
    requires DistinctRows(rows)
    ensures forall i | 0 <= i < |rows| && rows[i].id !in Links(t) :: rows[i].id in Heads(t, rows)
    ensures forall i, j | 0 <= i < j < |Heads(t, rows)| :: Heads(t, rows)[i] != Heads(t, rows)[j]
    decreases |rows|
  {
    hide Links, DistinctRows;
    if rows != [] {
      var before, last := rows[..|rows| - 1], rows[|rows| - 1].id;
      DistinctBefore(rows);
      HeadsAll(t, before);
      assert last !in Heads(t, before);
      assert forall i | 0 <= i < |rows| - 1 && rows[i].id !in Links(t) :: before[i].id in Heads(t, before);
    }
  }

  /** The segment counts of all conversations add up to the number of rows whose upward walk does
      not enter a cycle. */
  lemma SegmentsAreConserved(t: Table, rows: seq<Row>)
    requires DistinctRows(rows) && TableOf(t, rows)
    ensures TreeTotal(Links(t), t.Keys, Heads(t, rows)) == |set x | x in t && !EntersCycle(Links(t), x)|
  {
    hide Links, IsContinuation, Tree, EntersCycle, Heads, Union;
    var up, heads := Links(t), Heads(t, rows);
    HeadsAll(t, rows);
    TotalIsUnion(up, t.Keys, heads);
    UnionMembers(up, t.Keys, heads);
    var sound := set x | x in t && !EntersCycle(up, x);
    forall x ensures x in Union(up, t.Keys, heads) <==> x in sound {
      if x in t {
        CoverExactly(up, t.Keys, x);
      }
      forall r | r in t && IsRoot(up, r) ensures r in heads {
        var i :| 0 <= i < |rows| && rows[i] == t[r];
      }
      forall r | r in heads ensures r in t {
        var i :| 0 <= i < |rows| && rows[i].id == r;
        RowIsFiled(t, rows, i);
      }
      TreeInside(up, t.Keys, heads);
    }
    assert Union(up, t.Keys, heads) == sound;
  }

  lemma TreeInside(up: Up, ids: set<Id>, heads: seq<Id>)
    ensures forall r, x | r in heads && x in Tree(up, ids, r) :: x in ids
  {
  }

  /** Without cycles every row is counted once. */
  lemma AllRowsAreConserved(t: Table, rows: seq<Row>)
    requires DistinctRows(rows) && TableOf(t, rows) && Acyclic(Links(t), t.Keys)
    ensures TreeTotal(Links(t), t.Keys, Heads(t, rows)) == |rows|
  {
    hide Links, IsContinuation, EntersCycle, Heads, TreeTotal;
    SegmentsAreConserved(t, rows);
    assert (set x | x in t && !EntersCycle(Links(t), x)) == t.Keys;
    TableSize(t, rows);
  }

  lemma {:induction false} IdsSize(rows: seq<Row>)
    requires DistinctRows(rows)
    ensures |IdsOf(rows)| == |rows|
    decreases |rows|
  {
    hide DistinctRows;
    if rows != [] {
      var before, last := rows[..|rows| - 1], rows[|rows| - 1].id;
      DistinctBefore(rows);
      IdsSize(before);
      IdsGrow(rows, |rows| - 1);
      assert rows[..|rows| - 1 + 1] == rows;
      assert last !in IdsOf(before);
    }
  }

  lemma TableSize(t: Table, rows: seq<Row>)
    requires DistinctRows(rows) && TableOf(t, rows)
    ensures |t.Keys| == |rows|
  {
    IdsSize(rows);
    assert t.Keys == IdsOf(rows);
  }

  /** Each row is counted in one conversation only. */
  lemma ConversationsAreDisjoint(t: Table, r: Id, s: Id)
    requires r !in Links(t) && s !in Links(t) && r != s
    ensures Tree(Links(t), t.Keys, r) !! Tree(Links(t), t.Keys, s)
  {
    hide Links;
    forall x | x in Tree(Links(t), t.Keys, r) && x in Tree(Links(t), t.Keys, s) ensures false {
      OneRoot(Links(t), x, r, s);
    }
  }

  // ---- The entries ----

  lemma ShownInsideTree(t: Table, root: Id, e: Entry)
    requires ValidTable(t) && root in t && Shows(t, root, e)
    ensures e.row.id in Tree(Links(t), t.Keys, root)
  {
    hide Links, IsContinuation, IsLink, ShowsProject, Strip, ByActivity, Norm, Tree;
    var tip, project :|
      && IsTip(t, Links(t), root, Some(tip)) && tip in t
      && ShowsProject(t, Links(t), root, project)
      && IsLink(t, root, e.link)
      && e == EntryOf(t[root], e.link, t[tip], project, |Tree(Links(t), t.Keys, root)|);
  }

  /** The entries belong to the visible conversations, one each, and their ids differ. */
  lemma {:induction false} EntriesAreDistinct(t: Table, rows: seq<Row>, entries: seq<Entry>) returns (heads: seq<Id>)
    requires ValidTable(t) && DistinctRows(rows) && (forall row | row in rows :: row.id in t)
    requires IsProjection(t, rows, entries)
    ensures |heads| == |entries|
    ensures forall i | 0 <= i < |heads| :: Visible(t, heads[i]) && Shows(t, heads[i], entries[i])
    ensures forall r :: r in heads <==> Visible(t, r) && exists i :: 0 <= i < |rows| && rows[i].id == r
    ensures forall i, j | 0 <= i < j < |heads| :: heads[i] != heads[j]
    decreases |rows|
  {
    hide Visible, Shows;
    heads := [];
    if rows != [] {
      var before, last := rows[..|rows| - 1], rows[|rows| - 1].id;
      assert rows == before + [rows[|rows| - 1]];
      heads := EntriesAreDistinct(t, before, if Visible(t, last) then entries[..|entries| - 1] else entries);
      assert forall i | 0 <= i < |before| :: rows[i] == before[i] && before[i].id != last;
      if Visible(t, last) {
        assert last !in heads;
        ghost var earlier := heads;
        heads := heads + [last];
        assert forall r :: r in heads <==> r in earlier || r == last;
      }
      assert rows[|rows| - 1].id == last;
    }
  }

  predicate IdsDiffer(entries: seq<Entry>) {
    forall i, j | 0 <= i < j < |entries| :: entries[i].row.id != entries[j].row.id
  }

  lemma ProjectionIdsDiffer(t: Table, rows: seq<Row>, entries: seq<Entry>)
    requires ValidTable(t) && DistinctRows(rows) && (forall row | row in rows :: row.id in t)
    requires IsProjection(t, rows, entries)
    ensures IdsDiffer(entries)
  {
    hide Shows, IsProjection, Links, Tree, IsTip;
    var heads := EntriesAreDistinct(t, rows, entries);
    forall i, j | 0 <= i < j < |entries| ensures entries[i].row.id != entries[j].row.id {
      assert Visible(t, heads[i]) && Visible(t, heads[j]);
      ShownInsideTree(t, heads[i], entries[i]);
      ShownInsideTree(t, heads[j], entries[j]);
      ConversationsAreDisjoint(t, heads[i], heads[j]);
    }
  }

  lemma {:induction false} InsertKeepsIdsDiffer(e: Entry, s: seq<Entry>)
    requires IdsDiffer([e] + s)
    ensures IdsDiffer(InsertDesc(e, s, EntryScore))
    decreases |s|
  {
    hide EntryScore;
    if s != [] && EntryScore(e) < EntryScore(s[0]) {
      var rest, r := s[1..], InsertDesc(e, s[1..], EntryScore);
      forall i, j | 0 <= i < j < |[e] + rest| ensures ([e] + rest)[i].row.id != ([e] + rest)[j].row.id {
        assert ([e] + rest)[j] == ([e] + s)[j + 1];
        assert ([e] + rest)[i] == ([e] + s)[if i == 0 then 0 else i + 1];
      }
      InsertKeepsIdsDiffer(e, rest);
      InsertPermutes(e, rest, EntryScore);
      forall k | 0 <= k < |r| ensures r[k].row.id != s[0].row.id {
        assert r[k] in multiset(r);
        assert r[k] == e || r[k] in rest;
        assert ([e] + s)[0] == e && ([e] + s)[1] == s[0];
        if r[k] in rest {
          var m :| 0 <= m < |rest| && rest[m] == r[k];
          assert ([e] + s)[m + 2] == r[k];
        }
      }
    }
  }

  lemma {:induction false} SortKeepsIdsDiffer(s: seq<Entry>)
    requires IdsDiffer(s)
    ensures IdsDiffer(SortDesc(s, EntryScore))
    decreases |s|
  {
    hide EntryScore;
    if s != [] {
      var rest := s[1..];
      assert forall i | 0 <= i < |rest| :: rest[i] == s[i + 1];
      SortKeepsIdsDiffer(rest);
      SortMembers(rest, EntryScore);
      var sorted := SortDesc(rest, EntryScore);
      forall k | 0 <= k < |sorted| ensures sorted[k].row.id != s[0].row.id {
        assert sorted[k] in rest;
        var m :| 0 <= m < |rest| && rest[m] == sorted[k];
      }
      InsertKeepsIdsDiffer(s[0], sorted);
    }
  }

  /** The sidebar has the most recently active first, and every id once. */
  lemma SidebarIsSorted(t: Table, rows: seq<Row>, out: seq<Entry>)
    requires DistinctRows(rows) && IsSidebar(t, rows, out)
    ensures SortedDesc(out, EntryScore) && IdsDiffer(out)
  {
    hide IsProjection, EntryScore, SortedDesc, IdsDiffer, SortDesc;
    var entries :| IsProjection(t, rows, entries) && out == SortDesc(entries, EntryScore);
    SortSorts(entries, EntryScore);
    ProjectionIdsDiffer(t, rows, entries);
    SortKeepsIdsDiffer(entries);
  }

  /** The sidebar shows every visible conversation and nothing else. */
  lemma SidebarIsFaithful(t: Table, rows: seq<Row>, out: seq<Entry>)
    requires DistinctRows(rows) && IsSidebar(t, rows, out)
    ensures forall r | Visible(t, r) :: exists e :: e in out && Shows(t, r, e)
    ensures forall e | e in out :: exists r :: Visible(t, r) && Shows(t, r, e)
  {
    hide Shows, Visible, IsProjection, EntryScore, DistinctRows;
    var entries :| IsProjection(t, rows, entries) && out == SortDesc(entries, EntryScore);
    SortMembers(entries, EntryScore);
    var heads := EntriesAreDistinct(t, rows, entries);
    forall r | Visible(t, r) ensures exists e :: e in out && Shows(t, r, e) {
      VisibleIsFiled(t, r);
      var n :| 0 <= n < |rows| && rows[n] == t[r];
      assert r in heads;
      var i :| 0 <= i < |heads| && heads[i] == r;
      assert entries[i] in out;
    }
    forall e | e in out ensures exists r :: Visible(t, r) && Shows(t, r, e) {
      var i :| 0 <= i < |entries| && entries[i] == e;
      assert Shows(t, heads[i], e);
    }
  }

  lemma VisibleIsFiled(t: Table, r: Id)
    requires Visible(t, r)
    ensures r in t
  {
    hide Links;
  }

  // ---- The tip and the project ----

  /** A conversation is visible exactly when some segment has messages, and its head does too or
      that segment's score is not negative: an empty head hides segments of negative score only. */
  lemma VisibleExactly(t: Table, root: Id)
    requires root in t && root !in Links(t)
    ensures Visible(t, root) <==>
      exists y ::
        && y in Tree(Links(t), t.Keys, root) && Importable(t[y])
        && (Importable(t[root]) || ByActivity(t[y]) >= 0.0)
  {
    hide Links, ByActivity;
    BelowSelf(Links(t), root);
    assert root in Tree(Links(t), t.Keys, root);
  }

  /** The assignment of segment `y` can decide the project. Where the head ended, segments of a score
      below the search's starting value cannot. */
  predicate Decides(t: Table, root: Id, y: Id)
    requires root in t && y in t
  {
    Assigned(t[y]) && (ByActivity(t[y]) >= -1.0 || !Ended(t[root]))
  }

  /** No assigned segment below `root` beats the assigned segment `z`. */
  ghost predicate UnbeatenAssigned(t: Table, up: Up, root: Id, z: Id)
    requires z in Tree(up, t.Keys, root)
  {
    Assigned(t[z]) && forall y | y in Tree(up, t.Keys, root) && Assigned(t[y]) ::
      Behind(ByActivity(t[y]), Depth(up, y, root), ByActivity(t[z]), Depth(up, z, root))
  }

  /** The entry navigates to a segment with messages that no segment with messages beats. When some
      assignment can decide, it carries the project of an assigned segment that no assigned one beats,
      and its head's own otherwise. */
  lemma EntryIsOptimal(t: Table, root: Id, e: Entry) returns (tip: Id)
    requires ValidTable(t) && root in t && root !in Links(t) && Shows(t, root, e)
    ensures tip in Tree(Links(t), t.Keys, root) && Importable(t[tip]) && e.row.id == tip
    ensures NoneBeats(t, Links(t), root, ByActivity(t[tip]), Depth(Links(t), tip, root), false)
    ensures (exists y :: y in Tree(Links(t), t.Keys, root) && Decides(t, root, y)) ==>
      exists z ::
        && z in Tree(Links(t), t.Keys, root) && UnbeatenAssigned(t, Links(t), root, z)
        && e.row.projectId == Strip(t[z].projectId)
    ensures (forall y | y in Tree(Links(t), t.Keys, root) :: !Decides(t, root, y)) ==> e.row.projectId == t[root].projectId
    ensures e.row.lastActivity == t[tip].lastActivity && e.row.startedAt == t[root].startedAt
    ensures tip != root ==> e.lineage == Collapsed(root, tip, |Tree(Links(t), t.Keys, root)|)
  {
    hide Links, IsContinuation, IsLink, Strip, ByActivity, Norm, Tree, UnbeatenAssigned, NoneBeats, Importable, Assigned, Decides;
    var tip', project :|
      && IsTip(t, Links(t), root, Some(tip')) && tip' in t
      && ShowsProject(t, Links(t), root, project)
      && IsLink(t, root, e.link)
      && e == EntryOf(t[root], e.link, t[tip'], project, |Tree(Links(t), t.Keys, root)|);
    tip := tip';
    ProjectIsFreshest(t, root, project);
  }

  lemma ProjectIsFreshest(t: Table, root: Id, project: Option<string>)
    requires root in t && ShowsProject(t, Links(t), root, project)
    ensures project.None? <==> forall y | y in Tree(Links(t), t.Keys, root) :: !Decides(t, root, y)
    ensures project.Some? ==>
      exists z ::
        && z in Tree(Links(t), t.Keys, root) && UnbeatenAssigned(t, Links(t), root, z)
        && project.value == Strip(t[z].projectId)
  {
    hide Links, IsContinuation, Strip, ByActivity, Norm;
    if !Ended(t[root]) {
      LoneTree(t, root);
      DepthSelf(Links(t), root);
      assert root in Tree(Links(t), t.Keys, root);
      if project.Some? {
        assert UnbeatenAssigned(t, Links(t), root, root);
      }
    } else if project.Some? {
      var z :| z in Tree(Links(t), t.Keys, root) && IsFreshestAssigned(t, Links(t), root, z) && project.value == Strip(t[z].projectId);
      assert UnbeatenAssigned(t, Links(t), root, z) && Decides(t, root, z);
    }
  }

  // ---- Where the parents of child sessions belong ----

  /** The lineage root recorded for a child session is the head of its parent's conversation. */
  lemma LinkNamesTheHead(t: Table, x: Id, link: ChildLink, root: Id)
    requires ValidTable(t) && x in t && IsLink(t, x, Some(link))
    requires root !in Links(t) && t[x].parent in Tree(Links(t), t.Keys, root)
    ensures link.parentRoot == root
  {
    hide Links, Tree, EndsAt;
    var k: nat :| EndsAt(Links(t), t[x].parent, link.parentRoot, k);
    WalksFindTheRoot(t, t[x].parent, root, link.parentRoot, k);
  }
}
