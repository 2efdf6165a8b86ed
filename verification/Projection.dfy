/** The sidebar projection: every conversation tree collapses to one entry that looks like its first
    segment and points at its freshest one. */
module Projection {
  import opened ContinuationWalk
  import opened Forest
  import opened Options
  import opened Ordering
  import opened SessionRows
  import opened Text
  import opened TipSearch

  /** What a row that does not continue its parent remembers of it. */
  datatype ChildLink = ChildLink(title: string, source: string, parentRoot: Id)

  datatype Lineage = Plain | Collapsed(rootId: Id, tipId: Id, segments: nat)

  datatype Entry = Entry(row: Row, link: Option<ChildLink>, lineage: Lineage)

  // ---- One entry ----

  /** The head of the conversation with the assignment of the whole conversation. */
  function Assign(row: Row, project: Option<string>): Row {
    if project.Some? then row.(projectId := project.value) else row
  }

  /** The head's identity with the tip's navigation, activity and state. */
  function Merge(root: Row, tip: Row, project: Option<string>): Row {
    var merged := Assign(
      root.(id := tip.id, messages := tip.messages, endedAt := tip.endedAt, endReason := tip.endReason,
            lastActivity := tip.lastActivity, detail := tip.detail),
      project);
    if Norm(tip.source) == "tui" then
      merged.(title := if tip.title != "" then tip.title else root.title, source := tip.source)
    else
      merged.(title := if root.title != "" then root.title else tip.title,
              source := if root.source != "" then root.source else tip.source)
  }

  function EntryOf(root: Row, link: Option<ChildLink>, tip: Row, project: Option<string>, segments: nat): Entry {
    if tip.id == root.id then Entry(Assign(root, project), link, Plain)
    else Entry(Merge(root, tip, project), link, Collapsed(root.id, tip.id, segments))
  }

  function EntryScore(e: Entry): real {
    ByActivity(e.row)
  }

  /** What is recorded for a row with a parent that it does not continue. */
  ghost predicate IsLink(t: Table, x: Id, link: Option<ChildLink>) {
    if x !in t || t[x].parent == "" || x in Links(t) then link.None?
    else
      && link.Some?
      && (t[x].parent in t ==> link.value.title == t[t[x].parent].title && link.value.source == t[t[x].parent].source)
      && (t[x].parent !in t ==> link.value.title == "" && link.value.source == "")
      && exists k: nat :: EndsAt(Links(t), t[x].parent, link.value.parentRoot, k)
  }

  /** The project shown for a conversation. A head that never ended has no other segments, and its
      own assignment counts whatever its score. */
  ghost predicate ShowsProject(t: Table, up: Up, root: Id, project: Option<string>)
    requires root in t
  {
    if Ended(t[root]) then IsProject(t, up, root, project)
    else project == if Assigned(t[root]) then Some(Strip(t[root].projectId)) else None
  }

  ghost predicate Shows(t: Table, root: Id, e: Entry) {
    root in t && exists tip, project ::
      && IsTip(t, Links(t), root, Some(tip)) && tip in t
      && ShowsProject(t, Links(t), root, project)
      && IsLink(t, root, e.link)
      && e == EntryOf(t[root], e.link, t[tip], project, |Tree(Links(t), t.Keys, root)|)
  }

  /** The conversation is shown at all: its head continues nothing and it has a tip. */
  ghost predicate Visible(t: Table, root: Id) {
    root in t && root !in Links(t) && !IsTip(t, Links(t), root, None)
  }

  /** The entries of the visible conversations, one each, in the order of their heads. */
  ghost predicate IsProjection(t: Table, rows: seq<Row>, entries: seq<Entry>)
    decreases |rows|
  {
    if rows == [] then entries == []
    else
      var (before, last) := (rows[..|rows| - 1], rows[|rows| - 1].id);
      if Visible(t, last) then
        && entries != [] && Shows(t, last, entries[|entries| - 1])
        && IsProjection(t, before, entries[..|entries| - 1])
      else IsProjection(t, before, entries)
  }

  // ---- The indexes ----

  /** Files the rows by parent, and sets apart the continuations from the child sessions. */
  method IndexChildren(rows: seq<Row>, t: Table) returns (kids: Kids, continuations: set<Id>, links: map<Id, ChildLink>)
    requires DistinctRows(rows) && TableOf(t, rows)
    ensures KidsOf(kids, t) && continuations == Links(t).Keys
    ensures forall x | x in t :: IsLink(t, x, LinkIn(links, x))
  {
    hide IsContinuation, EndsAt, IsLink, Links, Filed, Noted, TableOf, DistinctRows, KidsOf;
    kids, continuations, links := map[], {}, map[];
    FiledNone(t, rows);
    for i := 0 to |rows|
      invariant Filed(kids, t, rows, i)
      invariant Noted(t, rows, i, continuations, links)
    {
      var row := rows[i];
      RowIsFiled(t, rows, i);
      if row.parent == "" {
        NoLink(t, row.id);
        NoteNone(t, rows, i, continuations, links);
        FiledSkip(kids, t, rows, i);
        continue;
      }
      FiledAdd(kids, t, rows, i);
      kids := kids[row.parent := Expanded(kids, row.parent) + [row]];
      var continues := false;
      if row.parent in t {
        continues := IsContinuationSession(t[row.parent], row);
      }
      if continues {
        IsLinked(t, row.id);
        NoteContinuation(t, rows, i, continuations, links);
        continuations := continuations + {row.id};
      } else {
        var root := ContinuationRootId(t, row.parent);
        var known := row.parent in t;
        var link := ChildLink(if known then t[row.parent].title else "", if known then t[row.parent].source else "", root.value);
        NotLinked(t, row.id, link);
        NoteLink(t, rows, i, continuations, links, link);
        links := links[row.id := link];
      }
    }
    FiledAll(kids, t, rows);
    NotedAll(t, rows, continuations, links);
  }

  function LinkIn(links: map<Id, ChildLink>, x: Id): Option<ChildLink> {
    if x in links then Some(links[x]) else None
  }

  /** The first `n` rows are sorted into continuations and child sessions. */
  ghost predicate Noted(t: Table, rows: seq<Row>, n: nat, continuations: set<Id>, links: map<Id, ChildLink>)
    requires n <= |rows|
  {
    && (forall x | x in continuations :: x in Links(t))
    && continuations <= IdsOf(rows[..n]) && links.Keys <= IdsOf(rows[..n])
    && (forall j | 0 <= j < n ::
        && IsLink(t, rows[j].id, LinkIn(links, rows[j].id))
        && (rows[j].id in Links(t) ==> rows[j].id in continuations))
  }

  function IdsOf(rows: seq<Row>): set<Id> {
    set row | row in rows :: row.id
  }

  lemma IdsGrow(rows: seq<Row>, n: nat)
    requires n < |rows|
    ensures IdsOf(rows[..n + 1]) == IdsOf(rows[..n]) + {rows[n].id}
  {
    assert rows[..n + 1] == rows[..n] + [rows[n]];
  }

  lemma RowIsFiled(t: Table, rows: seq<Row>, n: nat)
    requires n < |rows| && TableOf(t, rows)
    ensures rows[n].id in t && t[rows[n].id] == rows[n] && ValidTable(t)
  {
    assert rows[n] in rows;
  }

  /** Row `n` was not noted before. */
  lemma NotYet(t: Table, rows: seq<Row>, n: nat, continuations: set<Id>, links: map<Id, ChildLink>)
    requires DistinctRows(rows) && n < |rows| && Noted(t, rows, n, continuations, links)
    ensures rows[n].id !in continuations && rows[n].id !in links
  {
    hide IsLink, Links;
  }

  lemma NoteNone(t: Table, rows: seq<Row>, n: nat, continuations: set<Id>, links: map<Id, ChildLink>)
    requires DistinctRows(rows) && n < |rows| && Noted(t, rows, n, continuations, links)
    requires IsLink(t, rows[n].id, None) && rows[n].id !in Links(t)
    ensures Noted(t, rows, n + 1, continuations, links)
  {
    hide IsLink, Links, IdsOf;
    IdsGrow(rows, n);
    NotYet(t, rows, n, continuations, links);
  }

  lemma NoteContinuation(t: Table, rows: seq<Row>, n: nat, continuations: set<Id>, links: map<Id, ChildLink>)
    requires DistinctRows(rows) && n < |rows| && Noted(t, rows, n, continuations, links)
    requires IsLink(t, rows[n].id, None) && rows[n].id in Links(t)
    ensures Noted(t, rows, n + 1, continuations + {rows[n].id}, links)
  {
    hide IsLink, Links, IdsOf, Linked, DistinctRows;
    IdsGrow(rows, n);
    NotYet(t, rows, n, continuations, links);
    var more := continuations + {rows[n].id};
    assert more <= IdsOf(rows[..n + 1]);
    assert forall j | 0 <= j < n + 1 :: rows[j].id in Links(t) ==> rows[j].id in more;
    assert forall j | 0 <= j < n + 1 :: IsLink(t, rows[j].id, LinkIn(links, rows[j].id));
  }

  lemma NoteLink(t: Table, rows: seq<Row>, n: nat, continuations: set<Id>, links: map<Id, ChildLink>, link: ChildLink)
    requires DistinctRows(rows) && n < |rows| && Noted(t, rows, n, continuations, links)
    requires IsLink(t, rows[n].id, Some(link)) && rows[n].id !in Links(t)
    ensures Noted(t, rows, n + 1, continuations, links[rows[n].id := link])
  {
    hide IsLink, Links, IdsOf;
    IdsGrow(rows, n);
    NotYet(t, rows, n, continuations, links);
  }

  lemma NotedAll(t: Table, rows: seq<Row>, continuations: set<Id>, links: map<Id, ChildLink>)
    requires TableOf(t, rows) && Noted(t, rows, |rows|, continuations, links)
    ensures continuations == Links(t).Keys
    ensures forall x | x in t :: IsLink(t, x, LinkIn(links, x))
  {
    hide IsLink, IsContinuation;
    forall x | x in t ensures exists j :: 0 <= j < |rows| && rows[j].id == x {
      var j :| 0 <= j < |rows| && rows[j] == t[x];
    }
  }

  /** The first `n` rows are filed. */
  ghost predicate Filed(kids: Kids, t: Table, rows: seq<Row>, n: nat)
    requires n <= |rows|
  {
    && (forall p, i | p in kids && 0 <= i < |kids[p]| ::
        kids[p][i].id in t && t[kids[p][i].id] == kids[p][i] && kids[p][i].parent == p)
    && (forall j | 0 <= j < n && rows[j].parent != "" :: rows[j].parent in kids && rows[j] in kids[rows[j].parent])
  }

  lemma FiledNone(t: Table, rows: seq<Row>)
    ensures Filed(map[], t, rows, 0) && Noted(t, rows, 0, {}, map[])
  {
  }

  lemma FiledSkip(kids: Kids, t: Table, rows: seq<Row>, n: nat)
    requires n < |rows| && Filed(kids, t, rows, n) && rows[n].parent == ""
    ensures Filed(kids, t, rows, n + 1)
  {
  }

  lemma FiledAdd(kids: Kids, t: Table, rows: seq<Row>, n: nat)
    requires n < |rows| && TableOf(t, rows) && Filed(kids, t, rows, n) && rows[n].parent != ""
    ensures Filed(kids[rows[n].parent := Expanded(kids, rows[n].parent) + [rows[n]]], t, rows, n + 1)
  {
    assert rows[n] in rows;
  }

  lemma FiledAll(kids: Kids, t: Table, rows: seq<Row>)
    requires TableOf(t, rows) && Filed(kids, t, rows, |rows|)
    ensures KidsOf(kids, t)
  {
  }

  lemma NoLink(t: Table, x: Id)
    requires x in t && ValidTable(t) && t[x].parent == ""
    ensures IsLink(t, x, None) && x !in Links(t)
  {
    hide IsContinuation;
  }

  lemma IsLinked(t: Table, x: Id)
    requires x in t && t[x].parent in t && IsContinuation(t[t[x].parent], t[x])
    ensures IsLink(t, x, None) && x in Links(t)
  {
    hide IsContinuation;
  }

  lemma NotLinked(t: Table, x: Id, link: ChildLink)
    requires x in t && t[x].parent != "" && !(t[x].parent in t && IsContinuation(t[t[x].parent], t[x]))
    requires var known := t[x].parent in t;
      && link.title == (if known then t[t[x].parent].title else "")
      && link.source == (if known then t[t[x].parent].source else "")
    requires exists k: nat :: EndsAt(Links(t), t[x].parent, link.parentRoot, k)
    ensures IsLink(t, x, Some(link)) && x !in Links(t)
  {
    hide IsContinuation, EndsAt;
  }

  /** Sorts the children of every parent, newest first. */
  method SortKids(kids: Kids, t: Table) returns (sorted: Kids)
    requires KidsOf(kids, t)
    ensures KidsOf(sorted, t)
  {
    sorted := map p | p in kids :: SortDesc(kids[p], StartKey);
    forall p | p in kids ensures forall row :: row in sorted[p] <==> row in kids[p] {
      SortMembers(kids[p], StartKey);
    }
    forall p, i | p in sorted && 0 <= i < |sorted[p]| ensures sorted[p][i] in kids[p] {
    }
  }

  function StartKey(row: Row): real {
    if row.startedAt.Number? then row.startedAt.value else 0.0
  }

  // ---- The projection ----

  /** `out` shows the visible conversations of `rows`, the most recently active first. */
  ghost predicate IsSidebar(t: Table, rows: seq<Row>, out: seq<Entry>) {
    TableOf(t, rows) && exists entries :: IsProjection(t, rows, entries) && out == SortDesc(entries, EntryScore)
  }

  /** Copies the head and overwrites what the tip, and the conversation's assignment, decide. */
  method MergeRows(row: Row, link: Option<ChildLink>, tip: Row, project: Option<string>, segments: nat) returns (e: Entry)
    ensures e == EntryOf(row, link, tip, project, segments)
  {
    hide Norm;
    var merged := row;
    if tip.id == row.id {
      if project.Some? {
        merged := merged.(projectId := project.value);
      }
      return Entry(merged, link, Plain);
    }
    merged := merged.(id := tip.id, messages := tip.messages, detail := tip.detail);
    merged := merged.(endedAt := tip.endedAt, endReason := tip.endReason, lastActivity := tip.lastActivity);
    if project.Some? {
      merged := merged.(projectId := project.value);
    }
    if Norm(tip.source) == "tui" {
      if tip.title != "" {
        merged := merged.(title := tip.title);
      }
      if tip.source != "" {
        merged := merged.(source := tip.source);
      }
    } else {
      if merged.title == "" {
        merged := merged.(title := tip.title);
      }
      if merged.source == "" {
        merged := merged.(source := tip.source);
      }
    }
    assert Norm(tip.source) == "tui" ==> tip.source != "" by { NormNothing(); }
    return Entry(merged, link, Collapsed(row.id, tip.id, segments));
  }

  lemma NormNothing()
    ensures Norm("") == ""
  {
  }

  /** One entry for every visible conversation, the most recently active first. */
  method ProjectAgentSessionRows(rows: seq<Row>) returns (out: seq<Entry>)
    requires DistinctRows(rows)
    ensures exists t :: IsSidebar(t, rows, out)
  {
    hide IsContinuation, IsLink, IsTip, ShowsProject, Links, KidsOf, EntryOf, Strip, Tree, Shows, IsProjection, Visible, TableOf;
    var rowsById := IndexRows(rows);
    ghost var t := rowsById;
    var unsortedKids, continuationChildIds, links := IndexChildren(rows, rowsById);
    var kids := SortKids(unsortedKids, rowsById);
    var projected: seq<Entry> := [];
    assert IsProjection(t, [], []) by { NothingShown(t); }
    for i := 0 to |rows|
      invariant IsProjection(t, rows[..i], projected)
    {
      var row := rows[i];
      RowIsFiled(t, rows, i);
      assert rows[..i + 1] == rows[..i] + [row];
      if row.id in continuationChildIds {
        ShowNone(t, rows[..i], projected, row);
        continue;
      }
      var segmentCount := 1;
      var tip := if row.messages > 0 then Some(row.id) else None;
      var projectId := if Strip(row.projectId) != "" then Some(Strip(row.projectId)) else None;
      if Ended(row) {
        tip, segmentCount, projectId := CompressionTip(rowsById, kids, row.id);
      } else {
        LoneTip(t, row.id);
      }
      ProjectIsShown(t, row.id, projectId);
      if tip.None? {
        ShowNone(t, rows[..i], projected, row);
        continue;
      }
      TipIsExclusive(t, row.id, tip.value);
      var link := LinkIn(links, row.id);
      var entry := MergeRows(row, link, rowsById[tip.value], projectId, segmentCount);
      ShowNext(t, rows[..i], projected, row, link, tip.value, projectId);
      projected := projected + [entry];
    }
    assert rows[..|rows|] == rows;
    out := SortDesc(projected, EntryScore);
    assert IsSidebar(t, rows, out);
  }

  lemma NothingShown(t: Table)
    ensures IsProjection(t, [], [])
  {
  }

  lemma ShowNone(t: Table, before: seq<Row>, entries: seq<Entry>, row: Row)
    requires IsProjection(t, before, entries) && row.id in t && (row.id in Links(t) || IsTip(t, Links(t), row.id, None))
    ensures IsProjection(t, before + [row], entries)
  {
    hide IsTip, Links, Shows;
    assert (before + [row])[..|before|] == before;
  }

  lemma ShowNext(
    t: Table, before: seq<Row>, entries: seq<Entry>, row: Row, link: Option<ChildLink>, tip: Id, project: Option<string>)
    requires IsProjection(t, before, entries) && row.id in t && row.id !in Links(t) && t[row.id] == row
    requires IsTip(t, Links(t), row.id, Some(tip)) && !IsTip(t, Links(t), row.id, None) && tip in t
    requires ShowsProject(t, Links(t), row.id, project) && IsLink(t, row.id, link)
    ensures IsProjection(t, before + [row],
                         entries + [EntryOf(row, link, t[tip], project, |Tree(Links(t), t.Keys, row.id)|)])
  {
    hide IsTip, Links, IsLink, ShowsProject, EntryOf, Tree;
    var e := EntryOf(row, link, t[tip], project, |Tree(Links(t), t.Keys, row.id)|);
    LinkKept(row, link, t[tip], project, |Tree(Links(t), t.Keys, row.id)|);
    assert Shows(t, row.id, e);
    assert (before + [row])[..|before|] == before;
    assert (entries + [e])[..|entries|] == entries;
  }

  lemma LinkKept(root: Row, link: Option<ChildLink>, tip: Row, project: Option<string>, segments: nat)
    ensures EntryOf(root, link, tip, project, segments).link == link
  {
  }

  lemma ProjectIsShown(t: Table, root: Id, project: Option<string>)
    requires root in t
    requires if Ended(t[root]) then IsProject(t, Links(t), root, project)
             else project == if Assigned(t[root]) then Some(Strip(t[root].projectId)) else None
    ensures ShowsProject(t, Links(t), root, project)
  {
  }

  /** A head that never ended is a conversation of its own. */
  lemma LoneTree(t: Table, root: Id)
    requires root in t && !Ended(t[root])
    ensures Tree(Links(t), t.Keys, root) == {root}
  {
    hide IsContinuation, Links;
    var up := Links(t);
    BelowSelf(up, root);
    forall x | x in Tree(up, t.Keys, root) ensures x == root {
      var k: nat :| Climb(up, x, k) == Some(root);
      if k > 0 {
        ClimbPrefix(up, x, k - 1, k);
        ClimbAdd(up, x, k - 1, 1);
        LinksNeedEnd(t, Climb(up, x, k - 1).value);
      }
    }
  }

  lemma LoneTip(t: Table, root: Id)
    requires root in t && !Ended(t[root])
    ensures IsTip(t, Links(t), root, if Importable(t[root]) then Some(root) else None)
    ensures |Tree(Links(t), t.Keys, root)| == 1
  {
    hide IsContinuation, Links, ByActivity;
    LoneTree(t, root);
    DepthSelf(Links(t), root);
  }

  lemma TipIsExclusive(t: Table, root: Id, tip: Id)
    requires root in t && IsTip(t, Links(t), root, Some(tip))
    ensures !IsTip(t, Links(t), root, None) && tip in t
  {
    hide IsContinuation, Links, ByActivity;
  }
}
