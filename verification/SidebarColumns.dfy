/** What the searches and the sidebar mean in terms of the columns of the rows. */
module SidebarColumns {
  import opened Conservation
  import opened Forest
  import opened Options
  import opened Ordering
  import opened Projection
  import opened SessionRows
  import opened TipSearch

  // ---- The shown tip ----

  /** `y` is at most as recent as `z`: an earlier time, or the same time and no greater depth. */
  ghost predicate NoLater(t: Table, root: Id, y: Id, timeY: real, z: Id, timeZ: real)
    requires y in Tree(Links(t), t.Keys, root) && z in Tree(Links(t), t.Keys, root)
  {
    timeY < timeZ || (timeY == timeZ && Depth(Links(t), y, root) <= Depth(Links(t), z, root))
  }

  /** A segment with messages. */
  ghost predicate Speaks(t: Table, root: Id, y: Id) {
    y in t && y in Tree(Links(t), t.Keys, root) && t[y].messages > 0
  }

  /** The shown segment has messages, and no segment with messages is more recent: none has a later last
      activity, and none as late lies deeper. A segment's start stands in where its last activity is no
      number, and zero where neither is. */
  lemma ShownTipIsLatest(t: Table, root: Id, e: Entry, y: Id, u: real, v: real)
    requires ValidTable(t) && root in t && root !in Links(t) && Shows(t, root, e)
    ensures Speaks(t, root, e.row.id)
    ensures
      (Speaks(t, root, y)
       && StandFor(t[y].lastActivity, t[y].startedAt, u) && StandFor(t[e.row.id].lastActivity, t[e.row.id].startedAt, v)) ==>
      NoLater(t, root, y, u, e.row.id, v)
  {
    hide Links, IsContinuation, Shows, StandFor, AsScore, Depth, UnbeatenAssigned, Decides;
    var tip := EntryIsOptimal(t, root, e);
    if Speaks(t, root, y) {
      ScoreStandsFor(t[y].lastActivity, t[y].startedAt, u);
      ScoreStandsFor(t[tip].lastActivity, t[tip].startedAt, v);
      assert Importable(t[y]);
    }
  }

  /** When every segment with messages has a numeric last activity, the shown one has the greatest. */
  lemma ShownTipHasLastActivity(t: Table, root: Id, e: Entry, y: Id)
    requires ValidTable(t) && root in t && root !in Links(t) && Shows(t, root, e)
    requires forall z | Speaks(t, root, z) :: t[z].lastActivity.Number?
    requires Speaks(t, root, y)
    ensures Speaks(t, root, e.row.id) && t[e.row.id].lastActivity.Number?
    ensures NoLater(t, root, y, t[y].lastActivity.value, e.row.id, t[e.row.id].lastActivity.value)
  {
    hide Links, IsContinuation, Shows, Depth, NoLater;
    ShownTipIsLatest(t, root, e, y, 0.0, 0.0);
    ShownTipIsLatest(t, root, e, y, t[y].lastActivity.value, t[e.row.id].lastActivity.value);
  }

  // ---- The freshest segment by its last message ----

  /** The other search goes by the last message: neither a segment with messages nor the root is more
      recent than the segment it finds. */
  lemma FreshestIsLatest(t: Table, root: Id, tip: Id, y: Id, u: real, v: real)
    requires root in t && IsFreshest(t, Links(t), root, tip)
    ensures tip == root || Speaks(t, root, tip)
    ensures
      (tip in t && (Speaks(t, root, y) || y == root)
       && StandFor(t[y].lastMessageAt, t[y].startedAt, u) && StandFor(t[tip].lastMessageAt, t[tip].startedAt, v)) ==>
      root in Tree(Links(t), t.Keys, root) && NoLater(t, root, y, u, tip, v)
  {
    hide Links, IsContinuation, StandFor, AsScore, Depth;
    DepthSelf(Links(t), root);
    assert root in Tree(Links(t), t.Keys, root);
    if tip in t && (Speaks(t, root, y) || y == root) {
      ScoreStandsFor(t[y].lastMessageAt, t[y].startedAt, u);
      ScoreStandsFor(t[tip].lastMessageAt, t[tip].startedAt, v);
      assert y != root ==> Importable(t[y]);
    }
  }

  // ---- The order of the sidebar ----

  /** Later entries were active no later: by last activity, by start where that is no number, and as
      of zero where neither is. */
  lemma SidebarGoesByActivity(t: Table, rows: seq<Row>, out: seq<Entry>, i: nat, j: nat, u: real, v: real)
    requires DistinctRows(rows) && IsSidebar(t, rows, out) && i < j < |out|
    requires StandFor(out[i].row.lastActivity, out[i].row.startedAt, u)
    requires StandFor(out[j].row.lastActivity, out[j].row.startedAt, v)
    ensures u >= v
  {
    hide IsSidebar, StandFor, AsScore;
    SidebarIsSorted(t, rows, out);
    ScoreStandsFor(out[i].row.lastActivity, out[i].row.startedAt, u);
    ScoreStandsFor(out[j].row.lastActivity, out[j].row.startedAt, v);
    assert EntryScore(out[i]) == u && EntryScore(out[j]) == v;
  }

  // ---- What an entry looks like ----

  /** A collapsed conversation looks like its head and leads to its tip. The title and source are the
      head's where it has them, and the tip's otherwise; those of a terminal tip come first. */
  lemma EntryLooks(t: Table, root: Id, e: Entry)
    requires ValidTable(t) && root in t && root !in Links(t) && Shows(t, root, e)
    ensures e.row.id in t
    ensures var (head, tip) := (t[root], t[e.row.id]);
      && e.row.startedAt == head.startedAt && e.row.parent == head.parent && e.row.config == head.config
      && e.row.sessionSource == head.sessionSource && e.row.lastMessageAt == head.lastMessageAt
      && e.row.messages == tip.messages && e.row.endedAt == tip.endedAt && e.row.endReason == tip.endReason
      && e.row.lastActivity == tip.lastActivity && e.row.detail == tip.detail
      && e.row.title == (
        if e.row.id == root then head.title
        else if Norm(tip.source) == "tui" then if tip.title != "" then tip.title else head.title
        else if head.title != "" then head.title else tip.title)
      && e.row.source == (
        if e.row.id == root then head.source
        else if Norm(tip.source) == "tui" then tip.source
        else if head.source != "" then head.source else tip.source)
      && e.lineage == (if e.row.id == root then Plain else Collapsed(root, e.row.id, |Tree(Links(t), t.Keys, root)|))
  {
    hide Links, IsContinuation, IsLink, IsTip, ShowsProject, Norm, Tree;
    var tip, project :|
      && IsTip(t, Links(t), root, Some(tip)) && tip in t
      && ShowsProject(t, Links(t), root, project)
      && IsLink(t, root, e.link)
      && e == EntryOf(t[root], e.link, t[tip], project, |Tree(Links(t), t.Keys, root)|);
    assert t[tip].id == tip && t[root].id == root;
    hide EntryOf;
    EntryOfLooks(t[root], e.link, t[tip], project, |Tree(Links(t), t.Keys, root)|);
  }

  lemma EntryOfLooks(head: Row, link: Option<ChildLink>, tip: Row, project: Option<string>, segments: nat)
    requires tip.id == head.id ==> tip == head
    ensures var e := EntryOf(head, link, tip, project, segments);
      && e.row.id == tip.id
      && e.row.startedAt == head.startedAt && e.row.parent == head.parent && e.row.config == head.config
      && e.row.sessionSource == head.sessionSource && e.row.lastMessageAt == head.lastMessageAt
      && e.row.messages == tip.messages && e.row.endedAt == tip.endedAt && e.row.endReason == tip.endReason
      && e.row.lastActivity == tip.lastActivity && e.row.detail == tip.detail
      && e.row.title == (
        if tip.id == head.id then head.title
        else if Norm(tip.source) == "tui" then if tip.title != "" then tip.title else head.title
        else if head.title != "" then head.title else tip.title)
      && e.row.source == (
        if tip.id == head.id then head.source
        else if Norm(tip.source) == "tui" then tip.source
        else if head.source != "" then head.source else tip.source)
      && e.lineage == (if tip.id == head.id then Plain else Collapsed(head.id, tip.id, segments))
  {
    hide Norm;
  }
}
