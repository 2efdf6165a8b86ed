/** After the recency slice, the subagent parents that the sliced subagent rows need are added back:
    the result is the least set that contains the slice and is closed under such parents. */
module SubagentAnchors {
  import opened Forest
  import opened SessionRows

  datatype Candidate = Candidate(id: Id, parent: Id, rawSource: string, source: string)

  predicate IsSubagent(c: Candidate) {
    Norm(if c.rawSource != "" then c.rawSource else c.source) == "subagent"
  }

  /** Projected rows have different, non-empty ids. */
  predicate DistinctIds(rows: seq<Candidate>) {
    && (forall i | 0 <= i < |rows| :: rows[i].id != "")
    && (forall i, j | 0 <= i < j < |rows| :: rows[i].id != rows[j].id)
  }

  function IdSet(rows: seq<Candidate>): set<Id> {
    set row | row in rows :: row.id
  }

  /** `parent` must be present because `child` is. */
  predicate Needs(child: Candidate, parent: Candidate) {
    IsSubagent(child) && IsSubagent(parent) && child.parent == parent.id
  }

  /** Of the projected rows, whatever a row of `s` needs is in `s`. */
  ghost predicate Closed(projected: seq<Candidate>, s: set<Id>) {
    forall child, parent | child in projected && parent in projected && child.id in s && Needs(child, parent) :: parent.id in s
  }

  /** `byId` finds exactly the projected rows, by their ids. */
  ghost predicate Indexed(projected: seq<Candidate>, byId: map<Id, Candidate>) {
    && (forall x | x in byId :: byId[x] in projected && byId[x].id == x)
    && (forall row | row in projected :: row.id in byId && byId[row.id] == row)
  }

  /** The first rows of the list, as many as wanted or as there are. */
  lemma SliceMeans(projected: seq<Candidate>, limit: nat)
    ensures var s := Slice(projected, limit);
      s <= projected && |s| <= limit && (|s| == limit || s == projected)
  {
  }

  method IndexById(projected: seq<Candidate>) returns (byId: map<Id, Candidate>)
    requires DistinctIds(projected)
    ensures Indexed(projected, byId)
  {
    byId := map[];
    for i := 0 to |projected|
      invariant forall x | x in byId :: exists k :: 0 <= k < i && projected[k] == byId[x] && projected[k].id == x
      invariant forall k | 0 <= k < i :: projected[k].id in byId && byId[projected[k].id] == projected[k]
    {
      byId := byId[projected[i].id := projected[i]];
    }
  }

  function Slice(projected: seq<Candidate>, limit: nat): seq<Candidate> {
    if limit <= |projected| then projected[..limit] else projected
  }

  /** The selected rows extend the slice, are projected rows with different ids, and all are forced
      by the slice; the needs not met yet are those of pending rows. */
  ghost predicate Growing(projected: seq<Candidate>, slice: seq<Candidate>, selected: seq<Candidate>, pending: seq<Candidate>) {
    && slice <= selected && DistinctIds(selected)
    && (forall row | row in selected :: row in projected)
    && (forall row | row in pending :: row in selected)
    && Met(projected, selected, pending)
    && (forall s: set<Id> | IdSet(slice) <= s && Closed(projected, s) :: IdSet(selected) <= s)
  }

  ghost predicate Met(projected: seq<Candidate>, selected: seq<Candidate>, pending: seq<Candidate>) {
    forall child, parent | child in selected && parent in projected && Needs(child, parent) ::
      parent.id in IdSet(selected) || child in pending
  }

  lemma Started(projected: seq<Candidate>, limit: nat)
    requires DistinctIds(projected)
    ensures var slice := Slice(projected, limit); Growing(projected, slice, slice, slice)
  {
    hide Needs, Closed;
  }

  /** A popped row whose needs are met is done. */
  lemma PopMet(projected: seq<Candidate>, slice: seq<Candidate>, selected: seq<Candidate>, pending: seq<Candidate>)
    requires pending != [] && Growing(projected, slice, selected, pending)
    requires forall parent | parent in projected && Needs(pending[|pending| - 1], parent) :: parent.id in IdSet(selected)
    ensures Growing(projected, slice, selected, pending[..|pending| - 1])
  {
    hide Needs, Closed, IdSet, DistinctIds;
    assert pending == pending[..|pending| - 1] + [pending[|pending| - 1]];
  }

  /** A popped row brings in the parent it needs. */
  lemma PopAdds(projected: seq<Candidate>, slice: seq<Candidate>, selected: seq<Candidate>, pending: seq<Candidate>, parent: Candidate)
    requires DistinctIds(projected) && pending != [] && Growing(projected, slice, selected, pending)
    requires parent in projected && parent.id !in IdSet(selected) && Needs(pending[|pending| - 1], parent)
    ensures Growing(projected, slice, selected + [parent], pending[..|pending| - 1] + [parent])
    ensures IdSet(selected + [parent]) == IdSet(selected) + {parent.id}
  {
    hide IsSubagent;
    var row, rest := pending[|pending| - 1], pending[..|pending| - 1];
    var more := selected + [parent];
    assert pending == rest + [row];
    assert parent.id != "" by { NamedId(projected, parent); }
    AppendDistinct(selected, parent);
    forall child, other | child in more && other in projected && Needs(child, other)
      ensures other.id in IdSet(more) || child in rest + [parent]
    {
      if child in selected && child == row {
        assert other.id == parent.id;
      }
    }
    forall s: set<Id> | IdSet(slice) <= s && Closed(projected, s) ensures IdSet(more) <= s {
      assert row in selected && row in projected && row.id in IdSet(selected);
    }
  }

  lemma NamedId(rows: seq<Candidate>, c: Candidate)
    requires DistinctIds(rows) && c in rows
    ensures c.id != ""
  {
  }

  /** The raw source decides, or the source where there is none. */
  method RunsAsSubagent(row: Candidate) returns (yes: bool)
    ensures yes <==> IsSubagent(row)
  {
    var source := row.rawSource;
    if source == "" {
      source := row.source;
    }
    return Norm(source) == "subagent";
  }

  /** The first `limit` rows and the subagent parents they need, directly or through each other. */
  method AddSubagentAnchors(projected: seq<Candidate>, limit: nat) returns (selected: seq<Candidate>)
    requires DistinctIds(projected)
    ensures Slice(projected, limit) <= selected
    ensures DistinctIds(selected) && forall row | row in selected :: row in projected
    ensures Closed(projected, IdSet(selected))
    ensures forall s: set<Id> | IdSet(Slice(projected, limit)) <= s && Closed(projected, s) :: IdSet(selected) <= s
  {
    hide IsSubagent, Growing, DistinctIds, Slice, Closed, Indexed, Needs, IdSet;
    selected := Slice(projected, limit);
    var have := IdSet(selected);
    var byId := IndexById(projected);
    var pending := selected;
    Started(projected, limit);
    while pending != []
      invariant have == IdSet(selected)
      invariant Growing(projected, Slice(projected, limit), selected, pending)
      decreases |byId.Keys - have|, |pending|
    {
      var row := pending[|pending| - 1];
      var isSubagent := RunsAsSubagent(row);
      var anchored := false;
      if row.parent in byId {
        anchored := RunsAsSubagent(byId[row.parent]);
      }
      if !isSubagent || row.parent == "" || row.parent in have || row.parent !in byId || !anchored {
        NothingNeeded(projected, byId, row, have);
        PopMet(projected, Slice(projected, limit), selected, pending);
        pending := pending[..|pending| - 1];
        continue;
      }
      var parent := byId[row.parent];
      Needed(projected, byId, row);
      PopAdds(projected, Slice(projected, limit), selected, pending, parent);
      assert byId.Keys - have == (byId.Keys - (have + {parent.id})) + {parent.id};
      pending := pending[..|pending| - 1] + [parent];
      selected := selected + [parent];
      have := have + {parent.id};
    }
    Finished(projected, Slice(projected, limit), selected);
  }

  lemma NothingNeeded(projected: seq<Candidate>, byId: map<Id, Candidate>, row: Candidate, have: set<Id>)
    requires DistinctIds(projected) && Indexed(projected, byId)
    requires !IsSubagent(row) || row.parent == "" || row.parent in have || row.parent !in byId || !IsSubagent(byId[row.parent])
    ensures forall parent | parent in projected && Needs(row, parent) :: parent.id in have
  {
    hide IsSubagent, DistinctIds;
    forall parent | parent in projected && Needs(row, parent) ensures parent.id in have {
      NamedId(projected, parent);
    }
  }

  lemma Needed(projected: seq<Candidate>, byId: map<Id, Candidate>, row: Candidate)
    requires Indexed(projected, byId) && IsSubagent(row) && row.parent in byId && IsSubagent(byId[row.parent])
    ensures byId[row.parent] in projected && byId[row.parent].id == row.parent && Needs(row, byId[row.parent])
  {
    hide IsSubagent;
  }

  lemma Finished(projected: seq<Candidate>, slice: seq<Candidate>, selected: seq<Candidate>)
    requires DistinctIds(projected) && Growing(projected, slice, selected, [])
    ensures slice <= selected && DistinctIds(selected)
    ensures forall row | row in selected :: row in projected
    ensures Closed(projected, IdSet(selected))
    ensures forall s: set<Id> | IdSet(slice) <= s && Closed(projected, s) :: IdSet(selected) <= s
  {
    hide Needs, DistinctIds;
    SelectedIsClosed(projected, selected);
  }

  lemma AppendDistinct(rows: seq<Candidate>, c: Candidate)
    requires DistinctIds(rows) && c.id != "" && c.id !in IdSet(rows)
    ensures DistinctIds(rows + [c]) && IdSet(rows + [c]) == IdSet(rows) + {c.id}
  {
    assert forall i | 0 <= i < |rows| :: rows[i] in rows;
  }

  lemma SelectedIsClosed(projected: seq<Candidate>, selected: seq<Candidate>)
    requires DistinctIds(projected) && forall row | row in selected :: row in projected
    requires forall child, parent | child in selected && parent in projected && Needs(child, parent) :: parent.id in IdSet(selected)
    ensures Closed(projected, IdSet(selected))
  {
    hide IsSubagent;
    forall child | child in projected && child.id in IdSet(selected) ensures child in selected {
      var other :| other in selected && other.id == child.id;
      assert other in projected;
      SameRow(projected, child, other);
    }
  }

  lemma SameRow(rows: seq<Candidate>, a: Candidate, b: Candidate)
    requires DistinctIds(rows) && a in rows && b in rows && a.id == b.id
    ensures a == b
  {
    var i :| 0 <= i < |rows| && rows[i] == a;
    var j :| 0 <= j < |rows| && rows[j] == b;
  }
}
