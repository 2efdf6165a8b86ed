/** Rows of the session table, and which of them continue the conversation of their parent. */
module SessionRows {
  import opened Forest
  import opened Options
  import opened Text

  /** A time or number column: numbers count in seconds; text that is no number stays text. */
  datatype Stamp = Absent | Blank | Number(value: real) | Garbled

  datatype Json = Null | Words(text: string) | Other

  /** The `model_config` column: absent or blank, no decodable object, or an object's fields. */
  datatype Config = NoConfig | Undecodable | Object(fields: map<string, Json>)

  /** Absent text columns are empty strings. `detail` stands for the columns that are only copied. */
  datatype Row = Row(
    id: Id, parent: Id, source: string, sessionSource: string, config: Config, title: string,
    endReason: string, endedAt: Stamp, startedAt: Stamp, lastActivity: Stamp, lastMessageAt: Stamp,
    messages: int, projectId: string, detail: string)

  datatype Markers = Known(parents: set<string>) | Untrusted

  const LINEAGE_KEYS: seq<string> := ["_delegate_from", "_branched_from", "_reset_from"]
  const TOLERANCE := 2.0

  // ---- Continuation ----

  predicate MarkerAbsent(fields: map<string, Json>, key: string) {
    key !in fields || fields[key].Null?
  }

  predicate MarkerGood(fields: map<string, Json>, key: string) {
    key in fields && fields[key].Words? && Strip(fields[key].text) != ""
  }

  /** The sessions a row was branched, delegated or reset from; untrusted when the evidence is. */
  function BranchMarkers(c: Config): Markers {
    match c
    case NoConfig => Known({})
    case Undecodable => Untrusted
    case Object(fields) =>
      if exists key | key in LINEAGE_KEYS :: !MarkerAbsent(fields, key) && !MarkerGood(fields, key) then Untrusted
      else Known(set key | key in LINEAGE_KEYS && MarkerGood(fields, key) :: Strip(fields[key].text))
  }

  function Norm(s: string): string {
    Lower(Strip(s))
  }

  /** `float(x or 0)`, when that is a number. */
  function StartOf(s: Stamp): Option<real> {
    match s
    case Absent => Some(0.0)
    case Blank => Some(0.0)
    case Number(v) => Some(v)
    case Garbled => None
  }

  predicate Ended(row: Row) {
    row.endReason == "compression" || row.endReason == "cli_close"
  }

  /** `child` is the next segment of the conversation of `parent`. */
  predicate IsContinuation(parent: Row, child: Row) {
    && Norm(child.sessionSource) != "fork"
    && BranchMarkers(child.config).Known?
    && (Strip(parent.id) == "" || Strip(parent.id) !in BranchMarkers(child.config).parents)
    && Norm(child.source) != "tool"
    && (Norm(parent.source) == "" || Norm(child.source) == "" || Norm(parent.source) == Norm(child.source))
    && Ended(parent)
    && match parent.endedAt
       case Absent => true
       case Number(ended) => StartOf(child.startedAt).Some? && StartOf(child.startedAt).value >= ended - TOLERANCE
       case _ => false
  }

  /** First usable number of the two, else zero. */
  function AsScore(a: Stamp, b: Stamp): real {
    if a.Number? then a.value else if b.Number? then b.value else 0.0
  }

  // ---- The tests as they are made ----

  /** The first value that is a number: missing, blank and garbled ones are passed over. */
  method Score(first: Stamp, second: Stamp) returns (score: real)
    ensures score == AsScore(first, second)
  {
    var values := [first, second];
    for i := 0 to |values|
      invariant forall k | 0 <= k < i :: !values[k].Number?
    {
      if values[i] == Absent || values[i] == Blank || values[i] == Garbled {
        continue;
      }
      assert values[0] == first && values[1] == second && (i == 1 ==> !values[0].Number?);
      return values[i].value;
    }
    assert !values[0].Number? && !values[1].Number?;
    return 0.0;
  }

  /** Reads the markers key by key, and gives up at the first that cannot be trusted. */
  method ReadMarkers(config: Config) returns (markers: Markers)
    ensures markers == BranchMarkers(config)
  {
    hide Strip;
    if config.NoConfig? {
      return Known({});
    }
    if config.Undecodable? {
      return Untrusted;
    }
    var fields := config.fields;
    var parents: set<string> := {};
    for i := 0 to |LINEAGE_KEYS|
      invariant forall k | 0 <= k < i :: MarkerAbsent(fields, LINEAGE_KEYS[k]) || MarkerGood(fields, LINEAGE_KEYS[k])
      invariant parents == set k | 0 <= k < i && MarkerGood(fields, LINEAGE_KEYS[k]) :: Strip(fields[LINEAGE_KEYS[k]].text)
    {
      var key := LINEAGE_KEYS[i];
      if key !in fields || fields[key] == Null {
        continue;
      }
      var value := fields[key];
      if !value.Words? || Strip(value.text) == "" {
        assert key in LINEAGE_KEYS && !MarkerAbsent(fields, key) && !MarkerGood(fields, key);
        return Untrusted;
      }
      parents := parents + {Strip(value.text)};
    }
    assert parents == set key | key in LINEAGE_KEYS && MarkerGood(fields, key) :: Strip(fields[key].text);
    return Known(parents);
  }

  /** One reason after the other why `child` does not continue `parent`. */
  method IsContinuationSession(parent: Row, child: Row) returns (yes: bool)
    ensures yes <==> IsContinuation(parent, child)
  {
    hide BranchMarkers, Norm, Strip;
    if Norm(child.sessionSource) == "fork" {
      return false;
    }
    var markers := ReadMarkers(child.config);
    if markers == Untrusted {
      return false;
    }
    var parentId := Strip(parent.id);
    if parentId != "" && parentId in markers.parents {
      return false;
    }
    var parentSource, childSource := Norm(parent.source), Norm(child.source);
    if childSource == "tool" {
      return false;
    }
    if parentSource != "" && childSource != "" && parentSource != childSource {
      return false;
    }
    if parent.endReason !in {"compression", "cli_close"} {
      return false;
    }
    if parent.endedAt == Absent {
      return true;
    }
    if !parent.endedAt.Number? || child.startedAt == Garbled {
      return false;
    }
    var childStarted := if child.startedAt.Number? then child.startedAt.value else 0.0;
    return childStarted >= parent.endedAt.value - 2.0;
  }

  // ---- What continues what ----

  /** Where nothing else stands against it, a child continues a parent exactly when it started no more
      than two seconds before the parent ended; missing starts count as zero. */
  lemma StartDecides(parent: Row, child: Row, ended: real, started: real)
    requires parent.endReason in {"compression", "cli_close"} && parent.endedAt == Number(ended)
    requires child.startedAt == Number(started) || (child.startedAt in {Absent, Blank} && started == 0.0)
    requires Norm(child.sessionSource) != "fork" && child.config == NoConfig
    requires Norm(child.source) == Norm(parent.source) != "tool"
    ensures IsContinuation(parent, child) <==> ended - started <= 2.0
  {
    hide Norm, Strip;
  }

  /** A marker that names the parent, or that cannot be read, sets a child apart; one that names another
      session does not. */
  lemma MarkerDecides(parent: Row, child: Row, plain: Row, fields: map<string, Json>, key: string)
    requires Strip(parent.id) != "" && IsContinuation(parent, plain)
    requires plain.config == NoConfig && child == plain.(config := Object(fields))
    requires key in {"_delegate_from", "_branched_from", "_reset_from"}
    requires forall k | k in fields && k != key :: fields[k] == Null
    ensures key in fields && fields[key].Words? && Strip(fields[key].text) == Strip(parent.id) ==> !IsContinuation(parent, child)
    ensures key in fields && (fields[key] == Other || fields[key] == Words("")) ==> !IsContinuation(parent, child)
    ensures key !in fields || fields[key] == Null ==> IsContinuation(parent, child)
    ensures key in fields && fields[key].Words? && Strip(fields[key].text) !in {"", Strip(parent.id)} ==> IsContinuation(parent, child)
  {
    hide Norm, Strip;
    assert Strip("") == "" by { StripNothing(); }
    assert key in LINEAGE_KEYS by { assert LINEAGE_KEYS[0] == "_delegate_from" && LINEAGE_KEYS[1] == "_branched_from" && LINEAGE_KEYS[2] == "_reset_from"; }
    var bad := exists k | k in LINEAGE_KEYS :: !MarkerAbsent(fields, k) && !MarkerGood(fields, k);
    assert forall k | k in LINEAGE_KEYS && k != key :: MarkerAbsent(fields, k) && !MarkerGood(fields, k);
    assert bad <==> !MarkerAbsent(fields, key) && !MarkerGood(fields, key);
    if MarkerGood(fields, key) {
      assert BranchMarkers(child.config).parents == {Strip(fields[key].text)};
    }
  }

  lemma StripNothing()
    ensures Strip("") == ""
  {
  }

  /** Forks, tools and other sources are set apart, whatever their times. */
  lemma SourceDecides(parent: Row, child: Row)
    ensures Norm(child.sessionSource) == "fork" ==> !IsContinuation(parent, child)
    ensures Norm(child.source) == "tool" ==> !IsContinuation(parent, child)
    ensures Norm(child.source) != "" && Norm(parent.source) != "" && Norm(child.source) != Norm(parent.source) ==>
      !IsContinuation(parent, child)
    ensures parent.endReason !in {"compression", "cli_close"} ==> !IsContinuation(parent, child)
  {
    hide Norm, Strip, BranchMarkers;
  }

  // ---- Scores, column by column ----

  /** `x` is the number that columns `a` and `b` stand for: the first of them that is one, or zero. */
  ghost predicate StandFor(a: Stamp, b: Stamp, x: real) {
    && (a.Number? ==> x == a.value)
    && (!a.Number? && b.Number? ==> x == b.value)
    && (!a.Number? && !b.Number? ==> x == 0.0)
  }

  lemma ScoreStandsFor(a: Stamp, b: Stamp, x: real)
    ensures StandFor(a, b, x) <==> x == AsScore(a, b)
  {
  }

  // ---- Tables of rows ----

  type Table = map<Id, Row>

  /** Rows are filed under their own ids; the empty string names no session. */
  predicate ValidTable(t: Table) {
    "" !in t && forall x | x in t :: t[x].id == x
  }

  predicate Linked(t: Table, x: Id) {
    x in t && t[x].parent in t && IsContinuation(t[t[x].parent], t[x])
  }

  /** The continuation links of a table. */
  function Links(t: Table): (up: Up)
    ensures forall x :: x in up <==> Linked(t, x)
    ensures forall x | x in up :: x in t && up[x] == t[x].parent
    ensures Within(up, t.Keys)
  {
    map x | x in t && Linked(t, x) :: t[x].parent
  }

  /** A list of rows with different, non-empty ids. */
  predicate DistinctRows(rows: seq<Row>) {
    && (forall i | 0 <= i < |rows| :: rows[i].id != "")
    && (forall i, j | 0 <= i < j < |rows| :: rows[i].id != rows[j].id)
  }

  ghost predicate TableOf(t: Table, rows: seq<Row>) {
    && ValidTable(t)
    && (forall row | row in rows :: row.id in t && t[row.id] == row)
    && (forall x | x in t :: t[x] in rows)
  }

  method IndexRows(rows: seq<Row>) returns (t: Table)
    requires DistinctRows(rows)
    ensures TableOf(t, rows)
  {
    t := map[];
    for i := 0 to |rows|
      invariant TableOf(t, rows[..i])
      invariant forall x | x in t :: exists k :: 0 <= k < i && rows[k].id == x
    {
      t := t[rows[i].id := rows[i]];
      assert rows[..i + 1] == rows[..i] + [rows[i]];
    }
    assert rows[..|rows|] == rows;
  }

  /** Only rows that ended by compression or a close have continuations. */
  lemma LinksNeedEnd(t: Table, x: Id)
    requires x in Links(t)
    ensures Ended(t[Links(t)[x]])
  {
  }
}
