/** The wakeup prompt of a background process, and the header parser meant to undo it. */
module WakeupPrompt {
  import opened Options
  import opened Text

  const OUTPUT_LIMIT: nat := 4000
  const TRUNCATED := "\n…(truncated)"
  const OPENING := "[IMPORTANT: Background process "

  /** The two kinds of prompt that have a header. */
  datatype Kind = Completion | WatchMatch

  /** What follows the task id. */
  function Phrase(kind: Kind): string {
    match kind
    case Completion => " completed (exit_code="
    case WatchMatch => " matched watch pattern \""
  }

  /** What follows the exit code, or the pattern. */
  function Middle(kind: Kind): string {
    match kind
    case Completion => ").\nCommand: "
    case WatchMatch => "\".\nCommand: "
  }

  /** What follows the command. */
  function Heading(kind: Kind): string {
    match kind
    case Completion => "\nOutput:\n"
    case WatchMatch => "\nMatched output:\n"
  }

  // ---- Formatting ----

  datatype Event =
    | ProcessEvent(kind: Kind, sid: string, command: string, field: Option<string>, output: string, suppressed: string)
    | Message(message: string)

  function Truncated(text: string): string {
    if |text| <= OUTPUT_LIMIT then text else text[..OUTPUT_LIMIT] + TRUNCATED
  }

  /** The end of a prompt: output, the note on suppressed matches when there is one, and a bracket. */
  function Tail(e: Event): string
    requires e.ProcessEvent?
  {
    Truncated(e.output)
    + (if e.kind.WatchMatch? && e.suppressed != "" then "\n(" + e.suppressed + " earlier matches were suppressed by rate limit)" else "")
    + "]"
  }

  function Body(kind: Kind, sid: string, field: string, command: string, tail: string): string {
    sid + Phrase(kind) + field + Middle(kind) + command + Heading(kind) + tail
  }

  /** A missing exit code or pattern reads as a question mark. */
  function FieldText(field: Option<string>): string {
    if field.Some? then field.value else "?"
  }

  function Format(e: Event): Option<string> {
    match e
    case Message(message) => if Strip(message) == "" then None else Some("[IMPORTANT: " + Strip(message) + "]")
    case ProcessEvent(kind, sid, command, field, output, _) =>
      if kind.Completion? && Strip(sid) == "" && Strip(command) == "" && field == None && output == "" then None
      else
        match kind
        case Completion =>
          Some("[IMPORTANT: Background process " + Strip(sid) + " completed (exit_code=" + FieldText(field) + ").\nCommand: "
               + Strip(command) + "\nOutput:\n" + Tail(e))
        case WatchMatch =>
          Some("[IMPORTANT: Background process " + Strip(sid) + " matched watch pattern \"" + FieldText(field) + "\".\nCommand: "
               + Strip(command) + "\nMatched output:\n" + Tail(e))
  }

  // ---- Parsing ----

  predicate Starts(t: string, i: nat, p: string) {
    i + |p| <= |t| && t[i..i + |p|] == p
  }

  predicate Free(t: string, i: nat, j: nat, c: char)
    requires j <= |t|
  {
    forall x | i <= x < j :: t[x] != c
  }

  predicate FieldFits(kind: Kind, t: string, i: nat, j: nat)
    requires j <= |t|
  {
    Free(t, i, j, '\n') && (kind.Completion? ==> Free(t, i, j, ')'))
  }

  /** What the header expression of a kind matches: a task id up to `k`, a field up to `n`, a command
      up to `m`, each on its line. */
  predicate Matches(kind: Kind, t: string, k: nat, n: nat, m: nat) {
    && Starts(t, k, Phrase(kind)) && Free(t, 0, k, '\n')
    && k + |Phrase(kind)| <= n && Starts(t, n, Middle(kind)) && FieldFits(kind, t, k + |Phrase(kind)|, n)
    && n + |Middle(kind)| <= m && Starts(t, m, Heading(kind)) && Free(t, n + |Middle(kind)|, m, '\n')
  }

  /** The end of the stretch from `i` without line breaks and without `c`. */
  function Stretch(t: string, i: nat, c: char): (j: nat)
    requires i <= |t|
    ensures i <= j <= |t| && Free(t, i, j, '\n') && Free(t, i, j, c) && (j < |t| ==> t[j] == '\n' || t[j] == c)
    decreases |t| - i
  {
    if i < |t| && t[i] != '\n' && t[i] != c then Stretch(t, i + 1, c) else i
  }

  /** Where the field that begins at `i` ends: before the first closing parenthesis, or two characters
      before the end of the line. */
  function FieldEnd(kind: Kind, t: string, i: nat): (n: nat)
    requires i <= |t|
    ensures i <= n <= |t|
  {
    match kind
    case Completion => Stretch(t, i, ')')
    case WatchMatch => var j := Stretch(t, i, '\n'); if j - 2 >= i then j - 2 else i
  }

  datatype Header = Header(sid: string, field: string, command: string)

  /** The header whose task id ends at `k`. */
  function HeaderAt(kind: Kind, t: string, k: nat): Option<Header>
    requires k <= |t|
  {
    if !Starts(t, k, Phrase(kind)) then None
    else
      var i := k + |Phrase(kind)|;
      var n := FieldEnd(kind, t, i);
      if !(Starts(t, n, Middle(kind)) && FieldFits(kind, t, i, n)) then None
      else
        var m := Stretch(t, n + |Middle(kind)|, '\n');
        if !Starts(t, m, Heading(kind)) then None else Some(Header(t[..k], t[i..n], t[n + |Middle(kind)|..m]))
  }

  /** Task ids are tried from the shortest on, within the line. */
  function Search(kind: Kind, t: string, k: nat): Option<Header>
    requires k <= |t|
    decreases |t| - k
  {
    if HeaderAt(kind, t, k).Some? then HeaderAt(kind, t, k)
    else if k < |t| && t[k] != '\n' then Search(kind, t, k + 1)
    else None
  }

  datatype Meta = CompletionMeta(taskId: string, command: string, exitCode: string)
    | WatchMeta(taskId: string, command: string, pattern: string)

  function MetaOf(kind: Kind, h: Header): Meta {
    match kind
    case Completion => CompletionMeta(h.sid, h.command, h.field)
    case WatchMatch => WatchMeta(h.sid, h.command, h.field)
  }

  /** Completions are tried before watch matches. */
  function DisplayMeta(text: string): Option<Meta> {
    if !(OPENING <= text) then None
    else
      var t := text[|OPENING|..];
      match Search(Completion, t, 0)
      case Some(h) => Some(MetaOf(Completion, h))
      case None =>
        match Search(WatchMatch, t, 0)
        case Some(h) => Some(MetaOf(WatchMatch, h))
        case None => None
  }

  // ---- The parser decides the header expressions ----

  function HeaderOf(kind: Kind, t: string, k: nat, n: nat, m: nat): Header
    requires Matches(kind, t, k, n, m)
  {
    Header(t[..k], t[k + |Phrase(kind)|..n], t[n + |Middle(kind)|..m])
  }

  lemma StartsAt(t: string, i: nat, p: string, x: nat)
    requires Starts(t, i, p) && x < |p|
    ensures t[i + x] == p[x]
  {
    assert t[i..i + |p|][x] == p[x];
  }

  /** What matters about the fixed texts. */
  lemma Shapes(kind: Kind)
    ensures |Middle(kind)| > 3 && Middle(kind)[1] == '.' && Middle(kind)[2] == '\n'
    ensures Middle(kind)[0] == if kind.Completion? then ')' else '"'
    ensures |Heading(kind)| > 1 && Heading(kind)[0] == '\n'
  {
  }

  /** The last character of a phrase is nowhere else in it. */
  lemma PhraseShape(kind: Kind)
    ensures var p := Phrase(kind);
      |p| > 1 && p[0] == ' ' && forall x | 0 <= x < |p| - 1 :: p[x] != p[|p| - 1]
    ensures var p := Phrase(kind); forall x | 0 <= x < |p| :: p[x] != '\n' && p[x] != ')'
  {
    match kind
    case Completion => CompletionShape();
    case WatchMatch =>
  }

  lemma CompletionShape()
    ensures var p := " completed (exit_code="; forall x | 0 <= x < |p| :: p[x] != '\n' && p[x] != ')' && (x < |p| - 1 ==> p[x] != '=')
  {
  }

  /** At each length of the task id there is at most one match, and the parser finds it. */
  lemma OneMatch(kind: Kind, t: string, k: nat, n: nat, m: nat)
    requires Matches(kind, t, k, n, m)
    ensures k <= |t| && HeaderAt(kind, t, k) == Some(HeaderOf(kind, t, k, n, m))
  {
    hide Phrase, Middle, Heading, FieldEnd, FieldFits, Starts, Stretch;
    FieldEnds(kind, t, k + |Phrase(kind)|, n);
    assert t[m] == '\n' && m < |t| by {
      Shapes(kind);
      FirstAt(t, m, Heading(kind));
    }
    StretchEnds(t, n + |Middle(kind)|, '\n', m);
    FirstAt(t, k, Phrase(kind));
  }

  lemma FirstAt(t: string, i: nat, p: string)
    requires Starts(t, i, p)
    ensures i + |p| <= |t| && (p != "" ==> t[i] == p[0])
  {
    if p != "" {
      StartsAt(t, i, p, 0);
    }
  }

  lemma FieldEnds(kind: Kind, t: string, i: nat, n: nat)
    requires i <= n && Starts(t, n, Middle(kind)) && FieldFits(kind, t, i, n)
    ensures FieldEnd(kind, t, i) == n
  {
    hide Middle, Stretch;
    Shapes(kind);
    StartsAt(t, n, Middle(kind), 0);
    StartsAt(t, n, Middle(kind), 1);
    StartsAt(t, n, Middle(kind), 2);
    StretchEnds(t, i, ')', n);
    StretchEnds(t, i, '\n', n + 2);
  }

  lemma StretchEnds(t: string, i: nat, c: char, j: nat)
    requires i <= j < |t|
    ensures Free(t, i, j, '\n') && Free(t, i, j, c) && (t[j] == '\n' || t[j] == c) ==> Stretch(t, i, c) == j
  {
  }

  lemma HeaderIsMatch(kind: Kind, t: string, k: nat)
    requires k <= |t| && Free(t, 0, k, '\n') && HeaderAt(kind, t, k).Some?
    ensures exists n, m :: Matches(kind, t, k, n, m) && HeaderAt(kind, t, k).value == HeaderOf(kind, t, k, n, m)
  {
    hide Phrase, Middle, Heading, FieldFits, FieldEnd, Stretch;
    var i := k + |Phrase(kind)|;
    var n := FieldEnd(kind, t, i);
    var m := Stretch(t, n + |Middle(kind)|, '\n');
    assert Matches(kind, t, k, n, m);
  }

  /** No match with a task id from `from` to before `to`. */
  predicate NoneFrom(kind: Kind, t: string, from: nat, to: nat) {
    forall k | from <= k < to && k <= |t| && Free(t, 0, k, '\n') :: HeaderAt(kind, t, k).None?
  }

  /** The search answers the match with the shortest task id there is. */
  lemma {:induction false} SearchDecides(kind: Kind, t: string, from: nat)
    requires from <= |t| && Free(t, 0, from, '\n')
    ensures match Search(kind, t, from)
      case None => NoneFrom(kind, t, from, |t| + 1)
      case Some(h) => exists k, n, m ::
        Matches(kind, t, k, n, m) && from <= k && h == HeaderOf(kind, t, k, n, m) && NoneFrom(kind, t, from, k)
    decreases |t| - from
  {
    hide Matches, HeaderAt, HeaderOf;
    if HeaderAt(kind, t, from).Some? {
      HeaderIsMatch(kind, t, from);
      var n, m :| Matches(kind, t, from, n, m) && HeaderAt(kind, t, from).value == HeaderOf(kind, t, from, n, m);
      assert NoneFrom(kind, t, from, from);
    } else if from < |t| && t[from] != '\n' {
      SearchDecides(kind, t, from + 1);
      if Search(kind, t, from + 1).Some? {
        var h := Search(kind, t, from + 1).value;
        var k, n, m :| Matches(kind, t, k, n, m) && from + 1 <= k && h == HeaderOf(kind, t, k, n, m) && NoneFrom(kind, t, from + 1, k);
        assert NoneFrom(kind, t, from, k);
      }
    } else if from < |t| {
      assert forall k | from < k <= |t| :: !Free(t, 0, k, '\n');
    }
  }

  // ---- Formatted headers ----

  predicate OneLine(s: string) {
    Free(s, 0, |s|, '\n')
  }

  /** Wherever the phrase of a completion occurs in a task id, a closing parenthesis follows in the task
      id; the phrase of a watch match does not occur in it at all. */
  predicate Unmistakable(kind: Kind, sid: string) {
    forall k | 0 <= k < |sid| && Starts(sid, k, Phrase(kind)) :: kind.Completion? && !Free(sid, k + |Phrase(kind)|, |sid|, ')')
  }

  predicate ReadsBack(kind: Kind, sid: string, field: string, command: string) {
    OneLine(sid) && FieldFits(kind, field, 0, |field|) && OneLine(command) && Unmistakable(kind, sid)
  }

  /** Where the parts of a body begin. */
  function FieldFrom(kind: Kind, sid: string): nat {
    |sid| + |Phrase(kind)|
  }

  function MiddleFrom(kind: Kind, sid: string, field: string): nat {
    FieldFrom(kind, sid) + |field|
  }

  function CommandFrom(kind: Kind, sid: string, field: string): nat {
    MiddleFrom(kind, sid, field) + |Middle(kind)|
  }

  function HeadingFrom(kind: Kind, sid: string, field: string, command: string): nat {
    CommandFrom(kind, sid, field) + |command|
  }

  lemma BodyParts(kind: Kind, sid: string, field: string, command: string, tail: string)
    ensures var t := Body(kind, sid, field, command, tail);
      var (n, c, m) := (MiddleFrom(kind, sid, field), CommandFrom(kind, sid, field), HeadingFrom(kind, sid, field, command));
      && m <= |t| && t[..|sid|] == sid && Starts(t, |sid|, Phrase(kind))
      && t[FieldFrom(kind, sid)..n] == field && Starts(t, n, Middle(kind))
      && t[c..m] == command && Starts(t, m, Heading(kind))
  {
    hide Phrase, Middle, Heading;
  }

  lemma FreeSlice(t: string, i: nat, j: nat, c: char)
    requires i <= j <= |t|
    ensures Free(t, i, j, c) <==> Free(t[i..j], 0, j - i, c)
  {
    if Free(t[i..j], 0, j - i, c) {
      assert forall x | i <= x < j :: t[x] == t[i..j][x - i];
    }
  }

  lemma OwnMatch(kind: Kind, sid: string, field: string, command: string, tail: string)
    ensures var t := Body(kind, sid, field, command, tail);
      Matches(kind, t, |sid|, MiddleFrom(kind, sid, field), HeadingFrom(kind, sid, field, command))
      <==> OneLine(sid) && FieldFits(kind, field, 0, |field|) && OneLine(command)
  {
    hide Phrase, Middle, Heading, Body;
    BodyParts(kind, sid, field, command, tail);
    var t := Body(kind, sid, field, command, tail);
    FreeSlice(t, 0, |sid|, '\n');
    FreeSlice(t, FieldFrom(kind, sid), MiddleFrom(kind, sid, field), '\n');
    FreeSlice(t, FieldFrom(kind, sid), MiddleFrom(kind, sid, field), ')');
    FreeSlice(t, CommandFrom(kind, sid, field), HeadingFrom(kind, sid, field, command), '\n');
  }

  /** The phrase cannot begin in the task id and end in the phrase that follows it. */
  lemma PhraseInside(kind: Kind, t: string, sid: string, k: nat)
    requires |sid| <= |t| && t[..|sid|] == sid && Starts(t, |sid|, Phrase(kind)) && k < |sid| && Starts(t, k, Phrase(kind))
    ensures Starts(sid, k, Phrase(kind))
  {
    hide Phrase, Starts;
    PhraseShape(kind);
    var p := Phrase(kind);
    StartsAt(t, k, p, |p| - 1);
    if k + |p| > |sid| {
      StartsAt(t, |sid|, p, k + |p| - 1 - |sid|);
      assert false;
    }
    StartsInside(t, sid, k, p);
  }

  lemma StartsInside(t: string, sid: string, k: nat, p: string)
    requires |sid| <= |t| && t[..|sid|] == sid && k + |p| <= |sid|
    ensures Starts(t, k, p) <==> Starts(sid, k, p)
  {
    assert sid[k..k + |p|] == t[k..k + |p|];
  }

  /** A shorter task id that matches shows that the phrase occurs in the task id and no parenthesis
      ends the field before the real one. */
  lemma EarlierMatch(kind: Kind, sid: string, field: string, command: string, tail: string, k: nat, n: nat, m: nat)
    requires OneLine(sid) && k < |sid| && Matches(kind, Body(kind, sid, field, command, tail), k, n, m)
    ensures !Unmistakable(kind, sid)
  {
    hide Phrase, Middle, Heading, Body, Starts;
    var t := Body(kind, sid, field, command, tail);
    BodyParts(kind, sid, field, command, tail);
    PhraseInside(kind, t, sid, k);
    assert forall x | 0 <= x < |sid| :: t[x] == t[..|sid|][x] == sid[x];
    if Unmistakable(kind, sid) {
      var j :| k + |Phrase(kind)| <= j < |sid| && sid[j] == ')';
      assert n <= j;
      Shapes(kind);
      PhraseShape(kind);
      StartsAt(t, |sid|, Phrase(kind), 0);
      StartsAt(t, n, Middle(kind), 1);
      StartsAt(t, n, Middle(kind), 2);
      assert false;
    }
  }

  /** An occurrence of the phrase with no parenthesis after it is such a match. */
  lemma MistakenMatch(kind: Kind, sid: string, field: string, command: string, tail: string, k: nat)
    requires OneLine(sid) && FieldFits(kind, field, 0, |field|) && OneLine(command) && Starts(sid, k, Phrase(kind))
    requires kind.Completion? ==> Free(sid, k + |Phrase(kind)|, |sid|, ')')
    ensures var t := Body(kind, sid, field, command, tail);
      Matches(kind, t, k, MiddleFrom(kind, sid, field), HeadingFrom(kind, sid, field, command))
  {
    hide Phrase, Middle, Heading, Body, Starts;
    var (t, p) := (Body(kind, sid, field, command, tail), Phrase(kind));
    var n := MiddleFrom(kind, sid, field);
    BodyParts(kind, sid, field, command, tail);
    OwnMatch(kind, sid, field, command, tail);
    PhraseShape(kind);
    FirstAt(sid, k, p);
    StartsInside(t, sid, k, p);
    assert forall x | 0 <= x < |sid| :: t[x] == t[..|sid|][x] == sid[x];
    forall x | |sid| <= x < FieldFrom(kind, sid) ensures t[x] != '\n' && t[x] != ')' {
      StartsAt(t, |sid|, p, x - |sid|);
    }
    assert FieldFits(kind, t, k + |p|, n);
  }

  /** A formatted header parses back, whatever follows it, exactly when its parts are single lines, the
      exit code has no closing parenthesis, and the task id cannot be mistaken. */
  lemma HeaderParsesBack(kind: Kind, sid: string, field: string, command: string, tail: string)
    ensures Search(kind, Body(kind, sid, field, command, tail), 0) == Some(Header(sid, field, command))
      <==> ReadsBack(kind, sid, field, command)
  {
    hide Body, Matches, HeaderAt, Unmistakable, FieldFits, OneLine, Search;
    var t := Body(kind, sid, field, command, tail);
    BodyParts(kind, sid, field, command, tail);
    OwnMatch(kind, sid, field, command, tail);
    SearchDecides(kind, t, 0);
    if ReadsBack(kind, sid, field, command) {
      FoundAsIs(kind, sid, field, command, tail);
    }
    if Search(kind, t, 0) == Some(Header(sid, field, command)) {
      FoundIsReadable(kind, sid, field, command, tail);
    }
  }

  lemma FoundAsIs(kind: Kind, sid: string, field: string, command: string, tail: string)
    requires ReadsBack(kind, sid, field, command)
    ensures Search(kind, Body(kind, sid, field, command, tail), 0) == Some(Header(sid, field, command))
  {
    hide Body, Matches, HeaderAt, Unmistakable, FieldFits, Phrase, Middle, Heading;
    var t := Body(kind, sid, field, command, tail);
    var (n0, m0) := (MiddleFrom(kind, sid, field), HeadingFrom(kind, sid, field, command));
    BodyParts(kind, sid, field, command, tail);
    OwnMatch(kind, sid, field, command, tail);
    OneMatch(kind, t, |sid|, n0, m0);
    SearchDecides(kind, t, 0);
    MatchIsFree(kind, t, |sid|, n0, m0);
    assert Search(kind, t, 0).Some?;
    var k: nat, n: nat, m: nat :| Matches(kind, t, k, n, m) && Search(kind, t, 0).value == HeaderOf(kind, t, k, n, m) && NoneFrom(kind, t, 0, k);
    OneMatch(kind, t, k, n, m);
    if k < |sid| {
      EarlierMatch(kind, sid, field, command, tail, k, n, m);
    }
  }

  lemma MatchIsFree(kind: Kind, t: string, k: nat, n: nat, m: nat)
    requires Matches(kind, t, k, n, m)
    ensures k <= |t| && Free(t, 0, k, '\n')
  {
  }

  lemma MatchIsLines(kind: Kind, t: string, k: nat, n: nat, m: nat)
    requires Matches(kind, t, k, n, m)
    ensures var h := HeaderOf(kind, t, k, n, m);
      |h.sid| == k && OneLine(h.sid) && FieldFits(kind, h.field, 0, |h.field|) && OneLine(h.command)
  {
    hide Phrase, Middle, Heading;
    FreeSlice(t, 0, k, '\n');
    FreeSlice(t, k + |Phrase(kind)|, n, '\n');
    FreeSlice(t, k + |Phrase(kind)|, n, ')');
    FreeSlice(t, n + |Middle(kind)|, m, '\n');
  }

  lemma NothingFree(t: string)
    ensures Free(t, 0, 0, '\n')
  {
  }

  lemma FoundIsReadable(kind: Kind, sid: string, field: string, command: string, tail: string)
    requires Search(kind, Body(kind, sid, field, command, tail), 0) == Some(Header(sid, field, command))
    ensures ReadsBack(kind, sid, field, command)
  {
    hide Body, HeaderAt, Phrase, Search, Starts, Matches, Free, FieldFits, OneLine;
    var t := Body(kind, sid, field, command, tail);
    NothingFree(t);
    SearchDecides(kind, t, 0);
    var k: nat, n: nat, m: nat :| Matches(kind, t, k, n, m) && Header(sid, field, command) == HeaderOf(kind, t, k, n, m) && NoneFrom(kind, t, 0, k);
    MatchIsLines(kind, t, k, n, m);
    forall x | 0 <= x < |sid| && Starts(sid, x, Phrase(kind)) ensures kind.Completion? && !Free(sid, x + |Phrase(kind)|, |sid|, ')') {
      if !(kind.Completion? && !Free(sid, x + |Phrase(kind)|, |sid|, ')')) {
        NotMistaken(kind, sid, field, command, tail, x);
        assert false;
      }
    }
  }

  lemma NotMistaken(kind: Kind, sid: string, field: string, command: string, tail: string, x: nat)
    requires OneLine(sid) && FieldFits(kind, field, 0, |field|) && OneLine(command) && Starts(sid, x, Phrase(kind))
    requires kind.Completion? ==> Free(sid, x + |Phrase(kind)|, |sid|, ')')
    ensures !NoneFrom(kind, Body(kind, sid, field, command, tail), 0, |sid|)
  {
    hide Body, HeaderAt, Phrase, Middle, Heading, Matches, FieldFits;
    var t := Body(kind, sid, field, command, tail);
    var (n0, m0) := (MiddleFrom(kind, sid, field), HeadingFrom(kind, sid, field, command));
    MistakenMatch(kind, sid, field, command, tail, x);
    OneMatch(kind, t, x, n0, m0);
    MatchIsFree(kind, t, x, n0, m0);
    PhraseShape(kind);
  }

  // ---- Whole prompts ----

  lemma FirstLineEnd(kind: Kind, t: string, k: nat, n: nat, m: nat)
    requires Matches(kind, t, k, n, m)
    ensures n + 2 < |t| && t[n + 2] == '\n' && Free(t, 0, n + 2, '\n')
    ensures t[n] == if kind.Completion? then ')' else '"'
  {
    hide Phrase, Middle, Heading, Starts;
    Shapes(kind);
    PhraseShape(kind);
    FirstAt(t, n, Middle(kind));
    StartsAt(t, n, Middle(kind), 0);
    StartsAt(t, n, Middle(kind), 1);
    StartsAt(t, n, Middle(kind), 2);
    forall x | 0 <= x < n + 2 ensures t[x] != '\n' {
      if k <= x < k + |Phrase(kind)| {
        StartsAt(t, k, Phrase(kind), x - k);
      }
    }
  }

  /** A text whose first line ends like that of a watch match is no completion. */
  lemma WatchIsNoCompletion(t: string, k: nat, n: nat, m: nat)
    requires Matches(WatchMatch, t, k, n, m)
    ensures Search(Completion, t, 0) == None
  {
    hide Matches, Search;
    FirstLineEnd(WatchMatch, t, k, n, m);
    SearchDecides(Completion, t, 0);
    if Search(Completion, t, 0).Some? {
      var k': nat, n': nat, m': nat :|
        Matches(Completion, t, k', n', m') && Search(Completion, t, 0).value == HeaderOf(Completion, t, k', n', m') && NoneFrom(Completion, t, 0, k');
      FirstLineEnd(Completion, t, k', n', m');
      assert false;
    }
  }

  lemma Opened(body: string)
    ensures OPENING <= OPENING + body && (OPENING + body)[|OPENING|..] == body
  {
  }

  /** What is formatted is what the parser is made for. */
  lemma FormatIsBody(e: Event)
    requires e.ProcessEvent? && Format(e).Some?
    ensures Format(e).value
      == OPENING + Body(e.kind, Strip(e.sid), if e.field.Some? then e.field.value else "?", Strip(e.command), Tail(e))
  {
    hide Strip, Tail;
    var (sid, field, command, tail) := (Strip(e.sid), FieldText(e.field), Strip(e.command), Tail(e));
    OpenedBody(e.kind, sid, field, command, tail);
  }

  lemma OpenedBody(kind: Kind, sid: string, field: string, command: string, tail: string)
    ensures OPENING + Body(kind, sid, field, command, tail)
      == OPENING + sid + Phrase(kind) + field + Middle(kind) + command + Heading(kind) + tail
  {
    hide Phrase, Middle, Heading, OPENING;
  }

  /** For any output, what is displayed for a completion or a watch match are its task id, command and
      exit code or pattern, if and only if these are single lines, the exit code has no closing
      parenthesis, and the task id cannot be mistaken for the start of a longer header. */
  lemma PromptParsesBack(e: Event)
    requires e.ProcessEvent? && Format(e).Some?
    ensures var (sid, field, command) := (Strip(e.sid), if e.field.Some? then e.field.value else "?", Strip(e.command));
      DisplayMeta(Format(e).value)
        == Some(if e.kind.Completion? then CompletionMeta(sid, command, field) else WatchMeta(sid, command, field))
      <==> ReadsBack(e.kind, sid, field, command)
  {
    hide Search, Body, ReadsBack, Strip, Tail, Format;
    var (sid, field, command) := (Strip(e.sid), FieldText(e.field), Strip(e.command));
    var t := Body(e.kind, sid, field, command, Tail(e));
    FormatIsBody(e);
    Opened(t);
    HeaderParsesBack(e.kind, sid, field, command, Tail(e));
    if e.kind.WatchMatch? && ReadsBack(e.kind, sid, field, command) {
      ReadsBackMatches(e.kind, sid, field, command, Tail(e));
      WatchIsNoCompletion(t, |sid|, MiddleFrom(e.kind, sid, field), HeadingFrom(e.kind, sid, field, command));
    }
  }

  /** The header lines of a prompt. */
  function HeaderLines(e: Event): string
    requires e.ProcessEvent?
  {
    OPENING + Strip(e.sid) + Phrase(e.kind) + FieldText(e.field) + Middle(e.kind) + Strip(e.command) + Heading(e.kind)
  }

  lemma HeaderThenTail(e: Event)
    requires e.ProcessEvent? && Format(e).Some?
    ensures Format(e).value == HeaderLines(e) + Tail(e)
  {
    hide Strip, Phrase, Middle, Heading, Format, OPENING, Tail, Body;
    FormatIsBody(e);
    OpenedBody(e.kind, Strip(e.sid), FieldText(e.field), Strip(e.command), Tail(e));
  }

  /** The agent sees the output behind the header: all of it, or its first 4000 characters and a note. Only
      the note on suppressed matches and the closing bracket follow. */
  lemma PromptCarriesOutput(e: Event)
    requires e.ProcessEvent? && Format(e).Some?
    ensures var (p, h, n) := (Format(e).value, |HeaderLines(e)|, if |e.output| <= 4000 then |e.output| else 4000);
      && h + n < |p| && p[..h] == HeaderLines(e) && p[h..][..n] == e.output[..n] && p[|p| - 1] == ']'
      && (|e.output| <= 4000 && (e.kind.Completion? || e.suppressed == "") ==> p[h..] == e.output + "]")
      && (|e.output| > 4000 && (e.kind.Completion? || e.suppressed == "") ==> p[h..] == e.output[..4000] + "\n…(truncated)" + "]")
      && (|e.output| <= 4000 && e.kind.WatchMatch? && e.suppressed != "" ==>
          p[h..] == e.output + "\n(" + e.suppressed + " earlier matches were suppressed by rate limit)]")
  {
    hide *;
    HeaderThenTail(e);
    TailCarries(e);
    CutAtHeader(Format(e).value, HeaderLines(e), Tail(e));
  }

  lemma CutAtHeader(p: string, header: string, tail: string)
    requires p == header + tail && tail != ""
    ensures p[..|header|] == header && p[|header|..] == tail && p[|p| - 1] == tail[|tail| - 1]
  {
  }

  lemma TailCarries(e: Event)
    requires e.ProcessEvent?
    ensures var (t, n) := (Tail(e), if |e.output| <= 4000 then |e.output| else 4000);
      && |t| > n && t[..n] == e.output[..n] && t[|t| - 1] == ']'
      && (|e.output| <= 4000 && (e.kind.Completion? || e.suppressed == "") ==> t == e.output + "]")
      && (|e.output| > 4000 && (e.kind.Completion? || e.suppressed == "") ==> t == e.output[..4000] + "\n…(truncated)" + "]")
      && (|e.output| <= 4000 && e.kind.WatchMatch? && e.suppressed != "" ==>
          t == e.output + "\n(" + e.suppressed + " earlier matches were suppressed by rate limit)]")
  {
    var note := if e.kind.WatchMatch? && e.suppressed != "" then "\n(" + e.suppressed + " earlier matches were suppressed by rate limit)" else "";
    assert Tail(e) == Truncated(e.output) + note + "]";
    assert note == "" ==> Truncated(e.output) + note == Truncated(e.output);
    assert "\n(" + e.suppressed + " earlier matches were suppressed by rate limit)" + "]"
      == "\n(" + e.suppressed + " earlier matches were suppressed by rate limit)]";
  }

  /** Nothing is formatted only for a completion with nothing in it, and for an empty message. */
  lemma FormatsUnlessEmpty(e: Event)
    ensures Format(e) == None <==>
      || (e.Message? && Strip(e.message) == "")
      || (e.ProcessEvent? && e.kind.Completion? && Strip(e.sid) == "" && Strip(e.command) == "" && e.field == None && e.output == "")
  {
    hide Strip, Tail;
  }

  lemma ReadsBackMatches(kind: Kind, sid: string, field: string, command: string, tail: string)
    requires ReadsBack(kind, sid, field, command)
    ensures var t := Body(kind, sid, field, command, tail);
      Matches(kind, t, |sid|, MiddleFrom(kind, sid, field), HeadingFrom(kind, sid, field, command))
  {
    hide Matches, Body;
    OwnMatch(kind, sid, field, command, tail);
  }

  /** `body` is a formatted body: single-line parts, and anything after them. */
  ghost predicate IsBody(body: string) {
    exists kind, sid, field, command, tail ::
      && body == Body(kind, sid, field, command, tail)
      && OneLine(sid) && FieldFits(kind, field, 0, |field|) && OneLine(command)
  }

  /** A match cuts the text into the parts of a body. */
  lemma MatchIsBody(kind: Kind, t: string, k: nat, n: nat, m: nat) returns (tail: string)
    requires Matches(kind, t, k, n, m)
    ensures var h := HeaderOf(kind, t, k, n, m); t == Body(kind, h.sid, h.field, h.command, tail)
  {
    hide Phrase, Middle, Heading, Free, FieldFits;
    var (i, c, e) := (k + |Phrase(kind)|, n + |Middle(kind)|, m + |Heading(kind)|);
    var h := HeaderOf(kind, t, k, n, m);
    tail := t[e..];
    Extend(t, k, i, Phrase(kind));
    Extend(t, i, n, h.field);
    Extend(t, n, c, Middle(kind));
    Extend(t, c, m, h.command);
    Extend(t, m, e, Heading(kind));
    Extend(t, e, |t|, tail);
    assert t[..|t|] == t;
  }

  lemma Extend(t: string, i: nat, j: nat, p: string)
    requires i <= j <= |t| && t[i..j] == p
    ensures t[..i] + p == t[..j]
  {
  }

  /** Something is found exactly in bodies of its kind. */
  lemma FoundInBodies(kind: Kind, t: string)
    ensures Search(kind, t, 0).Some? ==> IsBody(t)
    ensures forall sid, field, command, tail | t == Body(kind, sid, field, command, tail) ::
      OneLine(sid) && FieldFits(kind, field, 0, |field|) && OneLine(command) ==> Search(kind, t, 0).Some?
  {
    hide Body, Matches, HeaderAt, FieldFits, OneLine, Search, Free;
    NothingFree(t);
    SearchDecides(kind, t, 0);
    if Search(kind, t, 0).Some? {
      var k: nat, n: nat, m: nat :| Matches(kind, t, k, n, m) && Search(kind, t, 0).value == HeaderOf(kind, t, k, n, m) && NoneFrom(kind, t, 0, k);
      MatchIsLines(kind, t, k, n, m);
      var tail := MatchIsBody(kind, t, k, n, m);
    }
    forall sid, field, command, tail
      | t == Body(kind, sid, field, command, tail) && OneLine(sid) && FieldFits(kind, field, 0, |field|) && OneLine(command)
      ensures Search(kind, t, 0).Some?
    {
      var (n, m) := (MiddleFrom(kind, sid, field), HeadingFrom(kind, sid, field, command));
      OwnMatch(kind, sid, field, command, tail);
      OneMatch(kind, t, |sid|, n, m);
      MatchIsFree(kind, t, |sid|, n, m);
    }
  }

  /** Free text is displayed as a header exactly when, brackets and all, it is a formatted header: then
      it cannot be told from one. */
  lemma MessagesStayRaw(message: string)
    requires Strip(message) != ""
    ensures var text := "[IMPORTANT: " + Strip(message) + "]";
      && Format(Message(message)) == Some(text)
      && (DisplayMeta(text).Some? <==> OPENING <= text && IsBody(text[|OPENING|..]))
  {
    hide Strip, Search, IsBody;
    var text := "[IMPORTANT: " + Strip(message) + "]";
    if OPENING <= text {
      SearchFindsBodies(text[|OPENING|..]);
    }
  }

  lemma SearchFindsBodies(t: string)
    ensures Search(Completion, t, 0).Some? || Search(WatchMatch, t, 0).Some? <==> IsBody(t)
  {
    hide Search, Body, OneLine, FieldFits;
    FoundInBodies(Completion, t);
    FoundInBodies(WatchMatch, t);
    if IsBody(t) {
      var kind, sid, field, command, tail :|
        t == Body(kind, sid, field, command, tail) && OneLine(sid) && FieldFits(kind, field, 0, |field|) && OneLine(command);
      FoundInBodies(kind, t);
      assert kind == Completion || kind == WatchMatch;
    }
  }

  /** Such a message: it is displayed as the completion of a process. */
  lemma MessageTakenForHeader()
    ensures var message := "Background process " + Body(Completion, "a", "0", "b", "c");
      Format(Message(message)).Some? && DisplayMeta(Format(Message(message)).value) == Some(CompletionMeta("a", "b", "0"))
  {
    hide Strip, Search, Body, ReadsBack, Format;
    var (start, body) := ("Background process ", Body(Completion, "a", "0", "b", "c"));
    BodyEnds(Completion, "a", "0", "b", "c", "]");
    KeepsText(start, body);
    MessageFormats(start, body);
    Opened(body + "]");
    ReadsBackSmall();
    HeaderParsesBack(Completion, "a", "0", "b", "c" + "]");
  }

  lemma KeepsText(start: string, body: string)
    requires start != "" && body != "" && !IsSpace(start[0]) && !IsSpace(body[|body| - 1])
    ensures Strip(start + body) == start + body
  {
    hide IsSpace;
    StripKeeps(start + body);
  }

  lemma MessageFormats(start: string, body: string)
    requires start == "Background process " && Strip(start + body) == start + body
    ensures Format(Message(start + body)) == Some(OPENING + (body + "]"))
  {
    hide Strip;
    assert "[IMPORTANT: " + (start + body) + "]" == OPENING + (body + "]");
  }

  lemma BodyEnds(kind: Kind, sid: string, field: string, command: string, tail: string, more: string)
    ensures var body := Body(kind, sid, field, command, tail);
      && body + more == Body(kind, sid, field, command, tail + more)
      && (tail != "" ==> body != "" && body[|body| - 1] == tail[|tail| - 1])
  {
    hide Phrase, Middle, Heading;
  }

  lemma ReadsBackSmall()
    ensures ReadsBack(Completion, "a", "0", "b")
  {
    hide Phrase;
    PhraseShape(Completion);
    assert forall k | 0 <= k < 1 && Starts("a", k, Phrase(Completion)) :: false;
  }

  /** A task id that is mistaken: it has the phrase in it and no parenthesis after that. */
  lemma MistakenTaskId()
    ensures var e := ProcessEvent(Completion, "job" + Phrase(Completion) + "1", "make", Some("0"), "", "");
      Format(e).Some? && DisplayMeta(Format(e).value) != Some(CompletionMeta(e.sid, "make", "0"))
  {
    hide Strip, Search, Phrase, Format, DisplayMeta, Starts;
    var sid := "job" + Phrase(Completion) + "1";
    var e := ProcessEvent(Completion, sid, "make", Some("0"), "", "");
    assert Strip(sid) == sid && Strip("make") == "make" by {
      StripKeeps(sid);
      StripKeeps("make");
    }
    Formats(e);
    PromptParsesBack(e);
    Occurs("job", Phrase(Completion), "1");
    assert !Unmistakable(Completion, sid) by {
      assert Free(sid, 3 + |Phrase(Completion)|, |sid|, ')');
    }
  }

  lemma Formats(e: Event)
    requires e.ProcessEvent? && e.field.Some?
    ensures Format(e).Some?
  {
  }

  lemma Occurs(a: string, p: string, b: string)
    ensures Starts(a + p + b, |a|, p)
  {
  }
}
