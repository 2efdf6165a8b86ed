/** Saving edited text: the body rebuilt from it, line by line, previews as that text again. */
module DocxSave {
  import opened DocxPreview

  // ---- From text to a body ----

  /** "\r\n" becomes "\n". */
  function Joins(s: string): string {
    if s == [] then []
    else if |s| >= 2 && s[0] == '\r' && s[1] == '\n' then ['\n'] + Joins(s[2..])
    else [s[0]] + Joins(s[1..])
  }

  /** "\r" becomes "\n". */
  function Returns(s: string): string {
    if s == [] then [] else [if s[0] == '\r' then '\n' else s[0]] + Returns(s[1..])
  }

  function Normalised(content: string): string {
    Returns(Joins(content))
  }

  function Split(s: string): (r: seq<string>)
    ensures r != []
  {
    if s == [] then [""]
    else
      var rest := Split(s[1..]);
      if s[0] == '\n' then [""] + rest else [[s[0]] + rest[0]] + rest[1..]
  }

  /** A paragraph made of one line: the stretches between tabs become runs, the tabs elements. */
  function Inlines(line: string, pending: string): seq<Inline> {
    if line == [] then (if pending == "" then [] else [Run(pending)])
    else if line[0] == '\t' then (if pending == "" then [] else [Run(pending)]) + [Foreign([])] + Inlines(line[1..], "")
    else Inlines(line[1..], pending + [line[0]])
  }

  function Paragraphs(lines: seq<string>): seq<Block> {
    if lines == [] then [] else [Paragraph(Inlines(lines[0], ""), true)] + Paragraphs(lines[1..])
  }

  function Sections(body: seq<Block>): seq<Block> {
    if body == [] then [] else (if body[0].Section? then [body[0]] else []) + Sections(body[1..])
  }

  /** Characters that a document can hold: no control characters but tab and line ends, and no
      noncharacters. */
  predicate XmlChar(c: char) {
    c in {'\t', '\n', '\r'} || (c >= ' ' && c != '\U{FFFE}' && c != '\U{FFFF}')
  }

  predicate AllXml(s: string) {
    forall i | 0 <= i < |s| :: XmlChar(s[i])
  }

  datatype Rebuild = Rebuilt(body: seq<Block>) | TooLong | TooManyLines | NotXml

  /** The body after saving `content` over `body`; only section properties stay. */
  function Saved(body: seq<Block>, content: string): Rebuild {
    var text := Normalised(content);
    if |text| > MAX_PREVIEW_CHARS then TooLong
    else if |Split(text)| > MAX_PREVIEW_BLOCKS then TooManyLines
    else if !AllXml(text) then NotXml
    else Rebuilt(Paragraphs(Split(text)) + Sections(body))
  }

  // ---- From a body to text ----

  function WithoutTabs(s: string): string {
    if s == [] then [] else (if s[0] == '\t' then [] else [s[0]]) + WithoutTabs(s[1..])
  }

  function Untabbed(lines: seq<string>): seq<string> {
    if lines == [] then [] else [WithoutTabs(lines[0])] + Untabbed(lines[1..])
  }

  lemma WithoutTabsCons(c: char, s: string)
    ensures WithoutTabs([c] + s) == (if c == '\t' then [] else [c]) + WithoutTabs(s)
  {
    assert ([c] + s)[1..] == s;
  }

  lemma {:induction false} NoTabs(s: string)
    ensures |WithoutTabs(s)| <= |s|
    ensures |WithoutTabs(s)| == |s| <==> '\t' !in s
    ensures '\t' !in s ==> WithoutTabs(s) == s
    decreases |s|
  {
    if s != [] {
      NoTabs(s[1..]);
      assert '\t' in s <==> s[0] == '\t' || '\t' in s[1..];
    }
  }

  lemma {:induction false} ConcatOf(a: seq<string>, b: seq<string>)
    ensures Concat(a + b) == Concat(a) + Concat(b)
    decreases |a|
  {
    if a == [] {
      assert a + b == b;
    } else {
      assert (a + b)[0] == a[0] && (a + b)[1..] == a[1..] + b;
      ConcatOf(a[1..], b);
    }
  }

  lemma {:induction false} TextsOf(a: seq<Inline>, b: seq<Inline>)
    ensures Texts(a + b) == Texts(a) + Texts(b)
    decreases |a|
  {
    if a == [] {
      assert a + b == b;
    } else {
      assert (a + b)[0] == a[0] && (a + b)[1..] == a[1..] + b;
      TextsOf(a[1..], b);
    }
  }

  lemma TextsAppend(a: seq<Inline>, b: seq<Inline>)
    ensures ContentText(a + b) == ContentText(a) + ContentText(b)
  {
    hide Texts, Concat;
    TextsOf(a, b);
    ConcatOf(Texts(a), Texts(b));
  }

  lemma RunText(text: string)
    ensures ContentText(if text == "" then [] else [Run(text)]) == text
    ensures ContentText([Foreign([])]) == ""
  {
    assert [Run(text)][1..] == [] && [Foreign([])][1..] == [];
    assert Texts([Run(text)]) == [text] && [text][1..] == [];
    assert Texts([]) == [];
    assert Concat([text]) == text + Concat([]) && text + "" == text;
  }

  lemma TabSays(own: seq<Inline>, rest: seq<Inline>)
    ensures ContentText(own + [Foreign([])] + rest) == ContentText(own) + ContentText(rest)
  {
    hide ContentText;
    TextsAppend(own + [Foreign([])], rest);
    TextsAppend(own, [Foreign([])]);
    RunText("");
    assert ContentText(own) + "" == ContentText(own);
  }

  /** A rebuilt paragraph says its line without the tabs. */
  lemma {:induction false} InlinesSay(line: string, pending: string)
    ensures ContentText(Inlines(line, pending)) == pending + WithoutTabs(line)
    decreases |line|
  {
    hide ContentText, WithoutTabs;
    RunText(pending);
    if line == [] {
      NothingWithoutTabs();
      assert pending + "" == pending;
    } else {
      var (c, rest) := (line[0], line[1..]);
      assert line == [c] + rest;
      WithoutTabsCons(c, rest);
      if c == '\t' {
        InlinesSay(rest, "");
        TabSays(if pending == "" then [] else [Run(pending)], Inlines(rest, ""));
        assert "" + WithoutTabs(rest) == WithoutTabs(rest) == [] + WithoutTabs(rest);
      } else {
        InlinesSay(rest, pending + [c]);
        assert pending + [c] + WithoutTabs(rest) == pending + ([c] + WithoutTabs(rest));
      }
    }
  }

  lemma NothingWithoutTabs()
    ensures WithoutTabs("") == ""
  {
  }

  lemma {:induction false} SectionsSay(body: seq<Block>, tables: nat)
    ensures Lines(Sections(body), tables) == [] && BlockCount(Sections(body)) == 0 && CellCount(Sections(body)) == 0
    ensures Sections(Sections(body)) == Sections(body)
    decreases |body|
  {
    if body != [] {
      var rest := Sections(body[1..]);
      SectionsSay(body[1..], tables);
      if body[0].Section? {
        assert Sections(body) == [body[0]] + rest && ([body[0]] + rest)[1..] == rest;
      } else {
        assert Sections(body) == rest;
      }
    }
  }

  lemma LinesCons(block: Block, rest: seq<Block>, tables: nat)
    requires block.Paragraph?
    ensures Lines([block] + rest, tables) == [ContentText(block.content)] + Lines(rest, tables)
  {
    assert ([block] + rest)[1..] == rest;
  }

  lemma {:induction false} ParagraphsSay(lines: seq<string>, body: seq<Block>, tables: nat)
    ensures var saved := Paragraphs(lines) + Sections(body);
      && Lines(saved, tables) == Untabbed(lines)
      && BlockCount(saved) == |lines| && CellCount(saved) == 0
      && Sections(saved) == Sections(body)
    decreases |lines|
  {
    hide ContentText, Inlines;
    if lines == [] {
      SectionsSay(body, tables);
      assert [] + Sections(body) == Sections(body);
    } else {
      var block := Paragraph(Inlines(lines[0], ""), true);
      var rest := Paragraphs(lines[1..]) + Sections(body);
      assert Paragraphs(lines) + Sections(body) == [block] + rest;
      assert ([block] + rest)[1..] == rest;
      ParagraphsSay(lines[1..], body, tables);
      InlinesSay(lines[0], "");
      LinesCons(block, rest, tables);
      assert "" + WithoutTabs(lines[0]) == WithoutTabs(lines[0]);
    }
  }

  lemma UntabbedCons(line: string, lines: seq<string>)
    ensures Untabbed([line] + lines) == [WithoutTabs(line)] + Untabbed(lines)
  {
    assert ([line] + lines)[1..] == lines;
  }

  lemma JoinCons(line: string, lines: seq<string>)
    ensures Join("\n", [line] + lines) == line + Prefixed("\n", lines)
    ensures lines != [] ==> Prefixed("\n", lines) == "\n" + Join("\n", lines)
  {
    assert ([line] + lines)[1..] == lines;
  }

  lemma SplitCons(c: char, s: string)
    ensures var rest := Split(s);
      Split([c] + s) == if c == '\n' then [""] + rest else [[c] + rest[0]] + rest[1..]
  {
    assert ([c] + s)[1..] == s;
  }

  lemma JoinFirst(c: char, lines: seq<string>)
    requires lines != []
    ensures Join("\n", [[c] + lines[0]] + lines[1..]) == [c] + Join("\n", lines)
    ensures Join("\n", [""] + lines) == "\n" + Join("\n", lines)
    ensures Join("\n", [lines[0]] + lines[1..]) == Join("\n", lines)
  {
    hide Prefixed;
    JoinCons([c] + lines[0], lines[1..]);
    JoinCons("", lines);
    JoinCons(lines[0], lines[1..]);
  }

  lemma UntabbedFirst(c: char, lines: seq<string>)
    requires lines != []
    ensures Untabbed([""] + lines) == [""] + Untabbed(lines) && Untabbed(lines) != []
    ensures var u := Untabbed(lines);
      Untabbed([[c] + lines[0]] + lines[1..]) == if c == '\t' then u else [[c] + u[0]] + u[1..]
  {
    hide WithoutTabs;
    NothingWithoutTabs();
    UntabbedCons("", lines);
    UntabbedCons([c] + lines[0], lines[1..]);
    WithoutTabsCons(c, lines[0]);
    assert [] + WithoutTabs(lines[0]) == WithoutTabs(lines[0]);
  }

  /** Splitting and joining again loses nothing. */
  lemma {:induction false} SplitJoins(s: string)
    ensures Join("\n", Split(s)) == s
    decreases |s|
  {
    hide Join, Prefixed, Split;
    if s == [] {
      NothingSplit();
    } else {
      var (c, rest) := (s[0], Split(s[1..]));
      assert s == [c] + s[1..];
      SplitJoins(s[1..]);
      SplitCons(c, s[1..]);
      JoinFirst(c, rest);
    }
  }

  /** Lines without their tabs are those of the text without its tabs. */
  lemma {:induction false} UntabbedSplit(s: string)
    ensures Untabbed(Split(s)) == Split(WithoutTabs(s))
    decreases |s|
  {
    hide Untabbed, Split, WithoutTabs;
    if s == [] {
      NothingSplit();
    } else {
      var (c, rest) := (s[0], Split(s[1..]));
      assert s == [c] + s[1..];
      UntabbedSplit(s[1..]);
      SplitCons(c, s[1..]);
      UntabbedFirst(c, rest);
      WithoutTabsCons(c, s[1..]);
      if c == '\t' {
        assert [] + WithoutTabs(s[1..]) == WithoutTabs(s[1..]);
      } else {
        SplitCons(c, WithoutTabs(s[1..]));
      }
    }
  }

  lemma NothingSplit()
    ensures Split("") == [""] && Join("\n", [""]) == "" && WithoutTabs("") == "" && Untabbed([""]) == [""]
  {
    UntabbedCons("", []);
    JoinCons("", []);
    assert [""] + [] == [""];
  }

  /** Whatever text is saved over whatever body, the preview of the result is the text with its line
      ends normalised and its tabs gone, in full. */
  lemma SavePreviews(body: seq<Block>, content: string)
    requires Saved(body, content).Rebuilt?
    ensures Previewed(Saved(body, content).body) == Result(WithoutTabs(Normalised(content)), false)
  {
    hide Previewed, Normalised, Lines, Join, AllXml;
    var (text, saved) := (Normalised(content), Saved(body, content).body);
    ParagraphsSay(Split(text), body, 0);
    UntabbedSplit(text);
    SplitJoins(WithoutTabs(text));
    NoTabs(text);
    PreviewIsRendering(saved);
  }

  // ---- Normalised text, and the identity ----

  lemma {:induction false} JoinsKeep(s: string)
    ensures '\r' !in s ==> Joins(s) == s
    decreases |s|
  {
    if s != [] && !(|s| >= 2 && s[0] == '\r' && s[1] == '\n') {
      JoinsKeep(s[1..]);
      assert s == [s[0]] + s[1..];
    }
  }

  lemma {:induction false} ReturnsKeep(s: string)
    ensures '\r' !in Returns(s) && ('\r' !in s ==> Returns(s) == s)
    decreases |s|
  {
    if s != [] {
      ReturnsKeep(s[1..]);
      assert s == [s[0]] + s[1..];
    }
  }

  /** Normalised text is exactly the text without carriage returns. */
  lemma NormalisedMeans(s: string)
    ensures Normalised(s) == s <==> '\r' !in s
    ensures Normalised(Normalised(s)) == Normalised(s)
  {
    hide Joins, Returns;
    JoinsKeep(s);
    ReturnsKeep(Joins(s));
    ReturnsKeep(s);
    JoinsKeep(Normalised(s));
    ReturnsKeep(Normalised(s));
  }

  lemma JoinsCons(c: char, s: string)
    ensures Joins([c] + s) == if c == '\r' && s != "" && s[0] == '\n' then ['\n'] + Joins(s[1..]) else [c] + Joins(s)
  {
    var all := [c] + s;
    assert all[0] == c && all[1..] == s;
    if s != "" {
      assert all[1] == s[0] && all[2..] == s[1..];
    }
  }

  lemma JoinsConsAppend(c: char, rest: string, b: string)
    requires rest != "" || b == "" || c != '\r' || b[0] != '\n'
    requires Joins(rest + b) == Joins(rest) + Joins(b)
    requires rest != "" && rest[0] == '\n' ==> Joins(rest[1..] + b) == Joins(rest[1..]) + Joins(b)
    ensures Joins([c] + rest + b) == Joins([c] + rest) + Joins(b)
  {
    hide Joins;
    JoinsCons(c, rest);
    JoinsCons(c, rest + b);
    Grouped([c], rest, b);
    if c == '\r' && rest != "" && rest[0] == '\n' {
      Grouped(['\n'], Joins(rest[1..]), Joins(b));
      assert (rest + b)[1..] == rest[1..] + b;
    } else {
      Grouped([c], Joins(rest), Joins(b));
      if rest == "" {
        assert rest + b == b;
      }
    }
  }

  /** Joining line ends goes part by part, unless a "\r\n" is cut in two. */
  lemma {:induction false} JoinsAppend(a: string, b: string)
    requires a == [] || b == [] || a[|a| - 1] != '\r' || b[0] != '\n'
    ensures Joins(a + b) == Joins(a) + Joins(b)
    decreases |a|
  {
    if a == [] {
      assert a + b == b;
    } else {
      hide Joins;
      JoinsAppend(a[1..], b);
      if |a| >= 2 {
        JoinsAppend(a[2..], b);
        assert a[1..][1..] == a[2..];
      }
      JoinsConsAppend(a[0], a[1..], b);
      assert a == [a[0]] + a[1..];
    }
  }

  lemma Grouped(a: string, b: string, c: string)
    ensures a + (b + c) == (a + b) + c
  {
  }

  lemma {:induction false} ReturnsAppend(a: string, b: string)
    ensures Returns(a + b) == Returns(a) + Returns(b)
    decreases |a|
  {
    if a == [] {
      assert a + b == b;
    } else {
      assert (a + b)[0] == a[0] && (a + b)[1..] == a[1..] + b;
      ReturnsAppend(a[1..], b);
    }
  }

  /** Every "\r\n", and every other "\r", is one line end. */
  lemma LineEnds(a: string, b: string)
    ensures Normalised(a + "\r\n" + b) == Normalised(a) + "\n" + Normalised(b)
    ensures b == "" || b[0] != '\n' ==> Normalised(a + "\r" + b) == Normalised(a) + "\n" + Normalised(b)
  {
    JoinedEnd(b);
    hide Joins, Returns;
    assert a + "\r\n" + b == a + ("\r\n" + b) && a + "\r" + b == a + ("\r" + b);
    JoinsAppend(a, "\r\n" + b);
    JoinsAppend(a, "\r" + b);
    ReturnsAppend(Joins(a), ['\n'] + Joins(b));
    ReturnsAppend(Joins(a), ['\r'] + Joins(b));
    ReturnsAppend(['\n'], Joins(b));
    ReturnsAppend(['\r'], Joins(b));
    OneReturn();
  }

  lemma JoinedEnd(b: string)
    ensures Joins("\r\n" + b) == ['\n'] + Joins(b)
    ensures b == "" || b[0] != '\n' ==> Joins("\r" + b) == ['\r'] + Joins(b)
  {
    assert ("\r\n" + b)[2..] == b && ("\r" + b)[1..] == b;
  }

  lemma OneReturn()
    ensures Returns(['\n']) == "\n" && Returns(['\r']) == "\n"
  {
    assert ['\n'][1..] == [] && ['\r'][1..] == [];
  }

  /** Saving and previewing gives the very same text exactly for text without tabs and carriage
      returns. */
  lemma SaveIsIdentity(body: seq<Block>, content: string)
    requires Saved(body, content).Rebuilt?
    ensures Previewed(Saved(body, content).body) == Result(content, false) <==> '\r' !in content && '\t' !in content
  {
    hide Previewed, Normalised;
    SavePreviews(body, content);
    NoTabs(Normalised(content));
    NormalisedMeans(content);
    NormalisedMeans(Normalised(content));
    if '\r' !in content {
      NoTabs(content);
    } else if WithoutTabs(Normalised(content)) == content {
      NoReturnsLeft(Normalised(content));
    }
  }

  lemma {:induction false} NoReturnsLeft(s: string)
    ensures '\r' !in s ==> '\r' !in WithoutTabs(s)
    decreases |s|
  {
    if s != [] {
      NoReturnsLeft(s[1..]);
    }
  }

  // ---- Editable documents ----

  predicate Runs(content: seq<Inline>) {
    forall i | 0 <= i < |content| :: content[i].Run?
  }

  /** A body of plain paragraphs and plain sections only. */
  predicate Editable(body: seq<Block>) {
    forall i | 0 <= i < |body| ::
      match body[i]
      case Paragraph(content, safe) => safe && Runs(content)
      case Section(safe) => safe
      case _ => false
  }

  lemma RunsAppend(a: seq<Inline>, b: seq<Inline>)
    ensures Runs(a + b) <==> Runs(a) && Runs(b)
  {
    if Runs(a + b) {
      assert forall i | 0 <= i < |a| :: a[i] == (a + b)[i];
      assert forall i | 0 <= i < |b| :: b[i] == (a + b)[|a| + i];
    }
  }

  lemma {:induction false} InlinesRun(line: string, pending: string)
    ensures Runs(Inlines(line, pending)) <==> '\t' !in line
    decreases |line|
  {
    if line != [] {
      assert '\t' in line <==> line[0] == '\t' || '\t' in line[1..];
      if line[0] == '\t' {
        var own := (if pending == "" then [] else [Run(pending)]) + [Foreign([])];
        assert own[|own| - 1] == Foreign([]);
        RunsAppend(own, Inlines(line[1..], ""));
      } else {
        InlinesRun(line[1..], pending + [line[0]]);
      }
    }
  }

  lemma EditableCons(block: Block, rest: seq<Block>)
    ensures Editable([block] + rest) <==> Editable([block]) && Editable(rest)
  {
    var all := [block] + rest;
    assert all[0] == [block][0] && forall i | 0 <= i < |rest| :: all[i + 1] == rest[i];
  }

  predicate NoTabIn(lines: seq<string>) {
    forall i | 0 <= i < |lines| :: '\t' !in lines[i]
  }

  lemma {:induction false} ParagraphsEditable(lines: seq<string>, body: seq<Block>)
    requires Editable(body)
    ensures Editable(Paragraphs(lines) + Sections(body)) <==> NoTabIn(lines)
    decreases |lines|
  {
    hide Editable, Runs, Inlines;
    if lines == [] {
      SectionsEditable(body);
      assert [] + Sections(body) == Sections(body);
    } else {
      var block := Paragraph(Inlines(lines[0], ""), true);
      assert Paragraphs(lines) + Sections(body) == [block] + (Paragraphs(lines[1..]) + Sections(body));
      EditableCons(block, Paragraphs(lines[1..]) + Sections(body));
      OneEditable(Inlines(lines[0], ""));
      InlinesRun(lines[0], "");
      ParagraphsEditable(lines[1..], body);
      assert NoTabIn(lines) <==> '\t' !in lines[0] && NoTabIn(lines[1..]) by {
        assert lines == [lines[0]] + lines[1..];
      }
    }
  }

  lemma OneEditable(content: seq<Inline>)
    ensures Editable([Paragraph(content, true)]) <==> Runs(content)
  {
    assert [Paragraph(content, true)][0] == Paragraph(content, true);
  }

  lemma {:induction false} SectionsEditable(body: seq<Block>)
    requires Editable(body)
    ensures Editable(Sections(body))
    decreases |body|
  {
    if body != [] {
      assert body == [body[0]] + body[1..];
      EditableCons(body[0], body[1..]);
      SectionsEditable(body[1..]);
      EditableCons(body[0], Sections(body[1..]));
      assert [] + Sections(body[1..]) == Sections(body[1..]);
    }
  }

  lemma {:induction false} SplitTabs(s: string)
    ensures NoTabIn(Split(s)) <==> '\t' !in s
    decreases |s|
  {
    if s != [] {
      var (r, rest) := (Split(s), Split(s[1..]));
      SplitTabs(s[1..]);
      assert '\t' in s <==> s[0] == '\t' || '\t' in s[1..];
      if s[0] == '\n' {
        assert r[0] == "" && forall i | 0 <= i < |rest| :: r[i + 1] == rest[i];
      } else {
        assert r[0] == [s[0]] + rest[0] && forall i | 0 < i < |rest| :: r[i] == rest[i];
      }
    }
  }

  predicate LinesXml(lines: seq<string>) {
    forall i | 0 <= i < |lines| :: AllXml(lines[i])
  }

  lemma XmlCons(c: char, s: string)
    ensures AllXml([c] + s) <==> XmlChar(c) && AllXml(s)
  {
    hide XmlChar;
    var all := [c] + s;
    assert all[0] == c && forall i | 0 <= i < |s| :: all[i + 1] == s[i];
  }

  /** A text can be held exactly when each of its lines can. */
  lemma {:induction false} SplitXml(s: string)
    ensures LinesXml(Split(s)) <==> AllXml(s)
    decreases |s|
  {
    if s != [] {
      hide AllXml, XmlChar;
      var (r, rest) := (Split(s), Split(s[1..]));
      SplitXml(s[1..]);
      assert s == [s[0]] + s[1..];
      XmlCons(s[0], s[1..]);
      if s[0] == '\n' {
        LineEndIsXml();
        assert r[0] == "" && forall i | 0 <= i < |rest| :: r[i + 1] == rest[i];
        assert forall i | 0 < i < |r| :: r[i] == rest[i - 1];
      } else {
        XmlCons(s[0], rest[0]);
        assert r[0] == [s[0]] + rest[0] && forall i | 0 < i < |rest| :: r[i] == rest[i];
      }
    }
  }

  lemma LineEndIsXml()
    ensures XmlChar('\n') && AllXml("")
  {
  }

  /** Goes through the body, and through the runs of each paragraph, up to the first thing that is not
      plain. */
  method DocxEditability(body: seq<Block>) returns (editable: bool)
    ensures editable <==> Editable(body)
  {
    for i := 0 to |body|
      invariant forall k | 0 <= k < i :: body[k].Paragraph? || (body[k].Section? && body[k].safe)
    {
      if !body[i].Paragraph? && !body[i].Section? {
        return false;
      }
      if body[i].Section? && !body[i].safe {
        return false;
      }
    }
    for i := 0 to |body|
      invariant forall k | 0 <= k < i && body[k].Paragraph? :: body[k].safe && Runs(body[k].content)
    {
      if body[i].Paragraph? {
        if !body[i].safe {
          return false;
        }
        var content := body[i].content;
        for j := 0 to |content|
          invariant forall k | 0 <= k < j :: content[k].Run?
        {
          if content[j].Foreign? {
            return false;
          }
        }
      }
    }
    return true;
  }

  /** Saving keeps every section of the body, as often as it is there, and adds none. */
  lemma SavedKeepsSections(body: seq<Block>, content: string, block: Block)
    requires Saved(body, content).Rebuilt? && block.Section?
    ensures multiset(Saved(body, content).body)[block] == multiset(body)[block]
  {
    hide Normalised;
    SectionsCount(body, block);
    ParagraphsCount(Split(Normalised(content)), block);
  }

  lemma {:induction false} SectionsCount(body: seq<Block>, block: Block)
    requires block.Section?
    ensures multiset(Sections(body))[block] == multiset(body)[block]
    decreases |body|
  {
    if body != [] {
      assert body == [body[0]] + body[1..];
      SectionsCount(body[1..], block);
    }
  }

  lemma {:induction false} ParagraphsCount(lines: seq<string>, block: Block)
    requires block.Section?
    ensures multiset(Paragraphs(lines))[block] == 0
    decreases |lines|
  {
    if lines != [] {
      ParagraphsCount(lines[1..], block);
    }
  }

  // ---- Saving a document ----

  datatype Save = Accepted(body: seq<Block>, text: string) | NotEditable | Rejected(why: Rebuild) | SavedNotEditable

  predicate CanEdit(body: seq<Block>) {
    !Previewed(body).truncated && Editable(body)
  }

  /** Saving over an editable document; what was saved must be editable too. */
  function SaveDocument(body: seq<Block>, content: string): Save {
    if !CanEdit(body) then NotEditable
    else
      var saved := Saved(body, content);
      if !saved.Rebuilt? then Rejected(saved)
      else if !CanEdit(saved.body) then SavedNotEditable
      else Accepted(saved.body, Previewed(saved.body).text)
  }

  /** What a document cannot hold: control characters but tab and line end, and two noncharacters. */
  predicate Refused(c: char) {
    (c as int < 0x20 && c != '\t' && c != '\n') || c as int in {0xFFFE, 0xFFFF}
  }

  /** Each way for a save to fail, in terms of the document and the normalised text: only the first that
      applies is reported. */
  lemma SaveFails(body: seq<Block>, content: string)
    ensures var (r, text) := (SaveDocument(body, content), Normalised(content));
      && (r.NotEditable? <==> Previewed(body).truncated || !Editable(body))
      && (r == Rejected(TooLong) <==> !r.NotEditable? && |text| > 120_000)
      && (r == Rejected(TooManyLines) <==> !r.NotEditable? && |text| <= 120_000 && |Split(text)| > 2_000)
      && (r == Rejected(NotXml) <==> !r.NotEditable? && |text| <= 120_000 && |Split(text)| <= 2_000 && exists c | c in text :: Refused(c))
      && (r.SavedNotEditable? <==>
          !r.NotEditable? && |text| <= 120_000 && |Split(text)| <= 2_000 && '\t' in text && forall c | c in text :: !Refused(c))
  {
    hide Previewed, Editable, Paragraphs, Sections, Split, Normalised;
    var text := Normalised(content);
    NormalisedMeans(content);
    NormalisedMeans(text);
    assert AllXml(text) <==> forall c | c in text :: !Refused(c) by {
      forall i | 0 <= i < |text| ensures XmlChar(text[i]) <==> !Refused(text[i]) {
        assert text[i] in text;
      }
    }
    if CanEdit(body) {
      SaveRoundTrips(body, content);
    }
  }

  /** Saving over an editable document is accepted exactly for text within the limits, without tabs,
      and of characters a document can hold. The new preview is that text, and saving it once more changes nothing at all. */
  lemma SaveRoundTrips(body: seq<Block>, content: string)
    requires CanEdit(body)
    ensures var (r, text) := (SaveDocument(body, content), Normalised(content));
      && (r.Accepted? <==> |text| <= MAX_PREVIEW_CHARS && |Split(text)| <= MAX_PREVIEW_BLOCKS && '\t' !in text && AllXml(text))
      && (r.Accepted? ==> r.text == text && SaveDocument(r.body, r.text) == r)
  {
    hide Previewed, Normalised, Editable, Paragraphs, Sections, Split, AllXml;
    var (r, text) := (SaveDocument(body, content), Normalised(content));
    NormalisedMeans(content);
    if Saved(body, content).Rebuilt? {
      SavePreviews(body, content);
      NoTabs(text);
      ParagraphsEditable(Split(text), body);
      SplitTabs(text);
      ParagraphsSay(Split(text), body, 0);
    }
  }

  /** Opening an editable document and saving its preview unedited is accepted, and keeps the text,
      exactly when the text has no tabs, only characters a document can hold and, once its carriage
      returns are line ends, no more than the allowed number of lines. */
  lemma UneditedSave(body: seq<Block>)
    requires CanEdit(body)
    ensures var text := Rendering(body);
      SaveDocument(body, Previewed(body).text).Accepted? <==>
      |Split(Normalised(text))| <= MAX_PREVIEW_BLOCKS && '\t' !in Normalised(text) && AllXml(Normalised(text))
    ensures var (text, r) := (Rendering(body), SaveDocument(body, Previewed(body).text));
      r.Accepted? ==> r.text == Normalised(text)
  {
    hide Previewed, Normalised, Editable, Rendering, Split, SaveDocument, AllXml;
    PreviewIsRendering(body);
    SaveRoundTrips(body, Previewed(body).text);
    NormalisedShrinks(Rendering(body));
  }

  lemma NormalisedShrinks(s: string)
    ensures |Normalised(s)| <= |s|
  {
    JoinsShrink(s);
    ReturnsShrink(Joins(s));
  }

  lemma {:induction false} JoinsShrink(s: string)
    ensures |Joins(s)| <= |s|
    decreases |s|
  {
    if s != [] {
      JoinsShrink(s[1..]);
      if |s| >= 2 {
        JoinsShrink(s[2..]);
      }
    }
  }

  lemma {:induction false} ReturnsShrink(s: string)
    ensures |Returns(s)| <= |s|
    decreases |s|
  {
    if s != [] {
      ReturnsShrink(s[1..]);
    }
  }

  // ---- The loops ----

  lemma NothingLeft()
    ensures Sections([]) == [] && Paragraphs([]) == []
  {
  }

  lemma SectionsNext(body: seq<Block>, i: nat)
    requires i < |body|
    ensures Sections(body[i..]) == (if body[i].Section? then [body[i]] else []) + Sections(body[i + 1..])
  {
    assert body[i..][1..] == body[i + 1..];
  }

  lemma ParagraphsNext(lines: seq<string>, i: nat)
    requires i < |lines|
    ensures Paragraphs(lines[i..]) == [Paragraph(Inlines(lines[i], ""), true)] + Paragraphs(lines[i + 1..])
  {
    assert lines[i..][1..] == lines[i + 1..];
  }

  /** Removes everything but section properties, then adds a paragraph for each line before them. */
  method BodyFromText(body: seq<Block>, content: string) returns (r: Rebuild)
    ensures r == Saved(body, content)
  {
    hide Normalised, Inlines, Split, Paragraphs, Sections, AllXml;
    var text := Normalised(content);
    if |text| > MAX_PREVIEW_CHARS {
      return TooLong;
    }
    var lines := Split(text);
    if |lines| > MAX_PREVIEW_BLOCKS {
      return TooManyLines;
    }
    var kept, i := [], 0;
    assert body[0..] == body;
    while i < |body|
      invariant 0 <= i <= |body| && kept + Sections(body[i..]) == Sections(body)
    {
      SectionsNext(body, i);
      if body[i].Section? {
        kept := kept + [body[i]];
      }
      i := i + 1;
    }
    NothingLeft();
    assert body[i..] == [] && kept == Sections(body);
    SplitXml(text);
    var added := [];
    i := 0;
    assert lines[0..] == lines;
    while i < |lines|
      invariant 0 <= i <= |lines| && added + Paragraphs(lines[i..]) == Paragraphs(lines)
      invariant forall k | 0 <= k < i :: AllXml(lines[k])
    {
      if !AllXml(lines[i]) {
        return NotXml;
      }
      ParagraphsNext(lines, i);
      added := added + [Paragraph(Inlines(lines[i], ""), true)];
      i := i + 1;
    }
    assert lines[i..] == [] && added == Paragraphs(lines);
    return Rebuilt(added + kept);
  }
}
