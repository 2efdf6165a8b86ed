/** The bounded preview builder, and the rendering of a docx body into it. */
module DocxPreview {
  import opened Text

  const MAX_PREVIEW_CHARS: nat := 120000
  const MAX_PREVIEW_BLOCKS: nat := 2000
  const MAX_TABLE_CELLS: nat := 5000
  const TRUNCATED_NOTICE := "[Preview truncated: Office content exceeds safe limits]"

  // ---- Documents ----

  /** What a paragraph holds: run text, or an element of another kind with the texts found inside. */
  datatype Inline = Run(text: string) | Foreign(texts: seq<string>)

  datatype CellChild = CellParagraph(content: seq<Inline>) | OtherInCell
  datatype RowChild = Cell(children: seq<CellChild>) | OtherInRow
  datatype TableChild = Row(cells: seq<RowChild>) | OtherInTable

  /** `safe` means that the properties of a paragraph or of a section are the plain ones. */
  datatype Block = Paragraph(content: seq<Inline>, safe: bool) | Table(rows: seq<TableChild>) | Section(safe: bool) | OtherBlock

  // ---- What a document says, without limits ----

  function Concat(texts: seq<string>): string {
    if texts == [] then "" else texts[0] + Concat(texts[1..])
  }

  /** Every text preceded by the separator. */
  function Prefixed(separator: string, texts: seq<string>): string {
    if texts == [] then "" else separator + texts[0] + Prefixed(separator, texts[1..])
  }

  function Join(separator: string, texts: seq<string>): string {
    if texts == [] then "" else texts[0] + Prefixed(separator, texts[1..])
  }

  /** All texts of a paragraph, in document order. */
  function Texts(content: seq<Inline>): seq<string> {
    if content == [] then []
    else (match content[0] case Run(text) => [text] case Foreign(texts) => texts) + Texts(content[1..])
  }

  function ContentText(content: seq<Inline>): string {
    Concat(Texts(content))
  }

  function CellLines(children: seq<CellChild>): seq<string> {
    if children == [] then []
    else (if children[0].CellParagraph? then [ContentText(children[0].content)] else []) + CellLines(children[1..])
  }

  function CellTexts(cells: seq<RowChild>): seq<string> {
    if cells == [] then []
    else (if cells[0].Cell? then [Join("\n", CellLines(cells[0].children))] else []) + CellTexts(cells[1..])
  }

  function RowLines(rows: seq<TableChild>): seq<string> {
    if rows == [] then []
    else (if rows[0].Row? then [Join("\t", CellTexts(rows[0].cells))] else []) + RowLines(rows[1..])
  }

  function Decimal(n: nat): string {
    if n < 10 then ["0123456789"[n]] else Decimal(n / 10) + ["0123456789"[n % 10]]
  }

  /** One line for a paragraph; a numbered title and one line a row for a table. */
  function BlockLines(block: Block, tables: nat): seq<string> {
    match block
    case Paragraph(content, _) => [ContentText(content)]
    case Table(rows) => ["Table " + Decimal(tables + 1)] + RowLines(rows)
    case _ => []
  }

  function Tables(block: Block): nat {
    if block.Table? then 1 else 0
  }

  function Lines(blocks: seq<Block>, tables: nat): seq<string> {
    if blocks == [] then [] else BlockLines(blocks[0], tables) + Lines(blocks[1..], tables + Tables(blocks[0]))
  }

  function Rendering(blocks: seq<Block>): string {
    Join("\n", Lines(blocks, 0))
  }

  /** The number a string of digits stands for. */
  function Value(digits: string): nat {
    if digits == "" then 0
    else 10 * Value(digits[..|digits| - 1]) + (if '0' <= digits[|digits| - 1] <= '9' then (digits[|digits| - 1] - '0') as nat else 0)
  }

  /** A number is printed with digits only, reads back, and has no leading zero. */
  lemma {:induction false} DecimalReads(n: nat)
    ensures var d := Decimal(n); Value(d) == n && (forall i | 0 <= i < |d| :: '0' <= d[i] <= '9') && d != "" && (n > 0 ==> d[0] != '0')
    decreases n
  {
    var last := "0123456789"[n % 10];
    DigitReads(n % 10);
    if n >= 10 {
      DecimalReads(n / 10);
      var front := Decimal(n / 10);
      assert (front + [last])[..|front|] == front;
    } else {
      assert [last][..0] == "";
    }
  }

  lemma DigitReads(n: nat)
    requires n < 10
    ensures "0123456789"[n] == '0' + n as char
  {
  }

  function BlockCount(blocks: seq<Block>): nat {
    if blocks == [] then 0 else (if blocks[0].Section? then 0 else 1) + BlockCount(blocks[1..])
  }

  function RowCells(cells: seq<RowChild>): nat {
    if cells == [] then 0 else (if cells[0].Cell? then 1 else 0) + RowCells(cells[1..])
  }

  function TableCells(rows: seq<TableChild>): nat {
    if rows == [] then 0 else (if rows[0].Row? then RowCells(rows[0].cells) else 0) + TableCells(rows[1..])
  }

  function BlockCells(block: Block): nat {
    if block.Table? then TableCells(block.rows) else 0
  }

  function CellCount(blocks: seq<Block>): nat {
    if blocks == [] then 0 else BlockCells(blocks[0]) + CellCount(blocks[1..])
  }

  // ---- The builder as a value ----

  datatype Preview = Preview(limit: nat, text: string, started: bool, truncated: bool)

  function Take(p: Preview, piece: string): Preview {
    if p.truncated || piece == "" then p
    else if |p.text| >= p.limit then p.(truncated := true)
    else if |piece| > p.limit - |p.text| then p.(text := p.text + StripRight(piece[..p.limit - |p.text|]), truncated := true)
    else p.(text := p.text + piece)
  }

  /** What is asked of a builder: some text, the start of a line, or to stop. */
  datatype Op = Piece(text: string) | Line | Cut

  function Step(p: Preview, op: Op): (r: Preview)
    ensures r.limit == p.limit && (p.started ==> r.started)
  {
    match op
    case Piece(text) => Take(p.(started := true), text)
    case Line => if p.started then Take(p, "\n") else p.(started := true)
    case Cut => p.(truncated := true)
  }

  /** Operations up to the one that exceeds the limit. */
  function Feed(p: Preview, ops: seq<Op>): (r: Preview)
    ensures r.limit == p.limit && (p.started ==> r.started)
    decreases |ops|
  {
    if ops == [] || p.truncated then p else Feed(Step(p, ops[0]), ops[1..])
  }

  /** What the operations write when there is no limit. */
  function Written(ops: seq<Op>, started: bool): string
    decreases |ops|
  {
    if ops == [] then ""
    else
      match ops[0]
      case Piece(text) => text + Written(ops[1..], true)
      case Line => (if started then "\n" else "") + Written(ops[1..], true)
      case Cut => Written(ops[1..], started)
  }

  lemma TakeMeans(p: Preview, piece: string)
    requires |p.text| <= p.limit && !p.truncated
    ensures var (r, all) := (Take(p, piece), p.text + piece);
      && |r.text| <= p.limit && r.text <= all
      && (r.truncated <==> |all| > p.limit)
      && (!r.truncated ==> r.text == all)
      && (r.truncated ==> Blank(all[|r.text|..p.limit]))
      && (|r.text| > |p.text| && r.truncated ==> !IsSpace(r.text[|r.text| - 1]))
  {
    var room := p.limit - |p.text|;
    if |piece| > room {
      var cut := piece[..room];
      StripRightTakesBlanks(cut);
      assert (p.text + piece)[|p.text| + |StripRight(cut)|..p.limit] == cut[|StripRight(cut)|..];
    }
  }

  /** A builder writes everything there is, or a prefix of it that misses nothing but whitespace
      within the limit, unless it was told to stop; it says which. */
  lemma {:induction false} FeedMeans(p: Preview, ops: seq<Op>)
    requires |p.text| <= p.limit && !p.truncated
    ensures var (r, all) := (Feed(p, ops), p.text + Written(ops, p.started));
      && |r.text| <= p.limit && r.text <= all
      && (r.truncated <==> Cut in ops || |all| > p.limit)
      && (!r.truncated ==> r.text == all)
      && (r.truncated && Cut !in ops ==> Blank(all[|r.text|..p.limit]))
    decreases |ops|
  {
    hide Take, Blank, Step, Written;
    WrittenNext(ops, p.started);
    if ops != [] && ops[0] != Cut {
      var piece := PieceOf(ops[0], p.started);
      var (p', rest) := (Step(p, ops[0]), Written(ops[1..], true));
      TakeMeans(p, piece);
      StepTakes(p, ops[0], piece);
      Regroup(p.text, piece, rest, p.limit);
      if !p'.truncated {
        FeedMeans(p', ops[1..]);
      }
    } else if ops != [] {
      CutTruncates(p);
    }
  }

  function PieceOf(op: Op, started: bool): string {
    match op
    case Piece(text) => text
    case Line => if started then "\n" else ""
    case Cut => ""
  }

  lemma WrittenNext(ops: seq<Op>, started: bool)
    ensures ops == [] ==> Written(ops, started) == ""
    ensures ops != [] && ops[0] != Cut ==> Written(ops, started) == PieceOf(ops[0], started) + Written(ops[1..], true)
  {
  }

  lemma CutTruncates(p: Preview)
    ensures Step(p, Cut) == p.(truncated := true)
  {
  }

  /** What is cut off at a limit within the first two parts does not depend on the third. */
  lemma Regroup(a: string, b: string, c: string, limit: nat)
    ensures a + (b + c) == (a + b) + c && a + b <= (a + b) + c
    ensures |a + b| >= limit ==> forall k | 0 <= k <= limit :: ((a + b) + c)[k..limit] == (a + b)[k..limit]
  {
    assert a + (b + c) == (a + b) + c;
    if |a + b| >= limit {
      forall k | 0 <= k <= limit ensures ((a + b) + c)[k..limit] == (a + b)[k..limit] {
      }
    }
  }

  lemma StepTakes(p: Preview, op: Op, piece: string)
    requires op != Cut && piece == PieceOf(op, p.started)
    ensures Step(p, op) == Take(p, piece).(started := true)
  {
    TakeEmpty(p);
    TakeStarted(p, piece);
  }

  lemma TakeEmpty(p: Preview)
    ensures Take(p, "") == p
  {
  }

  lemma TakeStarted(p: Preview, piece: string)
    ensures Take(p.(started := true), piece) == Take(p, piece).(started := true)
  {
  }

  lemma {:induction false} FeedAppend(p: Preview, a: seq<Op>, b: seq<Op>)
    ensures Feed(p, a + b) == Feed(Feed(p, a), b)
    decreases |a|
  {
    if a == [] {
      assert a + b == b;
    } else if !p.truncated {
      assert (a + b)[0] == a[0] && (a + b)[1..] == a[1..] + b;
      FeedAppend(Step(p, a[0]), a[1..], b);
    }
  }

  // ---- What is asked of the builder for a document ----

  function Pieces(texts: seq<string>): seq<Op> {
    if texts == [] then [] else (if texts[0] != "" then [Piece(texts[0])] else []) + Pieces(texts[1..])
  }

  function CellOps(children: seq<CellChild>, first: bool): seq<Op> {
    if children == [] then []
    else if !children[0].CellParagraph? then CellOps(children[1..], first)
    else (if first then [] else [Piece("\n")]) + Pieces(Texts(children[0].content)) + CellOps(children[1..], false)
  }

  function RowOps(cells: seq<RowChild>, first: bool, seen: nat): seq<Op> {
    if cells == [] then []
    else if !cells[0].Cell? then RowOps(cells[1..], first, seen)
    else
      OneCellOps(cells[0].children, first, seen) + RowOps(cells[1..], false, seen + 1)
  }

  function OneCellOps(children: seq<CellChild>, first: bool, seen: nat): seq<Op> {
    (if seen + 1 > MAX_TABLE_CELLS then [Cut] else []) + (if first then [] else [Piece("\t")]) + CellOps(children, true)
  }

  function TableOps(rows: seq<TableChild>, seen: nat): seq<Op> {
    if rows == [] then []
    else if !rows[0].Row? then TableOps(rows[1..], seen)
    else [Line] + RowOps(rows[0].cells, true, seen) + TableOps(rows[1..], seen + RowCells(rows[0].cells))
  }

  function OneBlockOps(block: Block, cells: nat, tables: nat): seq<Op> {
    match block
    case Paragraph(content, _) => [Line] + Pieces(Texts(content))
    case Table(rows) => [Line, Piece("Table " + Decimal(tables + 1))] + TableOps(rows, cells)
    case _ => []
  }

  /** `seen`, `cells` and `tables` count what came before. */
  function BlockOps(blocks: seq<Block>, seen: nat, cells: nat, tables: nat): seq<Op> {
    if blocks == [] then []
    else
      var (block, seen') := (blocks[0], if blocks[0].Section? then seen else seen + 1);
      (if !block.Section? && seen' > MAX_PREVIEW_BLOCKS then [Cut] else []) + OneBlockOps(block, cells, tables)
      + BlockOps(blocks[1..], seen', cells + BlockCells(block), tables + Tables(block))
  }

  lemma {:induction false} WrittenAppend(a: seq<Op>, b: seq<Op>)
    ensures Written(a + b, true) == Written(a, true) + Written(b, true)
    decreases |a|
  {
    if a == [] {
      assert a + b == b;
    } else {
      assert (a + b)[0] == a[0] && (a + b)[1..] == a[1..] + b;
      WrittenAppend(a[1..], b);
    }
  }

  /** The same for three parts, and where to stop. */
  lemma Parts(a: seq<Op>, b: seq<Op>, c: seq<Op>)
    ensures Written(a + b + c, true) == Written(a, true) + Written(b, true) + Written(c, true)
    ensures Cut in a + b + c <==> Cut in a || Cut in b || Cut in c
  {
    WrittenAppend(a + b, c);
    WrittenAppend(a, b);
  }

  lemma WrittenOne(op: Op)
    ensures Written([op], true) == match op case Piece(text) => text case Line => "\n" case Cut => ""
  {
  }

  lemma NothingWritten()
    ensures forall started :: Written([], started) == ""
  {
  }

  lemma {:induction false} PiecesWrite(texts: seq<string>)
    ensures Written(Pieces(texts), true) == Concat(texts)
    ensures Cut !in Pieces(texts)
    decreases |texts|
  {
    hide Written;
    NothingWritten();
    if texts != [] {
      var one := if texts[0] != "" then [Piece(texts[0])] else [];
      PiecesWrite(texts[1..]);
      WrittenAppend(one, Pieces(texts[1..]));
      WrittenOne(Piece(texts[0]));
      assert Written(one, true) == texts[0];
    }
  }

  /** Text first, then separators. */
  function Joined(first: bool, separator: string, texts: seq<string>): string {
    if first then Join(separator, texts) else Prefixed(separator, texts)
  }

  lemma JoinedCons(first: bool, separator: string, text: string, texts: seq<string>)
    ensures Joined(first, separator, [text] + texts) == (if first then "" else separator) + text + Joined(false, separator, texts)
  {
    assert ([text] + texts)[1..] == texts;
  }

  lemma NothingJoined(first: bool, separator: string)
    ensures Joined(first, separator, []) == ""
  {
  }

  lemma FirstJoined(separator: string, texts: seq<string>)
    ensures Joined(true, separator, texts) == Join(separator, texts) && Joined(false, separator, texts) == Prefixed(separator, texts)
  {
  }

  lemma Separates(first: bool, separator: string)
    ensures var start := if first then [] else [Piece(separator)];
      Written(start, true) == (if first then "" else separator) && Cut !in start
  {
    WrittenOne(Piece(separator));
  }

  lemma {:induction false} CellWrites(children: seq<CellChild>, first: bool)
    ensures Written(CellOps(children, first), true) == Joined(first, "\n", CellLines(children))
    ensures Cut !in CellOps(children, first)
    decreases |children|
  {
    hide Written, Joined;
    NothingJoined(first, "\n");
    NothingWritten();
    if children != [] {
      var lines := CellLines(children[1..]);
      if !children[0].CellParagraph? {
        CellWrites(children[1..], first);
        assert [] + lines == lines;
      } else {
        var texts := Texts(children[0].content);
        Parts(if first then [] else [Piece("\n")], Pieces(texts), CellOps(children[1..], false));
        Separates(first, "\n");
        PiecesWrite(texts);
        CellWrites(children[1..], false);
        JoinedCons(first, "\n", Concat(texts), lines);
      }
    }
  }

  lemma CutOnce(cut: bool)
    ensures var op := if cut then [Cut] else []; Written(op, true) == "" && (Cut in op <==> cut)
  {
  }

  lemma OneCellWrites(children: seq<CellChild>, first: bool, seen: nat)
    ensures Written(OneCellOps(children, first, seen), true) == (if first then "" else "\t") + Join("\n", CellLines(children))
    ensures Cut in OneCellOps(children, first, seen) <==> seen + 1 > MAX_TABLE_CELLS
  {
    hide Written, Joined, CellOps, Join;
    Parts(if seen + 1 > MAX_TABLE_CELLS then [Cut] else [], if first then [] else [Piece("\t")], CellOps(children, true));
    CutOnce(seen + 1 > MAX_TABLE_CELLS);
    Separates(first, "\t");
    CellWrites(children, true);
    FirstJoined("\n", CellLines(children));
  }

  lemma {:induction false} RowWrites(cells: seq<RowChild>, first: bool, seen: nat)
    ensures Written(RowOps(cells, first, seen), true) == Joined(first, "\t", CellTexts(cells))
    ensures seen <= MAX_TABLE_CELLS ==> (Cut in RowOps(cells, first, seen) <==> seen + RowCells(cells) > MAX_TABLE_CELLS)
    decreases |cells|
  {
    hide Written, Joined, OneCellOps, Join, CellLines;
    NothingJoined(first, "\t");
    NothingWritten();
    if cells != [] {
      var texts := CellTexts(cells[1..]);
      if !cells[0].Cell? {
        RowWrites(cells[1..], first, seen);
        assert [] + texts == texts;
      } else {
        var own, rest := OneCellOps(cells[0].children, first, seen), RowOps(cells[1..], false, seen + 1);
        WrittenAppend(own, rest);
        OneCellWrites(cells[0].children, first, seen);
        RowWrites(cells[1..], false, seen + 1);
        JoinedCons(first, "\t", Join("\n", CellLines(cells[0].children)), texts);
      }
    }
  }

  lemma TableParts(rows: seq<TableChild>, seen: nat)
    requires rows != []
    ensures var (row, rest) := (rows[0], rows[1..]);
      if row.Row? then
        && TableOps(rows, seen) == [Line] + RowOps(row.cells, true, seen) + TableOps(rest, seen + RowCells(row.cells))
        && RowLines(rows) == [Join("\t", CellTexts(row.cells))] + RowLines(rest)
        && TableCells(rows) == RowCells(row.cells) + TableCells(rest)
      else TableOps(rows, seen) == TableOps(rest, seen) && RowLines(rows) == RowLines(rest) && TableCells(rows) == TableCells(rest)
  {
    hide RowOps, RowCells, Join, CellTexts;
  }

  lemma {:induction false} TableWrites(rows: seq<TableChild>, seen: nat)
    ensures Written(TableOps(rows, seen), true) == Joined(false, "\n", RowLines(rows))
    ensures seen <= MAX_TABLE_CELLS ==> (Cut in TableOps(rows, seen) <==> seen + TableCells(rows) > MAX_TABLE_CELLS)
    decreases |rows|
  {
    hide Written, RowOps, Joined, RowCells, Join, Prefixed, CellTexts;
    if rows == [] {
      NothingJoined(false, "\n");
      NothingWritten();
    } else {
      hide TableOps, RowLines, TableCells;
      TableParts(rows, seen);
      if !rows[0].Row? {
        TableWrites(rows[1..], seen);
      } else {
        var cells := rows[0].cells;
        Parts([Line], RowOps(cells, true, seen), TableOps(rows[1..], seen + RowCells(cells)));
        WrittenOne(Line);
        RowWrites(cells, true, seen);
        FirstJoined("\t", CellTexts(cells));
        TableWrites(rows[1..], seen + RowCells(cells));
        JoinedCons(false, "\n", Join("\t", CellTexts(cells)), RowLines(rows[1..]));
      }
    }
  }

  lemma {:induction false} PrefixedAppend(separator: string, a: seq<string>, b: seq<string>)
    ensures Prefixed(separator, a + b) == Prefixed(separator, a) + Prefixed(separator, b)
    decreases |a|
  {
    if a == [] {
      assert a + b == b;
    } else {
      assert (a + b)[0] == a[0] && (a + b)[1..] == a[1..] + b;
      PrefixedAppend(separator, a[1..], b);
    }
  }

  lemma JoinedAppend(first: bool, separator: string, a: seq<string>, b: seq<string>)
    ensures Joined(first, separator, a + b) == Joined(first, separator, a) + Joined(first && a == [], separator, b)
  {
    hide Prefixed;
    PrefixedAppend(separator, a, b);
    if a == [] {
      assert a + b == b;
    } else if first {
      assert (a + b)[0] == a[0] && (a + b)[1..] == a[1..] + b;
      PrefixedAppend(separator, a[1..], b);
    }
  }

  lemma OneBlockWrites(block: Block, cells: nat, tables: nat)
    ensures Written(OneBlockOps(block, cells, tables), true) == Joined(false, "\n", BlockLines(block, tables))
    ensures cells <= MAX_TABLE_CELLS ==>
      (Cut in OneBlockOps(block, cells, tables) <==> cells + BlockCells(block) > MAX_TABLE_CELLS)
  {
    hide Written, TableOps, Pieces, Joined, RowLines, Texts, TableCells;
    NothingJoined(false, "\n");
    NothingWritten();
    match block
    case Paragraph(content, _) =>
      Parts([Line], [], Pieces(Texts(content)));
      assert [Line] + [] == [Line];
      WrittenOne(Line);
      PiecesWrite(Texts(content));
      JoinedCons(false, "\n", ContentText(content), []);
      assert [ContentText(content)] + [] == [ContentText(content)];
    case Table(rows) =>
      var title := "Table " + Decimal(tables + 1);
      Parts([Line], [Piece(title)], TableOps(rows, cells));
      assert [Line] + [Piece(title)] == [Line, Piece(title)];
      WrittenOne(Line);
      WrittenOne(Piece(title));
      TableWrites(rows, cells);
      JoinedCons(false, "\n", title, RowLines(rows));
    case _ =>
  }

  lemma BlockParts(blocks: seq<Block>, seen: nat, cells: nat, tables: nat)
    requires blocks != []
    ensures var (block, rest) := (blocks[0], blocks[1..]);
      var seen' := if block.Section? then seen else seen + 1;
      && BlockOps(blocks, seen, cells, tables)
        == (if !block.Section? && seen' > MAX_PREVIEW_BLOCKS then [Cut] else []) + OneBlockOps(block, cells, tables)
          + BlockOps(rest, seen', cells + BlockCells(block), tables + Tables(block))
      && Lines(blocks, tables) == BlockLines(block, tables) + Lines(rest, tables + Tables(block))
      && BlockCount(blocks) == seen' - seen + BlockCount(rest)
      && CellCount(blocks) == BlockCells(block) + CellCount(rest)
  {
    hide OneBlockOps, BlockLines, BlockCells, Tables;
  }

  /** The lines of a document are written one after the other, each on a new line, and the builder is
      told to stop exactly when there are too many blocks or too many cells. */
  lemma {:induction false} BlocksWrite(blocks: seq<Block>, seen: nat, cells: nat, tables: nat)
    ensures Written(BlockOps(blocks, seen, cells, tables), true) == Joined(false, "\n", Lines(blocks, tables))
    ensures seen <= MAX_PREVIEW_BLOCKS && cells <= MAX_TABLE_CELLS ==>
      (Cut in BlockOps(blocks, seen, cells, tables) <==>
        seen + BlockCount(blocks) > MAX_PREVIEW_BLOCKS || cells + CellCount(blocks) > MAX_TABLE_CELLS)
    decreases |blocks|
  {
    hide Written, Joined, OneBlockOps, BlockLines, BlockCells, Tables, Join, Prefixed;
    if blocks == [] {
      NothingJoined(false, "\n");
      NothingWritten();
    } else {
      hide BlockOps, Lines, BlockCount, CellCount;
      BlockParts(blocks, seen, cells, tables);
      var (block, seen') := (blocks[0], if blocks[0].Section? then seen else seen + 1);
      var (cells', tables') := (cells + BlockCells(block), tables + Tables(block));
      var over := !block.Section? && seen' > MAX_PREVIEW_BLOCKS;
      Parts(if over then [Cut] else [], OneBlockOps(block, cells, tables), BlockOps(blocks[1..], seen', cells', tables'));
      CutOnce(over);
      OneBlockWrites(block, cells, tables);
      BlocksWrite(blocks[1..], seen', cells', tables');
      JoinedAppend(false, "\n", BlockLines(block, tables), Lines(blocks[1..], tables'));
    }
  }

  /** Only the line break before the first line depends on what came before. */
  lemma {:induction false} FirstLine(blocks: seq<Block>, seen: nat, cells: nat, tables: nat)
    ensures var (ops, lines) := (BlockOps(blocks, seen, cells, tables), Lines(blocks, tables));
      Written(ops, true) == (if lines != [] then "\n" else "") + Written(ops, false)
    decreases |blocks|
  {
    hide Written, OneBlockOps, BlockLines, BlockCells, Tables;
    NothingWritten();
    if blocks != [] {
      var (block, seen') := (blocks[0], if blocks[0].Section? then seen else seen + 1);
      var (cells', tables') := (cells + BlockCells(block), tables + Tables(block));
      var (own, rest) := (OneBlockOps(block, cells, tables), BlockOps(blocks[1..], seen', cells', tables'));
      var cut := if !block.Section? && seen' > MAX_PREVIEW_BLOCKS then [Cut] else [];
      assert BlockOps(blocks, seen, cells, tables) == cut + (own + rest);
      WrittenCut(cut, own + rest);
      OneBlockStarts(block, cells, tables);
      if own == [] {
        assert own + rest == rest;
        FirstLine(blocks[1..], seen', cells', tables');
      } else {
        StartsLine(own + rest);
      }
    }
  }

  lemma OneBlockStarts(block: Block, cells: nat, tables: nat)
    ensures var own := OneBlockOps(block, cells, tables);
      (own == [] <==> BlockLines(block, tables) == []) && (own != [] ==> own[0] == Line)
  {
  }

  lemma StartsLine(ops: seq<Op>)
    requires ops != [] && ops[0] == Line
    ensures Written(ops, true) == "\n" + Written(ops, false)
  {
  }

  lemma WrittenCut(cut: seq<Op>, rest: seq<Op>)
    requires cut == [] || cut == [Cut]
    ensures forall started :: Written(cut + rest, started) == Written(rest, started)
  {
    assert [] + rest == rest;
    assert ([Cut] + rest)[1..] == rest;
  }

  /** What a whole document asks for is its rendering. */
  lemma DocumentWrites(blocks: seq<Block>)
    ensures Written(BlockOps(blocks, 0, 0, 0), false) == Rendering(blocks)
    ensures Cut in BlockOps(blocks, 0, 0, 0) <==> BlockCount(blocks) > MAX_PREVIEW_BLOCKS || CellCount(blocks) > MAX_TABLE_CELLS
  {
    hide Written, BlockOps, Lines;
    BlocksWrite(blocks, 0, 0, 0);
    FirstLine(blocks, 0, 0, 0);
    var (w, lines) := (Written(BlockOps(blocks, 0, 0, 0), true), Lines(blocks, 0));
    if lines != [] {
      assert w[1..] == Written(BlockOps(blocks, 0, 0, 0), false);
      assert Joined(false, "\n", lines)[1..] == Join("\n", lines);
    }
  }

  // ---- The preview of a document ----

  /** The text given out, and whether it was truncated. */
  datatype Result = Result(text: string, truncated: bool)

  function Finalized(content: string, truncated: bool, stripEdges: bool): Result {
    var text := if stripEdges then Strip(content) else content;
    var (kept, cut) := if |text| > MAX_PREVIEW_CHARS then (StripRight(text[..MAX_PREVIEW_CHARS]), true) else (text, truncated);
    Result(if !cut then kept else if kept != "" then kept + "\n\n" + TRUNCATED_NOTICE else TRUNCATED_NOTICE, cut)
  }

  function Empty(limit: nat): Preview {
    Preview(limit, "", false, false)
  }

  function Previewed(blocks: seq<Block>): Result {
    var p := Feed(Empty(MAX_PREVIEW_CHARS), BlockOps(blocks, 0, 0, 0));
    Finalized(p.text, p.truncated, false)
  }

  /** `kept` is all the preview shows of a document that is too large. */
  ghost predicate Shows(r: Result, kept: string) {
    r.text == if kept != "" then kept + "\n\n" + TRUNCATED_NOTICE else TRUNCATED_NOTICE
  }

  predicate TooManyParts(blocks: seq<Block>) {
    BlockCount(blocks) > MAX_PREVIEW_BLOCKS || CellCount(blocks) > MAX_TABLE_CELLS
  }

  /** A preview is the rendering of its document, except for documents over a limit: these, and only
      these, are marked as truncated, and show a prefix of the rendering. When only the rendering is too
      long, all that is missing within the limit is whitespace. */
  lemma PreviewIsRendering(blocks: seq<Block>)
    ensures var (r, all) := (Previewed(blocks), Rendering(blocks));
      && (r.truncated <==> TooManyParts(blocks) || |all| > MAX_PREVIEW_CHARS)
      && (!r.truncated ==> r.text == all)
      && (r.truncated ==> exists kept ::
          && Shows(r, kept) && kept <= all && |kept| <= MAX_PREVIEW_CHARS
          && (!TooManyParts(blocks) ==> Blank(all[|kept|..MAX_PREVIEW_CHARS])))
  {
    hide Feed, BlockOps, Rendering, Written, Blank;
    var (p, ops, all) := (Empty(MAX_PREVIEW_CHARS), BlockOps(blocks, 0, 0, 0), Rendering(blocks));
    FeedMeans(p, ops);
    DocumentWrites(blocks);
    assert "" + all == all;
    if Feed(p, ops).truncated {
      assert Shows(Previewed(blocks), Feed(p, ops).text);
    }
  }
}
