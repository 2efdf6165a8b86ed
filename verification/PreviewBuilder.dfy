/** The preview builder as the object it is, and the loops that feed it a docx body. */
module PreviewBuilder {
  import opened Text
  import opened DocxPreview

  lemma {:induction false} ConcatAppend(parts: seq<string>, part: string)
    ensures Concat(parts + [part]) == Concat(parts) + part
    decreases |parts|
  {
    if parts != [] {
      assert (parts + [part])[0] == parts[0] && (parts + [part])[1..] == parts[1..] + [part];
      ConcatAppend(parts[1..], part);
    }
  }

  class Builder {
    var charLimit: nat
    var parts: seq<string>
    var length: nat
    var started: bool
    var truncated: bool

    /** The recorded length is the length of the text, and within the limit. */
    ghost predicate Valid()
      reads this
    {
      length == |Concat(parts)| <= charLimit
    }

    ghost function Now(): Preview
      reads this
    {
      Preview(charLimit, Concat(parts), started, truncated)
    }

    constructor (limit: int)
      ensures Valid() && Now() == Empty(if limit < 0 then 0 else limit)
    {
      charLimit := if limit < 0 then 0 else limit;
      parts, length, started, truncated := [], 0, false, false;
    }

    method AppendPiece(piece: string) returns (ok: bool)
      requires Valid()
      modifies this
      ensures Valid() && Now() == Take(old(Now()), piece)
      ensures ok == !truncated
    {
      hide StripRight, Concat;
      if truncated {
        return false;
      }
      if piece == "" {
        return true;
      }
      var remaining := charLimit - length;
      if remaining <= 0 {
        truncated := true;
        return false;
      }
      var kept := piece;
      if |piece| > remaining {
        kept := StripRight(piece[..remaining]);
        truncated := true;
      }
      assert kept == "" ==> Concat(parts) + kept == Concat(parts);
      if kept != "" {
        ConcatAppend(parts, kept);
        parts := parts + [kept];
        length := length + |kept|;
      }
      return !truncated;
    }

    method StartLine() returns (ok: bool)
      requires Valid()
      modifies this
      ensures Valid() && Now() == Step(old(Now()), Line)
      ensures ok <==> !truncated || !old(started)
    {
      hide Take;
      if started {
        ok := AppendPiece("\n");
        return;
      }
      started := true;
      return true;
    }

    method AppendText(text: string) returns (ok: bool)
      requires Valid()
      modifies this
      ensures Valid() && Now() == Step(old(Now()), Piece(text))
      ensures ok == !truncated
    {
      hide Take;
      if !started {
        started := true;
      }
      ok := AppendPiece(text);
    }

    /** Run text as it is, clipped to what room is left. */
    method AppendVerbatim(text: string) returns (ok: bool)
      requires Valid()
      modifies this
      ensures Valid() && ok == !truncated
      ensures text != "" && old(started) ==> Now() == Feed(old(Now()), [Piece(text)])
      ensures old(truncated) ==> Now() == old(Now())
      ensures !old(truncated) ==>
        Now() == if old(length) == charLimit then old(Now()).(truncated := true) else Step(old(Now()), Piece(text))
    {
      hide StripRight;
      OneStep(Now(), Piece(text));
      if truncated {
        return false;
      }
      if charLimit - length <= 0 {
        truncated := true;
        return false;
      }
      ghost var clipped := |text| > charLimit - length;
      ok := AppendText(text);
      // Clipping truncates, so clipped text never gets past this point.
      assert ok ==> !clipped;
    }

    method Finish(stripEdges: bool) returns (r: Result)
      requires Valid()
      ensures r == Finalized(Now().text, truncated, stripEdges)
    {
      r := Finalized(Concat(parts), truncated, stripEdges);
    }
  }

  lemma OneStep(p: Preview, op: Op)
    ensures Feed(p, [op]) == if p.truncated then p else Step(p, op)
  {
    assert [op][1..] == [];
  }

  /** What is left to feed after `done`. */
  lemma Feeds(p: Preview, done: seq<Op>, rest: seq<Op>)
    ensures Feed(Feed(p, done), rest) == Feed(p, done + rest)
  {
    FeedAppend(p, done, rest);
  }

  lemma Stopped(p: Preview, ops: seq<Op>)
    requires p.truncated || ops == []
    ensures Feed(p, ops) == p
  {
  }

  lemma PiecesNext(texts: seq<string>, i: nat)
    requires i < |texts|
    ensures Pieces(texts[i..]) == (if texts[i] != "" then [Piece(texts[i])] else []) + Pieces(texts[i + 1..])
  {
    assert texts[i..][1..] == texts[i + 1..];
  }

  /** The texts of a paragraph in document order, nested ones included. */
  method TextNodes(content: seq<Inline>) returns (texts: seq<string>)
    ensures texts == Texts(content)
  {
    texts := [];
    assert content[0..] == content;
    for i := 0 to |content|
      invariant texts + Texts(content[i..]) == Texts(content)
    {
      assert content[i..][1..] == content[i + 1..];
      ghost var before := texts;
      if content[i].Run? {
        texts := texts + [content[i].text];
      } else {
        var nested := content[i].texts;
        for j := 0 to |nested|
          invariant texts == before + nested[..j]
        {
          assert nested[..j + 1] == nested[..j] + [nested[j]];
          texts := texts + [nested[j]];
        }
        assert nested[..|nested|] == nested;
      }
    }
  }

  method AppendElementText(b: Builder, content: seq<Inline>) returns (ok: bool)
    requires b.Valid() && b.started && !b.truncated
    modifies b
    ensures b.Valid() && b.started && ok == !b.truncated
    ensures b.Now() == Feed(old(b.Now()), Pieces(Texts(content)))
  {
    hide Feed, Step, Take, Concat, Pieces, Texts;
    var texts := TextNodes(content);
    var i := 0;
    ghost var start := b.Now();
    assert texts[0..] == texts;
    while i < |texts|
      invariant 0 <= i <= |texts| && b.Valid() && b.started && !b.truncated
      invariant Feed(b.Now(), Pieces(texts[i..])) == Feed(start, Pieces(texts))
    {
      PiecesNext(texts, i);
      if texts[i] != "" {
        Feeds(b.Now(), [Piece(texts[i])], Pieces(texts[i + 1..]));
        ok := b.AppendVerbatim(texts[i]);
        if !ok {
          Stopped(b.Now(), Pieces(texts[i + 1..]));
          return false;
        }
      } else {
        assert [] + Pieces(texts[i + 1..]) == Pieces(texts[i + 1..]);
      }
      i := i + 1;
    }
    NoOps(texts[i..]);
    Stopped(b.Now(), []);
    return true;
  }

  lemma NoOps(texts: seq<string>)
    requires texts == []
    ensures Pieces(texts) == []
  {
  }

  /** What is left to append of a cell, a row, a table and a body. */
  lemma CellNext(children: seq<CellChild>, i: nat, first: bool)
    requires i <= |children|
    ensures var rest := i + 1;
      CellOps(children[i..], first) ==
        if i == |children| then []
        else if !children[i].CellParagraph? then CellOps(children[rest..], first)
        else (if first then [] else [Piece("\n")]) + (Pieces(Texts(children[i].content)) + CellOps(children[rest..], false))
  {
    if i < |children| {
      assert children[i..][1..] == children[i + 1..];
    }
  }

  lemma RowNext(cells: seq<RowChild>, i: nat, first: bool, seen: nat)
    requires i <= |cells|
    ensures var rest := i + 1;
      RowOps(cells[i..], first, seen) ==
        if i == |cells| then []
        else if !cells[i].Cell? then RowOps(cells[rest..], first, seen)
        else
          (if seen + 1 > MAX_TABLE_CELLS then [Cut] else [])
          + ((if first then [] else [Piece("\t")]) + (CellOps(cells[i].children, true) + RowOps(cells[rest..], false, seen + 1)))
    ensures i < |cells| ==> RowCells(cells[i..]) == (if cells[i].Cell? then 1 else 0) + RowCells(cells[i + 1..])
    ensures i == |cells| ==> RowCells(cells[i..]) == 0
  {
    if i < |cells| {
      assert cells[i..][1..] == cells[i + 1..];
    }
  }

  lemma TableNext(rows: seq<TableChild>, i: nat, seen: nat)
    requires i <= |rows|
    ensures var rest := i + 1;
      TableOps(rows[i..], seen) ==
        if i == |rows| then []
        else if !rows[i].Row? then TableOps(rows[rest..], seen)
        else [Line] + (RowOps(rows[i].cells, true, seen) + TableOps(rows[rest..], seen + RowCells(rows[i].cells)))
    ensures i < |rows| ==> TableCells(rows[i..]) == (if rows[i].Row? then RowCells(rows[i].cells) else 0) + TableCells(rows[i + 1..])
    ensures i == |rows| ==> TableCells(rows[i..]) == 0
  {
    if i < |rows| {
      assert rows[i..][1..] == rows[i + 1..];
    }
  }

  method AppendCellText(b: Builder, children: seq<CellChild>) returns (ok: bool)
    requires b.Valid() && b.started && !b.truncated
    modifies b
    ensures b.Valid() && b.started && ok == !b.truncated
    ensures b.Now() == Feed(old(b.Now()), CellOps(children, true))
  {
    hide Feed, Step, Take, Concat, Pieces, CellOps, Texts;
    var firstParagraph, i := true, 0;
    ghost var start := b.Now();
    assert children[0..] == children;
    while i < |children|
      invariant 0 <= i <= |children| && b.Valid() && b.started && !b.truncated
      invariant Feed(b.Now(), CellOps(children[i..], firstParagraph)) == Feed(start, CellOps(children, true))
    {
      CellNext(children, i, firstParagraph);
      ghost var rest := CellOps(children[i + 1..], false);
      if children[i].CellParagraph? {
        ghost var own := Pieces(Texts(children[i].content));
        Feeds(b.Now(), if firstParagraph then [] else [Piece("\n")], own + rest);
        Stopped(b.Now(), []);
        OneStep(b.Now(), Piece("\n"));
        if !firstParagraph {
          ok := b.AppendText("\n");
          if !ok {
            Stopped(b.Now(), own + rest);
            return false;
          }
        }
        Feeds(b.Now(), own, rest);
        ok := AppendElementText(b, children[i].content);
        if !ok {
          Stopped(b.Now(), rest);
          return false;
        }
        firstParagraph := false;
      }
      i := i + 1;
    }
    CellNext(children, i, firstParagraph);
    Stopped(b.Now(), []);
    return true;
  }

  /** Cells are counted across rows and tables. */
  method AppendRow(b: Builder, cells: seq<RowChild>, cellsBefore: nat) returns (cellsSeen: nat)
    requires b.Valid() && b.started && !b.truncated
    modifies b
    ensures b.Valid() && b.started && b.Now() == Feed(old(b.Now()), RowOps(cells, true, cellsBefore))
    ensures !b.truncated ==> cellsSeen == cellsBefore + RowCells(cells)
  {
    hide Feed, Step, Take, Concat, RowOps, CellOps, RowCells;
    cellsSeen := cellsBefore;
    var firstCell, i := true, 0;
    ghost var start := b.Now();
    assert cells[0..] == cells;
    while i < |cells|
      invariant 0 <= i <= |cells| && b.Valid() && b.started && !b.truncated
      invariant Feed(b.Now(), RowOps(cells[i..], firstCell, cellsSeen)) == Feed(start, RowOps(cells, true, cellsBefore))
      invariant cellsSeen + RowCells(cells[i..]) == cellsBefore + RowCells(cells)
    {
      RowNext(cells, i, firstCell, cellsSeen);
      if cells[i].Cell? {
        cellsSeen := cellsSeen + 1;
        ghost var own, rest := CellOps(cells[i].children, true), RowOps(cells[i + 1..], false, cellsSeen);
        ghost var tab := if firstCell then [] else [Piece("\t")];
        ghost var cut := if cellsSeen > MAX_TABLE_CELLS then [Cut] else [];
        Feeds(b.Now(), cut, tab + (own + rest));
        Stopped(b.Now(), []);
        CutStops(b.Now());
        if cellsSeen > MAX_TABLE_CELLS {
          b.truncated := true;
          Stopped(b.Now(), tab + (own + rest));
          return;
        }
        Feeds(b.Now(), tab, own + rest);
        OneStep(b.Now(), Piece("\t"));
        if !firstCell {
          var ok := b.AppendText("\t");
          if !ok {
            Stopped(b.Now(), own + rest);
            return;
          }
        }
        Feeds(b.Now(), own, rest);
        var ok := AppendCellText(b, cells[i].children);
        if !ok {
          Stopped(b.Now(), rest);
          return;
        }
        firstCell := false;
      }
      i := i + 1;
    }
    RowNext(cells, i, firstCell, cellsSeen);
    Stopped(b.Now(), []);
  }

  lemma CutStops(p: Preview)
    ensures Feed(p, [Cut]) == p.(truncated := true)
  {
    OneStep(p, Cut);
  }

  method AppendTable(b: Builder, rows: seq<TableChild>, cellsBefore: nat) returns (cellsSeen: nat)
    requires b.Valid() && b.started && !b.truncated
    modifies b
    ensures b.Valid() && b.started && b.Now() == Feed(old(b.Now()), TableOps(rows, cellsBefore))
    ensures !b.truncated ==> cellsSeen == cellsBefore + TableCells(rows)
  {
    hide Feed, Take, Concat, RowOps, TableOps, RowCells, TableCells, Step;
    cellsSeen := cellsBefore;
    var i := 0;
    ghost var start := b.Now();
    assert rows[0..] == rows;
    while i < |rows|
      invariant 0 <= i <= |rows| && b.Valid() && b.started && !b.truncated
      invariant Feed(b.Now(), TableOps(rows[i..], cellsSeen)) == Feed(start, TableOps(rows, cellsBefore))
      invariant cellsSeen + TableCells(rows[i..]) == cellsBefore + TableCells(rows)
    {
      TableNext(rows, i, cellsSeen);
      if rows[i].Row? {
        ghost var own := RowOps(rows[i].cells, true, cellsSeen);
        ghost var rest := TableOps(rows[i + 1..], cellsSeen + RowCells(rows[i].cells));
        Feeds(b.Now(), [Line], own + rest);
        OneStep(b.Now(), Line);
        var ok := b.StartLine();
        if !ok {
          Stopped(b.Now(), own + rest);
          return;
        }
        Feeds(b.Now(), own, rest);
        cellsSeen := AppendRow(b, rows[i].cells, cellsSeen);
        if b.truncated {
          Stopped(b.Now(), rest);
          return;
        }
      }
      i := i + 1;
    }
    TableNext(rows, i, cellsSeen);
    Stopped(b.Now(), []);
  }

  function Counted(block: Block, seen: nat): nat {
    if block.Section? then seen else seen + 1
  }

  lemma OpsAssoc(a: seq<Op>, b: seq<Op>, c: seq<Op>)
    ensures (a + b) + c == a + (b + c)
  {
  }

  lemma BodyNext(blocks: seq<Block>, i: nat, seen: nat, cells: nat, tables: nat)
    requires i < |blocks|
    ensures BlockOps(blocks[i..], seen, cells, tables) ==
      (if !blocks[i].Section? && seen + 1 > MAX_PREVIEW_BLOCKS then [Cut] else [])
      + (OneBlockOps(blocks[i], cells, tables)
         + BlockOps(blocks[i + 1..], Counted(blocks[i], seen), cells + BlockCells(blocks[i]), tables + Tables(blocks[i])))
  {
    hide BlockOps, OneBlockOps, BlockCells, Tables, BlockCount, CellCount, Lines, BlockLines;
    var block := blocks[i];
    BlockParts(blocks[i..], seen, cells, tables);
    assert blocks[i..][0] == block && blocks[i..][1..] == blocks[i + 1..];
    OpsAssoc(if !block.Section? && seen + 1 > MAX_PREVIEW_BLOCKS then [Cut] else [], OneBlockOps(block, cells, tables),
             BlockOps(blocks[i + 1..], Counted(block, seen), cells + BlockCells(block), tables + Tables(block)));
  }

  lemma BodyEnds(blocks: seq<Block>, i: nat, seen: nat, cells: nat, tables: nat)
    requires i == |blocks|
    ensures BlockOps(blocks[i..], seen, cells, tables) == []
  {
  }

  lemma OneBlockParts(block: Block, cells: nat, tables: nat)
    ensures block.Paragraph? ==> OneBlockOps(block, cells, tables) == [Line] + Pieces(Texts(block.content))
    ensures block.Table? ==>
      OneBlockOps(block, cells, tables) == [Line] + ([Piece("Table " + Decimal(tables + 1))] + TableOps(block.rows, cells))
    ensures !block.Paragraph? && !block.Table? ==> OneBlockOps(block, cells, tables) == []
  {
  }

  /** Adds one block; `cells` and `tables` count what came before. */
  method AppendBlock(b: Builder, block: Block, cellsBefore: nat, tables: nat) returns (cellsSeen: nat)
    requires b.Valid() && !b.truncated
    modifies b
    ensures b.Valid() && b.Now() == Feed(old(b.Now()), OneBlockOps(block, cellsBefore, tables))
    ensures !b.truncated ==> cellsSeen == cellsBefore + BlockCells(block)
  {
    hide Feed, Take, Concat, OneBlockOps, TableOps, Pieces, Texts, Decimal, TableCells;
    cellsSeen := cellsBefore;
    OneBlockParts(block, cellsBefore, tables);
    ghost var start := b.Now();
    if block.Paragraph? {
      Feeds(start, [Line], Pieces(Texts(block.content)));
      OneStep(start, Line);
      var ok := b.StartLine();
      if !ok {
        Stopped(b.Now(), Pieces(Texts(block.content)));
        return;
      }
      StartsUncut(start);
      ok := AppendElementText(b, block.content);
    } else if block.Table? {
      var title := "Table " + Decimal(tables + 1);
      Feeds(start, [Line], [Piece(title)] + TableOps(block.rows, cellsBefore));
      OneStep(start, Line);
      var ok := b.StartLine();
      if !ok {
        Stopped(b.Now(), [Piece(title)] + TableOps(block.rows, cellsBefore));
        return;
      }
      StartsUncut(start);
      Feeds(b.Now(), [Piece(title)], TableOps(block.rows, cellsBefore));
      OneStep(b.Now(), Piece(title));
      ok := b.AppendText(title);
      if !ok {
        Stopped(b.Now(), TableOps(block.rows, cellsBefore));
        return;
      }
      cellsSeen := AppendTable(b, block.rows, cellsBefore);
    } else {
      Stopped(start, []);
    }
  }

  lemma StartsUncut(p: Preview)
    requires !p.truncated
    ensures Step(p, Line).started && (!p.started ==> !Step(p, Line).truncated)
  {
  }

  /** The preview of a docx body. */
  method DocxPreviewText(blocks: seq<Block>) returns (r: Result)
    ensures r == Previewed(blocks)
  {
    hide Feed, Step, Take, Concat, BlockOps, OneBlockOps, TableOps, BlockCells, Tables;
    var b := new Builder(MAX_PREVIEW_CHARS);
    var blocksSeen: nat, cellsSeen: nat, tableIndex: nat, i: nat := 0, 0, 0, 0;
    ghost var start := b.Now();
    assert blocks[0..] == blocks;
    while i < |blocks|
      invariant 0 <= i <= |blocks| && b.Valid() && fresh(b) && !b.truncated
      invariant Feed(b.Now(), BlockOps(blocks[i..], blocksSeen, cellsSeen, tableIndex)) == Feed(start, BlockOps(blocks, 0, 0, 0))
    {
      BodyNext(blocks, i, blocksSeen, cellsSeen, tableIndex);
      ghost var own := OneBlockOps(blocks[i], cellsSeen, tableIndex);
      ghost var rest := BlockOps(blocks[i + 1..], Counted(blocks[i], blocksSeen), cellsSeen + BlockCells(blocks[i]), tableIndex + Tables(blocks[i]));
      ghost var cut := if !blocks[i].Section? && blocksSeen + 1 > MAX_PREVIEW_BLOCKS then [Cut] else [];
      Feeds(b.Now(), cut, own + rest);
      CutStops(b.Now());
      Stopped(b.Now(), []);
      if !blocks[i].Section? {
        blocksSeen := blocksSeen + 1;
        if blocksSeen > MAX_PREVIEW_BLOCKS {
          b.truncated := true;
          Stopped(b.Now(), own + rest);
          break;
        }
      }
      Feeds(b.Now(), own, rest);
      cellsSeen := AppendBlock(b, blocks[i], cellsSeen, tableIndex);
      if b.truncated {
        Stopped(b.Now(), rest);
        break;
      }
      tableIndex := tableIndex + Tables(blocks[i]);
      i := i + 1;
    }
    if !b.truncated {
      BodyEnds(blocks, i, blocksSeen, cellsSeen, tableIndex);
      Stopped(b.Now(), []);
    }
    assert b.Now() == Feed(start, BlockOps(blocks, 0, 0, 0));
    r := b.Finish(false);
  }
}
