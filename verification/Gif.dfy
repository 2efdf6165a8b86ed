/** The whole-image check for GIF (GIF89a specification), proved to decide a grammar: a screen
    header, blocks of length-prefixed sub-blocks with at least one image, and a trailer. */
module Gif {
  import opened ByteCodec
  import opened Options

  type Data = seq<seq<byte>>

  datatype Block =
    | Extension(tag: byte, data: Data)
    | Image(corner: seq<byte>, width: u16, height: u16, packed: byte, table: seq<byte>, codeSize: byte, data: Data)

  datatype Picture = Picture(
    version: seq<byte>, width: u16, height: u16, packed: byte, trim: seq<byte>, table: seq<byte>, blocks: seq<Block>)

  const GIF87A: seq<byte> := [0x47, 0x49, 0x46, 0x38, 0x37, 0x61]
  const GIF89A: seq<byte> := [0x47, 0x49, 0x46, 0x38, 0x39, 0x61]

  // ---- The grammar ----

  /** Bytes of the colour table announced by a packed field: 3 * 2^(n+1) when the top bit is set. */
  function TableSize(packed: byte): nat {
    if packed < 0x80 then 0 else [6, 12, 24, 48, 96, 192, 384, 768][packed % 8]
  }

  predicate DataOk(d: Data) {
    forall i | 0 <= i < |d| :: 1 <= |d[i]| <= 255
  }

  predicate BlockOk(b: Block) {
    && DataOk(b.data)
    && (b.Image? ==>
        && |b.corner| == 4 && b.width != 0 && b.height != 0
        && |b.table| == TableSize(b.packed)
        && 2 <= b.codeSize <= 11)
  }

  ghost predicate IsGif(p: Picture) {
    && p.version in {GIF87A, GIF89A}
    && p.width != 0 && p.height != 0
    && |p.trim| == 2 && |p.table| == TableSize(p.packed)
    && (forall i | 0 <= i < |p.blocks| :: BlockOk(p.blocks[i]))
    && (exists i :: 0 <= i < |p.blocks| && p.blocks[i].Image?)
  }

  function PrintData(d: Data): seq<byte> {
    if d == [] then [0] else [|d[0]| % 0x100] + (d[0] + PrintData(d[1..]))
  }

  function PrintBlock(b: Block): seq<byte> {
    match b
    case Extension(tag, data) => [0x21] + ([tag] + PrintData(data))
    case Image(corner, width, height, packed, table, codeSize, data) =>
      [0x2C] + (corner + (PutLe16(width) + (PutLe16(height) + ([packed] + (table + ([codeSize] + PrintData(data)))))))
  }

  function PrintBlocks(bs: seq<Block>): seq<byte> {
    if bs == [] then [0x3B] else PrintBlock(bs[0]) + PrintBlocks(bs[1..])
  }

  function Print(p: Picture): seq<byte> {
    p.version + (PutLe16(p.width) + (PutLe16(p.height) + ([p.packed] + (p.trim + (p.table + PrintBlocks(p.blocks))))))
  }

  ghost predicate Accepted(raw: seq<byte>) {
    exists p :: IsGif(p) && raw == Print(p)
  }

  // ---- Sub-blocks ----

  /** The sub-blocks from `pos` on and the position after their terminator. */
  function ReadData(raw: seq<byte>, pos: nat): Option<(Data, nat)>
    decreases |raw| - pos
  {
    if pos >= |raw| then None
    else if raw[pos] == 0 then Some(([], pos + 1))
    else if pos + 1 + raw[pos] > |raw| then None
    else
      match ReadData(raw, pos + 1 + raw[pos])
      case None => None
      case Some((d, end)) => Some(([raw[pos + 1..pos + 1 + raw[pos]]] + d, end))
  }

  lemma {:induction false} DataReadIsPrinted(raw: seq<byte>, pos: nat)
    requires ReadData(raw, pos).Some?
    ensures var (d, end) := ReadData(raw, pos).value;
      pos < end <= |raw| && DataOk(d) && raw[pos..] == PrintData(d) + raw[end..]
    decreases |raw| - pos
  {
    if raw[pos] != 0 {
      var next := pos + 1 + raw[pos];
      DataReadIsPrinted(raw, next);
      var (d, end) := ReadData(raw, next).value;
      DataCons(raw, pos, d, end);
    }
  }

  lemma DataCons(raw: seq<byte>, pos: nat, d: Data, end: nat)
    requires pos < |raw| && raw[pos] > 0 && pos + 1 + raw[pos] <= end <= |raw|
    requires raw[pos + 1 + raw[pos]..] == PrintData(d) + raw[end..]
    ensures var first := raw[pos + 1..pos + 1 + raw[pos]];
      raw[pos..] == PrintData([first] + d) + raw[end..]
  {
    var first := raw[pos + 1..pos + 1 + raw[pos]];
    assert ([first] + d)[1..] == d;
    assert PrintData([first] + d) == [raw[pos]] + (first + PrintData(d));
    hide PrintData;
    Cut(raw, pos, pos + 1);
    assert raw[pos..pos + 1] == [raw[pos]];
    Cut(raw, pos + 1, pos + 1 + raw[pos]);
    Assoc(first, PrintData(d), raw[end..]);
    Assoc([raw[pos]], first + PrintData(d), raw[end..]);
  }

  /** One length byte and what it counts. */
  lemma PeelCounted(raw: seq<byte>, pos: nat, first: seq<byte>, tail: seq<byte>)
    requires |first| <= 255 && pos <= |raw| && raw[pos..] == [|first| % 0x100] + (first + tail)
    ensures pos + 1 + |first| <= |raw| && raw[pos] == |first|
    ensures raw[pos + 1..pos + 1 + |first|] == first && raw[pos + 1 + |first|..] == tail
  {
    Peel(raw, pos, [|first| % 0x100], first + tail);
    assert raw[pos] == raw[pos..pos + 1][0];
    Peel(raw, pos + 1, first, tail);
  }

  lemma {:induction false} PrintedDataIsRead(raw: seq<byte>, pos: nat, d: Data, rest: seq<byte>)
    requires DataOk(d) && pos <= |raw| && raw[pos..] == PrintData(d) + rest
    ensures pos < |raw| - |rest| && ReadData(raw, pos) == Some((d, |raw| - |rest|)) && raw[|raw| - |rest|..] == rest
    decreases |d|
  {
    if d == [] {
      PeelByte(raw, pos, 0, rest);
    } else {
      var first, tail := d[0], PrintData(d[1..]) + rest;
      assert PrintData(d) + rest == [|first| % 0x100] + (first + tail);
      PeelCounted(raw, pos, first, tail);
      PrintedDataIsRead(raw, pos + 1 + |first|, d[1..], rest);
      assert d == [first] + d[1..];
    }
  }

  /** Finds the end of the sub-blocks that start at `pos`, if they are all there. */
  method SubblocksEnd(raw: seq<byte>, start: nat) returns (end: Option<nat>)
    ensures end.None? <==> forall d, rest | DataOk(d) && start <= |raw| :: raw[start..] != PrintData(d) + rest
    ensures end.Some? ==>
      && start < end.value <= |raw|
      && exists d :: DataOk(d) && raw[start..] == PrintData(d) + raw[end.value..]
    ensures end == match ReadData(raw, start) case None => None case Some(r) => Some(r.1)
  {
    hide PrintData;
    var read := ReadData(raw, start);
    if read.Some? {
      DataReadIsPrinted(raw, start);
    }
    forall d, rest | DataOk(d) && start <= |raw| && raw[start..] == PrintData(d) + rest ensures read.Some? {
      PrintedDataIsRead(raw, start, d, rest);
    }
    var pos := start;
    while pos < |raw|
      invariant pos >= start
      invariant read.None? <==> ReadData(raw, pos).None?
      invariant read.Some? ==> ReadData(raw, pos).value.1 == read.value.1
    {
      var size := raw[pos];
      pos := pos + 1;
      if size == 0 {
        return Some(pos);
      }
      if pos + size > |raw| {
        return None;
      }
      pos := pos + size;
    }
    return None;
  }

  // ---- Blocks ----

  /** The block at `pos`, and the position after it. */
  function ReadBlock(raw: seq<byte>, pos: nat): Option<(Block, nat)>
    requires pos < |raw|
  {
    if raw[pos] == 0x21 then
      if pos + 1 >= |raw| then None
      else
        match ReadData(raw, pos + 2)
        case None => None
        case Some((d, end)) => Some((Extension(raw[pos + 1], d), end))
    else if raw[pos] != 0x2C || pos + 10 > |raw| then None
    else
      var width, height, packed := Le16At(raw, pos + 5), Le16At(raw, pos + 7), raw[pos + 9];
      var code := pos + 10 + TableSize(packed);
      if width == 0 || height == 0 || code >= |raw| || !(2 <= raw[code] <= 11) then None
      else
        match ReadData(raw, code + 1)
        case None => None
        case Some((d, end)) =>
          Some((Image(raw[pos + 1..pos + 5], width, height, packed, raw[pos + 10..code], raw[code], d), end))
  }

  lemma BlockReadIsPrinted(raw: seq<byte>, pos: nat)
    requires pos < |raw| && ReadBlock(raw, pos).Some?
    ensures var (b, end) := ReadBlock(raw, pos).value;
      pos < end <= |raw| && BlockOk(b) && raw[pos..] == PrintBlock(b) + raw[end..]
  {
    hide TableSize, Le16At, PutLe16, PrintData, ReadData, DataOk;
    var (b, end) := ReadBlock(raw, pos).value;
    if b.Extension? {
      DataReadIsPrinted(raw, pos + 2);
      assert raw[pos..] == [0x21] + ([b.tag] + raw[pos + 2..]);
      Assoc([b.tag], PrintData(b.data), raw[end..]);
      Assoc([0x21], [b.tag] + PrintData(b.data), raw[end..]);
    } else {
      DataReadIsPrinted(raw, pos + 11 + TableSize(raw[pos + 9]));
      ImageCons(raw, pos, b, end);
    }
  }

  lemma ImageCons(raw: seq<byte>, pos: nat, b: Block, end: nat)
    requires b.Image? && |b.corner| == 4
    requires var code := pos + 10 + |b.table|;
      && code < end <= |raw|
      && raw[pos] == 0x2C && raw[pos + 1..pos + 5] == b.corner
      && Le16At(raw, pos + 5) == b.width && Le16At(raw, pos + 7) == b.height && raw[pos + 9] == b.packed
      && raw[pos + 10..code] == b.table && raw[code] == b.codeSize && raw[code + 1..] == PrintData(b.data) + raw[end..]
    ensures raw[pos..] == PrintBlock(b) + raw[end..]
  {
    var tail := [b.packed] + (b.table + ([b.codeSize] + PrintData(b.data)));
    assert PrintBlock(b) == [0x2C] + (b.corner + (PutLe16(b.width) + (PutLe16(b.height) + tail)));
    hide *;
    var (code, last) := (pos + 10 + |b.table|, raw[end..]);
    TailCons(raw, pos + 9, code, PrintData(b.data), last);
    HeadCons(raw, pos, tail, last);
  }

  lemma TailCons(raw: seq<byte>, pos: nat, code: nat, data: seq<byte>, last: seq<byte>)
    requires pos < code < |raw| && raw[code + 1..] == data + last
    ensures raw[pos..] == ([raw[pos]] + (raw[pos + 1..code] + ([raw[code]] + data))) + last
  {
    OneByte(raw, code, data, last);
    var inner := [raw[code]] + data;
    Joined(raw, pos + 1, code, inner, last);
    OneByte(raw, pos, raw[pos + 1..code] + inner, last);
  }

  lemma HeadCons(raw: seq<byte>, pos: nat, tail: seq<byte>, last: seq<byte>)
    requires pos + 9 <= |raw| && raw[pos + 9..] == tail + last
    ensures raw[pos..] == ([raw[pos]] + (raw[pos + 1..pos + 5]
      + (PutLe16(Le16At(raw, pos + 5)) + (PutLe16(Le16At(raw, pos + 7)) + tail)))) + last
  {
    hide *;
    Le16Exact(raw, pos + 5);
    Le16Exact(raw, pos + 7);
    Joined(raw, pos + 7, pos + 9, tail, last);
    var sized := raw[pos + 7..pos + 9] + tail;
    Joined(raw, pos + 5, pos + 7, sized, last);
    var both := raw[pos + 5..pos + 7] + sized;
    Joined(raw, pos + 1, pos + 5, both, last);
    OneByte(raw, pos, raw[pos + 1..pos + 5] + both, last);
  }

  /** What stands before a print belongs to a longer one. */
  lemma Joined(raw: seq<byte>, pos: nat, end: nat, inner: seq<byte>, last: seq<byte>)
    requires pos <= end <= |raw| && raw[end..] == inner + last
    ensures raw[pos..] == (raw[pos..end] + inner) + last
  {
    Cut(raw, pos, end);
    Assoc(raw[pos..end], inner, last);
  }

  lemma OneByte(raw: seq<byte>, pos: nat, inner: seq<byte>, last: seq<byte>)
    requires pos < |raw| && raw[pos + 1..] == inner + last
    ensures raw[pos..] == ([raw[pos]] + inner) + last
  {
    Joined(raw, pos, pos + 1, inner, last);
    assert raw[pos..pos + 1] == [raw[pos]];
  }

  /** Where the fields of an image block lie when its bytes start at `pos`. */
  lemma ImageFields(raw: seq<byte>, pos: nat, b: Block, rest: seq<byte>)
    requires b.Image? && |b.corner| == 4 && pos <= |raw| && raw[pos..] == PrintBlock(b) + rest
    ensures var code := pos + 10 + |b.table|;
      && code < |raw|
      && raw[pos] == 0x2C && raw[pos + 1..pos + 5] == b.corner
      && Le16At(raw, pos + 5) == b.width && Le16At(raw, pos + 7) == b.height && raw[pos + 9] == b.packed
      && raw[pos + 10..code] == b.table && raw[code] == b.codeSize
      && raw[code + 1..] == PrintData(b.data) + rest
  {
    var tail := b.table + ([b.codeSize] + PrintData(b.data));
    assert PrintBlock(b) == [0x2C] + (b.corner + (PutLe16(b.width) + (PutLe16(b.height) + ([b.packed] + tail))));
    hide *;
    ImageHead(raw, pos, b, tail, rest);
    ImageTail(raw, pos + 10, b, rest, pos + 10 + |b.table|);
  }

  lemma ImageHead(raw: seq<byte>, pos: nat, b: Block, tail: seq<byte>, rest: seq<byte>)
    requires b.Image? && |b.corner| == 4 && pos <= |raw|
    requires raw[pos..] == ([0x2C] + (b.corner + (PutLe16(b.width) + (PutLe16(b.height) + ([b.packed] + tail))))) + rest
    ensures pos + 10 <= |raw| && raw[pos] == 0x2C && raw[pos + 1..pos + 5] == b.corner
    ensures Le16At(raw, pos + 5) == b.width && Le16At(raw, pos + 7) == b.height && raw[pos + 9] == b.packed
    ensures raw[pos + 10..] == tail + rest
  {
    hide *;
    var (width, height) := (PutLe16(b.width), PutLe16(b.height));
    var r3 := [b.packed] + tail;
    var r1 := width + (height + r3);
    PeelIn(raw, pos, [0x2C], b.corner + r1, rest);
    PeelByte(raw, pos, 0x2C, (b.corner + r1) + rest);
    PeelIn(raw, pos + 1, b.corner, r1, rest);
    ImageSizes(raw, pos + 5, b, r3, rest);
    PeelIn(raw, pos + 9, [b.packed], tail, rest);
    PeelByte(raw, pos + 9, b.packed, tail + rest);
  }

  lemma ImageSizes(raw: seq<byte>, pos: nat, b: Block, tail: seq<byte>, rest: seq<byte>)
    requires b.Image? && pos <= |raw| && raw[pos..] == (PutLe16(b.width) + (PutLe16(b.height) + tail)) + rest
    ensures pos + 4 <= |raw| && Le16At(raw, pos) == b.width && Le16At(raw, pos + 2) == b.height
    ensures raw[pos + 4..] == tail + rest
  {
    hide *;
    var (width, height) := (PutLe16(b.width), PutLe16(b.height));
    PeelIn(raw, pos, width, height + tail, rest);
    PeelLe16(raw, pos, b.width, (height + tail) + rest);
    PeelIn(raw, pos + 2, height, tail, rest);
    PeelLe16(raw, pos + 2, b.height, tail + rest);
  }

  lemma ImageTail(raw: seq<byte>, pos: nat, b: Block, rest: seq<byte>, code: nat)
    requires b.Image? && pos <= |raw| && code == pos + |b.table|
    requires raw[pos..] == (b.table + ([b.codeSize] + PrintData(b.data))) + rest
    ensures code < |raw| && raw[pos..code] == b.table && raw[code] == b.codeSize
    ensures raw[code + 1..] == PrintData(b.data) + rest
  {
    hide *;
    PeelIn(raw, pos, b.table, [b.codeSize] + PrintData(b.data), rest);
    PeelIn(raw, code, [b.codeSize], PrintData(b.data), rest);
    PeelByte(raw, code, b.codeSize, PrintData(b.data) + rest);
  }

  lemma PrintedImageIsRead(raw: seq<byte>, pos: nat, b: Block, rest: seq<byte>)
    requires b.Image? && BlockOk(b) && pos < |raw| && raw[pos..] == PrintBlock(b) + rest
    ensures pos < |raw| - |rest| && ReadBlock(raw, pos) == Some((b, |raw| - |rest|)) && raw[|raw| - |rest|..] == rest
  {
    hide TableSize, Le16At, PrintBlock, PrintData, ReadData, DataOk;
    ImageFields(raw, pos, b, rest);
    PrintedDataIsRead(raw, pos + 11 + |b.table|, b.data, rest);
  }

  lemma BlockStarts(b: Block)
    ensures PrintBlock(b) != [] && PrintBlock(b)[0] in {0x21, 0x2C}
  {
  }

  lemma ExtensionFields(raw: seq<byte>, pos: nat, b: Block, rest: seq<byte>)
    requires b.Extension? && pos <= |raw| && raw[pos..] == PrintBlock(b) + rest
    ensures pos + 2 <= |raw| && raw[pos] == 0x21 && raw[pos + 1] == b.tag && raw[pos + 2..] == PrintData(b.data) + rest
  {
    var data := PrintData(b.data);
    assert PrintBlock(b) == [0x21] + ([b.tag] + data);
    hide *;
    PeelIn(raw, pos, [0x21], [b.tag] + data, rest);
    PeelByte(raw, pos, 0x21, ([b.tag] + data) + rest);
    PeelIn(raw, pos + 1, [b.tag], data, rest);
    PeelByte(raw, pos + 1, b.tag, data + rest);
  }

  lemma PrintedBlockIsRead(raw: seq<byte>, pos: nat, b: Block, rest: seq<byte>)
    requires BlockOk(b) && pos <= |raw| && raw[pos..] == PrintBlock(b) + rest
    ensures pos < |raw| - |rest| && ReadBlock(raw, pos) == Some((b, |raw| - |rest|)) && raw[|raw| - |rest|..] == rest
    ensures raw[pos] != 0x3B
  {
    hide TableSize, Le16At, PrintBlock, PrintData, ReadData, DataOk;
    assert raw[pos] == raw[pos..][0] by { BlockStarts(b); }
    if b.Image? {
      PrintedImageIsRead(raw, pos, b, rest);
    } else {
      ExtensionFields(raw, pos, b, rest);
      PrintedDataIsRead(raw, pos + 2, b.data, rest);
    }
  }

  // ---- The cursor ----

  /** What the scan answers from `pos` on; `saw` once an image was seen. */
  predicate From(raw: seq<byte>, pos: nat, saw: bool)
    decreases |raw| - pos
  {
    && pos < |raw|
    && if raw[pos] == 0x3B then saw && pos + 1 == |raw|
       else match ReadBlock(raw, pos)
         case None => false
         case Some((b, end)) => pos < end && From(raw, end, saw || b.Image?)
  }

  /** Blocks that may follow what was read so far. */
  ghost predicate Continues(bs: seq<Block>, saw: bool) {
    && (forall i | 0 <= i < |bs| :: BlockOk(bs[i]))
    && (saw || exists i :: 0 <= i < |bs| && bs[i].Image?)
  }

  lemma ContinuesStep(bs: seq<Block>, saw: bool)
    requires bs != []
    ensures Continues(bs, saw) <==> BlockOk(bs[0]) && Continues(bs[1..], saw || bs[0].Image?)
  {
    hide BlockOk;
    assert forall i | 0 <= i < |bs[1..]| :: bs[1..][i] == bs[i + 1];
    assert forall i | 0 < i < |bs| :: bs[i] == bs[1..][i - 1];
  }

  lemma {:induction false} Sound(raw: seq<byte>, pos: nat, saw: bool) returns (bs: seq<Block>)
    requires pos <= |raw| && From(raw, pos, saw)
    ensures Continues(bs, saw) && raw[pos..] == PrintBlocks(bs)
    decreases |raw| - pos
  {
    hide ReadBlock, PrintBlock, BlockOk, Continues;
    if raw[pos] == 0x3B {
      bs := [];
      assert Continues([], true) by { NoneContinue(); }
      assert raw[pos..] == [0x3B];
    } else {
      BlockReadIsPrinted(raw, pos);
      var (b, end) := ReadBlock(raw, pos).value;
      var rest := Sound(raw, end, saw || b.Image?);
      bs := [b] + rest;
      assert bs[1..] == rest;
      ContinuesStep(bs, saw);
    }
  }

  lemma NoneContinue()
    ensures forall saw :: Continues([], saw) == saw
  {
  }

  lemma {:induction false} Complete(raw: seq<byte>, pos: nat, bs: seq<Block>, saw: bool)
    requires pos <= |raw| && Continues(bs, saw) && raw[pos..] == PrintBlocks(bs)
    ensures From(raw, pos, saw)
    decreases |bs|
  {
    hide ReadBlock, PrintBlock, BlockOk, Continues;
    NoneContinue();
    if bs == [] {
      assert raw[pos] == raw[pos..][0];
    } else {
      ContinuesStep(bs, saw);
      PrintedBlockIsRead(raw, pos, bs[0], PrintBlocks(bs[1..]));
      Complete(raw, |raw| - |PrintBlocks(bs[1..])|, bs[1..], saw || bs[0].Image?);
    }
  }

  /** The screen header and global colour table fit and are in range. */
  predicate HeaderAt(raw: seq<byte>) {
    && |raw| >= 13
    && raw[..6] in {GIF87A, GIF89A}
    && Le16At(raw, 6) != 0 && Le16At(raw, 8) != 0
    && 13 + TableSize(raw[10]) <= |raw|
  }

  lemma HeaderReads(raw: seq<byte>, blocks: seq<Block>)
    requires HeaderAt(raw)
    requires var pos := 13 + TableSize(raw[10]); raw[pos..] == PrintBlocks(blocks) && Continues(blocks, false)
    ensures Accepted(raw)
  {
    hide TableSize, Le16At, PutLe16, PrintBlocks, BlockOk;
    var pos := 13 + TableSize(raw[10]);
    Le16Exact(raw, 6);
    Le16Exact(raw, 8);
    var p := Picture(raw[..6], Le16At(raw, 6), Le16At(raw, 8), raw[10], raw[11..13], raw[13..pos], blocks);
    assert raw[10..] == [raw[10]] + (raw[11..13] + (raw[13..pos] + raw[pos..]));
    assert raw == raw[..6] + (raw[6..8] + (raw[8..10] + raw[10..]));
    assert IsGif(p);
  }

  lemma PictureHeader(p: Picture, suffix: seq<byte>)
    requires IsGif(p)
    ensures var raw := Print(p) + suffix;
      && HeaderAt(raw)
      && raw[13 + TableSize(raw[10])..] == PrintBlocks(p.blocks) + suffix
      && raw[..6] == p.version && Le16At(raw, 6) == p.width && Le16At(raw, 8) == p.height && raw[10] == p.packed
      && raw[11..13] == p.trim && raw[13..13 + TableSize(raw[10])] == p.table
  {
    hide TableSize, Le16At, PutLe16, PrintBlocks, BlockOk;
    var raw := Print(p) + suffix;
    var r4 := p.trim + (p.table + (PrintBlocks(p.blocks) + suffix));
    var r2 := PutLe16(p.height) + ([p.packed] + r4);
    assert raw[0..] == raw == p.version + (PutLe16(p.width) + r2);
    Peel(raw, 0, p.version, PutLe16(p.width) + r2);
    PeelLe16(raw, 6, p.width, r2);
    PeelLe16(raw, 8, p.height, [p.packed] + r4);
    PeelByte(raw, 10, p.packed, r4);
    Peel(raw, 11, p.trim, p.table + (PrintBlocks(p.blocks) + suffix));
    Peel(raw, 13, p.table, PrintBlocks(p.blocks) + suffix);
  }

  lemma ScanDecides(raw: seq<byte>)
    ensures Accepted(raw) <==> HeaderAt(raw) && From(raw, 13 + TableSize(raw[10]), false)
  {
    hide TableSize, Le16At, PrintBlocks, From, Print, Continues, IsGif;
    if HeaderAt(raw) && From(raw, 13 + TableSize(raw[10]), false) {
      var bs := Sound(raw, 13 + TableSize(raw[10]), false);
      HeaderReads(raw, bs);
    }
    forall p | IsGif(p) && raw == Print(p) ensures HeaderAt(raw) && From(raw, 13 + TableSize(raw[10]), false) {
      assert raw + [] == raw && PrintBlocks(p.blocks) + [] == PrintBlocks(p.blocks);
      PictureHeader(p, []);
      GifContinues(p);
      Complete(raw, 13 + TableSize(raw[10]), p.blocks, false);
    }
  }

  lemma GifContinues(p: Picture)
    requires IsGif(p)
    ensures Continues(p.blocks, false)
  {
  }

  // ---- The check ----

  /** One, shifted left by `n`. */
  function Shifted(n: nat): nat {
    if n == 0 then 1 else 2 * Shifted(n - 1)
  }

  lemma TableMeans(packed: byte)
    ensures TableSize(packed) == if packed >= 0x80 then 3 * Shifted(packed % 8 + 1) else 0
  {
    assert Shifted(4) == 16;
    assert Shifted(8) == 16 * Shifted(4);
    assert Shifted(7) == 8 * Shifted(4) && Shifted(6) == 4 * Shifted(4) && Shifted(5) == 2 * Shifted(4);
  }

  lemma FromEnds(raw: seq<byte>)
    ensures forall pos: nat, saw | pos >= |raw| :: !From(raw, pos, saw)
  {
  }

  /** One round of the scan: the trailer, an extension, or an image. */
  lemma FromStep(raw: seq<byte>, pos: nat, saw: bool)
    requires pos < |raw|
    ensures raw[pos] == 0x3B ==> (From(raw, pos, saw) <==> saw && pos + 1 == |raw|)
    ensures raw[pos] == 0x21 ==>
      (From(raw, pos, saw) <==>
        pos + 1 < |raw| && ReadData(raw, pos + 2).Some? && From(raw, ReadData(raw, pos + 2).value.1, saw))
    ensures raw[pos] !in {0x21, 0x2C, 0x3B} ==> !From(raw, pos, saw)
  {
    hide ReadData, TableSize, Le16At;
    if raw[pos] == 0x21 && pos + 1 < |raw| && ReadData(raw, pos + 2).Some? {
      ReadDataGoesOn(raw, pos + 2);
    }
  }

  lemma ReadDataGoesOn(raw: seq<byte>, pos: nat)
    requires ReadData(raw, pos).Some?
    ensures ReadData(raw, pos).value.1 > pos
  {
    DataReadIsPrinted(raw, pos);
  }

  lemma FromImage(raw: seq<byte>, pos: nat, saw: bool)
    requires pos < |raw| && raw[pos] == 0x2C
    ensures pos + 10 > |raw| ==> !From(raw, pos, saw)
    ensures pos + 10 <= |raw| ==>
      var code := pos + 10 + TableSize(raw[pos + 9]);
      From(raw, pos, saw) <==>
        && Le16At(raw, pos + 5) != 0 && Le16At(raw, pos + 7) != 0
        && code < |raw| && 2 <= raw[code] <= 11
        && ReadData(raw, code + 1).Some? && From(raw, ReadData(raw, code + 1).value.1, true)
  {
    hide ReadData, TableSize, Le16At;
    if pos + 10 <= |raw| {
      var code := pos + 10 + TableSize(raw[pos + 9]);
      if code < |raw| && ReadData(raw, code + 1).Some? {
        ReadDataGoesOn(raw, code + 1);
      }
    }
  }

  /** Accepts exactly the printed complete pictures. */
  method IsCompleteGif(raw: seq<byte>) returns (ok: bool)
    ensures ok <==> Accepted(raw)
  {
    hide Accepted, Le16At, ReadData, PrintData, DataOk, TableSize, Shifted, From, ReadBlock;
    ScanDecides(raw);
    FromEnds(raw);
    if |raw| < 14 || !(raw[..6] == GIF87A || raw[..6] == GIF89A) {
      return false;
    }
    var width, height := Le16At(raw, 6), Le16At(raw, 8);
    if width == 0 || height == 0 {
      return false;
    }
    var packed := raw[10];
    var pos := 13;
    TableMeans(packed);
    if packed >= 0x80 {
      pos := pos + 3 * Shifted(packed % 8 + 1);
    }
    if pos > |raw| {
      return false;
    }
    var sawImage := false;
    while pos < |raw|
      invariant 0 <= pos <= |raw|
      invariant Accepted(raw) == From(raw, pos, sawImage)
    {
      FromStep(raw, pos, sawImage);
      if raw[pos] == 0x2C {
        FromImage(raw, pos, sawImage);
      }
      var introducer := raw[pos];
      pos := pos + 1;
      if introducer == 0x3B {
        return sawImage && pos == |raw|;
      }
      if introducer == 0x21 {
        if pos >= |raw| {
          return false;
        }
        pos := pos + 1;
        var end := SubblocksEnd(raw, pos);
        if end.None? {
          return false;
        }
        pos := end.value;
        continue;
      }
      if introducer != 0x2C || pos + 9 > |raw| {
        return false;
      }
      var imageWidth, imageHeight := Le16At(raw, pos + 4), Le16At(raw, pos + 6);
      var imagePacked := raw[pos + 8];
      if imageWidth == 0 || imageHeight == 0 {
        return false;
      }
      pos := pos + 9;
      TableMeans(imagePacked);
      if imagePacked >= 0x80 {
        pos := pos + 3 * Shifted(imagePacked % 8 + 1);
      }
      if pos >= |raw| {
        return false;
      }
      if !(2 <= raw[pos] <= 11) {
        return false;
      }
      pos := pos + 1;
      var end := SubblocksEnd(raw, pos);
      if end.None? {
        return false;
      }
      pos := end.value;
      sawImage := true;
    }
    return false;
  }

  // ---- What the grammar gives ----

  lemma {:induction false} UniqueBlocks(bs: seq<Block>, cs: seq<Block>, suffix: seq<byte>)
    requires Continues(bs, true) && Continues(cs, true)
    requires PrintBlocks(bs) + suffix == PrintBlocks(cs)
    ensures bs == cs && suffix == []
    decreases |bs|
  {
    hide ReadBlock, PrintBlock, BlockOk, Continues;
    var raw := PrintBlocks(cs);
    assert raw[0..] == raw;
    if bs != [] {
      ContinuesStep(bs, true);
      assert raw == PrintBlock(bs[0]) + (PrintBlocks(bs[1..]) + suffix);
      PrintedBlockIsRead(raw, 0, bs[0], PrintBlocks(bs[1..]) + suffix);
    } else {
      assert raw == [0x3B] + suffix;
    }
    if cs != [] {
      ContinuesStep(cs, true);
      PrintedBlockIsRead(raw, 0, cs[0], PrintBlocks(cs[1..]));
    }
    if bs != [] && cs != [] {
      UniqueBlocks(bs[1..], cs[1..], suffix);
      assert bs == [bs[0]] + bs[1..] && cs == [cs[0]] + cs[1..];
    }
  }

  lemma Unique(p: Picture, q: Picture, suffix: seq<byte>)
    requires IsGif(p) && IsGif(q) && Print(p) + suffix == Print(q)
    ensures p == q && suffix == []
  {
    hide TableSize, Le16At, PrintBlocks, Print, BlockOk;
    PictureHeader(p, suffix);
    PictureHeader(q, []);
    var raw := Print(q);
    assert raw + [] == raw && PrintBlocks(q.blocks) + [] == PrintBlocks(q.blocks);
    UniqueBlocks(p.blocks, q.blocks, suffix);
  }

  /** The picture behind accepted bytes is unique. */
  lemma ParseIsUnique(p: Picture, q: Picture)
    requires IsGif(p) && IsGif(q) && Print(p) == Print(q)
    ensures p == q
  {
    hide Print, IsGif;
    assert Print(p) + [] == Print(p);
    Unique(p, q, []);
  }

  /** A complete picture followed by anything more is not a complete picture. */
  lemma NoAcceptedExtension(raw: seq<byte>, suffix: seq<byte>)
    requires Accepted(raw) && suffix != []
    ensures !Accepted(raw + suffix)
  {
    hide Print, IsGif;
    if Accepted(raw + suffix) {
      var p :| IsGif(p) && raw == Print(p);
      var q :| IsGif(q) && raw + suffix == Print(q);
      Unique(p, q, suffix);
    }
  }
}
