/** The whole-image check for PNG (RFC 2083, sections 3.2 and 4.1), proved to decide a grammar:
    a signature followed by the printed form of one list of chunks. */
module Png {
  import opened ByteCodec

  /** The checksum is a parameter: every result below holds for any such function. */
  type Crc = seq<byte> -> u32

  datatype Chunk = Chunk(kind: seq<byte>, data: seq<byte>)

  const SIGNATURE: seq<byte> := [0x89, 0x50, 0x4E, 0x47, 0x0D, 0x0A, 0x1A, 0x0A]
  const IHDR: seq<byte> := [0x49, 0x48, 0x44, 0x52]
  const IDAT: seq<byte> := [0x49, 0x44, 0x41, 0x54]
  const IEND: seq<byte> := [0x49, 0x45, 0x4E, 0x44]

  // ---- The grammar ----

  predicate IsLetter(b: byte) {
    65 <= b <= 90 || 97 <= b <= 122
  }

  predicate KindOk(kind: seq<byte>) {
    && |kind| == 4
    && (forall i | 0 <= i < 4 :: IsLetter(kind[i]))
    && 65 <= kind[2] <= 90
  }

  predicate ChunkOk(c: Chunk) {
    KindOk(c.kind) && |c.data| < 0x1_0000_0000
  }

  predicate DepthOk(colorType: byte, depth: byte) {
    match colorType
    case 0 => depth in {1, 2, 4, 8, 16}
    case 2 => depth in {8, 16}
    case 3 => depth in {1, 2, 4, 8}
    case 4 => depth in {8, 16}
    case 6 => depth in {8, 16}
    case _ => false
  }

  /** The 13 bytes of a header: size, bit depth, colour type, methods, interlacing. */
  predicate HeaderOk(d: seq<byte>) {
    && |d| == 13
    && Be32At(d, 0) != 0 && Be32At(d, 4) != 0
    && DepthOk(d[9], d[8])
    && d[10] == 0 && d[11] == 0 && d[12] in {0, 1}
  }

  /** The chunks of a complete image: one header, first; one end chunk, last and empty; image
      data somewhere between. */
  ghost predicate IsPng(cs: seq<Chunk>) {
    && |cs| >= 2
    && (forall i | 0 <= i < |cs| :: ChunkOk(cs[i]))
    && cs[0].kind == IHDR && HeaderOk(cs[0].data)
    && (forall i | 0 < i < |cs| :: cs[i].kind != IHDR)
    && cs[|cs| - 1] == Chunk(IEND, [])
    && (forall i | 0 <= i < |cs| - 1 :: cs[i].kind != IEND)
    && (exists i :: 0 <= i < |cs| && cs[i].kind == IDAT)
  }

  function Print(crc: Crc, c: Chunk): seq<byte> {
    PutBe32(|c.data|) + (c.kind + (c.data + PutBe32(crc(c.kind + c.data))))
  }

  function PrintAll(crc: Crc, cs: seq<Chunk>): seq<byte> {
    if cs == [] then [] else Print(crc, cs[0]) + PrintAll(crc, cs[1..])
  }

  ghost predicate Accepted(crc: Crc, raw: seq<byte>) {
    exists cs :: IsPng(cs) && raw == SIGNATURE + PrintAll(crc, cs)
  }

  // ---- The rules, one chunk at a time ----

  /** What a chunk must satisfy where it stands; `first` while the header is still due. */
  predicate StepOk(c: Chunk, first: bool) {
    && ChunkOk(c)
    && if first then c.kind == IHDR && HeaderOk(c.data) else c.kind != IHDR
  }

  /** `cs` may follow what was read so far; `saw` once image data was seen. */
  predicate Continues(cs: seq<Chunk>, first: bool, saw: bool) {
    && cs != []
    && StepOk(cs[0], first)
    && if cs[0].kind == IEND then cs[0].data == [] && saw && |cs| == 1
       else Continues(cs[1..], false, saw || cs[0].kind == IDAT)
  }

  lemma {:induction false} ContinuesMeans(cs: seq<Chunk>, saw: bool)
    ensures Continues(cs, false, saw) <==>
      && cs != []
      && (forall i | 0 <= i < |cs| :: ChunkOk(cs[i]) && cs[i].kind != IHDR)
      && cs[|cs| - 1] == Chunk(IEND, [])
      && (forall i | 0 <= i < |cs| - 1 :: cs[i].kind != IEND)
      && (saw || exists i :: 0 <= i < |cs| && cs[i].kind == IDAT)
    decreases |cs|
  {
    hide HeaderOk, KindOk;
    if |cs| > 1 {
      var rest := cs[1..];
      ContinuesMeans(rest, saw || cs[0].kind == IDAT);
      assert forall i | 0 <= i < |rest| :: rest[i] == cs[i + 1];
      assert forall i | 0 < i < |cs| :: cs[i] == rest[i - 1];
    }
  }

  lemma IsPngMeans(cs: seq<Chunk>)
    ensures IsPng(cs) <==> Continues(cs, true, false)
  {
    hide HeaderOk, KindOk;
    if |cs| > 1 {
      var rest := cs[1..];
      ContinuesMeans(rest, false);
      assert forall i | 0 <= i < |rest| :: rest[i] == cs[i + 1];
      assert forall i | 0 < i < |cs| :: cs[i] == rest[i - 1];
    }
  }

  // ---- The cursor ----

  /** A chunk with a well-formed type and the right checksum starts at `pos`. */
  predicate ChunkAt(crc: Crc, raw: seq<byte>, pos: nat) {
    && pos + 12 <= |raw|
    && pos + 12 + Be32At(raw, pos) <= |raw|
    && var c := ReadChunk(raw, pos);
    && KindOk(c.kind)
    && Be32At(raw, pos + 8 + |c.data|) == crc(c.kind + c.data)
  }

  function ReadChunk(raw: seq<byte>, pos: nat): Chunk
    requires pos + 12 <= |raw| && pos + 12 + Be32At(raw, pos) <= |raw|
  {
    Chunk(raw[pos + 4..pos + 8], raw[pos + 8..pos + 8 + Be32At(raw, pos)])
  }

  /** What the scan answers from `pos` on. */
  predicate From(crc: Crc, raw: seq<byte>, pos: nat, first: bool, saw: bool)
    requires pos <= |raw|
    decreases |raw| - pos
  {
    && ChunkAt(crc, raw, pos)
    && var c := ReadChunk(raw, pos);
    && var end := pos + 12 + |c.data|;
    && StepOk(c, first)
    && if c.kind == IEND then c.data == [] && saw && end == |raw|
       else From(crc, raw, end, false, saw || c.kind == IDAT)
  }

  lemma ReadIsPrinted(crc: Crc, raw: seq<byte>, pos: nat)
    requires ChunkAt(crc, raw, pos)
    ensures pos + 12 <= |raw| && pos + 12 + Be32At(raw, pos) <= |raw| && |ReadChunk(raw, pos).data| == Be32At(raw, pos)
    ensures var c := ReadChunk(raw, pos);
      ChunkOk(c) && raw[pos..] == Print(crc, c) + raw[pos + 12 + |c.data|..]
  {
    hide PutBe32, Be32At;
    var n := Be32At(raw, pos);
    Be32Exact(raw, pos);
    Be32Exact(raw, pos + 8 + n);
  }

  lemma PrintedIsRead(crc: Crc, raw: seq<byte>, pos: nat, c: Chunk, first: bool, rest: seq<byte>)
    requires StepOk(c, first) && pos <= |raw| && raw[pos..] == Print(crc, c) + rest
    ensures ChunkAt(crc, raw, pos) && ReadChunk(raw, pos) == c
    ensures pos + 12 + |c.data| <= |raw| && raw[pos + 12 + |c.data|..] == rest
  {
    hide PutBe32, Be32At, HeaderOk;
    var sum := PutBe32(crc(c.kind + c.data));
    assert raw[pos..] == PutBe32(|c.data|) + (c.kind + (c.data + (sum + rest)));
    PeelBe32(raw, pos, |c.data|, c.kind + (c.data + (sum + rest)));
    Peel(raw, pos + 4, c.kind, c.data + (sum + rest));
    Peel(raw, pos + 8, c.data, sum + rest);
    PeelBe32(raw, pos + 8 + |c.data|, crc(c.kind + c.data), rest);
  }

  /** The scan accepts only what some list of chunks prints. */
  lemma {:induction false} Sound(crc: Crc, raw: seq<byte>, pos: nat, first: bool, saw: bool) returns (cs: seq<Chunk>)
    requires pos <= |raw| && From(crc, raw, pos, first, saw)
    ensures Continues(cs, first, saw) && raw[pos..] == PrintAll(crc, cs)
    decreases |raw| - pos
  {
    hide Be32At, StepOk, Print, ChunkAt, ReadChunk, ChunkOk;
    ReadIsPrinted(crc, raw, pos);
    var c := ReadChunk(raw, pos);
    cs := [];
    if c.kind != IEND {
      cs := Sound(crc, raw, pos + 12 + |c.data|, false, saw || c.kind == IDAT);
    }
    assert ([c] + cs)[1..] == cs;
    cs := [c] + cs;
  }

  /** The scan accepts whatever a permitted list of chunks prints. */
  lemma {:induction false} Complete(crc: Crc, raw: seq<byte>, pos: nat, cs: seq<Chunk>, first: bool, saw: bool)
    requires pos <= |raw| && Continues(cs, first, saw) && raw[pos..] == PrintAll(crc, cs)
    ensures From(crc, raw, pos, first, saw)
    decreases |cs|
  {
    hide Print, Be32At, StepOk, ChunkAt, ReadChunk;
    var c := cs[0];
    PrintedIsRead(crc, raw, pos, c, first, PrintAll(crc, cs[1..]));
    if c.kind != IEND {
      Complete(crc, raw, pos + 12 + |c.data|, cs[1..], false, saw || c.kind == IDAT);
    }
  }

  lemma ScanDecides(crc: Crc, raw: seq<byte>)
    ensures Accepted(crc, raw) <==> |raw| >= 8 && raw[..8] == SIGNATURE && From(crc, raw, 8, true, false)
  {
    hide Print, From, Continues;
    if |raw| >= 8 && raw[..8] == SIGNATURE {
      assert raw == SIGNATURE + raw[8..];
      if From(crc, raw, 8, true, false) {
        var cs := Sound(crc, raw, 8, true, false);
        IsPngMeans(cs);
      }
      forall cs | IsPng(cs) && raw == SIGNATURE + PrintAll(crc, cs) ensures From(crc, raw, 8, true, false) {
        IsPngMeans(cs);
        Complete(crc, raw, 8, cs, true, false);
      }
    }
  }

  // ---- The check ----

  /** The table of bit depths by colour type. */
  function ValidDepths(colorType: byte): set<byte> {
    var depths: map<byte, set<byte>> := map[0 := {1, 2, 4, 8, 16}, 2 := {8, 16}, 3 := {1, 2, 4, 8}, 4 := {8, 16}, 6 := {8, 16}];
    if colorType in depths then depths[colorType] else {}
  }

  lemma DepthsMean(colorType: byte, depth: byte)
    ensures depth in ValidDepths(colorType) <==> DepthOk(colorType, depth)
  {
  }

  /** Four letters, the third a capital. */
  method IsChunkKind(kind: seq<byte>) returns (ok: bool)
    requires |kind| == 4
    ensures ok <==> KindOk(kind)
  {
    for i := 0 to 4
      invariant forall k | 0 <= k < i :: IsLetter(kind[k])
    {
      if !(65 <= kind[i] <= 90 || 97 <= kind[i] <= 122) {
        return false;
      }
    }
    return 65 <= kind[2] <= 90;
  }

  /** Size, bit depth and the other fields of a header. */
  method IsHeader(data: seq<byte>) returns (ok: bool)
    requires |data| == 13
    ensures ok <==> HeaderOk(data)
  {
    hide DepthOk, ValidDepths, Be32At;
    DepthsMean(data[9], data[8]);
    var width, height := Be32At(data, 0), Be32At(data, 4);
    if || width == 0
       || height == 0
       || data[8] !in ValidDepths(data[9])
       || data[10] != 0
       || data[11] != 0
       || data[12] !in {0, 1}
    {
      return false;
    }
    return true;
  }

  lemma FromShort(crc: Crc, raw: seq<byte>, pos: nat, first: bool, saw: bool)
    requires pos <= |raw|
    ensures pos + 12 > |raw| || pos + 12 + Be32At(raw, pos) > |raw| ==> !From(crc, raw, pos, first, saw)
  {
  }

  lemma HeaderIsShort(data: seq<byte>)
    ensures HeaderOk(data) ==> |data| == 13
  {
  }

  /** One round of the scan. */
  lemma FromStep(crc: Crc, raw: seq<byte>, pos: nat, first: bool, saw: bool, kind: seq<byte>, data: seq<byte>, end: nat)
    requires pos + 12 <= |raw| && end == pos + 12 + Be32At(raw, pos) <= |raw|
    requires kind == raw[pos + 4..pos + 8] && data == raw[pos + 8..end - 4]
    ensures From(crc, raw, pos, first, saw) <==>
      && KindOk(kind) && crc(kind + data) == Be32At(raw, end - 4)
      && (if first then kind == IHDR && HeaderOk(data) else kind != IHDR)
      && if kind == IEND then data == [] && saw && end == |raw| else From(crc, raw, end, false, saw || kind == IDAT)
  {
    hide KindOk, HeaderOk, Be32At;
    assert ReadChunk(raw, pos) == Chunk(kind, data);
  }

  /** Accepts exactly the printed complete images. */
  method IsCompletePng(crc: Crc, raw: seq<byte>) returns (ok: bool)
    ensures ok <==> Accepted(crc, raw)
  {
    hide Accepted, HeaderOk, Be32At, KindOk, From;
    ScanDecides(crc, raw);
    if |raw| < 8 || raw[..8] != SIGNATURE {
      return false;
    }
    var pos, chunkIndex, sawIdat := 8, 0, false;
    while pos < |raw|
      invariant 8 <= pos <= |raw| && chunkIndex >= 0
      invariant Accepted(crc, raw) == From(crc, raw, pos, chunkIndex == 0, sawIdat)
    {
      FromShort(crc, raw, pos, chunkIndex == 0, sawIdat);
      if pos + 12 > |raw| {
        return false;
      }
      var length := Be32At(raw, pos);
      var kind := raw[pos + 4..pos + 8];
      var dataStart := pos + 8;
      var dataEnd := dataStart + length;
      var chunkEnd := dataEnd + 4;
      if chunkEnd > |raw| {
        return false;
      }
      var data := raw[dataStart..dataEnd];
      FromStep(crc, raw, pos, chunkIndex == 0, sawIdat, kind, data, chunkEnd);
      var kindFits := IsChunkKind(kind);
      if !kindFits {
        return false;
      }
      if crc(kind + data) != Be32At(raw, dataEnd) {
        return false;
      }
      if chunkIndex == 0 {
        HeaderIsShort(data);
        if kind != IHDR || length != 13 {
          return false;
        }
        var headerFits := IsHeader(data);
        if !headerFits {
          return false;
        }
      } else if kind == IHDR {
        return false;
      }
      if kind == IDAT {
        sawIdat := true;
      }
      if kind == IEND {
        return length == 0 && sawIdat && chunkEnd == |raw|;
      }
      pos := chunkEnd;
      chunkIndex := chunkIndex + 1;
    }
    FromShort(crc, raw, pos, chunkIndex == 0, sawIdat);
    return false;
  }

  // ---- What the grammar gives ----

  /** Printing loses nothing, and an image ends where its end chunk ends. */
  lemma {:induction false} Unique(
    crc: Crc, cs: seq<Chunk>, ds: seq<Chunk>, suffix: seq<byte>, first: bool, saw: bool, saw': bool)
    requires Continues(cs, first, saw) && Continues(ds, first, saw')
    requires PrintAll(crc, cs) + suffix == PrintAll(crc, ds)
    ensures cs == ds && suffix == []
    decreases |cs|
  {
    hide Print, Be32At, StepOk, ChunkAt, ReadChunk;
    var c, d, raw := cs[0], ds[0], PrintAll(crc, ds);
    assert raw[0..] == raw == Print(crc, c) + (PrintAll(crc, cs[1..]) + suffix);
    PrintedIsRead(crc, raw, 0, c, first, PrintAll(crc, cs[1..]) + suffix);
    PrintedIsRead(crc, raw, 0, d, first, PrintAll(crc, ds[1..]));
    if c.kind != IEND {
      Unique(crc, cs[1..], ds[1..], suffix, false, saw || c.kind == IDAT, saw' || c.kind == IDAT);
    }
    assert cs == [c] + cs[1..] && ds == [d] + ds[1..];
  }

  /** The chunk list behind an accepted image is unique. */
  lemma ParseIsUnique(crc: Crc, cs: seq<Chunk>, ds: seq<Chunk>)
    requires IsPng(cs) && IsPng(ds)
    requires SIGNATURE + PrintAll(crc, cs) == SIGNATURE + PrintAll(crc, ds)
    ensures cs == ds
  {
    hide Print, PrintAll, IsPng, Continues;
    var x, y := PrintAll(crc, cs), PrintAll(crc, ds);
    assert (SIGNATURE + x)[8..] == x && (SIGNATURE + y)[8..] == y && x + [] == x;
    IsPngMeans(cs);
    IsPngMeans(ds);
    Unique(crc, cs, ds, [], true, false, false);
  }

  /** A complete image followed by anything more is not a complete image. */
  lemma NoAcceptedExtension(crc: Crc, raw: seq<byte>, suffix: seq<byte>)
    requires Accepted(crc, raw) && suffix != []
    ensures !Accepted(crc, raw + suffix)
  {
    hide Print, PrintAll, IsPng, Continues;
    if Accepted(crc, raw + suffix) {
      var cs :| IsPng(cs) && raw == SIGNATURE + PrintAll(crc, cs);
      var ds :| IsPng(ds) && raw + suffix == SIGNATURE + PrintAll(crc, ds);
      assert PrintAll(crc, cs) + suffix == (raw + suffix)[8..] == PrintAll(crc, ds);
      IsPngMeans(cs);
      IsPngMeans(ds);
      Unique(crc, cs, ds, suffix, true, false, false);
    }
  }
}
