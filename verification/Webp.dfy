/** The whole-image check for WebP (RFC 9649, sections 2.3 to 2.7), proved to decide a grammar: one
    RIFF container whose chunks are padded to even size, with animation frames nesting chunks of
    their own. */
module Webp {
  import opened ByteCodec

  /** The pad byte of an odd chunk may be anything, so it is part of the chunk. */
  datatype Chunk = Chunk(kind: seq<byte>, data: seq<byte>, pad: seq<byte>)

  const RIFF: seq<byte> := [0x52, 0x49, 0x46, 0x46]
  const WEBP: seq<byte> := [0x57, 0x45, 0x42, 0x50]
  const VP8: seq<byte> := [0x56, 0x50, 0x38, 0x20]
  const VP8L: seq<byte> := [0x56, 0x50, 0x38, 0x4C]
  const VP8X: seq<byte> := [0x56, 0x50, 0x38, 0x58]
  const ANMF: seq<byte> := [0x41, 0x4E, 0x4D, 0x46]
  const ALPH: seq<byte> := [0x41, 0x4C, 0x50, 0x48]
  const KEY_FRAME: seq<byte> := [0x9D, 0x01, 0x2A]

  // ---- Chunks ----

  predicate ChunkOk(c: Chunk) {
    |c.kind| == 4 && |c.data| < 0x1_0000_0000 && |c.pad| == |c.data| % 2
  }

  function Print(c: Chunk): seq<byte> {
    c.kind + (PutLe32(|c.data|) + (c.data + c.pad))
  }

  function PrintAll(cs: seq<Chunk>): seq<byte> {
    if cs == [] then [] else Print(cs[0]) + PrintAll(cs[1..])
  }

  predicate ChunkAt(raw: seq<byte>, pos: nat) {
    && pos + 8 <= |raw|
    && var n := Le32At(raw, pos + 4); pos + 8 + n + n % 2 <= |raw|
  }

  function ReadChunk(raw: seq<byte>, pos: nat): Chunk
    requires ChunkAt(raw, pos)
  {
    var n, start := Le32At(raw, pos + 4), pos + 8;
    Chunk(raw[pos..pos + 4], raw[start..start + n], raw[start + n..start + n + n % 2])
  }

  function ChunkEnd(raw: seq<byte>, pos: nat): (end: nat)
    requires ChunkAt(raw, pos)
    ensures pos < end <= |raw|
  {
    var n := Le32At(raw, pos + 4);
    pos + 8 + n + n % 2
  }

  lemma ReadIsPrinted(raw: seq<byte>, pos: nat)
    requires ChunkAt(raw, pos)
    ensures ChunkOk(ReadChunk(raw, pos))
    ensures raw[pos..] == Print(ReadChunk(raw, pos)) + raw[ChunkEnd(raw, pos)..]
  {
    var (n, start, end) := (Le32At(raw, pos + 4), pos + 8, ChunkEnd(raw, pos));
    var (kind, data, pad) := (raw[pos..pos + 4], raw[start..start + n], raw[start + n..end]);
    assert ReadChunk(raw, pos) == Chunk(kind, data, pad) && |pad| == n % 2;
    hide *;
    Le32Exact(raw, pos + 4);
    PrintOf(ReadChunk(raw, pos));
    CutAt(raw, start + n, end, []);
    CutAt(raw, start, start + n, pad);
    CutAt(raw, pos + 4, start, data + pad);
    CutAt(raw, pos, pos + 4, PutLe32(n) + (data + pad));
  }

  lemma PrintOf(c: Chunk)
    ensures Print(c) == c.kind + (PutLe32(|c.data|) + (c.data + c.pad))
  {
  }

  lemma PrintedIsRead(raw: seq<byte>, pos: nat, c: Chunk, rest: seq<byte>)
    requires ChunkOk(c) && pos <= |raw| && raw[pos..] == Print(c) + rest
    ensures ChunkAt(raw, pos) && ReadChunk(raw, pos) == c
    ensures raw[ChunkEnd(raw, pos)..] == rest
  {
    hide Le32At, Print;
    PrintedFields(raw, pos, c, rest);
  }

  lemma PrintedFields(raw: seq<byte>, pos: nat, c: Chunk, rest: seq<byte>)
    requires |c.kind| == 4 && |c.data| < 0x1_0000_0000 && pos <= |raw| && raw[pos..] == Print(c) + rest
    ensures var (start, n, end) := (pos + 8, |c.data|, pos + 8 + |c.data| + |c.pad|);
      && end <= |raw| && raw[pos..pos + 4] == c.kind && Le32At(raw, pos + 4) == n
      && raw[start..start + n] == c.data && raw[start + n..end] == c.pad && raw[end..] == rest
  {
    PrintOf(c);
    hide *;
    PeelHeader(raw, pos, c.kind, |c.data|, c.data + c.pad, rest);
    PeelTwo(raw, pos + 8, c.data, c.pad, rest);
  }

  lemma PeelHeader(raw: seq<byte>, pos: nat, kind: seq<byte>, n: u32, inner: seq<byte>, rest: seq<byte>)
    requires |kind| == 4 && pos <= |raw| && raw[pos..] == (kind + (PutLe32(n) + inner)) + rest
    ensures pos + 8 <= |raw| && raw[pos..pos + 4] == kind && Le32At(raw, pos + 4) == n && raw[pos + 8..] == inner + rest
  {
    hide *;
    PeelIn(raw, pos, kind, PutLe32(n) + inner, rest);
    PeelIn(raw, pos + 4, PutLe32(n), inner, rest);
    PeelLe32(raw, pos + 4, n, inner + rest);
  }

  lemma PeelTwo(raw: seq<byte>, pos: nat, s: seq<byte>, t: seq<byte>, rest: seq<byte>)
    requires pos <= |raw| && raw[pos..] == (s + t) + rest
    ensures var (mid, end) := (pos + |s|, pos + |s| + |t|);
      end <= |raw| && raw[pos..mid] == s && raw[mid..end] == t && raw[end..] == rest
  {
    PeelIn(raw, pos, s, t, rest);
    Peel(raw, pos + |s|, t, rest);
  }

  /** Chunk lists print differently. */
  lemma {:induction false} PrintUnique(cs: seq<Chunk>, ds: seq<Chunk>)
    requires forall i | 0 <= i < |cs| :: ChunkOk(cs[i])
    requires forall i | 0 <= i < |ds| :: ChunkOk(ds[i])
    requires PrintAll(cs) == PrintAll(ds)
    ensures cs == ds
    decreases |cs|
  {
    hide Print, ChunkOk, ChunkAt, ReadChunk, ChunkEnd;
    var raw := PrintAll(cs);
    assert raw[0..] == raw;
    if cs != [] {
      PrintedIsRead(raw, 0, cs[0], PrintAll(cs[1..]));
    }
    if ds != [] {
      PrintedIsRead(raw, 0, ds[0], PrintAll(ds[1..]));
    }
    if cs != [] && ds != [] {
      PrintUnique(cs[1..], ds[1..]);
      assert cs == [cs[0]] + cs[1..] && ds == [ds[0]] + ds[1..];
    }
  }

  // ---- The rules ----

  predicate IsBitstream(kind: seq<byte>) {
    kind == VP8 || kind == VP8L
  }

  /** A lossy key frame with a size, or a lossless stream of version zero. */
  predicate BitstreamOk(kind: seq<byte>, d: seq<byte>) {
    if kind == VP8 then
      && |d| >= 10 && d[3..6] == KEY_FRAME
      && Le16At(d, 6) % 0x4000 != 0 && Le16At(d, 8) % 0x4000 != 0
    else
      kind == VP8L && |d| >= 5 && d[0] == 0x2F && d[4] < 0x20
  }

  predicate ExtendedOk(d: seq<byte>) {
    |d| == 10 && d[0] < 0x80 && d[0] % 2 == 0 && d[1] == 0 && d[2] == 0 && d[3] == 0
  }

  /** The chunks inside an animation frame: one bitstream, and alpha. */
  ghost predicate IsFrame(cs: seq<Chunk>) {
    && (forall i | 0 <= i < |cs| :: ChunkOk(cs[i]))
    && (forall i | 0 <= i < |cs| :: IsBitstream(cs[i].kind) || cs[i].kind == ALPH)
    && (exists i ::
        && 0 <= i < |cs| && IsBitstream(cs[i].kind) && BitstreamOk(cs[i].kind, cs[i].data)
        && forall j | 0 <= j < |cs| && j != i :: !IsBitstream(cs[j].kind))
  }

  ghost predicate FrameAccepted(d: seq<byte>) {
    && |d| >= 16 && d[15] < 4
    && exists cs :: IsFrame(cs) && d[16..] == PrintAll(cs)
  }

  predicate BearsImage(c: Chunk) {
    IsBitstream(c.kind) || c.kind == ANMF
  }

  /** The chunks of a file: an image somewhere; a bitstream is sound and comes before every other
      image; extended headers and animation frames are sound. Other chunks are free. */
  ghost predicate IsWebp(cs: seq<Chunk>) {
    && (forall i | 0 <= i < |cs| :: ChunkOk(cs[i]))
    && (forall i | 0 <= i < |cs| && IsBitstream(cs[i].kind) ::
        BitstreamOk(cs[i].kind, cs[i].data) && forall j | 0 <= j < i :: !BearsImage(cs[j]))
    && (forall i | 0 <= i < |cs| && cs[i].kind == VP8X :: ExtendedOk(cs[i].data))
    && (forall i | 0 <= i < |cs| && cs[i].kind == ANMF :: FrameAccepted(cs[i].data))
    && (exists i :: 0 <= i < |cs| && BearsImage(cs[i]))
  }

  function PrintFile(cs: seq<Chunk>): seq<byte> {
    RIFF + (PutLe32(4 + |PrintAll(cs)|) + (WEBP + PrintAll(cs)))
  }

  ghost predicate Accepted(raw: seq<byte>) {
    exists cs :: IsWebp(cs) && |PrintAll(cs)| + 4 < 0x1_0000_0000 && raw == PrintFile(cs)
  }

  // ---- The rules, one chunk at a time ----

  /** What a chunk must satisfy where it stands; `saw` once an image was seen. */
  ghost predicate FrameStep(c: Chunk, saw: bool) {
    && ChunkOk(c)
    && if IsBitstream(c.kind) then !saw && BitstreamOk(c.kind, c.data) else c.kind == ALPH
  }

  ghost predicate FileStep(c: Chunk, saw: bool) {
    && ChunkOk(c)
    && (IsBitstream(c.kind) ==> !saw && BitstreamOk(c.kind, c.data))
    && (c.kind == VP8X ==> ExtendedOk(c.data))
    && (c.kind == ANMF ==> FrameAccepted(c.data))
  }

  ghost predicate Step(c: Chunk, saw: bool, frame: bool) {
    if frame then FrameStep(c, saw) else FileStep(c, saw)
  }

  /** Whether an image was seen after `c`. */
  predicate Sees(c: Chunk, saw: bool) {
    saw || BearsImage(c)
  }

  ghost predicate Continues(cs: seq<Chunk>, saw: bool, frame: bool) {
    if cs == [] then saw
    else Step(cs[0], saw, frame) && Continues(cs[1..], Sees(cs[0], saw), frame)
  }

  lemma {:induction false} FrameContinues(cs: seq<Chunk>, saw: bool)
    ensures Continues(cs, saw, true) <==>
      && (forall i | 0 <= i < |cs| :: ChunkOk(cs[i]))
      && (forall i | 0 <= i < |cs| :: IsBitstream(cs[i].kind) || cs[i].kind == ALPH)
      && (if saw then forall j | 0 <= j < |cs| :: !IsBitstream(cs[j].kind)
          else exists i ::
            && 0 <= i < |cs| && IsBitstream(cs[i].kind) && BitstreamOk(cs[i].kind, cs[i].data)
            && forall j | 0 <= j < |cs| && j != i :: !IsBitstream(cs[j].kind))
    decreases |cs|
  {
    hide ChunkOk, BitstreamOk;
    if cs != [] {
      var c, rest := cs[0], cs[1..];
      FrameContinues(rest, Sees(c, saw));
      assert forall i | 0 <= i < |rest| :: rest[i] == cs[i + 1];
      assert forall i | 0 < i < |cs| :: cs[i] == rest[i - 1];
    }
  }

  lemma {:induction false} FileContinues(cs: seq<Chunk>, saw: bool)
    ensures Continues(cs, saw, false) <==>
      && (forall i | 0 <= i < |cs| :: ChunkOk(cs[i]))
      && (forall i | 0 <= i < |cs| && IsBitstream(cs[i].kind) ::
          !saw && BitstreamOk(cs[i].kind, cs[i].data) && forall j | 0 <= j < i :: !BearsImage(cs[j]))
      && (forall i | 0 <= i < |cs| && cs[i].kind == VP8X :: ExtendedOk(cs[i].data))
      && (forall i | 0 <= i < |cs| && cs[i].kind == ANMF :: FrameAccepted(cs[i].data))
      && (saw || exists i :: 0 <= i < |cs| && BearsImage(cs[i]))
    decreases |cs|
  {
    hide ChunkOk, BitstreamOk, ExtendedOk, FrameAccepted;
    if cs != [] {
      var c, rest := cs[0], cs[1..];
      FileContinues(rest, Sees(c, saw));
      assert forall i | 0 <= i < |rest| :: rest[i] == cs[i + 1];
      assert forall i | 0 < i < |cs| :: cs[i] == rest[i - 1];
    }
  }

  // ---- The cursor ----

  /** What a scan of chunks answers from `pos` on. */
  ghost predicate From(raw: seq<byte>, pos: nat, saw: bool, frame: bool)
    requires pos <= |raw|
    decreases |raw| - pos
  {
    if pos == |raw| then saw
    else
      && ChunkAt(raw, pos)
      && var c := ReadChunk(raw, pos);
      Step(c, saw, frame) && From(raw, ChunkEnd(raw, pos), Sees(c, saw), frame)
  }

  lemma {:induction false} Sound(raw: seq<byte>, pos: nat, saw: bool, frame: bool) returns (cs: seq<Chunk>)
    requires pos <= |raw| && From(raw, pos, saw, frame)
    ensures Continues(cs, saw, frame) && raw[pos..] == PrintAll(cs)
    decreases |raw| - pos
  {
    hide Step, Print, ChunkAt, ReadChunk, ChunkEnd, ChunkOk;
    cs := [];
    if pos < |raw| {
      ReadIsPrinted(raw, pos);
      var c := ReadChunk(raw, pos);
      cs := Sound(raw, ChunkEnd(raw, pos), Sees(c, saw), frame);
      assert ([c] + cs)[1..] == cs;
      cs := [c] + cs;
    }
  }

  lemma {:induction false} Complete(raw: seq<byte>, pos: nat, cs: seq<Chunk>, saw: bool, frame: bool)
    requires pos <= |raw| && Continues(cs, saw, frame) && raw[pos..] == PrintAll(cs)
    ensures From(raw, pos, saw, frame)
    decreases |cs|
  {
    hide Step, Print, ChunkAt, ReadChunk, ChunkEnd;
    if cs != [] {
      assert ChunkOk(cs[0]) by { StepIsOk(cs[0], saw, frame); }
      PrintedIsRead(raw, pos, cs[0], PrintAll(cs[1..]));
      Complete(raw, ChunkEnd(raw, pos), cs[1..], Sees(cs[0], saw), frame);
    }
  }

  lemma StepIsOk(c: Chunk, saw: bool, frame: bool)
    requires Step(c, saw, frame)
    ensures ChunkOk(c)
  {
  }

  lemma FrameScanDecides(d: seq<byte>)
    requires |d| >= 16 && d[15] < 4
    ensures FrameAccepted(d) <==> From(d, 16, false, true)
  {
    hide From, Continues, PrintAll, IsFrame;
    if From(d, 16, false, true) {
      var cs := Sound(d, 16, false, true);
      IsFrameMeans(cs);
    }
    forall cs | IsFrame(cs) && d[16..] == PrintAll(cs) ensures From(d, 16, false, true) {
      IsFrameMeans(cs);
      Complete(d, 16, cs, false, true);
    }
  }

  lemma IsFrameMeans(cs: seq<Chunk>)
    ensures IsFrame(cs) <==> Continues(cs, false, true)
  {
    hide ChunkOk, BitstreamOk, Continues, IsBitstream;
    FrameContinues(cs, false);
  }

  lemma IsWebpMeans(cs: seq<Chunk>)
    ensures IsWebp(cs) <==> Continues(cs, false, false)
  {
    hide ChunkOk, BitstreamOk, Continues, IsBitstream, BearsImage, ExtendedOk, FrameAccepted;
    FileContinues(cs, false);
  }

  /** Whether a bitstream chunk is sound. */
  method IsWebpImageChunk(chunkType: seq<byte>, data: seq<byte>) returns (ok: bool)
    ensures ok <==> BitstreamOk(chunkType, data)
  {
    hide Le16At;
    if chunkType == VP8 {
      if |data| < 10 || data[3..6] != KEY_FRAME {
        return false;
      }
      var width, height := Le16At(data, 6) % 0x4000, Le16At(data, 8) % 0x4000;
      return width != 0 && height != 0;
    }
    if chunkType == VP8L {
      return |data| >= 5 && data[0] == 0x2F && data[4] / 0x20 == 0;
    }
    return false;
  }

  /** Whether the header of an extended file has its reserved bits clear. */
  method IsExtendedHeader(data: seq<byte>) returns (ok: bool)
    ensures ok <==> ExtendedOk(data)
  {
    return |data| == 10 && data[0] / 0x80 == 0 && data[0] % 2 == 0 && data[1] == 0 && data[2] == 0 && data[3] == 0;
  }

  /** The container header: RIFF, the size of everything behind the size field, WEBP. */
  predicate HeaderAt(raw: seq<byte>) {
    |raw| >= 12 && raw[..4] == RIFF && raw[8..12] == WEBP && Le32At(raw, 4) + 8 == |raw|
  }

  lemma HeaderReads(raw: seq<byte>, body: seq<byte>)
    ensures (HeaderAt(raw) && raw[12..] == body) <==>
      |body| + 4 < 0x1_0000_0000 && raw == RIFF + (PutLe32(4 + |body|) + (WEBP + body))
  {
    hide PutLe32, Le32At;
    if HeaderAt(raw) && raw[12..] == body {
      Le32Exact(raw, 4);
      Cut(raw, 0, 4);
      Cut(raw, 4, 8);
      Cut(raw, 8, 12);
      assert raw[0..] == raw;
    }
    if |body| + 4 < 0x1_0000_0000 && raw == RIFF + (PutLe32(4 + |body|) + (WEBP + body)) {
      assert raw[0..] == raw;
      Peel(raw, 0, RIFF, PutLe32(4 + |body|) + (WEBP + body));
      PeelLe32(raw, 4, 4 + |body|, WEBP + body);
      Peel(raw, 8, WEBP, body);
    }
  }

  lemma ScanDecides(raw: seq<byte>)
    ensures Accepted(raw) <==> HeaderAt(raw) && From(raw, 12, false, false)
  {
    hide From, Continues, PrintAll, IsWebp, PutLe32, Le32At;
    if HeaderAt(raw) && From(raw, 12, false, false) {
      var cs := Sound(raw, 12, false, false);
      IsWebpMeans(cs);
      HeaderReads(raw, PrintAll(cs));
    }
    forall cs | IsWebp(cs) && |PrintAll(cs)| + 4 < 0x1_0000_0000 && raw == PrintFile(cs)
      ensures HeaderAt(raw) && From(raw, 12, false, false)
    {
      IsWebpMeans(cs);
      HeaderReads(raw, PrintAll(cs));
      Complete(raw, 12, cs, false, false);
    }
  }

  // ---- The check ----

  method IsCompleteWebpFrame(data: seq<byte>) returns (ok: bool)
    ensures ok <==> FrameAccepted(data)
  {
    hide FrameAccepted, BitstreamOk, Le32At, FileStep;
    if |data| < 16 || data[15] >= 4 {
      assert !FrameAccepted(data) by { TooShort(data); }
      return false;
    }
    FrameScanDecides(data);
    var pos, sawImage := 16, false;
    while pos < |data|
      invariant 16 <= pos <= |data|
      invariant FrameAccepted(data) == From(data, pos, sawImage, true)
    {
      if pos + 8 > |data| {
        return false;
      }
      var chunkType := data[pos..pos + 4];
      var chunkSize := Le32At(data, pos + 4);
      var dataStart := pos + 8;
      var dataEnd := dataStart + chunkSize;
      var chunkEnd := dataEnd + chunkSize % 2;
      if chunkEnd > |data| {
        return false;
      }
      var chunkData := data[dataStart..dataEnd];
      ghost var c := ReadChunk(data, pos);
      assert c.kind == chunkType && c.data == chunkData && ChunkOk(c) && ChunkEnd(data, pos) == chunkEnd;
      if chunkType == VP8 || chunkType == VP8L {
        var sound := IsWebpImageChunk(chunkType, chunkData);
        if sawImage || !sound {
          return false;
        }
        sawImage := true;
      } else if chunkType != ALPH {
        return false;
      }
      pos := chunkEnd;
    }
    return sawImage && pos == |data|;
  }

  lemma TooShort(d: seq<byte>)
    requires |d| < 16 || d[15] >= 4
    ensures !FrameAccepted(d)
  {
  }

  /** Accepts exactly the printed files. */
  method IsCompleteWebp(raw: seq<byte>) returns (ok: bool)
    ensures ok <==> Accepted(raw)
  {
    hide Accepted, BitstreamOk, FrameAccepted, Le32At, FrameStep, ExtendedOk;
    ScanDecides(raw);
    if || |raw| < 20
       || raw[..4] != RIFF
       || raw[8..12] != WEBP
       || Le32At(raw, 4) + 8 != |raw|
    {
      return false;
    }
    var pos, sawImage := 12, false;
    while pos < |raw|
      invariant 12 <= pos <= |raw|
      invariant Accepted(raw) == From(raw, pos, sawImage, false)
    {
      if pos + 8 > |raw| {
        return false;
      }
      var chunkType := raw[pos..pos + 4];
      var chunkSize := Le32At(raw, pos + 4);
      var dataStart := pos + 8;
      var dataEnd := dataStart + chunkSize;
      var chunkEnd := dataEnd + chunkSize % 2;
      if chunkEnd > |raw| {
        return false;
      }
      var data := raw[dataStart..dataEnd];
      ghost var c := ReadChunk(raw, pos);
      assert c.kind == chunkType && c.data == data && ChunkOk(c) && ChunkEnd(raw, pos) == chunkEnd;
      if chunkType == VP8 || chunkType == VP8L {
        var sound := IsWebpImageChunk(chunkType, data);
        if sawImage || !sound {
          return false;
        }
        sawImage := true;
      } else if chunkType == VP8X {
        var extended := IsExtendedHeader(data);
        if !extended {
          return false;
        }
      } else if chunkType == ANMF {
        var frame := IsCompleteWebpFrame(data);
        if !frame {
          return false;
        }
        sawImage := true;
      }
      pos := chunkEnd;
    }
    return sawImage && pos == |raw|;
  }

  // ---- What the grammar gives ----

  /** The chunk list behind an accepted file is unique. */
  lemma ParseIsUnique(cs: seq<Chunk>, ds: seq<Chunk>)
    requires IsWebp(cs) && IsWebp(ds)
    requires |PrintAll(cs)| + 4 < 0x1_0000_0000 && |PrintAll(ds)| + 4 < 0x1_0000_0000
    requires PrintFile(cs) == PrintFile(ds)
    ensures cs == ds
  {
    hide ChunkOk, PutLe32, PrintAll, HeaderAt;
    HeaderReads(PrintFile(cs), PrintAll(cs));
    HeaderReads(PrintFile(ds), PrintAll(ds));
    PrintUnique(cs, ds);
  }

  /** A complete file followed by anything more is not complete. */
  lemma NoAcceptedExtension(raw: seq<byte>, suffix: seq<byte>)
    requires Accepted(raw) && suffix != []
    ensures !Accepted(raw + suffix)
  {
    hide Accepted, From;
    ScanDecides(raw);
    ScanDecides(raw + suffix);
    assert Le32At(raw + suffix, 4) == Le32At(raw, 4);
  }
}
