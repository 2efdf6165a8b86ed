/** Whole multi-picture files, made from single pictures: when the check accepts them. */
module MultiPictureFiles {
  import opened ByteCodec
  import opened Jpeg
  import opened MultiPicture
  import opened MultiPicturePrint
  import opened Options

  function Concat(pictures: seq<seq<byte>>): seq<byte> {
    if pictures == [] then [] else pictures[0] + Concat(pictures[1..])
  }

  /** Where picture `k` begins. */
  function Offset(pictures: seq<seq<byte>>, k: nat): nat
    requires k <= |pictures|
  {
    if k == 0 then 0 else |pictures[0]| + Offset(pictures[1..], k - 1)
  }

  function PrintSegments(segments: seq<Segment>): seq<byte> {
    if segments == [] then [] else Jpeg.Print(segments[0]) + PrintSegments(segments[1..])
  }

  /** A first picture: segments before and after the one that carries the printed index. */
  datatype First = First(before: seq<Segment>, carrier: Segment, after: seq<Segment>, fill: nat, index: PrintedIndex)

  function SegmentsOf(p: First): seq<Segment> {
    p.before + ([p.carrier] + p.after)
  }

  function FirstPicture(p: First): seq<byte> {
    Jpeg.START + Body(SegmentsOf(p), p.fill)
  }

  predicate NoIndexIn(segments: seq<Segment>) {
    forall i | 0 <= i < |segments| :: !IsIndex(segments[i])
  }

  /** A single picture with one index segment, which carries the printed index behind its label. */
  ghost predicate Carries(p: First) {
    && Reading(SegmentsOf(p), 2, false, false, None, false) == Some(None)
    && NoIndexIn(p.before) && NoIndexIn(p.after) && WellFormed(p.index)
    && p.carrier.marker == 0xE2 && p.carrier.body == [0x4D, 0x50, 0x46, 0x00] + PrintIndex(p.index)
  }

  /** Where the TIFF header of the index is: behind the start marker, the segments before, the fill
      bytes and marker, the length field and the label. */
  function HeaderPosition(p: First): nat {
    2 + |PrintSegments(p.before)| + (p.carrier.fill + 2) + 2 + 4
  }

  // ---- The first picture ----

  lemma {:induction false} BodyOf(before: seq<Segment>, rest: seq<Segment>, fill: nat)
    ensures Body(before + rest, fill) == PrintSegments(before) + Body(rest, fill)
    decreases |before|
  {
    hide Jpeg.Print, Body;
    if before == [] {
      assert before + rest == rest;
      assert [] + Body(rest, fill) == Body(rest, fill);
    } else {
      assert before + rest == [before[0]] + (before[1..] + rest);
      BodyCons(before[0], before[1..] + rest, fill);
      BodyOf(before[1..], rest, fill);
      Assoc(Jpeg.Print(before[0]), PrintSegments(before[1..]), Body(rest, fill));
    }
  }

  /** The printed index lies at the header position. */
  lemma HeaderIsThere(p: First)
    requires Carries(p)
    ensures var (raw, base, tiff) := (FirstPicture(p), HeaderPosition(p), PrintIndex(p.index));
      base + |tiff| <= |raw| && raw[base..base + |tiff|] == tiff
  {
    hide *;
    var (raw, s, tiff) := (FirstPicture(p), p.carrier, PrintIndex(p.index));
    var rest := Body(p.after, p.fill);
    var n := |PrintSegments(p.before)|;
    FirstPictureIs(p);
    assert raw[0..] == raw;
    Peel(raw, 0, Jpeg.START, PrintSegments(p.before) + (Jpeg.Print(s) + rest));
    Peel(raw, 2, PrintSegments(p.before), Jpeg.Print(s) + rest);
    SegmentFields(raw, 2 + n, s, rest, 2 + n + s.fill + 1, 2 + n + s.fill + 2, 2 + n + s.fill + 4, 2 + n + s.fill + 4 + |s.body|);
    Slice(raw, 2 + n + s.fill + 4, s.body, [0x4D, 0x50, 0x46, 0x00], tiff);
    HeaderPositionIs(p);
  }

  lemma HeaderPositionIs(p: First)
    ensures HeaderPosition(p) == 2 + |PrintSegments(p.before)| + p.carrier.fill + 4 + 4
  {
  }

  lemma Slice(raw: seq<byte>, pos: nat, body: seq<byte>, head: seq<byte>, tail: seq<byte>)
    requires body == head + tail && pos + |body| <= |raw| && raw[pos..pos + |body|] == body
    ensures pos + |head| + |tail| <= |raw| && raw[pos + |head|..pos + |head| + |tail|] == tail
  {
    assert body[|head|..] == tail;
    assert raw[pos..pos + |body|][|head|..] == raw[pos + |head|..pos + |body|];
  }

  lemma FirstPictureIs(p: First)
    requires Carries(p)
    ensures FirstPicture(p) == Jpeg.START + (PrintSegments(p.before) + (Jpeg.Print(p.carrier) + Body(p.after, p.fill)))
    ensures |Jpeg.START| == 2 && p.carrier.marker !in {0xD9, 0xFF} && |p.carrier.body| + 2 < 0x1_0000
    ensures p.carrier.body == [0x4D, 0x50, 0x46, 0x00] + PrintIndex(p.index)
  {
    hide Jpeg.Print, Body, Reading, PrintIndex, PrintSegments, WellFormed;
    BodyOf(p.before, [p.carrier] + p.after, p.fill);
    BodyCons(p.carrier, p.after, p.fill);
    SingleMeans(SegmentsOf(p), 2, false, false);
    assert SegmentsOf(p)[|p.before|] == p.carrier;
    assert SegmentOk(p.carrier);
  }

  lemma {:induction false} WithIndex(segments: seq<Segment>, pos: nat, sof: bool, scan: bool, m: Option<Ranges>)
    requires Reading(segments, pos, sof, scan, None, false) == Some(None) && NoIndexIn(segments)
    ensures Reading(segments, pos, sof, scan, m, true) == Some(m)
    decreases |segments|
  {
    hide SegmentOk, Jpeg.Print, IsFrameMarker, IsIndex, RangesOf;
    if segments != [] {
      var s := segments[0];
      assert forall i | 0 <= i < |segments[1..]| :: segments[1..][i] == segments[i + 1];
      WithIndex(segments[1..], pos + |Jpeg.Print(s)|, sof || IsFrameMarker(s.marker), scan || s.marker == 0xDA, m);
    }
  }

  /** With multi-picture reading on, the one index segment decides. */
  lemma {:induction false} IndexDecides(before: seq<Segment>, s: Segment, after: seq<Segment>, pos: nat, sof: bool, scan: bool)
    requires Reading(before + ([s] + after), pos, sof, scan, None, false) == Some(None)
    requires NoIndexIn(before) && NoIndexIn(after) && IsIndex(s)
    ensures Reading(before + ([s] + after), pos, sof, scan, None, true)
      == match RangesOf(s.body[4..], pos + |PrintSegments(before)| + s.fill + 8) case None => None case Some(r) => Some(Some(r))
    decreases |before|
  {
    hide *;
    var base := pos + |PrintSegments(before)| + s.fill + 8;
    if before == [] {
      assert before + ([s] + after) == [s] + after;
      NothingPrinted();
      ReadHead(s, after, pos, sof, scan);
      ReadOn(s, after, pos, sof, scan, None);
      IndexFound(s, pos);
      var r := RangesOf(s.body[4..], base);
      if r.Some? {
        WithIndex(after, pos + |Jpeg.Print(s)|, sof || IsFrameMarker(s.marker), scan || s.marker == 0xDA, Some(r.value));
      }
    } else {
      var (b, tail) := (before[0], before[1..] + ([s] + after));
      assert before + ([s] + after) == [b] + tail;
      NoIndexTail(before);
      ReadHead(b, tail, pos, sof, scan);
      ReadOn(b, tail, pos, sof, scan, None);
      NoIndexFound(b, pos);
      PrintedMore(before);
      IndexDecides(before[1..], s, after, pos + |Jpeg.Print(b)|, sof || IsFrameMarker(b.marker), scan || b.marker == 0xDA);
    }
  }

  lemma NothingPrinted()
    ensures PrintSegments([]) == []
  {
  }

  lemma PrintedMore(segments: seq<Segment>)
    requires segments != []
    ensures |PrintSegments(segments)| == |Jpeg.Print(segments[0])| + |PrintSegments(segments[1..])|
  {
    hide Jpeg.Print;
  }

  lemma NoIndexTail(segments: seq<Segment>)
    requires segments != [] && NoIndexIn(segments)
    ensures !IsIndex(segments[0]) && NoIndexIn(segments[1..])
  {
    hide IsIndex;
    assert forall i | 0 <= i < |segments[1..]| :: segments[1..][i] == segments[i + 1];
  }

  lemma IndexFound(s: Segment, pos: nat)
    requires IsIndex(s)
    ensures |s.body| >= 4 && Index(s, pos, None, true)
      == match RangesOf(s.body[4..], pos + s.fill + 8) case None => None case Some(r) => Some(Some(r))
  {
    hide RangesOf, Declares, MPF;
  }

  lemma NoIndexFound(s: Segment, pos: nat)
    requires !IsIndex(s)
    ensures Index(s, pos, None, true) == Some(None)
  {
    hide IsIndex;
  }

  lemma ReadHead(s: Segment, rest: seq<Segment>, pos: nat, sof: bool, scan: bool)
    requires Reading([s] + rest, pos, sof, scan, None, false) == Some(None)
    ensures SegmentOk(s)
    ensures Reading(rest, pos + |Jpeg.Print(s)|, sof || IsFrameMarker(s.marker), scan || s.marker == 0xDA, None, false) == Some(None)
  {
    hide SegmentOk, Jpeg.Print, IsFrameMarker, IsIndex;
    assert ([s] + rest)[1..] == rest;
  }

  lemma ReadOn(s: Segment, rest: seq<Segment>, pos: nat, sof: bool, scan: bool, m: Option<Ranges>)
    requires SegmentOk(s)
    ensures Index(s, pos, m, true).None? ==> Reading([s] + rest, pos, sof, scan, m, true).None?
    ensures Index(s, pos, m, true).Some? ==>
      Reading([s] + rest, pos, sof, scan, m, true)
      == Reading(rest, pos + |Jpeg.Print(s)|, sof || IsFrameMarker(s.marker), scan || s.marker == 0xDA, Index(s, pos, m, true).value, true)
  {
    hide SegmentOk, Jpeg.Print, IsFrameMarker, Index;
    assert ([s] + rest)[1..] == rest;
  }

  /** The first picture declares what its printed index declares, counted from the header. */
  lemma FirstReads(p: First)
    requires Carries(p)
    ensures Reading(SegmentsOf(p), 2, false, false, None, true) ==
      if Declarable(p.index.extents) then Some(Some(Declared(p.index.extents, HeaderPosition(p)))) else None
  {
    hide *;
    var s := p.carrier;
    CarrierIs(p);
    IndexDecides(p.before, s, p.after, 2, false, false);
    IndexDeclares(p.index, HeaderPosition(p));
  }

  lemma CarrierIs(p: First)
    requires Carries(p)
    ensures IsIndex(p.carrier) && p.carrier.body[4..] == PrintIndex(p.index)
    ensures HeaderPosition(p) == 2 + |PrintSegments(p.before)| + p.carrier.fill + 8
    ensures Reading(p.before + ([p.carrier] + p.after), 2, false, false, None, false) == Some(None)
    ensures SegmentsOf(p) == p.before + ([p.carrier] + p.after)
    ensures NoIndexIn(p.before) && NoIndexIn(p.after) && WellFormed(p.index)
  {
    hide Reading, PrintIndex, PrintSegments, WellFormed, NoIndexIn;
    assert p.carrier.body[..4] == [0x4D, 0x50, 0x46, 0x00];
  }

  // ---- Consecutive pictures ----

  lemma {:induction false} OffsetNext(pictures: seq<seq<byte>>, k: nat)
    requires k < |pictures|
    ensures Offset(pictures, k + 1) == Offset(pictures, k) + |pictures[k]| <= |Concat(pictures)|
    ensures Concat(pictures)[Offset(pictures, k)..Offset(pictures, k + 1)] == pictures[k]
    decreases k
  {
    var (first, rest) := (pictures[0], pictures[1..]);
    if k > 0 {
      OffsetNext(rest, k - 1);
      var (a, b) := (Offset(rest, k - 1), Offset(rest, k));
      assert (first + Concat(rest))[|first| + a..|first| + b] == Concat(rest)[a..b];
    } else {
      assert Offset(rest, 0) == 0;
      assert (first + Concat(rest))[..|first|] == first;
    }
  }

  lemma {:induction false} OffsetEnd(pictures: seq<seq<byte>>)
    ensures Offset(pictures, |pictures|) == |Concat(pictures)|
    decreases |pictures|
  {
    if pictures != [] {
      OffsetEnd(pictures[1..]);
    }
  }

  lemma {:induction false} OffsetsGrow(pictures: seq<seq<byte>>, j: nat, k: nat)
    requires j <= k <= |pictures|
    ensures Offset(pictures, j) <= Offset(pictures, k) <= |Concat(pictures)|
    decreases |pictures| - j
  {
    if j < k {
      OffsetNext(pictures, j);
      OffsetsGrow(pictures, j + 1, k);
    } else if k < |pictures| {
      OffsetNext(pictures, k);
    } else {
      OffsetEnd(pictures);
    }
  }

  /** Two single pictures of which one begins like the other are the same length. */
  lemma SameLength(raw: seq<byte>, from: nat, a: nat, b: nat)
    requires from <= a <= |raw| && from <= b <= |raw| && Single(raw[from..a]) && Single(raw[from..b])
    ensures a == b
  {
    hide Single;
    AcceptedIsSingle(raw[from..a]);
    AcceptedIsSingle(raw[from..b]);
    if a < b {
      assert raw[from..a] + raw[a..b] == raw[from..b];
      NoAcceptedExtension(raw[from..a], raw[a..b], false);
    } else if b < a {
      assert raw[from..b] + raw[b..a] == raw[from..a];
      NoAcceptedExtension(raw[from..b], raw[b..a], false);
    }
  }

  lemma SingleIsLong(raw: seq<byte>)
    requires Single(raw)
    ensures |raw| > 2
  {
    hide Reading, Body;
    var segments, fill :| Reading(segments, 2, false, false, None, false) == Some(None) && raw == Jpeg.START + Body(segments, fill);
    assert |Body(segments, fill)| > 0 by { BodyIsLong(segments, fill); }
  }

  lemma BodyIsLong(segments: seq<Segment>, fill: nat)
    ensures |Body(segments, fill)| > 0
  {
    hide Fill;
    if segments != [] {
      hide Body;
      BodyCons(segments[0], segments[1..], fill);
      assert segments == [segments[0]] + segments[1..];
      PrintOf(segments[0]);
    }
  }

  // ---- The whole file ----

  /** What the index says about the pictures of a file: how many, how long, and where each later one is
      when counted from the TIFF header. */
  predicate Matches(p: First, pictures: seq<seq<byte>>) {
    var x := p.index.extents;
    && Declarable(x) && |x| == |pictures| && x[0].size == |pictures[0]|
    && forall k | 0 < k < |pictures| ::
      HeaderPosition(p) + x[k].start == Offset(pictures, k) && x[k].size == |pictures[k]|
  }

  ghost predicate AreSingles(pictures: seq<seq<byte>>) {
    forall k | 0 <= k < |pictures| :: Single(pictures[k])
  }

  predicate AreOffsets(pictures: seq<seq<byte>>, ranges: Ranges) {
    && |ranges| == |pictures|
    && forall k | 0 <= k < |pictures| :: ranges[k] == (Offset(pictures, k), Offset(pictures, k + 1))
  }

  /** Consecutive ranges that are pictures each and cover everything are those of the pictures. */
  lemma TilesAreOffsets(pictures: seq<seq<byte>>, ranges: Ranges)
    requires AreSingles(pictures) && pictures != [] && Tiled(Concat(pictures), |pictures[0]|, ranges)
    ensures AreOffsets(pictures, ranges)
  {
    hide Single, Concat, Offset;
    var raw := Concat(pictures);
    var k: nat := 1;
    OffsetNext(pictures, 0);
    OffsetZero(pictures);
    while k < |pictures| && k < |ranges|
      invariant 1 <= k <= |pictures| && k <= |ranges|
      invariant forall i | 0 <= i < k :: ranges[i] == (Offset(pictures, i), Offset(pictures, i + 1))
    {
      OffsetNext(pictures, k);
      assert ranges[k - 1] == (Offset(pictures, k - 1), Offset(pictures, k - 1 + 1)) && k - 1 + 1 == k;
      assert ranges[k].0 == Offset(pictures, k);
      SameLength(raw, Offset(pictures, k), ranges[k].1, Offset(pictures, k + 1));
      k := k + 1;
    }
    OffsetEnd(pictures);
    assert ranges[k - 1] == (Offset(pictures, k - 1), Offset(pictures, k - 1 + 1)) && k - 1 + 1 == k;
    if k < |pictures| {
      OffsetNext(pictures, k);
      OffsetsGrow(pictures, k + 1, |pictures|);
      SingleIsLong(pictures[k]);
    } else if k < |ranges| {
      assert ranges[k].0 == |raw| && raw[|raw|..ranges[k].1] == [];
      SingleIsLong(raw[ranges[k].0..ranges[k].1]);
    }
  }

  lemma OffsetZero(pictures: seq<seq<byte>>)
    ensures Offset(pictures, 0) == 0
  {
  }

  lemma OffsetsTile(pictures: seq<seq<byte>>, ranges: Ranges)
    requires AreSingles(pictures) && |pictures| >= 2 && AreOffsets(pictures, ranges)
    ensures Tiled(Concat(pictures), |pictures[0]|, ranges)
  {
    hide Single, Concat, Offset;
    OffsetZero(pictures);
    OffsetNext(pictures, 0);
    OffsetEnd(pictures);
    forall k | 0 < k < |ranges|
      ensures ranges[k].0 == ranges[k - 1].1 && ranges[k].0 <= ranges[k].1 <= |Concat(pictures)|
      ensures Single(Concat(pictures)[ranges[k].0..ranges[k].1])
    {
      OffsetNext(pictures, k);
    }
  }

  lemma HeadOf(p: First, pictures: seq<seq<byte>>)
    requires pictures != [] && pictures[0] == FirstPicture(p)
    ensures FirstPicture(p) <= Concat(pictures) && |pictures[0]| == 2 + |Body(SegmentsOf(p), p.fill)|
  {
    hide Body;
  }

  lemma MatchesDeclarable(p: First, pictures: seq<seq<byte>>)
    ensures Matches(p, pictures) ==> Declarable(p.index.extents) && |pictures| >= 2
  {
  }

  lemma DeclaredAreOffsets(p: First, pictures: seq<seq<byte>>, ranges: Ranges)
    requires Declarable(p.index.extents) && ranges == Declared(p.index.extents, HeaderPosition(p))
    ensures Matches(p, pictures) <==> AreOffsets(pictures, ranges)
  {
    hide Offset, HeaderPosition;
    OffsetZero(pictures);
    var x := p.index.extents;
    forall k | 0 <= k < |pictures| ensures Offset(pictures, k + 1) == Offset(pictures, k) + |pictures[k]| {
      hide Concat;
      OffsetNext(pictures, k);
    }
    if |x| == |pictures| {
      assert Offset(pictures, 0 + 1) == |pictures[0]|;
      if AreOffsets(pictures, ranges) {
        assert ranges[0] == (Offset(pictures, 0), Offset(pictures, 0 + 1));
        forall k | 0 < k < |pictures|
          ensures HeaderPosition(p) + x[k].start == Offset(pictures, k) && x[k].size == |pictures[k]|
        {
          assert ranges[k] == (Offset(pictures, k), Offset(pictures, k + 1));
        }
      }
    }
  }

  lemma LeadsByFirst(p: First, raw: seq<byte>, ranges: Ranges)
    requires Reading(SegmentsOf(p), 2, false, false, None, true) == Some(Some(ranges)) && FirstPicture(p) <= raw
    ensures Leads(raw, SegmentsOf(p), p.fill, Some(ranges), true)
  {
    hide Reading, Body;
  }

  lemma AcceptedIsTiled(p: First, raw: seq<byte>, ranges: Ranges)
    requires Accepted(raw, true) && Leads(raw, SegmentsOf(p), p.fill, Some(ranges), true)
    ensures Tiled(raw, 2 + |Body(SegmentsOf(p), p.fill)|, ranges)
  {
    hide Leads, Tiled, Body;
    var segments, fill, m :| Leads(raw, segments, fill, m, true) && Whole(raw, 2 + |Body(segments, fill)|, m);
    LeadsOnce(raw, SegmentsOf(p), p.fill, Some(ranges), segments, fill, m);
  }

  lemma TiledIsAccepted(p: First, raw: seq<byte>, ranges: Ranges)
    requires Leads(raw, SegmentsOf(p), p.fill, Some(ranges), true) && Tiled(raw, 2 + |Body(SegmentsOf(p), p.fill)|, ranges)
    ensures Accepted(raw, true)
  {
    hide Leads, Tiled, Body;
    assert Whole(raw, 2 + |Body(SegmentsOf(p), p.fill)|, Some(ranges));
  }

  /** In an accepted file that begins with the first picture, the index of that picture is a good one. */
  lemma AcceptedReads(p: First, raw: seq<byte>)
    requires Carries(p) && FirstPicture(p) <= raw && Accepted(raw, true)
    ensures Reading(SegmentsOf(p), 2, false, false, None, true).Some?
  {
    hide Reading, Body, Whole, PrintIndex, WellFormed;
    var segments, fill, m :| Leads(raw, segments, fill, m, true) && Whole(raw, 2 + |Body(segments, fill)|, m);
    WithoutIndex(segments, 2, false, false, None);
    SingleMeans(segments, 2, false, false);
    SingleMeans(SegmentsOf(p), 2, false, false);
    var (a, b) := (Body(SegmentsOf(p), p.fill), Body(segments, fill));
    assert raw[2..] == raw[2..] && a <= raw[2..] && b <= raw[2..];
    if |a| <= |b| {
      assert b == a + b[|a|..];
      Unique(SegmentsOf(p), p.fill, segments, fill, b[|a|..]);
    } else {
      assert a == b + a[|b|..];
      Unique(segments, fill, SegmentsOf(p), p.fill, a[|b|..]);
    }
  }

  /** Single pictures in a row, the first of which carries a printed index, are accepted exactly when
      the index has each of them where it is, and as long as it is. */
  lemma AcceptedExactly(p: First, pictures: seq<seq<byte>>)
    requires Carries(p) && pictures != [] && pictures[0] == FirstPicture(p) && AreSingles(pictures)
    ensures Accepted(Concat(pictures), true) <==> Matches(p, pictures)
  {
    hide *;
    var (raw, x) := (Concat(pictures), p.index.extents);
    FirstReads(p);
    HeadOf(p, pictures);
    if Declarable(x) {
      var ranges := Declared(x, HeaderPosition(p));
      DeclaredAreOffsets(p, pictures, ranges);
      LeadsByFirst(p, raw, ranges);
      if Accepted(raw, true) {
        AcceptedIsTiled(p, raw, ranges);
        TilesAreOffsets(pictures, ranges);
      }
      if Matches(p, pictures) {
        MatchesDeclarable(p, pictures);
        OffsetsTile(pictures, ranges);
        TiledIsAccepted(p, raw, ranges);
      }
    } else {
      if Accepted(raw, true) {
        AcceptedReads(p, raw);
      }
      MatchesDeclarable(p, pictures);
    }
  }
}
