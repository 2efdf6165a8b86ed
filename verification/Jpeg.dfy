/** The whole-image check for JPEG (ITU-T T.81, Annex B), single and multi-picture, proved to decide
    a grammar: marker segments with entropy-coded scans up to one end-of-image marker, and for a
    multi-picture file the exact tiling declared by its MP Index. */
module Jpeg {
  import opened ByteCodec
  import opened Options
  import opened MultiPicture

  /** One marker segment: `fill` spare 0xFF bytes before the marker, its body, and for a
      start-of-scan the entropy-coded bytes behind it. */
  datatype Segment = Segment(fill: nat, marker: byte, body: seq<byte>, scan: seq<byte>)

  const START: seq<byte> := [0xFF, 0xD8]
  const MPF: seq<byte> := [0x4D, 0x50, 0x46, 0x00]

  // ---- The grammar ----

  predicate IsRestart(b: byte) {
    0xD0 <= b <= 0xD7
  }

  /** Stays inside entropy-coded data when it follows 0xFF: a stuffed zero or a restart marker. */
  predicate Stuffing(b: byte) {
    b == 0x00 || IsRestart(b)
  }

  /** May start a segment. */
  predicate MarkerOk(b: byte) {
    b !in {0x00, 0x01, 0xD8, 0xD9, 0xFF} && !IsRestart(b)
  }

  predicate IsFrameMarker(b: byte) {
    b in {0xC0, 0xC1, 0xC2, 0xC3, 0xC5, 0xC6, 0xC7, 0xC9, 0xCA, 0xCB, 0xCD, 0xCE, 0xCF}
  }

  /** All markers from 0xC0 to 0xCF start a frame, but those of Huffman tables, extensions and arithmetic
      coding conditions. */
  lemma FrameMarkers(b: byte)
    ensures IsFrameMarker(b) <==> 0xC0 <= b <= 0xCF && b != 0xC4 && b != 0xC8 && b != 0xCC
  {
  }

  /** The first position from `pos` on that does not hold 0xFF. */
  function RunEnd(raw: seq<byte>, pos: nat): (end: nat)
    requires pos <= |raw|
    ensures pos <= end <= |raw|
    ensures forall i | pos <= i < end :: raw[i] == 0xFF
    ensures end < |raw| ==> raw[end] != 0xFF
    decreases |raw| - pos
  {
    if pos < |raw| && raw[pos] == 0xFF then RunEnd(raw, pos + 1) else pos
  }

  /** Entropy-coded data: every run of 0xFF is followed by a stuffing byte. */
  predicate ScanOk(s: seq<byte>)
    decreases |s|
  {
    if s == [] then true
    else if s[0] != 0xFF then ScanOk(s[1..])
    else RunEnd(s, 0) < |s| && Stuffing(s[RunEnd(s, 0)]) && ScanOk(s[RunEnd(s, 0) + 1..])
  }

  predicate SegmentOk(s: Segment) {
    && MarkerOk(s.marker)
    && |s.body| + 2 < 0x1_0000
    && (IsFrameMarker(s.marker) ==> |s.body| + 2 >= 8)
    && if s.marker == 0xDA then ScanOk(s.scan) else s.scan == []
  }

  predicate IsIndex(s: Segment) {
    s.marker == 0xE2 && |s.body| >= 4 && s.body[..4] == MPF
  }

  function Fill(n: nat): seq<byte> {
    if n == 0 then [] else [0xFF] + Fill(n - 1)
  }

  function Print(s: Segment): seq<byte> {
    Fill(s.fill + 1) + ([s.marker] + (PutBe16(|s.body| + 2) + (s.body + s.scan)))
  }

  /** Segments up to and including the end-of-image marker and its `fill` spare bytes. */
  function Body(segments: seq<Segment>, fill: nat): seq<byte> {
    if segments == [] then Fill(fill + 1) + [0xD9] else Print(segments[0]) + Body(segments[1..], fill)
  }

  /** The declared pictures after segment `s` at `pos`: a second or a broken index is an error. */
  ghost function Index(s: Segment, pos: nat, m: Option<Ranges>, allowMpf: bool): Option<Option<Ranges>> {
    if !allowMpf || !IsIndex(s) then Some(m)
    else if m.Some? then None
    else
      match RangesOf(s.body[4..], pos + s.fill + 8)
      case None => None
      case Some(r) => Some(Some(r))
  }

  /** What a list of segments starting at `pos` makes known: None when it breaks a rule or when
      no frame header (`sof`) or no scan (`scan`) was seen; else the declared pictures, if any. */
  ghost function Reading(
    segments: seq<Segment>, pos: nat, sof: bool, scan: bool, m: Option<Ranges>, allowMpf: bool): Option<Option<Ranges>>
  {
    if segments == [] then if sof && scan then Some(m) else None
    else
      var s := segments[0];
      if !SegmentOk(s) then None
      else
        match Index(s, pos, m, allowMpf)
        case None => None
        case Some(m') =>
          Reading(segments[1..], pos + |Print(s)|, sof || IsFrameMarker(s.marker), scan || s.marker == 0xDA, m', allowMpf)
  }

  /** `raw` is one picture and nothing more. */
  ghost predicate Single(raw: seq<byte>) {
    exists segments, fill ::
      Reading(segments, 2, false, false, None, false) == Some(None) && raw == START + Body(segments, fill)
  }

  /** The declared ranges are consecutive, cover `raw` exactly, begin with the picture that ends at
      `first`, and each later one holds a picture. */
  ghost predicate Tiled(raw: seq<byte>, first: nat, ranges: Ranges) {
    && |ranges| >= 2
    && ranges[0] == (0, first)
    && (forall k | 0 < k < |ranges| ::
        && ranges[k].0 == ranges[k - 1].1
        && ranges[k].0 <= ranges[k].1 <= |raw|
        && Single(raw[ranges[k].0..ranges[k].1]))
    && ranges[|ranges| - 1].1 == |raw|
  }

  /** A first picture, its segments and declared pictures, at the head of `raw`. */
  ghost predicate Leads(raw: seq<byte>, segments: seq<Segment>, fill: nat, m: Option<Ranges>, allowMpf: bool) {
    && Reading(segments, 2, false, false, None, allowMpf) == Some(m)
    && START + Body(segments, fill) <= raw
  }

  ghost predicate Accepted(raw: seq<byte>, allowMpf: bool) {
    exists segments, fill, m ::
      && Leads(raw, segments, fill, m, allowMpf)
      && Whole(raw, 2 + |Body(segments, fill)|, m)
  }

  /** The first picture ends at `end` and accounts for all of `raw`, alone or with the declared others. */
  ghost predicate Whole(raw: seq<byte>, end: nat, m: Option<Ranges>) {
    match m
    case None => end == |raw|
    case Some(ranges) => Tiled(raw, end, ranges)
  }

  // ---- Fill bytes and scans ----

  lemma {:induction false} FillReads(raw: seq<byte>, pos: nat, n: nat, b: byte, rest: seq<byte>)
    requires b != 0xFF && pos <= |raw| && raw[pos..] == Fill(n) + ([b] + rest)
    ensures pos + n < |raw| && RunEnd(raw, pos) == pos + n && raw[pos + n] == b && raw[pos + n + 1..] == rest
    ensures n > 0 ==> raw[pos] == 0xFF
    decreases n
  {
    if n == 0 {
      assert Fill(0) + ([b] + rest) == [b] + rest;
      PeelByte(raw, pos, b, rest);
    } else {
      assert Fill(n) + ([b] + rest) == [0xFF] + (Fill(n - 1) + ([b] + rest));
      PeelByte(raw, pos, 0xFF, Fill(n - 1) + ([b] + rest));
      FillReads(raw, pos + 1, n - 1, b, rest);
    }
  }

  lemma {:induction false} RunIsFill(raw: seq<byte>, pos: nat)
    requires pos <= |raw|
    ensures raw[pos..RunEnd(raw, pos)] == Fill(RunEnd(raw, pos) - pos)
    decreases |raw| - pos
  {
    if pos < |raw| && raw[pos] == 0xFF {
      RunIsFill(raw, pos + 1);
      var end := RunEnd(raw, pos + 1);
      assert raw[pos..end] == [raw[pos]] + raw[pos + 1..end];
    }
  }

  /** Position of the marker that ends the entropy-coded data starting at `pos`. */
  function ScanEnd(raw: seq<byte>, pos: nat): (end: Option<nat>)
    ensures end.Some? ==> pos <= end.value < |raw|
    decreases |raw| - pos
  {
    if pos >= |raw| then None
    else if raw[pos] != 0xFF then ScanEnd(raw, pos + 1)
    else
      var run := RunEnd(raw, pos);
      if run >= |raw| then None
      else if Stuffing(raw[run]) then ScanEnd(raw, run + 1)
      else Some(pos)
  }

  /** `rest` begins with a marker that cannot belong to entropy-coded data. */
  predicate StartsMarker(rest: seq<byte>) {
    && rest != [] && rest[0] == 0xFF
    && RunEnd(rest, 0) < |rest| && !Stuffing(rest[RunEnd(rest, 0)])
  }

  /** Runs are found at the same place in a suffix. */
  lemma {:induction false} RunEndShifts(raw: seq<byte>, pos: nat, from: nat)
    requires from <= pos <= |raw|
    ensures RunEnd(raw, pos) == from + RunEnd(raw[from..], pos - from)
    decreases |raw| - pos
  {
    if pos < |raw| && raw[pos] == 0xFF {
      RunEndShifts(raw, pos + 1, from);
    }
  }

  /** A run that ends inside a prefix is found there. */
  lemma {:induction false} RunEndInPrefix(s: seq<byte>, pos: nat, rest: seq<byte>)
    requires pos <= |s| && RunEnd(s, pos) < |s|
    ensures RunEnd(s + rest, pos) == RunEnd(s, pos)
    decreases |s| - pos
  {
    if s[pos] == 0xFF {
      RunEndInPrefix(s, pos + 1, rest);
    }
  }

  lemma {:induction false} ScanReads(raw: seq<byte>, pos: nat, s: seq<byte>, rest: seq<byte>)
    requires ScanOk(s) && StartsMarker(rest) && pos <= |raw| && raw[pos..] == s + rest
    ensures ScanEnd(raw, pos) == Some(pos + |s|)
    decreases |s|
  {
    hide *;
    if s == [] {
      ScanStops(raw, pos, s, rest);
    } else {
      var n := ScanStep(raw, pos, s, rest);
      ScanReads(raw, pos + n + 1, s[n + 1..], rest);
    }
  }

  lemma ScanStops(raw: seq<byte>, pos: nat, s: seq<byte>, rest: seq<byte>)
    requires s == [] && StartsMarker(rest) && pos <= |raw| && raw[pos..] == s + rest
    ensures ScanEnd(raw, pos) == Some(pos)
  {
    hide Stuffing, RunEnd;
    RunEndShifts(raw, pos, pos);
    assert s + rest == rest;
    assert raw[pos] == rest[0] && raw[RunEnd(raw, pos)] == rest[RunEnd(rest, 0)];
  }

  lemma RunInScan(raw: seq<byte>, pos: nat, s: seq<byte>, rest: seq<byte>)
    requires RunEnd(s, 0) < |s| && pos <= |raw| && raw[pos..] == s + rest
    ensures RunEnd(raw, pos) == pos + RunEnd(s, 0)
  {
    hide *;
    RunEndShifts(raw, pos, pos);
    RunEndInPrefix(s, 0, rest);
  }

  /** One byte, or a run with its stuffing, is passed in the same way in a longer sequence. */
  lemma ScanStep(raw: seq<byte>, pos: nat, s: seq<byte>, rest: seq<byte>) returns (n: nat)
    requires ScanOk(s) && s != [] && pos <= |raw| && raw[pos..] == s + rest
    ensures n < |s| && ScanOk(s[n + 1..]) && pos + n < |raw| && raw[pos + n + 1..] == s[n + 1..] + rest
    ensures ScanEnd(raw, pos) == ScanEnd(raw, pos + n + 1)
  {
    hide Stuffing, RunEnd;
    AfterPrefix(raw, pos, s, 0, rest);
    n := 0;
    if s[0] == 0xFF {
      n := RunEnd(s, 0);
      RunInScan(raw, pos, s, rest);
    }
    AfterPrefix(raw, pos, s, n, rest);
  }

  lemma AfterPrefix(raw: seq<byte>, pos: nat, s: seq<byte>, n: nat, rest: seq<byte>)
    requires n < |s| && pos <= |raw| && raw[pos..] == s + rest
    ensures pos + n < |raw| && raw[pos + n] == s[n] && raw[pos + n + 1..] == s[n + 1..] + rest
  {
    hide *;
    assert raw[pos + n] == raw[pos..][n];
    assert raw[pos + n + 1..] == raw[pos..][n + 1..];
  }

  lemma {:induction false} ScanIsOk(raw: seq<byte>, pos: nat)
    requires ScanEnd(raw, pos).Some?
    ensures ScanOk(raw[pos..ScanEnd(raw, pos).value])
    decreases |raw| - pos
  {
    var end := ScanEnd(raw, pos).value;
    var s := raw[pos..end];
    if raw[pos] != 0xFF {
      ScanIsOk(raw, pos + 1);
      assert s[1..] == raw[pos + 1..end];
    } else {
      var run := RunEnd(raw, pos);
      if Stuffing(raw[run]) {
        ScanIsOk(raw, run + 1);
        RunEndShifts(raw, pos, pos);
        RunEndOf(raw[pos..], s, run - pos);
        assert s[run - pos + 1..] == raw[run + 1..end];
      }
    }
  }

  lemma RunEndOf(long: seq<byte>, s: seq<byte>, n: nat)
    requires s <= long && n < |s| && RunEnd(long, 0) == n
    ensures RunEnd(s, 0) == n
  {
    var k := RunEnd(s, 0);
    if k < |s| {
      RunEndInPrefix(s, 0, long[|s|..]);
      assert s + long[|s|..] == long;
    }
  }

  // ---- Segments ----

  /** The segment at `pos`, where a marker other than end-of-image is due, and the position after it. */
  function ReadSegment(raw: seq<byte>, pos: nat): Option<(Segment, nat)>
    requires pos < |raw| && raw[pos] == 0xFF
  {
    var m := RunEnd(raw, pos);
    if m + 3 > |raw| || !MarkerOk(raw[m]) then None
    else
      var marker, length := raw[m], Be16At(raw, m + 1);
      var end := m + 1 + length;
      if length < 2 || end > |raw| || (IsFrameMarker(marker) && length < 8) then None
      else if marker != 0xDA then Some((Segment(m - pos - 1, marker, raw[m + 3..end], []), end))
      else
        match ScanEnd(raw, end)
        case None => None
        case Some(e) => Some((Segment(m - pos - 1, marker, raw[m + 3..end], raw[end..e]), e))
  }

  /** Cutting a segment's bytes at its fields. */
  lemma Cut(raw: seq<byte>, pos: nat, m: nat, stop: nat, end: nat)
    requires pos <= m && m + 3 <= stop <= end <= |raw|
    ensures raw[pos..] == (raw[pos..m] + ([raw[m]] + (raw[m + 1..m + 3] + (raw[m + 3..stop] + raw[stop..end])))) + raw[end..]
  {
    hide *;
    assert raw[m..end] == [raw[m]] + (raw[m + 1..m + 3] + (raw[m + 3..stop] + raw[stop..end]));
    assert raw[pos..] == raw[pos..m] + raw[m..end] + raw[end..];
  }

  lemma SegmentReadIsPrinted(raw: seq<byte>, pos: nat)
    requires pos < |raw| && raw[pos] == 0xFF && ReadSegment(raw, pos).Some?
    ensures var (s, end) := ReadSegment(raw, pos).value;
      && pos < end <= |raw| && SegmentOk(s) && raw[pos..] == Print(s) + raw[end..]
      && pos + s.fill + 1 == RunEnd(raw, pos) < |raw| && raw[RunEnd(raw, pos)] == s.marker
  {
    hide *;
    var m := RunEnd(raw, pos);
    var (s, end) := ReadSegment(raw, pos).value;
    var stop := ReadParts(raw, pos, m, s, end);
    PrintAt(raw, pos, m, stop, end, s);
  }

  lemma ReadParts(raw: seq<byte>, pos: nat, m: nat, s: Segment, end: nat) returns (stop: nat)
    requires pos < |raw| && raw[pos] == 0xFF && ReadSegment(raw, pos) == Some((s, end)) && m == RunEnd(raw, pos)
    ensures pos < m && m + 3 <= stop <= end <= |raw| && |s.body| + 2 == Be16At(raw, m + 1)
    ensures s == Segment(m - pos - 1, raw[m], raw[m + 3..stop], raw[stop..end]) && SegmentOk(s)
  {
    hide Be16At, ScanOk, IsFrameMarker, MarkerOk, ScanEnd, Fill, Print;
    assert m > pos;
    stop := m + 1 + Be16At(raw, m + 1);
    if raw[m] == 0xDA {
      ScanIsOk(raw, stop);
    } else {
      assert raw[stop..stop] == [];
    }
  }

  lemma PrintAt(raw: seq<byte>, pos: nat, m: nat, stop: nat, end: nat, s: Segment)
    requires pos < m && m + 3 <= stop <= end <= |raw| && m == RunEnd(raw, pos) && |s.body| + 2 == Be16At(raw, m + 1)
    requires s == Segment(m - pos - 1, raw[m], raw[m + 3..stop], raw[stop..end])
    ensures raw[pos..] == Print(s) + raw[end..]
  {
    hide *;
    assert s.fill + 1 == m - pos;
    RunIsFill(raw, pos);
    Be16Exact(raw, m + 1);
    PrintOf(s);
    Cut(raw, pos, m, stop, end);
  }

  lemma PrintOf(s: Segment)
    ensures Print(s) == Fill(s.fill + 1) + ([s.marker] + (PutBe16(|s.body| + 2) + (s.body + s.scan)))
    ensures |Fill(s.fill + 1)| == s.fill + 1 && |Print(s)| == s.fill + 4 + |s.body| + |s.scan|
  {
    hide Fill, PutBe16;
    FillLength(s.fill + 1);
  }

  /** Where the fields of a segment lie when its bytes start at `pos`: marker, length, body, scan. */
  lemma SegmentFields(raw: seq<byte>, pos: nat, s: Segment, rest: seq<byte>, m: nat, l: nat, b: nat, e: nat)
    requires m == pos + s.fill + 1 && l == m + 1 && b == l + 2 && e == b + |s.body|
    requires s.marker !in {0xD9, 0xFF} && |s.body| + 2 < 0x1_0000 && pos <= |raw| && raw[pos..] == Print(s) + rest
    ensures e + |s.scan| <= |raw| && raw[pos] == 0xFF && RunEnd(raw, pos) == m && raw[m] == s.marker
    ensures Be16At(raw, l) == |s.body| + 2 && raw[b..e] == s.body && raw[e..] == s.scan + rest
    ensures raw[e..e + |s.scan|] == s.scan && raw[e + |s.scan|..] == rest && |Print(s)| == e + |s.scan| - pos
  {
    hide *;
    var tail := PutBe16(|s.body| + 2) + (s.body + s.scan);
    PrintOf(s);
    SegmentHead(raw, pos, s, tail, rest, m, l);
    SegmentTail(raw, l, |s.body| + 2, s.body, s.scan, rest, b, e);
  }

  lemma SegmentHead(raw: seq<byte>, pos: nat, s: Segment, tail: seq<byte>, rest: seq<byte>, m: nat, l: nat)
    requires m == pos + s.fill + 1 && l == m + 1
    requires s.marker != 0xFF && pos <= |raw| && raw[pos..] == (Fill(s.fill + 1) + ([s.marker] + tail)) + rest
    ensures m < |raw| && raw[pos] == 0xFF && RunEnd(raw, pos) == m && raw[m] == s.marker && raw[l..] == tail + rest
  {
    hide *;
    Assoc(Fill(s.fill + 1), [s.marker] + tail, rest);
    Assoc([s.marker], tail, rest);
    FillReads(raw, pos, s.fill + 1, s.marker, tail + rest);
  }

  lemma SegmentTail(raw: seq<byte>, l: nat, size: u16, body: seq<byte>, scan: seq<byte>, rest: seq<byte>, b: nat, e: nat)
    requires b == l + 2 && e == b + |body|
    requires l <= |raw| && raw[l..] == (PutBe16(size) + (body + scan)) + rest
    ensures e + |scan| <= |raw| && Be16At(raw, l) == size && raw[b..e] == body
    ensures raw[e..] == scan + rest && raw[e..e + |scan|] == scan && raw[e + |scan|..] == rest
  {
    hide *;
    Assoc(PutBe16(size), body + scan, rest);
    PeelBe16(raw, l, size, (body + scan) + rest);
    PeelIn(raw, b, body, scan, rest);
    Peel(raw, e, scan, rest);
  }

  lemma PrintedSegmentIsRead(raw: seq<byte>, pos: nat, s: Segment, rest: seq<byte>)
    requires SegmentOk(s) && StartsMarker(rest) && pos <= |raw| && raw[pos..] == Print(s) + rest
    ensures pos < |raw| - |rest| && raw[pos] == 0xFF && ReadSegment(raw, pos) == Some((s, |raw| - |rest|))
    ensures raw[|raw| - |rest|..] == rest && |raw| - |rest| == pos + |Print(s)|
    ensures RunEnd(raw, pos) == pos + s.fill + 1 < |raw| && raw[RunEnd(raw, pos)] == s.marker
  {
    hide Be16At, PutBe16, ScanOk, IsFrameMarker, ScanEnd, Fill, StartsMarker, MarkerOk;
    SegmentMarker(s);
    var m := pos + s.fill + 1;
    SegmentFields(raw, pos, s, rest, m, m + 1, m + 3, m + 3 + |s.body|);
    if s.marker == 0xDA {
      ScanReads(raw, m + 3 + |s.body|, s.scan, rest);
    } else {
      assert s.scan + rest == rest;
    }
  }

  lemma {:induction false} FillLength(n: nat)
    ensures |Fill(n)| == n
    decreases n
  {
    if n > 0 {
      FillLength(n - 1);
    }
  }

  /** Segments and the end-of-image marker all start with a marker. */
  lemma BodyStartsMarker(segments: seq<Segment>, fill: nat, rest: seq<byte>)
    requires segments != [] ==> SegmentOk(segments[0])
    ensures StartsMarker(Body(segments, fill) + rest)
  {
    hide PutBe16, SegmentOk, Fill;
    if segments != [] {
      SegmentMarker(segments[0]);
    }
    var raw := Body(segments, fill) + rest;
    assert raw[0..] == raw;
    if segments == [] {
      assert raw == Fill(fill + 1) + ([0xD9] + rest);
      FillReads(raw, 0, fill + 1, 0xD9, rest);
    } else {
      var s := segments[0];
      var r := PutBe16(|s.body| + 2) + (s.body + (s.scan + (Body(segments[1..], fill) + rest)));
      assert raw == Fill(s.fill + 1) + ([s.marker] + r);
      FillReads(raw, 0, s.fill + 1, s.marker, r);
    }
  }

  // ---- The cursor up to the end-of-image marker ----

  /** Where the picture whose markers go on at `pos` ends, and its declared pictures. */
  ghost function Image(raw: seq<byte>, pos: nat, sof: bool, scan: bool, m: Option<Ranges>, allowMpf: bool): Option<(nat, Option<Ranges>)>
    decreases |raw| - pos
  {
    if pos >= |raw| || raw[pos] != 0xFF then None
    else
      var run := RunEnd(raw, pos);
      if run < |raw| && raw[run] == 0xD9 then if sof && scan then Some((run + 1, m)) else None
      else
        match ReadSegment(raw, pos)
        case None => None
        case Some((s, end)) =>
          match Index(s, pos, m, allowMpf)
          case None => None
          case Some(m') =>
            if end <= pos then None
            else Image(raw, end, sof || IsFrameMarker(s.marker), scan || s.marker == 0xDA, m', allowMpf)
  }

  lemma {:induction false} Sound(raw: seq<byte>, pos: nat, sof: bool, scan: bool, m: Option<Ranges>, allowMpf: bool)
    returns (segments: seq<Segment>, fill: nat)
    requires pos <= |raw| && Image(raw, pos, sof, scan, m, allowMpf).Some?
    ensures var (end, m') := Image(raw, pos, sof, scan, m, allowMpf).value;
      && pos < end <= |raw|
      && Reading(segments, pos, sof, scan, m, allowMpf) == Some(m')
      && raw[pos..] == Body(segments, fill) + raw[end..]
    decreases |raw| - pos
  {
    hide ReadSegment, Print, SegmentOk, Index, IsFrameMarker, Fill, Body, Reading;
    var run := RunEnd(raw, pos);
    var (end, m') := Image(raw, pos, sof, scan, m, allowMpf).value;
    if run < |raw| && raw[run] == 0xD9 {
      segments, fill := [], run - pos - 1;
      EndIsPrinted(raw, pos);
      assert Reading([], pos, sof, scan, m, allowMpf) == Some(m) by { ReadingNothing(pos, m, allowMpf); }
    } else {
      SegmentReadIsPrinted(raw, pos);
      var (s, next) := ReadSegment(raw, pos).value;
      var rest;
      rest, fill := Sound(raw, next, sof || IsFrameMarker(s.marker), scan || s.marker == 0xDA,
                          Index(s, pos, m, allowMpf).value, allowMpf);
      segments := [s] + rest;
      assert |raw[pos..]| == |Print(s)| + |raw[next..]|;
      BodyCons(s, rest, fill);
      ReadingCons(s, rest, pos, sof, scan, m, allowMpf);
      Assoc(Print(s), Body(rest, fill), raw[end..]);
    }
  }

  lemma EndIsPrinted(raw: seq<byte>, pos: nat)
    requires pos < |raw| && raw[pos] == 0xFF
    ensures var run := RunEnd(raw, pos);
      run > pos && (run < |raw| && raw[run] == 0xD9 ==> raw[pos..] == Body([], run - pos - 1) + raw[run + 1..])
  {
    hide Fill;
    var run := RunEnd(raw, pos);
    assert run > pos;
    RunIsFill(raw, pos);
    if run < |raw| && raw[run] == 0xD9 {
      assert raw[pos..] == (raw[pos..run] + [raw[run]]) + raw[run + 1..];
    }
  }

  lemma ReadingNothing(pos: nat, m: Option<Ranges>, allowMpf: bool)
    ensures Reading([], pos, true, true, m, allowMpf) == Some(m)
  {
  }

  lemma BodyCons(s: Segment, rest: seq<Segment>, fill: nat)
    ensures Body([s] + rest, fill) == Print(s) + Body(rest, fill)
  {
    assert ([s] + rest)[1..] == rest;
  }

  lemma ReadingCons(s: Segment, rest: seq<Segment>, pos: nat, sof: bool, scan: bool, m: Option<Ranges>, allowMpf: bool)
    requires SegmentOk(s) && Index(s, pos, m, allowMpf).Some?
    ensures Reading([s] + rest, pos, sof, scan, m, allowMpf)
      == Reading(rest, pos + |Print(s)|, sof || IsFrameMarker(s.marker), scan || s.marker == 0xDA, Index(s, pos, m, allowMpf).value, allowMpf)
  {
    assert ([s] + rest)[1..] == rest;
  }

  lemma {:induction false} Complete(
    raw: seq<byte>, pos: nat, segments: seq<Segment>, fill: nat, rest: seq<byte>,
    sof: bool, scan: bool, m: Option<Ranges>, allowMpf: bool)
    requires pos <= |raw| && Reading(segments, pos, sof, scan, m, allowMpf).Some?
    requires raw[pos..] == Body(segments, fill) + rest
    ensures Image(raw, pos, sof, scan, m, allowMpf)
      == Some((|raw| - |rest|, Reading(segments, pos, sof, scan, m, allowMpf).value))
    decreases |segments|
  {
    hide ReadSegment, Print, SegmentOk, Index, IsFrameMarker, Fill, StartsMarker, Body;
    if segments == [] {
      LastIsFill(fill);
      Assoc(Fill(fill + 1), [0xD9], rest);
      FillReads(raw, pos, fill + 1, 0xD9, rest);
    } else {
      var s, tail := segments[0], Body(segments[1..], fill) + rest;
      assert segments == [s] + segments[1..];
      BodyCons(s, segments[1..], fill);
      Assoc(Print(s), Body(segments[1..], fill), rest);
      assert segments[1..] != [] ==> SegmentOk(segments[1..][0]);
      BodyStartsMarker(segments[1..], fill, rest);
      PrintedSegmentIsRead(raw, pos, s, tail);
      SegmentMarker(s);
      Complete(raw, |raw| - |tail|, segments[1..], fill, rest, sof || IsFrameMarker(s.marker), scan || s.marker == 0xDA,
               Index(s, pos, m, allowMpf).value, allowMpf);
    }
  }

  lemma LastIsFill(fill: nat)
    ensures Body([], fill) == Fill(fill + 1) + [0xD9]
  {
  }

  lemma SegmentMarker(s: Segment)
    requires SegmentOk(s)
    ensures s.marker !in {0xD9, 0xFF} && !Stuffing(s.marker)
  {
    hide ScanOk;
  }

  /** The cursor decides the grammar: it finds the first picture, whatever follows it. */
  lemma CursorDecides(raw: seq<byte>, allowMpf: bool)
    ensures Accepted(raw, allowMpf) <==>
      && |raw| >= 2 && raw[..2] == START
      && Image(raw, 2, false, false, None, allowMpf).Some?
      && var (end, m) := Image(raw, 2, false, false, None, allowMpf).value; Whole(raw, end, m)
  {
    hide Image, Body, Reading, Whole;
    if |raw| >= 2 && raw[..2] == START && Image(raw, 2, false, false, None, allowMpf).Some? {
      var (end, m) := Image(raw, 2, false, false, None, allowMpf).value;
      var segments, fill := Sound(raw, 2, false, false, None, allowMpf);
      assert raw == START + Body(segments, fill) + raw[end..];
      assert Leads(raw, segments, fill, m, allowMpf);
      assert 2 + |Body(segments, fill)| == end;
    }
    forall segments, fill, m | Leads(raw, segments, fill, m, allowMpf)
      ensures |raw| >= 2 && raw[..2] == START
      ensures Image(raw, 2, false, false, None, allowMpf) == Some((2 + |Body(segments, fill)|, m))
    {
      Located(raw, segments, fill, m, allowMpf);
    }
  }

  lemma Located(raw: seq<byte>, segments: seq<Segment>, fill: nat, m: Option<Ranges>, allowMpf: bool)
    requires Leads(raw, segments, fill, m, allowMpf)
    ensures |raw| >= 2 && raw[..2] == START
    ensures Image(raw, 2, false, false, None, allowMpf) == Some((2 + |Body(segments, fill)|, m))
  {
    hide Image, Body, Reading;
    var b := Body(segments, fill);
    assert raw[..2] == (START + b)[..2];
    assert raw[2..] == b + raw[2 + |b|..];
    Complete(raw, 2, segments, fill, raw[2 + |b|..], false, false, None, allowMpf);
  }

  /** Without multi-picture support a file is accepted exactly when it is one picture. */
  lemma AcceptedIsSingle(raw: seq<byte>)
    ensures Accepted(raw, false) <==> Single(raw)
  {
    hide Body, Print;
    forall segments, fill, m | Leads(raw, segments, fill, m, false) ensures m == None {
      NoIndexWanted(segments, 2, false, false);
    }
    forall segments, fill | Reading(segments, 2, false, false, None, false) == Some(None) && raw == START + Body(segments, fill)
      ensures Leads(raw, segments, fill, None, false) && Whole(raw, 2 + |Body(segments, fill)|, None)
    {
    }
  }

  lemma {:induction false} NoIndexWanted(segments: seq<Segment>, pos: nat, sof: bool, scan: bool)
    ensures Reading(segments, pos, sof, scan, None, false) in {None, Some(None)}
    decreases |segments|
  {
    hide SegmentOk, Print;
    if segments != [] && SegmentOk(segments[0]) {
      var s := segments[0];
      NoIndexWanted(segments[1..], pos + |Print(s)|, sof || IsFrameMarker(s.marker), scan || s.marker == 0xDA);
    }
  }

  // ---- The check ----

  /** The three bytes of a short body and a match of the index label that runs past it cannot be
      followed by a marker. */
  lemma LabelPastBody(raw: seq<byte>, pos: nat, end: nat)
    requires pos + 6 <= |raw| && raw[pos + 2..pos + 6] == MPF && pos + 2 <= end < pos + 6
    ensures raw[end] != 0xFF
  {
    assert raw[end] == raw[pos + 2..pos + 6][end - pos - 2];
  }

  /** One step of the cursor over a segment. */
  lemma Advance(raw: seq<byte>, pos: nat, sof: bool, scan: bool, m: Option<Ranges>, allowMpf: bool)
    requires pos < |raw| && raw[pos] == 0xFF && RunEnd(raw, pos) < |raw| && raw[RunEnd(raw, pos)] != 0xD9
    ensures ReadSegment(raw, pos).None? ==> Image(raw, pos, sof, scan, m, allowMpf).None?
    ensures ReadSegment(raw, pos).Some? ==>
      var (s, end) := ReadSegment(raw, pos).value;
      && (Index(s, pos, m, allowMpf).None? ==> Image(raw, pos, sof, scan, m, allowMpf).None?)
      && (Index(s, pos, m, allowMpf).Some? ==>
          Image(raw, pos, sof, scan, m, allowMpf)
          == Image(raw, end, sof || IsFrameMarker(s.marker), scan || s.marker == 0xDA, Index(s, pos, m, allowMpf).value, allowMpf))
  {
    hide ReadSegment, Index, IsFrameMarker;
    if ReadSegment(raw, pos).Some? {
      SegmentReadIsPrinted(raw, pos);
    }
  }

  /** Where the cursor stops by itself. */
  lemma ImageStops(raw: seq<byte>, pos: nat, sof: bool, scan: bool, m: Option<Ranges>, allowMpf: bool)
    ensures pos >= |raw| || raw[pos] != 0xFF || RunEnd(raw, pos) >= |raw| ==> Image(raw, pos, sof, scan, m, allowMpf).None?
    ensures pos < |raw| && raw[pos] == 0xFF && RunEnd(raw, pos) < |raw| && raw[RunEnd(raw, pos)] == 0xD9 ==>
      Image(raw, pos, sof, scan, m, allowMpf) == if sof && scan then Some((RunEnd(raw, pos) + 1, m)) else None
  {
    hide Index, IsFrameMarker;
  }

  lemma NoIndex(read: Option<(Segment, nat)>, pos: nat, m: Option<Ranges>, allowMpf: bool)
    ensures read.Some? && read.value.0.marker != 0xE2 ==> Index(read.value.0, pos, m, allowMpf) == Some(m)
  {
  }

  /** Skips 0xFF bytes. */
  method SkipFill(raw: seq<byte>, start: nat) returns (pos: nat)
    requires start <= |raw|
    ensures pos == RunEnd(raw, start)
  {
    pos := start;
    while pos < |raw| && raw[pos] == 0xFF
      invariant start <= pos <= |raw| && RunEnd(raw, start) == RunEnd(raw, pos)
    {
      pos := pos + 1;
    }
  }

  /** Skips entropy-coded data up to the marker behind it. */
  method SkipScan(raw: seq<byte>, start: nat) returns (end: Option<nat>)
    ensures end == ScanEnd(raw, start)
  {
    var pos := start;
    while pos < |raw|
      invariant start <= pos
      invariant ScanEnd(raw, start) == ScanEnd(raw, pos)
    {
      if raw[pos] != 0xFF {
        pos := pos + 1;
        continue;
      }
      var markerStart := pos;
      pos := SkipFill(raw, pos);
      if pos >= |raw| {
        return None;
      }
      var scanMarker := raw[pos];
      if scanMarker == 0x00 || 0xD0 <= scanMarker <= 0xD7 {
        pos := pos + 1;
        continue;
      }
      return Some(markerStart);
    }
    return None;
  }

  /** Reads the MP Index of the APP2 segment whose length field is at `pos`. */
  method ReadIndex(raw: seq<byte>, pos: nat, end: nat, marker: byte, before: Option<Ranges>, allowMpf: bool, ghost s: Segment, ghost start: nat)
    returns (ok: bool, m: Option<Ranges>)
    requires pos + 2 <= end <= |raw|
    requires s.marker == marker && s.body == raw[pos + 2..end] && start + s.fill + 2 == pos
    ensures Index(s, start, before, allowMpf).None? ==> !ok
    ensures !ok ==> Index(s, start, before, allowMpf).None? || (end < |raw| && raw[end] != 0xFF)
    ensures ok ==> Index(s, start, before, allowMpf) == Some(m)
    ensures marker != 0xE2 ==> ok && m == before
    ensures !ok ==> marker == 0xE2
    ensures ok && m.Some? && m != before ==> allowMpf && |m.value| >= 2
  {
    hide RangesOf, Declares, MPF;
    if allowMpf && marker == 0xE2 && pos + 6 <= |raw| && raw[pos + 2..pos + 6] == MPF {
      var data := if end < pos + 6 then [] else raw[pos + 6..end];
      if end < pos + 6 {
        LabelPastBody(raw, pos, end);
        NotDeclared([], pos + 6);
      } else {
        assert s.body[..4] == raw[pos + 2..pos + 6] && s.body[4..] == data;
      }
      if before.Some? {
        return false, None;
      }
      m := MpfImageRanges(data, pos + 6);
      if m.None? {
        return false, None;
      }
      DeclaresTwo(data, pos + 6);
      return true, m;
    }
    if s.marker == 0xE2 && |s.body| >= 4 {
      assert s.body[..4] == raw[pos + 2..pos + 6];
    }
    return true, before;
  }

  lemma DeclaresTwo(data: seq<byte>, base: nat)
    ensures RangesOf(data, base).Some? ==> |RangesOf(data, base).value| >= 2
  {
    if RangesOf(data, base).Some? {
      assert Declares(data, base, RangesOf(data, base).value);
    }
  }

  /** Accepts exactly the printed single pictures and, when allowed, the tiled multi-picture files. */
  method IsCompleteJpeg(raw: seq<byte>, allowMpf: bool) returns (ok: bool)
    ensures ok <==> Accepted(raw, allowMpf)
    decreases allowMpf, 1
  {
    hide Accepted, Be16At, ScanEnd, Index, Tiled, Single, Print, IsFrameMarker, Image;
    CursorDecides(raw, allowMpf);
    if |raw| < 4 || raw[..2] != START {
      ImageStops(raw, 2, false, false, None, allowMpf);
      return false;
    }
    var pos: nat := 2;
    var sawSof, sawScan := false, false;
    var mpfRanges: Option<Ranges> := None;
    ghost var image := Image(raw, 2, false, false, None, allowMpf);
    while pos < |raw|
      invariant 2 <= pos <= |raw|
      invariant mpfRanges.Some? ==> allowMpf && |mpfRanges.value| >= 2
      invariant image == Image(raw, pos, sawSof, sawScan, mpfRanges, allowMpf)
    {
      ghost var start := pos;
      ImageStops(raw, start, sawSof, sawScan, mpfRanges, allowMpf);
      if raw[pos] != 0xFF {
        return false;
      }
      pos := SkipFill(raw, pos);
      if pos >= |raw| {
        return false;
      }
      var marker := raw[pos];
      pos := pos + 1;
      if marker == 0xD9 {
        if !sawSof || !sawScan {
          return false;
        }
        if mpfRanges.None? {
          return pos == |raw|;
        }
        ok := IsTiled(raw, pos, mpfRanges.value);
        return;
      }
      Advance(raw, start, sawSof, sawScan, mpfRanges, allowMpf);
      if marker in {0x00, 0x01, 0xD8} || 0xD0 <= marker <= 0xD7 {
        return false;
      }
      if pos + 2 > |raw| {
        return false;
      }
      var segmentLength := Be16At(raw, pos);
      if segmentLength < 2 {
        return false;
      }
      var segmentEnd := pos + segmentLength;
      if segmentEnd > |raw| {
        return false;
      }
      ghost var segment := Segment(pos - start - 2, marker, raw[pos + 2..segmentEnd], []);
      var fine, ranges := ReadIndex(raw, pos, segmentEnd, marker, mpfRanges, allowMpf, segment, start);
      if !fine {
        if Index(segment, start, mpfRanges, allowMpf).Some? {
          ImageStops(raw, segmentEnd, sawSof || IsFrameMarker(marker), sawScan, Index(segment, start, mpfRanges, allowMpf).value, allowMpf);
        }
        return false;
      }
      mpfRanges := ranges;
      if IsFrameMarker(marker) {
        if segmentLength < 8 {
          return false;
        }
        sawSof := true;
      }
      if marker != 0xDA {
        pos := segmentEnd;
        continue;
      }
      NoIndex(ReadSegment(raw, start), start, mpfRanges, allowMpf);
      sawScan := true;
      var scanEnd := SkipScan(raw, segmentEnd);
      if scanEnd.None? {
        return false;
      }
      pos := scanEnd.value;
    }
    ImageStops(raw, pos, sawSof, sawScan, mpfRanges, allowMpf);
    return false;
  }

  /** Checks the declared ranges of a multi-picture file whose first picture ends at `end`. */
  method IsTiled(raw: seq<byte>, end: nat, ranges: Ranges) returns (ok: bool)
    requires |ranges| >= 2 && end <= |raw|
    ensures ok <==> Tiled(raw, end, ranges)
    decreases true, 0
  {
    hide Accepted, Single;
    if ranges[0] != (0, end) {
      return false;
    }
    var pos := end;
    var k: nat := 1;
    while k < |ranges|
      invariant 1 <= k <= |ranges| && pos == ranges[k - 1].1 <= |raw|
      invariant forall i | 0 < i < k ::
        && ranges[i].0 == ranges[i - 1].1
        && ranges[i].0 <= ranges[i].1 <= |raw|
        && Single(raw[ranges[i].0..ranges[i].1])
    {
      var (from, to) := ranges[k];
      if from != pos || to > |raw| || to < from {
        return false;
      }
      var picture := IsCompleteJpeg(raw[from..to], false);
      AcceptedIsSingle(raw[from..to]);
      if !picture {
        return false;
      }
      pos := to;
      k := k + 1;
    }
    return pos == |raw|;
  }

  // ---- What the grammar gives ----

  /** A complete file followed by anything more is not complete: the cursor takes the same steps on
      the longer input and stops at the same place. */
  lemma NoAcceptedExtension(raw: seq<byte>, suffix: seq<byte>, allowMpf: bool)
    requires Accepted(raw, allowMpf) && suffix != []
    ensures !Accepted(raw + suffix, allowMpf)
  {
    hide Body, Reading, Tiled, Image;
    var segments, fill, m :| Leads(raw, segments, fill, m, allowMpf) && Whole(raw, 2 + |Body(segments, fill)|, m);
    var long := raw + suffix;
    assert Leads(long, segments, fill, m, allowMpf);
    Located(long, segments, fill, m, allowMpf);
    CursorDecides(long, allowMpf);
    assert !Whole(long, 2 + |Body(segments, fill)|, m) by {
      if m.Some? {
        TiledEnds(raw, 2 + |Body(segments, fill)|, m.value);
      }
    }
  }

  lemma TiledEnds(raw: seq<byte>, first: nat, ranges: Ranges)
    requires Tiled(raw, first, ranges)
    ensures forall other | Tiled(other, first, ranges) :: |other| == |raw|
  {
  }

  /** Ignoring the index changes nothing else about a picture. */
  lemma {:induction false} WithoutIndex(segments: seq<Segment>, pos: nat, sof: bool, scan: bool, m: Option<Ranges>)
    requires Reading(segments, pos, sof, scan, m, true).Some?
    ensures Reading(segments, pos, sof, scan, None, false) == Some(None)
    decreases |segments|
  {
    hide SegmentOk, Print, IsFrameMarker, IsIndex;
    if segments != [] {
      var s := segments[0];
      WithoutIndex(segments[1..], pos + |Print(s)|, sof || IsFrameMarker(s.marker), scan || s.marker == 0xDA,
                   Index(s, pos, m, true).value);
    }
  }

  /** `cuts` are consecutive slices of `raw`, without gap or overlap, that cover every byte. */
  ghost predicate Covers(raw: seq<byte>, cuts: Ranges) {
    && cuts != [] && cuts[0].0 == 0 && cuts[|cuts| - 1].1 == |raw|
    && (forall k | 0 <= k < |cuts| :: cuts[k].0 <= cuts[k].1 <= |raw|)
    && (forall k | 0 < k < |cuts| :: cuts[k].0 == cuts[k - 1].1)
  }

  /** An accepted file is tiled by pictures: consecutive slices cover every byte, and each of them,
      the first one too, is by itself a complete single picture. The slices are the ranges the file's
      index declares, or all of it when there is no index. */
  lemma AcceptedIsCovered(raw: seq<byte>, segments: seq<Segment>, fill: nat, m: Option<Ranges>)
    requires Accepted(raw, true) && Leads(raw, segments, fill, m, true)
    ensures var cuts := if m.Some? then m.value else [(0, |raw|)];
      Covers(raw, cuts) && forall k | 0 <= k < |cuts| :: Single(raw[cuts[k].0..cuts[k].1])
  {
    hide Body, Reading, Single;
    var segments', fill', m' :| Leads(raw, segments', fill', m', true) && Whole(raw, 2 + |Body(segments', fill')|, m');
    LeadsOnce(raw, segments, fill, m, segments', fill', m');
    var end := 2 + |Body(segments, fill)|;
    WithoutIndex(segments, 2, false, false, None);
    assert raw[..end] == START + Body(segments, fill);
    SingleBy(raw[0..end], segments, fill);
  }

  lemma LeadsOnce(
    raw: seq<byte>, segments: seq<Segment>, fill: nat, m: Option<Ranges>, others: seq<Segment>, fill': nat, m': Option<Ranges>)
    requires Leads(raw, segments, fill, m, true) && Leads(raw, others, fill', m', true)
    ensures m == m' && |Body(segments, fill)| == |Body(others, fill')|
  {
    hide Leads, Body;
    Located(raw, segments, fill, m, true);
    Located(raw, others, fill', m', true);
  }

  lemma SingleBy(raw: seq<byte>, segments: seq<Segment>, fill: nat)
    requires Reading(segments, 2, false, false, None, false) == Some(None) && raw == START + Body(segments, fill)
    ensures Single(raw)
  {
  }

  /** A picture alone is accepted, multi-picture or not, when it carries no index. */
  lemma {:induction false} IndexFree(segments: seq<Segment>, pos: nat, sof: bool, scan: bool)
    requires Reading(segments, pos, sof, scan, None, false).Some?
    requires forall i | 0 <= i < |segments| :: !IsIndex(segments[i])
    ensures Reading(segments, pos, sof, scan, None, true) == Some(None)
    decreases |segments|
  {
    hide SegmentOk, Print, IsFrameMarker, IsIndex;
    if segments != [] {
      var s := segments[0];
      IndexFree(segments[1..], pos + |Print(s)|, sof || IsFrameMarker(s.marker), scan || s.marker == 0xDA);
    }
  }

  // ---- What a single picture is, and that it is read one way only ----

  predicate AllOk(segments: seq<Segment>) {
    forall i | 0 <= i < |segments| :: SegmentOk(segments[i])
  }

  /** A single picture is any list of well-formed segments with a frame header and a scan among them. */
  lemma {:induction false} SingleMeans(segments: seq<Segment>, pos: nat, sof: bool, scan: bool)
    ensures Reading(segments, pos, sof, scan, None, false) == Some(None) <==>
      && AllOk(segments)
      && (sof || exists i :: 0 <= i < |segments| && IsFrameMarker(segments[i].marker))
      && (scan || exists i :: 0 <= i < |segments| && segments[i].marker == 0xDA)
    decreases |segments|
  {
    hide SegmentOk, Print, IsFrameMarker;
    if segments != [] {
      var (s, rest) := (segments[0], segments[1..]);
      assert forall i | 0 <= i < |rest| :: rest[i] == segments[i + 1];
      assert forall i | 0 < i < |segments| :: segments[i] == rest[i - 1];
      SingleMeans(rest, pos + |Print(s)|, sof || IsFrameMarker(s.marker), scan || s.marker == 0xDA);
      assert IsFrameMarker(s.marker) ==> IsFrameMarker(segments[0].marker);
    }
  }

  /** The bytes of a picture determine its segments, and those of none begin those of another. */
  lemma {:induction false} Unique(segments: seq<Segment>, fill: nat, others: seq<Segment>, fill': nat, suffix: seq<byte>)
    requires AllOk(segments) && AllOk(others) && Body(segments, fill) + suffix == Body(others, fill')
    ensures segments == others && fill == fill' && suffix == []
    decreases |segments|
  {
    hide Body, Fill, ReadSegment, Print, SegmentOk, StartsMarker;
    var raw := Body(others, fill');
    assert raw + [] == raw;
    if segments == [] || others == [] {
      LastMarker(raw, segments, fill, suffix);
      LastMarker(raw, others, fill', []);
    } else {
      var end := FirstSegment(raw, segments, fill, suffix);
      var end' := FirstSegment(raw, others, fill', []);
      assert raw[end..] == Body(others[1..], fill') by {
        assert Body(others[1..], fill') + [] == Body(others[1..], fill');
      }
      assert AllOk(segments[1..]) && AllOk(others[1..]);
      Unique(segments[1..], fill, others[1..], fill', suffix);
      assert segments == [segments[0]] + segments[1..] && others == [others[0]] + others[1..];
    }
  }

  /** What the first marker of a body is. */
  lemma LastMarker(raw: seq<byte>, segments: seq<Segment>, fill: nat, suffix: seq<byte>)
    requires AllOk(segments) && raw == Body(segments, fill) + suffix
    ensures var m := RunEnd(raw, 0);
      && m < |raw| && (raw[m] == 0xD9 <==> segments == [])
      && (segments == [] ==> m == fill + 1 && suffix == raw[m + 1..])
  {
    hide Fill, ReadSegment, Print, SegmentOk, StartsMarker;
    assert raw[0..] == raw;
    if segments == [] {
      assert raw == Fill(fill + 1) + ([0xD9] + suffix);
      FillReads(raw, 0, fill + 1, 0xD9, suffix);
    } else {
      var end := FirstSegment(raw, segments, fill, suffix);
      SegmentMarker(segments[0]);
    }
  }

  lemma FirstSegment(raw: seq<byte>, segments: seq<Segment>, fill: nat, suffix: seq<byte>) returns (end: nat)
    requires AllOk(segments) && segments != [] && raw == Body(segments, fill) + suffix
    ensures raw != [] && raw[0] == 0xFF && ReadSegment(raw, 0) == Some((segments[0], end))
    ensures end <= |raw| && raw[end..] == Body(segments[1..], fill) + suffix
    ensures RunEnd(raw, 0) < |raw| && raw[RunEnd(raw, 0)] == segments[0].marker
  {
    hide Fill, ReadSegment, Print, SegmentOk, StartsMarker;
    var tail := Body(segments[1..], fill) + suffix;
    Assoc(Print(segments[0]), Body(segments[1..], fill), suffix);
    assert raw[0..] == raw;
    BodyStartsMarker(segments[1..], fill, suffix);
    PrintedSegmentIsRead(raw, 0, segments[0], tail);
    end := |raw| - |tail|;
  }

  /** A single picture can be read in one way only. */
  lemma ParseIsUnique(segments: seq<Segment>, fill: nat, others: seq<Segment>, fill': nat)
    requires Reading(segments, 2, false, false, None, false) == Some(None)
    requires Reading(others, 2, false, false, None, false) == Some(None)
    requires START + Body(segments, fill) == START + Body(others, fill')
    ensures segments == others && fill == fill'
  {
    hide Reading, Body;
    SingleMeans(segments, 2, false, false);
    SingleMeans(others, 2, false, false);
    assert (START + Body(segments, fill))[2..] == Body(segments, fill);
    assert (START + Body(others, fill'))[2..] == Body(others, fill');
    assert Body(segments, fill) + [] == Body(segments, fill);
    Unique(segments, fill, others, fill', []);
  }
}
