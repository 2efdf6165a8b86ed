/** A printer for MP Indexes, byte by byte, and what reading a printed index gives. */
module MultiPicturePrint {
  import opened ByteCodec
  import opened MultiPicture
  import opened Options

  /** A field of the directory, and an entry of the picture table; its last four bytes are free. */
  datatype Field = Field(tag: u16, kind: u16, count: u32, value: u32)
  datatype Extent = Extent(attributes: u32, size: u32, start: u32, dependents: seq<byte>)

  function Put16(n: u16, big: bool): (s: seq<byte>)
    ensures |s| == 2
  {
    if big then PutBe16(n) else PutLe16(n)
  }

  function Put32(n: u32, big: bool): (s: seq<byte>)
    ensures |s| == 4
  {
    if big then PutBe32(n) else PutLe32(n)
  }

  function PrintField(f: Field, big: bool): (s: seq<byte>)
    ensures |s| == 12
  {
    Put16(f.tag, big) + (Put16(f.kind, big) + (Put32(f.count, big) + Put32(f.value, big)))
  }

  function PrintExtent(e: Extent, big: bool): seq<byte> {
    Put32(e.attributes, big) + (Put32(e.size, big) + (Put32(e.start, big) + e.dependents))
  }

  function PrintFields(fields: seq<Field>, big: bool): seq<byte> {
    if fields == [] then [] else PrintField(fields[0], big) + PrintFields(fields[1..], big)
  }

  function PrintExtents(extents: seq<Extent>, big: bool): seq<byte> {
    if extents == [] then [] else PrintExtent(extents[0], big) + PrintExtents(extents[1..], big)
  }

  /** TIFF header, directory at byte 8, offset of a next directory, picture table. */
  datatype PrintedIndex = PrintedIndex(big: bool, fields: seq<Field>, next: seq<byte>, extents: seq<Extent>)

  function Magic(big: bool): seq<byte> {
    if big then [0x4D, 0x4D, 0x00, 0x2A] else [0x49, 0x49, 0x2A, 0x00]
  }

  function PrintIndex(x: PrintedIndex): seq<byte> {
    Magic(x.big)
    + (Put32(8, x.big)
       + (Put16(|x.fields| % 0x1_0000, x.big)
          + (PrintFields(x.fields, x.big) + (x.next + PrintExtents(x.extents, x.big)))))
  }

  /** The directory counts the pictures and points at their table, and no tag repeats. */
  predicate WellFormed(x: PrintedIndex) {
    && |x.fields| < 0x1_0000 && |x.next| == 4 && 16 * |x.extents| < 0x1_0000_0000
    && (forall e | e in x.extents :: |e.dependents| == 4)
    && (forall i, j | 0 <= i < j < |x.fields| :: x.fields[i].tag != x.fields[j].tag)
    && Field(0xB001, 4, 1, |x.extents|) in x.fields
    && 14 + 12 * |x.fields| < 0x1_0000_0000 && Field(0xB002, 7, 16 * |x.extents|, 14 + 12 * |x.fields|) in x.fields
  }

  /** Two or more JPEG pictures of at least four bytes, the first at the start. */
  predicate Declarable(extents: seq<Extent>) {
    && |extents| >= 2 && extents[0].start == 0
    && forall k | 0 <= k < |extents| :: extents[k].attributes / 0x100_0000 % 8 == 0 && extents[k].size >= 4
  }

  /** Where the pictures are when the TIFF header is at byte `base` of the file. */
  function Declared(extents: seq<Extent>, base: nat): Ranges {
    seq(|extents|, k requires 0 <= k < |extents| =>
      if k == 0 then (0, extents[0].size) else (base + extents[k].start, base + extents[k].start + extents[k].size))
  }

  // ---- Reading what was printed ----

  lemma Peel16(raw: seq<byte>, pos: nat, n: u16, big: bool, rest: seq<byte>)
    requires pos <= |raw| && raw[pos..] == Put16(n, big) + rest
    ensures pos + 2 <= |raw| && U16(raw, big, pos) == n && raw[pos + 2..] == rest
  {
    hide PutBe16, PutLe16, Be16At, Le16At;
    if big {
      PeelBe16(raw, pos, n, rest);
    } else {
      PeelLe16(raw, pos, n, rest);
    }
  }

  lemma Peel32(raw: seq<byte>, pos: nat, n: u32, big: bool, rest: seq<byte>)
    requires pos <= |raw| && raw[pos..] == Put32(n, big) + rest
    ensures pos + 4 <= |raw| && U32(raw, big, pos) == n && raw[pos + 4..] == rest
  {
    hide PutBe32, PutLe32, Be32At, Le32At;
    if big {
      PeelBe32(raw, pos, n, rest);
    } else {
      PeelLe32(raw, pos, n, rest);
    }
  }

  /** The bytes of one field. */
  lemma FieldReads(raw: seq<byte>, pos: nat, f: Field, big: bool, rest: seq<byte>)
    requires pos <= |raw| && raw[pos..] == PrintField(f, big) + rest
    ensures pos + 12 <= |raw| && raw[pos + 12..] == rest
    ensures U16(raw, big, pos) == f.tag && U16(raw, big, pos + 2) == f.kind
    ensures U32(raw, big, pos + 4) == f.count && U32(raw, big, pos + 8) == f.value
  {
    var (tag, kind, count, value) := (Put16(f.tag, big), Put16(f.kind, big), Put32(f.count, big), Put32(f.value, big));
    assert PrintField(f, big) == tag + (kind + (count + value));
    hide *;
    Assoc(tag, kind + (count + value), rest);
    Peel16(raw, pos, f.tag, big, (kind + (count + value)) + rest);
    Assoc(kind, count + value, rest);
    Peel16(raw, pos + 2, f.kind, big, (count + value) + rest);
    Assoc(count, value, rest);
    Peel32(raw, pos + 4, f.count, big, value + rest);
    Peel32(raw, pos + 8, f.value, big, rest);
  }

  lemma ExtentReads(raw: seq<byte>, pos: nat, e: Extent, big: bool, rest: seq<byte>)
    requires |e.dependents| == 4 && pos <= |raw| && raw[pos..] == PrintExtent(e, big) + rest
    ensures pos + 16 <= |raw| && raw[pos + 16..] == rest
    ensures U32(raw, big, pos) == e.attributes && U32(raw, big, pos + 4) == e.size && U32(raw, big, pos + 8) == e.start
  {
    var (attributes, size, start) := (Put32(e.attributes, big), Put32(e.size, big), Put32(e.start, big));
    assert PrintExtent(e, big) == attributes + (size + (start + e.dependents));
    hide *;
    Assoc(attributes, size + (start + e.dependents), rest);
    Peel32(raw, pos, e.attributes, big, (size + (start + e.dependents)) + rest);
    Assoc(size, start + e.dependents, rest);
    Peel32(raw, pos + 4, e.size, big, (start + e.dependents) + rest);
    Assoc(start, e.dependents, rest);
    Peel32(raw, pos + 8, e.start, big, e.dependents + rest);
    Peel(raw, pos + 12, e.dependents, rest);
  }

  ghost predicate FieldsAt(raw: seq<byte>, pos: nat, fields: seq<Field>, big: bool) {
    pos + 12 * |fields| <= |raw| && forall i | 0 <= i < |fields| ::
      && U16(raw, big, pos + 12 * i) == fields[i].tag && U16(raw, big, pos + 12 * i + 2) == fields[i].kind
      && U32(raw, big, pos + 12 * i + 4) == fields[i].count && U32(raw, big, pos + 12 * i + 8) == fields[i].value
  }

  ghost predicate ExtentsAt(raw: seq<byte>, pos: nat, extents: seq<Extent>, big: bool) {
    pos + 16 * |extents| <= |raw| && forall k | 0 <= k < |extents| ::
      && U32(raw, big, pos + 16 * k) == extents[k].attributes && U32(raw, big, pos + 16 * k + 4) == extents[k].size
      && U32(raw, big, pos + 16 * k + 8) == extents[k].start
  }

  /** The fields follow each other at steps of twelve bytes. */
  lemma {:induction false} FieldsRead(raw: seq<byte>, pos: nat, fields: seq<Field>, big: bool, rest: seq<byte>)
    requires pos <= |raw| && raw[pos..] == PrintFields(fields, big) + rest
    ensures FieldsAt(raw, pos, fields, big) && raw[pos + 12 * |fields|..] == rest
    decreases |fields|
  {
    hide U16, U32, PrintField;
    if fields == [] {
      assert [] + rest == rest;
    } else {
      var tail := fields[1..];
      Assoc(PrintField(fields[0], big), PrintFields(tail, big), rest);
      FieldReads(raw, pos, fields[0], big, PrintFields(tail, big) + rest);
      FieldsRead(raw, pos + 12, tail, big, rest);
      forall i | 0 <= i < |fields|
        ensures U16(raw, big, pos + 12 * i) == fields[i].tag && U16(raw, big, pos + 12 * i + 2) == fields[i].kind
        ensures U32(raw, big, pos + 12 * i + 4) == fields[i].count && U32(raw, big, pos + 12 * i + 8) == fields[i].value
      {
        if i > 0 {
          assert tail[i - 1] == fields[i] && pos + 12 + 12 * (i - 1) == pos + 12 * i;
        }
      }
    }
  }

  /** The entries follow each other at steps of sixteen bytes. */
  lemma {:induction false} ExtentsRead(raw: seq<byte>, pos: nat, extents: seq<Extent>, big: bool, rest: seq<byte>)
    requires pos <= |raw| && raw[pos..] == PrintExtents(extents, big) + rest
    requires forall e | e in extents :: |e.dependents| == 4
    ensures ExtentsAt(raw, pos, extents, big) && raw[pos + 16 * |extents|..] == rest
    decreases |extents|
  {
    hide U32, PrintExtent;
    if extents == [] {
      assert [] + rest == rest;
    } else {
      var tail := extents[1..];
      Assoc(PrintExtent(extents[0], big), PrintExtents(tail, big), rest);
      ExtentReads(raw, pos, extents[0], big, PrintExtents(tail, big) + rest);
      ExtentsRead(raw, pos + 16, tail, big, rest);
      forall k | 0 <= k < |extents|
        ensures U32(raw, big, pos + 16 * k) == extents[k].attributes && U32(raw, big, pos + 16 * k + 4) == extents[k].size
        ensures U32(raw, big, pos + 16 * k + 8) == extents[k].start
      {
        if k > 0 {
          assert tail[k - 1] == extents[k] && pos + 16 + 16 * (k - 1) == pos + 16 * k;
        }
      }
    }
  }

  /** The parts of a printed index, by byte position. */
  lemma IndexReads(x: PrintedIndex)
    requires WellFormed(x)
    ensures var (data, table) := (PrintIndex(x), 14 + 12 * |x.fields|);
      && |data| == table + 16 * |x.extents| && data[..4] == Magic(x.big)
      && U32(data, x.big, 4) == 8 && U16(data, x.big, 8) == |x.fields|
      && FieldsAt(data, 10, x.fields, x.big) && ExtentsAt(data, table, x.extents, x.big)
  {
    hide *;
    var (data, n) := (PrintIndex(x), |x.fields|);
    WellFormedFits(x);
    PrintIndexIs(x);
    HeaderReads(data, x.big, n, PrintFields(x.fields, x.big) + (x.next + PrintExtents(x.extents, x.big)));
    TablesRead(data, x, n, 10 + 12 * n, 14 + 12 * n);
  }

  lemma PrintIndexIs(x: PrintedIndex)
    requires |x.fields| < 0x1_0000
    ensures var tail := PrintFields(x.fields, x.big) + (x.next + PrintExtents(x.extents, x.big));
      PrintIndex(x) == Magic(x.big) + (Put32(8, x.big) + (Put16(|x.fields|, x.big) + tail))
    ensures |Magic(x.big)| == 4
  {
    hide Put16, Put32, PrintFields, PrintExtents;
    assert |x.fields| % 0x1_0000 == |x.fields|;
  }

  lemma WellFormedFits(x: PrintedIndex)
    requires WellFormed(x)
    ensures |x.fields| < 0x1_0000 && |x.next| == 4 && forall e | e in x.extents :: |e.dependents| == 4
  {
  }

  lemma HeaderReads(data: seq<byte>, big: bool, n: u16, tail: seq<byte>)
    requires data == Magic(big) + (Put32(8, big) + (Put16(n, big) + tail)) && |Magic(big)| == 4
    ensures |data| >= 10 && data[..4] == Magic(big) && U32(data, big, 4) == 8 && U16(data, big, 8) == n && data[10..] == tail
  {
    hide *;
    assert data[0..] == data;
    Peel(data, 0, Magic(big), Put32(8, big) + (Put16(n, big) + tail));
    Peel32(data, 4, 8, big, Put16(n, big) + tail);
    Peel16(data, 8, n, big, tail);
  }

  lemma TablesRead(data: seq<byte>, x: PrintedIndex, n: nat, next: nat, table: nat)
    requires n == |x.fields| && next == 10 + 12 * n && table == next + 4
    requires |x.next| == 4 && (forall e | e in x.extents :: |e.dependents| == 4)
    requires |data| >= 10 && data[10..] == PrintFields(x.fields, x.big) + (x.next + PrintExtents(x.extents, x.big))
    ensures |data| == table + 16 * |x.extents| && FieldsAt(data, 10, x.fields, x.big) && ExtentsAt(data, table, x.extents, x.big)
  {
    hide *;
    var extents := PrintExtents(x.extents, x.big);
    FieldsRead(data, 10, x.fields, x.big, x.next + extents);
    FieldsFit(data, 10, x.fields, x.big);
    Peel(data, next, x.next, extents);
    assert extents + [] == extents;
    ExtentsRead(data, table, x.extents, x.big, []);
    ExtentsFit(data, table, x.extents, x.big);
  }

  lemma FieldsFit(raw: seq<byte>, pos: nat, fields: seq<Field>, big: bool)
    requires FieldsAt(raw, pos, fields, big)
    ensures pos + 12 * |fields| <= |raw|
  {
  }

  lemma ExtentsFit(raw: seq<byte>, pos: nat, extents: seq<Extent>, big: bool)
    requires ExtentsAt(raw, pos, extents, big)
    ensures pos + 16 * |extents| <= |raw|
  {
  }

  function DirectoryIn(x: PrintedIndex): Directory {
    Directory(PrintIndex(x), x.big, 10, |x.fields|)
  }

  /** The directory found is the printed one, and so are its fields. */
  lemma DirectoryReads(x: PrintedIndex)
    requires WellFormed(x)
    ensures var d := DirectoryIn(x);
      && DirectoryOf(PrintIndex(x)) == Some(d) && d.Fits() && d.TagsDiffer() && d.End() == 14 + 12 * |x.fields|
      && d.Has(NUMBER_OF_IMAGES, (4, 1, |x.extents|))
      && d.Has(MP_ENTRY, (7, 16 * |x.extents|, 14 + 12 * |x.fields|))
  {
    hide PrintIndex, U16, U32;
    IndexReads(x);
    var d := DirectoryIn(x);
    forall i | 0 <= i < |x.fields| ensures d.Tag(i) == x.fields[i].tag && d.Field(i) == (x.fields[i].kind, x.fields[i].count, x.fields[i].value) {
      FieldMeans(d, i);
    }
    DirectoryMeans(PrintIndex(x));
    MagicMeans(PrintIndex(x), x.big);
    var i: nat :| i < |x.fields| && x.fields[i] == Field(0xB001, 4, 1, |x.extents|);
    var j: nat :| j < |x.fields| && x.fields[j] == Field(0xB002, 7, 16 * |x.extents|, 14 + 12 * |x.fields|);
    assert d.Tag(i) == NUMBER_OF_IMAGES && d.Tag(j) == MP_ENTRY;
  }

  lemma MagicMeans(data: seq<byte>, big: bool)
    requires |data| >= 4 && data[..4] == Magic(big)
    ensures data[..4] == LITTLE_TIFF || data[..4] == BIG_TIFF
    ensures data[..2] == BIG_TIFF[..2] <==> big
  {
    assert data[..2] == data[..4][..2];
    assert LITTLE_TIFF[..2][0] != BIG_TIFF[..2][0];
  }

  /** Entry `k` of the table, and the picture it declares. */
  lemma EntryReads(x: PrintedIndex, base: nat, k: nat)
    requires WellFormed(x) && k < |x.extents|
    ensures var (d, offset, e) := (DirectoryIn(x), 14 + 12 * |x.fields|, x.extents[k]);
      && offset + 16 * (k + 1) <= |d.data|
      && (EntryOk(Entry(d, offset, k), k) <==> e.attributes / 0x100_0000 % 8 == 0 && e.size >= 4 && (k == 0 ==> e.start == 0))
      && RangeOf(Entry(d, offset, k), k, base) == if k == 0 then (0, e.size) else (base + e.start, base + e.start + e.size)
  {
    hide PrintIndex, U16, U32, EntryOk, RangeOf, Entry;
    IndexReads(x);
    var e := x.extents[k];
    EntryMeans(DirectoryIn(x), 14 + 12 * |x.fields|, k, base, e.attributes, e.size, e.start);
  }

  lemma ListsMean(x: PrintedIndex, base: nat, ranges: Ranges)
    requires WellFormed(x)
    ensures Declares(PrintIndex(x), base, ranges) <==> Declarable(x.extents) && ranges == Declared(x.extents, base)
  {
    hide PrintIndex, U16, U32, EntryOk, RangeOf, Entry, Directory.Tag, Directory.Field, Directory.Has, Directory.TagsDiffer, DirectoryOf;
    IndexReads(x);
    DirectoryReads(x);
    var (d, n, table) := (DirectoryIn(x), |x.extents|, 14 + 12 * |x.fields|);
    forall k: nat | k < n
      ensures EntryOk(Entry(d, table, k), k) <==>
        x.extents[k].attributes / 0x100_0000 % 8 == 0 && x.extents[k].size >= 4 && (k == 0 ==> x.extents[k].start == 0)
      ensures RangeOf(Entry(d, table, k), k, base) == Declared(x.extents, base)[k]
    {
      EntryReads(x, base, k);
    }
    if Declares(PrintIndex(x), base, ranges) {
      var images: nat, offset: nat :| Lists(d, base, ranges, images, offset);
      FieldIsUnique(d, NUMBER_OF_IMAGES, (4, 1, images), (4, 1, n));
      FieldIsUnique(d, MP_ENTRY, (7, 16 * images, offset), (7, 16 * n, table));
    }
    if Declarable(x.extents) && ranges == Declared(x.extents, base) {
      assert Lists(d, base, ranges, n, table);
    }
  }

  /** A printed index declares its extents, with starts counted from the TIFF header, exactly when
      they are declarable. */
  lemma IndexDeclares(x: PrintedIndex, base: nat)
    requires WellFormed(x)
    ensures RangesOf(PrintIndex(x), base) == if Declarable(x.extents) then Some(Declared(x.extents, base)) else None
  {
    hide *;
    var data := PrintIndex(x);
    forall ranges ensures Declares(data, base, ranges) <==> Declarable(x.extents) && ranges == Declared(x.extents, base) {
      ListsMean(x, base, ranges);
    }
    RangesAre(data, base, if Declarable(x.extents) then Some(Declared(x.extents, base)) else None);
  }

  lemma RangesAre(data: seq<byte>, base: nat, r: Option<Ranges>)
    requires forall ranges :: Declares(data, base, ranges) <==> r == Some(ranges)
    ensures RangesOf(data, base) == r
  {
    hide Declares;
    var found := RangesOf(data, base);
    assert found.Some? ==> (found == Some(found.value) <==> r == Some(found.value));
    assert r.Some? ==> (found == Some(r.value) <==> r == Some(r.value));
  }
}
