/** The MP Index of a multi-picture JPEG (CIPA DC-007): a small TIFF directory inside an APP2
    segment that declares where each picture of the file lies. */
module MultiPicture {
  import opened ByteCodec
  import opened Options

  /** Declared extents: first byte and the byte after the last. */
  type Ranges = seq<(nat, nat)>

  const LITTLE_TIFF: seq<byte> := [0x49, 0x49, 0x2A, 0x00]
  const BIG_TIFF: seq<byte> := [0x4D, 0x4D, 0x00, 0x2A]
  const NUMBER_OF_IMAGES := 0xB001
  const MP_ENTRY := 0xB002

  function U16(data: seq<byte>, big: bool, pos: nat): u16
    requires pos + 2 <= |data|
  {
    if big then Be16At(data, pos) else Le16At(data, pos)
  }

  function U32(data: seq<byte>, big: bool, pos: nat): u32
    requires pos + 4 <= |data|
  {
    if big then Be32At(data, pos) else Le32At(data, pos)
  }

  /** The directory: byte order, position of the first field and number of fields. */
  datatype Directory = Directory(data: seq<byte>, big: bool, first: nat, count: nat) {
    predicate Fits() {
      End() <= |data|
    }

    function End(): nat {
      first + 12 * count + 4
    }

    function Tag(i: nat): u16
      requires Fits() && i < count
    {
      U16(data, big, first + 12 * i)
    }

    /** Type, count and value of field `i`. */
    function Field(i: nat): (int, int, int)
      requires Fits() && i < count
    {
      var pos := first + 12 * i;
      (U16(data, big, pos + 2), U32(data, big, pos + 4), U32(data, big, pos + 8))
    }

    ghost predicate TagsDiffer()
      requires Fits()
    {
      forall i, j | 0 <= i < j < count :: Tag(i) != Tag(j)
    }

    /** Some field has this tag and these contents. */
    ghost predicate Has(tag: int, field: (int, int, int))
      requires Fits()
    {
      exists i: nat :: i < count && Tag(i) == tag && Field(i) == field
    }
  }

  /** The directory the TIFF header points at, when all of it lies inside `data`. */
  function DirectoryOf(data: seq<byte>): Option<Directory> {
    if |data| < 8 || (data[..4] != LITTLE_TIFF && data[..4] != BIG_TIFF) then None
    else
      var big := data[..4] == BIG_TIFF;
      var ifd := U32(data, big, 4);
      if ifd < 8 || ifd + 2 > |data| then None
      else
        var d := Directory(data, big, ifd + 2, U16(data, big, ifd));
        if d.Fits() then Some(d) else None
  }

  /** Entry `k` of the picture table at `offset`: attributes, size, relative start. */
  function Entry(d: Directory, offset: nat, k: nat): (u32, u32, u32)
    requires offset + 16 * (k + 1) <= |d.data|
  {
    var pos := offset + 16 * k;
    (U32(d.data, d.big, pos), U32(d.data, d.big, pos + 4), U32(d.data, d.big, pos + 8))
  }

  /** Baseline JPEG data (format bits zero), at least four bytes, the first picture at zero. */
  predicate EntryOk(e: (u32, u32, u32), k: nat) {
    e.0 / 0x100_0000 % 8 == 0 && e.1 >= 4 && (k == 0 ==> e.2 == 0)
  }

  function RangeOf(e: (u32, u32, u32), k: nat, base: nat): (nat, nat) {
    var start := if k == 0 then 0 else base + e.2;
    (start, start + e.1)
  }

  /** The tables of directory `d` declare exactly the pictures `ranges`: `images` of them, listed
      at `offset`; starts count from `base`. */
  ghost predicate Lists(d: Directory, base: nat, ranges: Ranges, images: nat, offset: nat) {
    && d.Fits() && d.TagsDiffer()
    && |ranges| == images >= 2
    && d.Has(NUMBER_OF_IMAGES, (4, 1, images))
    && d.Has(MP_ENTRY, (7, 16 * images, offset))
    && d.End() <= offset && offset + 16 * images <= |d.data|
    && forall k: nat | k < images ::
      EntryOk(Entry(d, offset, k), k) && ranges[k] == RangeOf(Entry(d, offset, k), k, base)
  }

  /** `data` is an MP Index declaring exactly the pictures `ranges`. */
  ghost predicate Declares(data: seq<byte>, base: nat, ranges: Ranges) {
    && DirectoryOf(data).Some?
    && exists images: nat, offset: nat :: Lists(DirectoryOf(data).value, base, ranges, images, offset)
  }

  lemma FieldIsUnique(d: Directory, tag: int, f: (int, int, int), g: (int, int, int))
    requires d.Fits() && d.TagsDiffer() && d.Has(tag, f) && d.Has(tag, g)
    ensures f == g
  {
  }

  /** An index declares at most one list of pictures. */
  lemma DeclaresOnce(data: seq<byte>, base: nat, r: Ranges, s: Ranges)
    requires Declares(data, base, r) && Declares(data, base, s)
    ensures r == s
  {
    hide U16, U32, EntryOk, RangeOf, Directory.Tag, Directory.Field, Directory.Has, Directory.TagsDiffer, DirectoryOf, Entry;
    var d := DirectoryOf(data).value;
    var i: nat, o: nat :| Lists(d, base, r, i, o);
    var j: nat, p: nat :| Lists(d, base, s, j, p);
    FieldIsUnique(d, NUMBER_OF_IMAGES, (4, 1, i), (4, 1, j));
    FieldIsUnique(d, MP_ENTRY, (7, 16 * i, o), (7, 16 * j, p));
  }

  lemma DirectoryFits(data: seq<byte>)
    requires DirectoryOf(data).Some?
    ensures DirectoryOf(data).value.Fits() && DirectoryOf(data).value.data == data
  {
  }

  /** The declared pictures, if `data` is an MP Index. */
  ghost function RangesOf(data: seq<byte>, base: nat): (r: Option<Ranges>)
    ensures forall ranges :: Declares(data, base, ranges) <==> r == Some(ranges)
  {
    hide Declares;
    if exists ranges :: Declares(data, base, ranges) then
      var ranges :| Declares(data, base, ranges);
      assert forall other | Declares(data, base, other) :: other == ranges by {
        forall other | Declares(data, base, other) ensures other == ranges {
          DeclaresOnce(data, base, ranges, other);
        }
      }
      Some(ranges)
    else None
  }

  /** Reads the tags into a table; None when a tag repeats. */
  method ReadTags(d: Directory) returns (tags: Option<map<int, (int, int, int)>>)
    requires d.Fits()
    ensures tags.None? <==> !d.TagsDiffer()
    ensures tags.Some? ==>
      forall tag, field :: (tag in tags.value && tags.value[tag] == field) <==> d.Has(tag, field)
  {
    hide U16, U32, Directory.Tag, Directory.Field;
    var table: map<int, (int, int, int)> := map[];
    var i: nat := 0;
    while i < d.count
      invariant i <= d.count
      invariant forall a, b | 0 <= a < b < i :: d.Tag(a) != d.Tag(b)
      invariant forall a: nat | a < i :: d.Tag(a) in table && table[d.Tag(a)] == d.Field(a)
      invariant forall tag | tag in table :: exists a: nat :: a < i && d.Tag(a) == tag
    {
      FieldMeans(d, i);
      var pos := d.first + 12 * i;
      var tag := U16(d.data, d.big, pos);
      if tag in table {
        return None;
      }
      table := table[tag := (U16(d.data, d.big, pos + 2), U32(d.data, d.big, pos + 4), U32(d.data, d.big, pos + 8))];
      i := i + 1;
    }
    return Some(table);
  }

  /** Finds the declared pictures, exactly when `data` is an MP Index. */
  method MpfImageRanges(data: seq<byte>, base: nat) returns (r: Option<Ranges>)
    ensures r == RangesOf(data, base)
  {
    hide U16, U32, EntryOk, RangeOf, Directory.Tag, Directory.Field, Entry, Directory.Has, Directory.TagsDiffer, DirectoryOf;
    if |data| < 8 || (data[..4] != LITTLE_TIFF && data[..4] != BIG_TIFF) {
      DirectoryMeans(data);
      NotDeclared(data, base);
      return None;
    }
    var big := data[..2] == BIG_TIFF[..2];
    var ifd: int := U32(data, big, 4);
    DirectoryMeans(data);
    if ifd < 8 || ifd + 2 > |data| {
      NotDeclared(data, base);
      return None;
    }
    var count: int := U16(data, big, ifd);
    var tableEnd := ifd + 2 + 12 * count;
    if tableEnd + 4 > |data| {
      NotDeclared(data, base);
      return None;
    }
    var d := Directory(data, big, ifd + 2, count);
    var tags := ReadTags(d);
    if tags.None? {
      assert forall s :: !Declares(data, base, s) by { NotDeclared(data, base); }
      return None;
    }
    var table := tags.value;
    if NUMBER_OF_IMAGES !in table || table[NUMBER_OF_IMAGES].0 != 4 || table[NUMBER_OF_IMAGES].1 != 1 {
      assert forall s :: !Declares(data, base, s);
      return None;
    }
    var images := table[NUMBER_OF_IMAGES].2;
    if || MP_ENTRY !in table
       || images < 2
       || table[MP_ENTRY].0 != 7
       || table[MP_ENTRY].1 != 16 * images
    {
      assert forall s :: !Declares(data, base, s);
      return None;
    }
    var offset := table[MP_ENTRY].2;
    if offset < tableEnd + 4 || offset + 16 * images > |data| {
      assert forall s :: !Declares(data, base, s);
      return None;
    }
    assert d.Has(NUMBER_OF_IMAGES, (4, 1, images)) && d.Has(MP_ENTRY, (7, 16 * images, offset));
    var ranges: Ranges := [];
    var index: nat := 0;
    while index < images
      invariant index == |ranges| <= images
      invariant forall k: nat | k < index ::
        EntryOk(Entry(d, offset, k), k) && ranges[k] == RangeOf(Entry(d, offset, k), k, base)
    {
      var pos := offset + index * 16;
      var attributes: u32, size: u32, relative: u32 := U32(data, big, pos), U32(data, big, pos + 4), U32(data, big, pos + 8);
      EntryMeans(d, offset, index, base, attributes, size, relative);
      if attributes / 0x100_0000 % 8 != 0 || size < 4 || (index == 0 && relative != 0) {
        assert forall s :: !Declares(data, base, s);
        return None;
      }
      var start := if index == 0 then 0 else base + relative;
      ranges := ranges + [(start, start + size)];
      index := index + 1;
    }
    assert Lists(d, base, ranges, images, offset);
    assert Declares(data, base, ranges);
    return Some(ranges);
  }

  lemma FieldMeans(d: Directory, i: nat)
    requires d.Fits() && i < d.count
    ensures var pos := d.first + 12 * i;
      && d.Tag(i) == U16(d.data, d.big, pos)
      && d.Field(i) == (U16(d.data, d.big, pos + 2), U32(d.data, d.big, pos + 4), U32(d.data, d.big, pos + 8))
  {
  }

  lemma EntryMeans(d: Directory, offset: nat, k: nat, base: nat, attributes: u32, size: u32, relative: u32)
    requires offset + 16 * (k + 1) <= |d.data|
    requires var pos := offset + 16 * k;
      && attributes == U32(d.data, d.big, pos) && size == U32(d.data, d.big, pos + 4) && relative == U32(d.data, d.big, pos + 8)
    ensures EntryOk(Entry(d, offset, k), k) <==> attributes / 0x100_0000 % 8 == 0 && size >= 4 && (k == 0 ==> relative == 0)
    ensures var start := if k == 0 then 0 else base + relative;
      RangeOf(Entry(d, offset, k), k, base) == (start, start + size)
  {
    hide U32;
  }

  lemma DirectoryMeans(data: seq<byte>)
    ensures |data| < 8 || (data[..4] != LITTLE_TIFF && data[..4] != BIG_TIFF) ==> DirectoryOf(data).None?
    ensures |data| >= 8 && (data[..4] == LITTLE_TIFF || data[..4] == BIG_TIFF) ==>
      var big := data[..2] == BIG_TIFF[..2];
      var ifd := U32(data, big, 4);
      if ifd < 8 || ifd + 2 > |data| then DirectoryOf(data).None?
      else
        var d := Directory(data, big, ifd + 2, U16(data, big, ifd));
        DirectoryOf(data) == if d.Fits() then Some(d) else None
  {
    hide U16, U32;
    if |data| >= 8 {
      assert data[..2] == data[..4][..2];
      assert LITTLE_TIFF[..2] != BIG_TIFF[..2] by { assert LITTLE_TIFF[..2][0] != BIG_TIFF[..2][0]; }
    }
  }

  lemma NotDeclared(data: seq<byte>, base: nat)
    requires DirectoryOf(data).None? || !DirectoryOf(data).value.TagsDiffer()
    ensures forall s :: !Declares(data, base, s)
  {
  }
}
