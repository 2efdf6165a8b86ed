/** Bytes and the fixed-width integers that the image containers are made of. */
module ByteCodec {
  type byte = x: int | 0 <= x < 256
  type u16 = x: int | 0 <= x < 0x1_0000
  type u32 = x: int | 0 <= x < 0x1_0000_0000

  /** Big-endian 16-bit value at `pos`. */
  function Be16At(raw: seq<byte>, pos: nat): u16
    requires pos + 2 <= |raw|
  {
    var hi: int, lo: int := raw[pos], raw[pos + 1];
    hi * 0x100 + lo
  }

  /** Big-endian 32-bit value at `pos`. */
  function Be32At(raw: seq<byte>, pos: nat): u32
    requires pos + 4 <= |raw|
  {
    var hi: int, lo: int := Be16At(raw, pos), Be16At(raw, pos + 2);
    hi * 0x1_0000 + lo
  }

  /** Little-endian 16-bit value at `pos`. */
  function Le16At(raw: seq<byte>, pos: nat): u16
    requires pos + 2 <= |raw|
  {
    var lo: int, hi: int := raw[pos], raw[pos + 1];
    hi * 0x100 + lo
  }

  /** Little-endian 32-bit value at `pos`. */
  function Le32At(raw: seq<byte>, pos: nat): u32
    requires pos + 4 <= |raw|
  {
    var lo: int, hi: int := Le16At(raw, pos), Le16At(raw, pos + 2);
    hi * 0x1_0000 + lo
  }

  /** The low 16 bits, most significant byte first. */
  function PutBe16(n: nat): (s: seq<byte>)
    ensures |s| == 2 && (n < 0x1_0000 ==> Be16At(s, 0) == n)
  {
    [n / 0x100 % 0x100, n % 0x100]
  }

  /** The low 32 bits, most significant byte first. */
  function PutBe32(n: nat): (s: seq<byte>)
    ensures |s| == 4 && (n < 0x1_0000_0000 ==> Be32At(s, 0) == n)
  {
    var hi, lo := PutBe16(n / 0x1_0000), PutBe16(n % 0x1_0000);
    assert (hi + lo)[0] == hi[0] && (hi + lo)[1] == hi[1] && (hi + lo)[2] == lo[0] && (hi + lo)[3] == lo[1];
    hi + lo
  }

  /** The low 16 bits, least significant byte first. */
  function PutLe16(n: nat): (s: seq<byte>)
    ensures |s| == 2 && (n < 0x1_0000 ==> Le16At(s, 0) == n)
  {
    [n % 0x100, n / 0x100 % 0x100]
  }

  /** The low 32 bits, least significant byte first. */
  function PutLe32(n: nat): (s: seq<byte>)
    ensures |s| == 4 && (n < 0x1_0000_0000 ==> Le32At(s, 0) == n)
  {
    var lo, hi := PutLe16(n % 0x1_0000), PutLe16(n / 0x1_0000);
    assert (lo + hi)[0] == lo[0] && (lo + hi)[1] == lo[1] && (lo + hi)[2] == hi[0] && (lo + hi)[3] == hi[1];
    lo + hi
  }

  /** The two bytes at `pos` are the only ones that read as their value. */
  lemma Be16Exact(raw: seq<byte>, pos: nat)
    requires pos + 2 <= |raw|
    ensures raw[pos..pos + 2] == PutBe16(Be16At(raw, pos))
  {
  }

  lemma Le16Exact(raw: seq<byte>, pos: nat)
    requires pos + 2 <= |raw|
    ensures raw[pos..pos + 2] == PutLe16(Le16At(raw, pos))
  {
  }

  /** The four bytes at `pos` are the only ones that read as their value. */
  lemma Be32Exact(raw: seq<byte>, pos: nat)
    requires pos + 4 <= |raw|
    ensures raw[pos..pos + 4] == PutBe32(Be32At(raw, pos))
  {
    hide PutBe16, Be16At;
    Be16Exact(raw, pos);
    Be16Exact(raw, pos + 2);
    assert raw[pos..pos + 4] == raw[pos..pos + 2] + raw[pos + 2..pos + 4];
  }

  lemma Le32Exact(raw: seq<byte>, pos: nat)
    requires pos + 4 <= |raw|
    ensures raw[pos..pos + 4] == PutLe32(Le32At(raw, pos))
  {
    hide PutLe16, Le16At;
    Le16Exact(raw, pos);
    Le16Exact(raw, pos + 2);
    assert raw[pos..pos + 4] == raw[pos..pos + 2] + raw[pos + 2..pos + 4];
  }

  lemma Assoc(a: seq<byte>, b: seq<byte>, c: seq<byte>)
    ensures (a + b) + c == a + (b + c)
  {
  }

  lemma Cut(raw: seq<byte>, pos: nat, end: nat)
    requires pos <= end <= |raw|
    ensures raw[pos..] == raw[pos..end] + raw[end..]
  {
  }

  /** Cutting off the bytes up to `end` and what is printed of the following ones. */
  lemma CutAt(raw: seq<byte>, pos: nat, end: nat, inner: seq<byte>)
    requires pos <= end && end + |inner| <= |raw| && raw[end..end + |inner|] == inner
    ensures raw[pos..] == (raw[pos..end] + inner) + raw[end + |inner|..]
    ensures raw[pos..end + |inner|] == raw[pos..end] + inner
  {
  }

  /** If the bytes from `pos` on begin with `s`, then `s` is the slice there and the rest follows. */
  lemma Peel(raw: seq<byte>, pos: nat, s: seq<byte>, rest: seq<byte>)
    requires pos <= |raw| && raw[pos..] == s + rest
    ensures pos + |s| <= |raw| && raw[pos..pos + |s|] == s && raw[pos + |s|..] == rest
  {
    assert raw[pos..pos + |s|] == raw[pos..][..|s|];
    assert raw[pos + |s|..] == raw[pos..][|s|..];
  }

  /** The same inside a longer print. */
  lemma PeelIn(raw: seq<byte>, pos: nat, s: seq<byte>, inner: seq<byte>, rest: seq<byte>)
    requires pos <= |raw| && raw[pos..] == (s + inner) + rest
    ensures raw[pos..] == s + (inner + rest)
    ensures pos + |s| <= |raw| && raw[pos..pos + |s|] == s && raw[pos + |s|..] == inner + rest
  {
    Assoc(s, inner, rest);
    Peel(raw, pos, s, inner + rest);
  }

  /** The same for one byte. */
  lemma PeelByte(raw: seq<byte>, pos: nat, b: byte, rest: seq<byte>)
    requires pos <= |raw| && raw[pos..] == [b] + rest
    ensures pos < |raw| && raw[pos] == b && raw[pos + 1..] == rest
  {
    Peel(raw, pos, [b], rest);
    assert raw[pos] == raw[pos..pos + 1][0];
  }

  /** The same, for a printed number: it reads back. */
  lemma PeelBe32(raw: seq<byte>, pos: nat, n: u32, rest: seq<byte>)
    requires pos <= |raw| && raw[pos..] == PutBe32(n) + rest
    ensures pos + 4 <= |raw| && Be32At(raw, pos) == n && raw[pos + 4..] == rest
  {
    hide PutBe32;
    Peel(raw, pos, PutBe32(n), rest);
    var s := raw[pos..pos + 4];
    assert s[0] == raw[pos] && s[1] == raw[pos + 1] && s[2] == raw[pos + 2] && s[3] == raw[pos + 3];
    assert Be32At(s, 0) == n;
  }

  lemma PeelLe32(raw: seq<byte>, pos: nat, n: u32, rest: seq<byte>)
    requires pos <= |raw| && raw[pos..] == PutLe32(n) + rest
    ensures pos + 4 <= |raw| && Le32At(raw, pos) == n && raw[pos + 4..] == rest
  {
    hide PutLe32;
    Peel(raw, pos, PutLe32(n), rest);
    var s := raw[pos..pos + 4];
    assert s[0] == raw[pos] && s[1] == raw[pos + 1] && s[2] == raw[pos + 2] && s[3] == raw[pos + 3];
    assert Le32At(s, 0) == n;
  }

  lemma PeelBe16(raw: seq<byte>, pos: nat, n: u16, rest: seq<byte>)
    requires pos <= |raw| && raw[pos..] == PutBe16(n) + rest
    ensures pos + 2 <= |raw| && Be16At(raw, pos) == n && raw[pos + 2..] == rest
  {
    hide PutBe16;
    Peel(raw, pos, PutBe16(n), rest);
    var s := raw[pos..pos + 2];
    assert s[0] == raw[pos] && s[1] == raw[pos + 1];
    assert Be16At(s, 0) == n;
  }

  lemma PeelLe16(raw: seq<byte>, pos: nat, n: u16, rest: seq<byte>)
    requires pos <= |raw| && raw[pos..] == PutLe16(n) + rest
    ensures pos + 2 <= |raw| && Le16At(raw, pos) == n && raw[pos + 2..] == rest
  {
    hide PutLe16;
    Peel(raw, pos, PutLe16(n), rest);
    var s := raw[pos..pos + 2];
    assert s[0] == raw[pos] && s[1] == raw[pos + 1];
    assert Le16At(s, 0) == n;
  }
}
