/** Big-endian integers in byte strings, as they are written to the wire. */
module WireBytes {
  import opened ByteStrings
  import opened Common

  function Be16(n: nat): (s: seq<Byte>)
    requires n < 0x1_0000
    ensures |s| == 2
  {
    [n / 256, n % 256]
  }

  /** The low three bytes: anything above them is dropped. */
  function Low24(n: nat): (s: seq<Byte>)
    ensures |s| == 3
  {
    [n / 0x1_0000 % 256] + Be16(n % 0x1_0000)
  }

  function Be32(n: U32): (s: seq<Byte>)
    ensures |s| == 4
  {
    [n / 0x100_0000] + Low24(n)
  }

  function Read16(s: seq<Byte>, at: nat): (n: nat)
    requires at + 2 <= |s|
    ensures n < 0x1_0000
  {
    var high: int, low: int := s[at], s[at + 1];
    256 * high + low
  }

  function Read24(s: seq<Byte>, at: nat): (n: nat)
    requires at + 3 <= |s|
    ensures n < 0x100_0000
  {
    var high: int := s[at];
    0x1_0000 * high + Read16(s, at + 1)
  }

  function Read32(s: seq<Byte>, at: nat): (n: U32)
    requires at + 4 <= |s|
  {
    var high: int := s[at];
    0x100_0000 * high + Read24(s, at + 1)
  }

  lemma Read16Back(data: seq<Byte>, at: nat, n: nat)
    requires n < 0x1_0000 && Holds(data, at, Be16(n))
    ensures Read16(data, at) == n
  {
    assert data[at + 0] == Be16(n)[0] && data[at + 1] == Be16(n)[1];
  }

  lemma Digits24(n: nat, words: nat)
    requires words == n / 0x1_0000
    ensures n % 0x100_0000 == 0x1_0000 * (words % 256) + n % 0x1_0000
  {
    var low := 0x1_0000 * (words % 256) + n % 0x1_0000;
    assert n == 0x100_0000 * (words / 256) + low;
    Remainder(n, words / 256, low);
  }

  lemma Remainder(n: nat, high: nat, low: nat)
    requires n == 0x100_0000 * high + low && low < 0x100_0000
    ensures n % 0x100_0000 == low
  {
  }

  /** A 24-bit field gives its number back up to what was dropped. */
  lemma Read24Back(data: seq<Byte>, at: nat, n: nat)
    requires Holds(data, at, Low24(n))
    ensures Read24(data, at) == n % 0x100_0000
  {
    HoldsSplit(data, at, [n / 0x1_0000 % 256], Be16(n % 0x1_0000));
    HoldsOne(data, at, n / 0x1_0000 % 256);
    Read16Back(data, at + 1, n % 0x1_0000);
    Digits24(n, n / 0x1_0000);
  }

  lemma Read32Back(data: seq<Byte>, at: nat, n: U32)
    requires Holds(data, at, Be32(n))
    ensures Read32(data, at) == n
  {
    HoldsSplit(data, at, [n / 0x100_0000], Low24(n));
    HoldsOne(data, at, n / 0x100_0000);
    Read24Back(data, at + 1, n);
  }

  /** The top byte of a 32-bit integer cut off leaves the low three. */
  lemma DropTopByte(n: U32)
    ensures Be32(n)[1..] == Low24(n)
  {
  }

  /** Network order: the most significant byte goes first. */
  lemma NetworkOrder()
    ensures Be16(0x0102) == [1, 2] && Low24(0x01_0203) == [1, 2, 3] && Be32(0x0102_0304) == [1, 2, 3, 4]
    ensures Read16([1, 2], 0) == 0x0102 && Read24([1, 2, 3], 0) == 0x01_0203 && Read32([1, 2, 3, 4], 0) == 0x0102_0304
  {
  }
}
