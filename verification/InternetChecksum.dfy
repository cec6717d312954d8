/**
 * The Internet checksum of the capture generators: a word sum folded twice,
 * against the ones'-complement sum with end-around carry of section 1 of
 * RFC 1071.
 */
module InternetChecksum {
  import opened Common
  import opened WireBytes

  /** An odd last byte is the high half of a word. */
  function LoneByte(b: Byte): nat {
    var n: int := b;
    256 * n
  }

  /** The sum of the big-endian 16-bit words, an odd last byte padded with zero. */
  function WordSum(data: seq<Byte>): nat {
    if data == [] then 0
    else if |data| == 1 then LoneByte(data[0])
    else Read16(data, 0) + WordSum(data[2..])
  }

  /** Two folds of the carries, then the low 16 bits complemented. */
  function Complement(sum: nat): (r: nat)
    ensures r <= 65535
  {
    var once := sum / 0x1_0000 + sum % 0x1_0000;
    var twice := once + once / 0x1_0000;
    65535 - twice % 0x1_0000
  }

  function Checksum(data: seq<Byte>): (r: nat)
    ensures r <= 65535
  {
    Complement(WordSum(data))
  }

  // ----- the reference -----

  /** 16-bit addition whose carry out comes back in at the bottom. */
  function OnesAdd(a: nat, b: nat): nat {
    if a + b > 65535 then a + b - 65535 else a + b
  }

  /** The ones'-complement sum, one word at a time, an odd last byte with a zero byte behind it. */
  function OnesSum(data: seq<Byte>): nat {
    if data == [] then 0
    else if |data| == 1 then Read16(data + [0], 0)
    else OnesAdd(Read16(data, 0), OnesSum(data[2..]))
  }

  /** The end-around sum is the word sum modulo 65535, and zero only for all-zero data. */
  lemma {:induction false} OnesSumIsTheResidue(data: seq<Byte>)
    ensures OnesSum(data) <= 65535
    ensures OnesSum(data) % 65535 == WordSum(data) % 65535
    ensures OnesSum(data) == 0 <==> WordSum(data) == 0
  {
    if |data| >= 2 {
      OnesSumIsTheResidue(data[2..]);
      SameResidue(Read16(data, 0), OnesSum(data[2..]), WordSum(data[2..]));
    }
  }

  lemma SameResidue(word: nat, a: nat, b: nat)
    requires a % 65535 == b % 65535
    ensures (word + a) % 65535 == (word + b) % 65535
    ensures word + a > 65535 ==> (word + a - 65535) % 65535 == (word + b) % 65535
  {
  }

  lemma {:induction false} WordSumBound(data: seq<Byte>)
    ensures 2 * WordSum(data) <= 65535 * (|data| + 1)
    ensures |data| % 2 == 0 ==> 2 * WordSum(data) <= 65535 * |data|
  {
    if |data| >= 2 {
      WordSumBound(data[2..]);
    }
  }

  /** The sum of up to 65538 words is below the first one that two folds get wrong. */
  lemma LongestSum(data: seq<Byte>)
    requires |data| <= 131076
    ensures WordSum(data) < 0x1_0000_FFFF
  {
    WordSumBound(data);
  }

  /** Two folds are right exactly when no third carry is left; the smallest sum that leaves one is 0x1_0000_FFFF. */
  lemma {:induction false} TwoFoldsIff(sum: nat, ones: nat)
    requires sum < 0x1_0000_0000_0000
    requires ones <= 65535 && ones % 65535 == sum % 65535 && (ones == 0 <==> sum == 0)
    ensures
      var once := sum / 0x1_0000 + sum % 0x1_0000;
      Complement(sum) == 65535 - ones <==> once / 0x1_0000 + once % 0x1_0000 < 0x1_0000
    ensures sum < 0x1_0000_FFFF ==> Complement(sum) == 65535 - ones
    ensures sum == 0x1_0000_FFFF ==> Complement(sum) != 65535 - ones
  {
    var once := sum / 0x1_0000 + sum % 0x1_0000;
    var carry, low := once / 0x1_0000, once % 0x1_0000;
    assert sum == 65535 * (sum / 0x1_0000) + once && once == 65535 * carry + (carry + low);
    Shifted(sum, sum / 0x1_0000 + carry, carry + low);
    LastFold(carry, low, ones);
    assert once + once / 0x1_0000 == 0x1_0000 * carry + (low + carry);
  }

  lemma Shifted(sum: nat, multiple: nat, rest: nat)
    requires sum == 65535 * multiple + rest
    ensures sum % 65535 == rest % 65535
  {
  }

  lemma LastFold(carry: nat, low: nat, ones: nat)
    requires carry <= 0x1_0000 && low < 0x1_0000 && ones <= 65535
    requires ones % 65535 == (carry + low) % 65535 && (ones == 0 <==> carry + low == 0)
    ensures (0x1_0000 * carry + (low + carry)) % 0x1_0000 == ones <==> carry + low < 0x1_0000
  {
    var rest := carry + low;
    assert (0x1_0000 * carry + rest) % 0x1_0000 == rest % 0x1_0000;
  }

  /** The folded sum is the ones'-complement sum, on everything a datagram can hold. */
  lemma ChecksumIsOnesComplement(data: seq<Byte>)
    requires |data| <= 131076
    ensures Checksum(data) == 65535 - OnesSum(data)
  {
    OnesSumIsTheResidue(data);
    LongestSum(data);
    TwoFoldsIff(WordSum(data), OnesSum(data));
  }

  /** A receiver's recomputation gives zero exactly on a positive multiple of 65535. */
  lemma {:induction false} VerifiesIff(data: seq<Byte>)
    requires |data| <= 131076
    ensures Checksum(data) == 0 <==> WordSum(data) > 0 && WordSum(data) % 65535 == 0
  {
    ChecksumIsOnesComplement(data);
    OnesSumIsTheResidue(data);
  }

  // ----- a checksum field inside the data -----

  lemma {:induction false} WordSumConcat(a: seq<Byte>, b: seq<Byte>)
    requires |a| % 2 == 0
    ensures WordSum(a + b) == WordSum(a) + WordSum(b)
  {
    if a == [] {
      assert a + b == b;
    } else {
      WordSumConcat(a[2..], b);
      assert (a + b)[2..] == a[2..] + b;
    }
  }

  lemma WordSumOfWord(word: nat)
    requires word < 0x1_0000
    ensures WordSum(Be16(word)) == word
  {
  }

  /** `data` with the two bytes at `at` overwritten. */
  function Patch(data: seq<Byte>, at: nat, word: nat): (r: seq<Byte>)
    requires at + 2 <= |data| && word < 0x1_0000
    ensures |r| == |data|
  {
    data[..at] + Be16(word) + data[at + 2..]
  }

  lemma FieldInPlace(data: seq<Byte>, at: nat)
    requires at + 2 <= |data|
    ensures data == data[..at] + Be16(Read16(data, at)) + data[at + 2..]
  {
    assert Be16(Read16(data, at)) == data[at..at + 2];
  }

  lemma PatchedSum(data: seq<Byte>, at: nat, word: nat)
    requires at + 2 <= |data| && at % 2 == 0 && word < 0x1_0000
    ensures WordSum(Patch(data, at, word)) + Read16(data, at) == WordSum(data) + word
  {
    var front, rest, was := data[..at], data[at + 2..], Read16(data, at);
    FieldInPlace(data, at);
    ThreeParts(front, was, rest);
    ThreeParts(front, word, rest);
  }

  lemma ThreeParts(front: seq<Byte>, word: nat, rest: seq<Byte>)
    requires |front| % 2 == 0 && word < 0x1_0000
    ensures WordSum(front + Be16(word) + rest) == WordSum(front) + word + WordSum(rest)
  {
    WordSumConcat(front + Be16(word), rest);
    WordSumConcat(front, Be16(word));
    WordSumOfWord(word);
  }

  /**
   * Over a zeroed field at an even offset, exactly one value verifies, the
   * checksum itself; when that is zero, 65535 verifies as well, which is what
   * lets UDP write it instead.
   */
  lemma FieldVerifiesIff(data: seq<Byte>, at: nat, word: nat)
    requires at + 2 <= |data| <= 131076 && at % 2 == 0 && word < 0x1_0000
    requires Read16(data, at) == 0
    ensures Checksum(Patch(data, at, word)) == 0
      <==> word == Checksum(data) || (Checksum(data) == 0 && word == 65535)
  {
    PatchedSum(data, at, word);
    VerifiesIff(Patch(data, at, word));
    ChecksumIsOnesComplement(data);
    OnesSumIsTheResidue(data);
    FieldArithmetic(WordSum(data), OnesSum(data), word);
  }

  lemma FieldArithmetic(sum: nat, ones: nat, word: nat)
    requires ones <= 65535 && ones % 65535 == sum % 65535 && (ones == 0 <==> sum == 0) && word < 0x1_0000
    ensures sum + word > 0 && (sum + word) % 65535 == 0
      <==> word == 65535 - ones || (ones == 65535 && word == 65535)
  {
    SameResidue(word, ones, sum);
    var total := ones + word;
    assert total % 65535 == (sum + word) % 65535;
    assert total == 0 || total == 65535 || total == 131070 <==> total % 65535 == 0;
  }

  /** One is 0 and the other 65535. */
  predicate ZeroSwap(a: nat, b: nat) {
    (a == 0 && b == 65535) || (a == 65535 && b == 0)
  }

  /**
   * What one damaged word does to data that verifies: it is noticed unless the
   * word changed between the two spellings of zero.
   */
  lemma DamagedWordIsNoticedIff(data: seq<Byte>, at: nat, word: nat)
    requires at + 2 <= |data| <= 131076 && at % 2 == 0 && word < 0x1_0000
    requires Checksum(data) == 0 && word != Read16(data, at)
    ensures Checksum(Patch(data, at, word)) == 0
      <==> ZeroSwap(word, Read16(data, at)) && WordSum(Patch(data, at, word)) > 0
  {
    var old16 := Read16(data, at);
    PatchedSum(data, at, word);
    VerifiesIff(data);
    VerifiesIff(Patch(data, at, word));
    TwoSpellingsOfZero(WordSum(data), WordSum(Patch(data, at, word)), old16, word);
  }

  lemma TwoSpellingsOfZero(sum: nat, patched: nat, was: nat, word: nat)
    requires sum % 65535 == 0 && patched + was == sum + word && was != word && was < 0x1_0000 && word < 0x1_0000
    ensures patched % 65535 == 0 <==> ZeroSwap(word, was)
  {
    var k, d: int := sum / 65535, word - was;
    assert patched == 65535 * k + d;
    assert d == 65535 || d == -65535 <==> ZeroSwap(word, was);
    assert patched % 65535 == d % 65535;
  }

  // ----- the loop form -----

  lemma OneMoreWord(header: seq<Byte>, i: nat)
    requires i + 2 <= |header| && i % 2 == 0
    ensures WordSum(header[..i + 2]) == WordSum(header[..i]) + Read16(header, i)
  {
    var front := header[..i + 2];
    FieldInPlace(front, i);
    assert front[..i] == header[..i] && front[i + 2..] == [];
    ThreeParts(header[..i], Read16(header, i), []);
  }

  /** Summing by index, two bytes a turn; an odd length runs off the end. */
  method SumWords(header: seq<Byte>) returns (r: Option<nat>)
    ensures r == if |header| % 2 == 0 then Some(WordSum(header)) else None
  {
    var total: nat, i: nat := 0, 0;
    while i < |header|
      invariant i <= |header| && i % 2 == 0
      invariant total == WordSum(header[..i])
    {
      if i + 1 >= |header| {
        return None;
      }
      OneMoreWord(header, i);
      total := total + Read16(header, i);
      i := i + 2;
    }
    assert header[..i] == header;
    r := Some(total);
  }

  /** The loop form computes the same checksum, on every header of even length. */
  method IpChecksum(header: seq<Byte>) returns (r: Option<nat>)
    ensures r == if |header| % 2 == 0 then Some(Checksum(header)) else None
  {
    var sum := SumWords(header);
    if sum.None? {
      return None;
    }
    var total := sum.value / 0x1_0000 + sum.value % 0x1_0000;
    total := total + total / 0x1_0000;
    r := Some(65535 - total % 0x1_0000);
  }
}
