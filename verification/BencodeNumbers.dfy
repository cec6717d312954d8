/** The small readers under the bencode parser, each against what Python documents: which bytes `int` takes for
    which number, where `index` finds a byte, and what becomes of a dictionary key.
 */
module BencodeNumbers {
  import opened Bencode
  import opened Common
  import Utf8

  // ----- digits -----

  /** Digits, single underscores allowed between them. */
  predicate Grouped(s: seq<Byte>, lo: nat, hi: nat)
    requires hi <= |s|
  {
    && lo < hi && IsDigit(s[lo]) && IsDigit(s[hi-1])
    && forall i :: lo < i < hi - 1 ==> IsDigit(s[i]) || Separates(s, i)
  }

  predicate Separates(s: seq<Byte>, i: nat)
    requires 0 < i < |s| - 1
  {
    s[i] == UNDERSCORE && IsDigit(s[i-1]) && IsDigit(s[i+1])
  }

  /** The number the digits stand for, underscores passed over. */
  function Value(s: seq<Byte>, lo: nat, hi: nat): int
    requires hi <= |s|
  {
    if lo >= hi then 0
    else if s[hi-1] == UNDERSCORE then Value(s, lo, hi - 1)
    else 10 * Value(s, lo, hi - 1) + s[hi-1] as int - 48
  }

  lemma ShorterGroup(s: seq<Byte>, lo: nat, hi: nat)
    requires lo + 1 < hi <= |s|
    ensures Grouped(s, lo, hi) <==>
            && IsDigit(s[hi-1])
            && (if s[hi-2] == UNDERSCORE then Grouped(s, lo, hi - 2) else Grouped(s, lo, hi - 1))
  {
    var shorter := if s[hi-2] == UNDERSCORE then hi - 2 else hi - 1;
    if Grouped(s, lo, hi) {
      assert hi - 2 > lo ==> IsDigit(s[hi-2]) || Separates(s, hi - 2);
      assert Grouped(s, lo, shorter);
    }
    if IsDigit(s[hi-1]) && Grouped(s, lo, shorter) {
      forall i | lo < i < hi - 1 ensures IsDigit(s[i]) || Separates(s, i) {
        if i < shorter - 1 {
          assert IsDigit(s[i]) || Separates(s, i);
        }
      }
    }
  }

  lemma {:induction false} DigitsIff(s: seq<Byte>, lo: nat, hi: nat)
    requires lo <= hi <= |s|
    ensures ParseDigits(s, lo, hi).Some? <==> Grouped(s, lo, hi)
    ensures ParseDigits(s, lo, hi).Some? ==> ParseDigits(s, lo, hi).value == Value(s, lo, hi)
    decreases hi
  {
    if lo + 1 < hi && IsDigit(s[hi-1]) {
      ShorterGroup(s, lo, hi);
      DigitsIff(s, lo, if s[hi-2] == UNDERSCORE then hi - 2 else hi - 1);
      assert s[hi-2] == UNDERSCORE ==> Value(s, lo, hi - 1) == Value(s, lo, hi - 2);
    } else if lo + 1 == hi {
      assert Value(s, lo, lo) == 0;
    }
  }

  // ----- numbers -----

  predicate AllSpace(s: seq<Byte>, lo: nat, hi: nat)
    requires hi <= |s|
  {
    forall i :: lo <= i < hi ==> s[i] in {9, 10, 11, 12, 13, 32}
  }

  /** White space, a sign or none, grouped digits, white space. */
  predicate Spells(s: seq<Byte>, lo: nat, hi: nat, front: nat, first: nat, back: nat)
    requires hi <= |s|
  {
    && lo <= front <= first < back <= hi
    && AllSpace(s, lo, front) && AllSpace(s, back, hi)
    && (first == front || (first == front + 1 && (s[front] == MINUS || s[front] == PLUS)))
    && Grouped(s, first, back)
  }

  function Signed(s: seq<Byte>, front: nat, first: nat, back: nat): int
    requires front < |s| && back <= |s|
  {
    if s[front] == MINUS then -Value(s, first, back) else Value(s, first, back)
  }

  lemma {:induction false} SkipsTo(s: seq<Byte>, lo: nat, hi: nat, front: nat)
    requires lo <= front < hi <= |s| && AllSpace(s, lo, front) && !IsSpace(s[front])
    ensures SkipSpaces(s, lo, hi) == front
    decreases front - lo
  {
    if lo < front {
      SkipsTo(s, lo + 1, hi, front);
    }
  }

  lemma {:induction false} SkipsSpaces(s: seq<Byte>, lo: nat, hi: nat)
    requires lo <= hi <= |s|
    ensures AllSpace(s, lo, SkipSpaces(s, lo, hi))
    decreases hi - lo
  {
    if lo < hi && IsSpace(s[lo]) {
      SkipsSpaces(s, lo + 1, hi);
    }
  }

  lemma {:induction false} TrimsTo(s: seq<Byte>, lo: nat, hi: nat, back: nat)
    requires lo < back <= hi <= |s| && AllSpace(s, back, hi) && !IsSpace(s[back-1])
    ensures TrimSpaces(s, lo, hi) == back
    decreases hi
  {
    if back < hi {
      TrimsTo(s, lo, hi - 1, back);
    }
  }

  lemma {:induction false} TrimsSpaces(s: seq<Byte>, lo: nat, hi: nat)
    requires lo <= hi <= |s|
    ensures AllSpace(s, TrimSpaces(s, lo, hi), hi)
    decreases hi
  {
    if lo < hi && IsSpace(s[hi-1]) {
      TrimsSpaces(s, lo, hi - 1);
    }
  }

  lemma SpelledIsParsed(s: seq<Byte>, lo: nat, hi: nat, front: nat, first: nat, back: nat)
    requires lo <= hi <= |s| && Spells(s, lo, hi, front, first, back)
    ensures ParseInt(s, lo, hi) == Some(Signed(s, front, first, back))
  {
    SkipsTo(s, lo, hi, front);
    TrimsTo(s, front, hi, back);
    DigitsIff(s, first, back);
  }

  lemma ParsedIsSpelled(s: seq<Byte>, lo: nat, hi: nat) returns (front: nat, first: nat, back: nat)
    requires lo <= hi <= |s| && ParseInt(s, lo, hi).Some?
    ensures Spells(s, lo, hi, front, first, back)
  {
    front := SkipSpaces(s, lo, hi);
    back := TrimSpaces(s, front, hi);
    SkipsSpaces(s, lo, hi);
    TrimsSpaces(s, front, hi);
    first := if s[front] == MINUS || s[front] == PLUS then front + 1 else front;
    DigitsIff(s, first, back);
  }

  /** A slice is an integer exactly when it is white space, a sign or none, digits with single underscores between
      them, and white space; and it is the integer the digits and the sign stand for. */
  lemma ParseIntIff(s: seq<Byte>, lo: nat, hi: nat, n: int)
    requires lo <= hi <= |s|
    ensures ParseInt(s, lo, hi) == Some(n) <==>
            exists front, first, back :: Spells(s, lo, hi, front, first, back) && n == Signed(s, front, first, back)
  {
    if front, first, back :| Spells(s, lo, hi, front, first, back) && n == Signed(s, front, first, back) {
      SpelledIsParsed(s, lo, hi, front, first, back);
    }
    if ParseInt(s, lo, hi) == Some(n) {
      var front, first, back := ParsedIsSpelled(s, lo, hi);
      SpelledIsParsed(s, lo, hi, front, first, back);
    }
  }

  // ----- searching, and keys -----

  /** The byte is found exactly where it stands first. */
  lemma {:induction false} FindIff(data: seq<Byte>, b: Byte, start: nat, i: nat)
    ensures Find(data, b, start) == Some(i) <==>
            start <= i < |data| && data[i] == b && forall j :: start <= j < i ==> data[j] != b
    decreases |data| - start
  {
    if start < |data| && data[start] != b {
      FindIff(data, b, start + 1, i);
    }
  }

  /** Bytes become a key exactly when they are the UTF-8 form of a text, numbers stay what they are, and nothing else
      is a key. */
  lemma KeyIff(p: Parsed, k: Key)
    ensures ToKey(p) == Some(k) <==>
            match k
            case TextKey(text) => p == Raw(Utf8.Encode(text))
            case IntKey(n) => p == Number(n)
    ensures ToKey(p).None? <==> p.Mapping? || p.Items? || (p.Raw? && forall t :: Utf8.Encode(t) != p.bytes)
  {
    if p.Raw? && Utf8.Decode(p.bytes).Some? {
      Utf8.DecodeIsStrict(p.bytes);
    }
    forall t ensures Utf8.Decode(Utf8.Encode(t)) == Some(t) {
      Utf8.RoundTrip(t);
    }
  }
}
