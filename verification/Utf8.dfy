/** UTF-8, as text is turned into bytes and strictly back, and the order it keeps. */
module Utf8 {
  import opened Common

  // ----- one scalar value -----

  function EncodeChar(c: char): (r: seq<Byte>)
    ensures 1 <= |r| <= 4
  {
    var n := c as int;
    if n < 0x80 then [n]
    else if n < 0x800 then [0xC0 + n / 64, 0x80 + n % 64]
    else if n < 0x1_0000 then [0xE0 + n / 64 / 64, 0x80 + n / 64 % 64, 0x80 + n % 64]
    else [0xF0 + n / 64 / 64 / 64, 0x80 + n / 64 / 64 % 64, 0x80 + n / 64 % 64, 0x80 + n % 64]
  }

  predicate Continuation(b: Byte) {
    0x80 <= b < 0xC0
  }

  function Low(b: Byte): int
    requires Continuation(b)
  {
    b - 0x80
  }

  predicate IsScalar(n: int) {
    0 <= n < 0xD800 || 0xE000 <= n < 0x11_0000
  }

  /** The scalar value at the front of `bytes` and how many bytes it takes; overlong forms,
      surrogates and values past the last plane are refused. */
  function DecodeChar(bytes: seq<Byte>): (r: Option<(char, nat)>)
    ensures r.Some? ==> 1 <= r.value.1 <= |bytes|
  {
    if |bytes| == 0 then None
    else
      var b: int := bytes[0];
      if b < 0x80 then Some((b as char, 1))
      else if 0xC2 <= b < 0xE0 && |bytes| >= 2 && Continuation(bytes[1]) then
        var n := (b - 0xC0) * 64 + Low(bytes[1]);
        Some((n as char, 2))
      else if 0xE0 <= b < 0xF0 && |bytes| >= 3 && Continuation(bytes[1]) && Continuation(bytes[2]) then
        var n := ((b - 0xE0) * 64 + Low(bytes[1])) * 64 + Low(bytes[2]);
        if n >= 0x800 && IsScalar(n) then Some((n as char, 3)) else None
      else if 0xF0 <= b < 0xF5 && |bytes| >= 4 && Continuation(bytes[1]) && Continuation(bytes[2]) &&
          Continuation(bytes[3]) then
        var n := (((b - 0xF0) * 64 + Low(bytes[1])) * 64 + Low(bytes[2])) * 64 + Low(bytes[3]);
        if n >= 0x1_0000 && IsScalar(n) then Some((n as char, 4)) else None
      else None
  }

  lemma CharRoundTrip(c: char, rest: seq<Byte>)
    ensures DecodeChar(EncodeChar(c) + rest) == Some((c, |EncodeChar(c)|))
  {
  }

  /** Splitting off the last base-64 digit. */
  lemma LastDigit(high: int, low: int)
    requires 0 <= low < 64
    ensures (high * 64 + low) / 64 == high && (high * 64 + low) % 64 == low
  {
  }

  lemma CharStrict4(bytes: seq<Byte>)
    requires DecodeChar(bytes).Some? && DecodeChar(bytes).value.1 == 4
    ensures EncodeChar(DecodeChar(bytes).value.0) == bytes[..4]
  {
    var high := (bytes[0] as int - 0xF0) * 64 + Low(bytes[1]);
    LastDigit(bytes[0] - 0xF0, Low(bytes[1]));
    LastDigit(high, Low(bytes[2]));
    LastDigit(high * 64 + Low(bytes[2]), Low(bytes[3]));
  }

  lemma CharStrict(bytes: seq<Byte>)
    requires DecodeChar(bytes).Some?
    ensures var (c, n) := DecodeChar(bytes).value; EncodeChar(c) == bytes[..n]
  {
    var n := DecodeChar(bytes).value.1;
    if n == 2 {
      LastDigit(bytes[0] - 0xC0, Low(bytes[1]));
    } else if n == 3 {
      LastDigit(bytes[0] - 0xE0, Low(bytes[1]));
      LastDigit((bytes[0] as int - 0xE0) * 64 + Low(bytes[1]), Low(bytes[2]));
    } else if n == 4 {
      CharStrict4(bytes);
    }
  }

  // ----- text -----

  function Encode(s: string): (r: seq<Byte>) {
    if s == "" then [] else EncodeChar(s[0]) + Encode(s[1..])
  }

  function Decode(bytes: seq<Byte>): (r: Option<string>)
    decreases |bytes|
  {
    if bytes == [] then Some("")
    else
      match DecodeChar(bytes)
      case None => None
      case Some((c, n)) =>
        match Decode(bytes[n..])
        case None => None
        case Some(rest) => Some([c] + rest)
  }

  /** Decoding undoes encoding. */
  lemma {:induction false} RoundTrip(s: string)
    ensures Decode(Encode(s)) == Some(s)
  {
    if s != "" {
      var head, tail := EncodeChar(s[0]), Encode(s[1..]);
      CharRoundTrip(s[0], tail);
      assert (head + tail)[|head|..] == tail;
      RoundTrip(s[1..]);
      assert [s[0]] + s[1..] == s;
    }
  }

  /** Only the encoding of a text decodes to it. */
  lemma {:induction false} DecodeIsStrict(bytes: seq<Byte>)
    requires Decode(bytes).Some?
    ensures Encode(Decode(bytes).value) == bytes
    decreases |bytes|, 1
  {
    if bytes != [] {
      var (c, n) := DecodeChar(bytes).value;
      assert EncodeChar(c) == bytes[..n] by {
        CharStrict(bytes);
      }
      StrictStep(bytes, c, n);
    }
  }

  lemma {:induction false} StrictStep(bytes: seq<Byte>, c: char, n: nat)
    requires 1 <= n <= |bytes| && EncodeChar(c) == bytes[..n] && Decode(bytes[n..]).Some?
    ensures Encode([c] + Decode(bytes[n..]).value) == bytes
    decreases |bytes|, 0
  {
    var rest := Decode(bytes[n..]).value;
    DecodeIsStrict(bytes[n..]);
    assert ([c] + rest)[1..] == rest;
    assert bytes == bytes[..n] + bytes[n..];
  }

  // ----- order -----

  /** Lexicographic order, a proper prefix first. */
  predicate LexLess(a: seq<int>, b: seq<int>) {
    b != [] && (a == [] || a[0] < b[0] || (a[0] == b[0] && LexLess(a[1..], b[1..])))
  }

  function CodePoints(s: string): (r: seq<int>)
    ensures |r| == |s| && forall i :: 0 <= i < |s| ==> r[i] == s[i] as int
  {
    if s == "" then [] else [s[0] as int] + CodePoints(s[1..])
  }

  /** The order of text: by code point. */
  predicate Less(a: string, b: string) {
    LexLess(CodePoints(a), CodePoints(b))
  }

  /** Comparing numbers digit by digit, in base 64. */
  lemma DigitOrder(m: int, n: int)
    requires m < n
    ensures m / 64 < n / 64 || (m / 64 == n / 64 && m % 64 < n % 64)
  {
  }

  lemma FirstDifference(a: seq<int>, b: seq<int>, k: nat)
    requires k < |a| && k < |b| && a[k] < b[k] && a[..k] == b[..k]
    ensures LexLess(a, b)
    decreases k
  {
    if k > 0 {
      assert a[0] == a[..k][0] && b[0] == b[..k][0];
      assert a[1..][..k - 1] == a[..k][1..] && b[1..][..k - 1] == b[..k][1..];
      FirstDifference(a[1..], b[1..], k - 1);
    }
  }

  /** The encodings of two characters first differ where the greater one has the greater byte. */
  lemma CharsDiffer(x: char, y: char) returns (k: nat)
    requires x < y
    ensures k < |EncodeChar(x)| && k < |EncodeChar(y)|
    ensures EncodeChar(x)[k] < EncodeChar(y)[k] && EncodeChar(x)[..k] == EncodeChar(y)[..k]
  {
    var m, n := x as int, y as int;
    var a, b := EncodeChar(x), EncodeChar(y);
    if |a| < |b| || |a| == 1 {
      k := 0;
    } else {
      DigitOrder(m, n);
      k := |a| - 1;
      if m / 64 < n / 64 {
        if |a| > 2 {
          DigitOrder(m / 64, n / 64);
        }
        k := |a| - 2;
        if |a| > 2 && m / 64 / 64 < n / 64 / 64 {
          if |a| > 3 {
            DigitOrder(m / 64 / 64, n / 64 / 64);
          }
          k := |a| - 3;
          if |a| > 3 && m / 64 / 64 / 64 < n / 64 / 64 / 64 {
            k := 0;
          }
        }
      }
    }
  }

  lemma CharOrder(x: char, y: char, p: seq<Byte>, q: seq<Byte>)
    requires x < y
    ensures LexLess(EncodeChar(x) + p, EncodeChar(y) + q)
  {
    var k := CharsDiffer(x, y);
    var a, b := EncodeChar(x) + p, EncodeChar(y) + q;
    assert a[..k] == EncodeChar(x)[..k] && b[..k] == EncodeChar(y)[..k];
    FirstDifference(a, b, k);
  }

  lemma {:induction false} CommonPrefix(head: seq<Byte>, p: seq<Byte>, q: seq<Byte>)
    ensures LexLess(head + p, head + q) == LexLess(p, q)
  {
    if head == [] {
      assert head + p == p && head + q == q;
    } else {
      assert (head + p)[1..] == head[1..] + p && (head + q)[1..] == head[1..] + q;
      CommonPrefix(head[1..], p, q);
    }
  }

  /** Text in code point order is in byte order once encoded. */
  lemma {:induction false} EncodeKeepsOrder(a: string, b: string)
    requires Less(a, b)
    ensures LexLess(Encode(a), Encode(b))
  {
    if a != "" {
      assert CodePoints(a)[1..] == CodePoints(a[1..]) && CodePoints(b)[1..] == CodePoints(b[1..]);
      if a[0] < b[0] {
        CharOrder(a[0], b[0], Encode(a[1..]), Encode(b[1..]));
      } else {
        CommonPrefix(EncodeChar(a[0]), Encode(a[1..]), Encode(b[1..]));
        EncodeKeepsOrder(a[1..], b[1..]);
      }
    }
  }

  lemma {:induction false} LexTotal(a: seq<int>, b: seq<int>)
    ensures LexLess(a, b) || LexLess(b, a) || a == b
    ensures !(LexLess(a, b) && LexLess(b, a)) && (a == b ==> !LexLess(a, b))
  {
    if a != [] && b != [] && a[0] == b[0] {
      LexTotal(a[1..], b[1..]);
      assert a == [a[0]] + a[1..] && b == [b[0]] + b[1..];
    }
  }

  lemma {:induction false} LexTransitive(a: seq<int>, b: seq<int>, c: seq<int>)
    requires LexLess(a, b) && LexLess(b, c)
    ensures LexLess(a, c)
  {
    if a != [] && a[0] == b[0] == c[0] {
      LexTransitive(a[1..], b[1..], c[1..]);
    }
  }

  /** Code point order is a strict total order on text. */
  lemma LessTotal(a: string, b: string)
    ensures Less(a, b) || Less(b, a) || a == b
    ensures !(Less(a, b) && Less(b, a)) && !Less(a, a)
  {
    LexTotal(CodePoints(a), CodePoints(b));
    LexTotal(CodePoints(a), CodePoints(a));
    if CodePoints(a) == CodePoints(b) {
      forall i | 0 <= i < |a| ensures a[i] == b[i] {
        assert CodePoints(a)[i] == CodePoints(b)[i];
      }
    }
  }

  lemma LessTransitive(a: string, b: string, c: string)
    requires Less(a, b) && Less(b, c)
    ensures Less(a, c)
  {
    LexTransitive(CodePoints(a), CodePoints(b), CodePoints(c));
  }
}
