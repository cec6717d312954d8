/**
 * The lossless attribute tree of a Diameter message (RFC 6733): the parser and
 * printer the relay uses. Which attributes are grouped is the dictionary's
 * business; here it is any set of (code, vendor) pairs.
 */
module Diameter {
  import opened ByteStrings
  import opened Common
  import opened WireBytes

  datatype Data = Raw(bytes: seq<Byte>) | Grouped(children: seq<Avp>)

  datatype Avp = Avp(code: U32, vendor: U32, flags: Byte, value: Data)

  type Groups = set<(U32, U32)>

  datatype DecodeError =
    | HeaderTooShort(actual: nat)
    | UnsupportedVersion(version: Byte)
    | LengthMismatch(declared: nat, actual: nat)
    | Truncated(offset: nat, need: nat, have: nat)
    | InvalidAvpLength(offset: nat, length: nat, header: nat)

  datatype Result<+T> = Ok(value: T) | Err(error: DecodeError)

  /** The lengths of a 24-bit field. */
  const LIMIT := 0x100_0000

  function HeaderSize(flags: Byte): nat {
    if flags >= 128 then 12 else 8
  }

  /** The next multiple of four. */
  function Padded(n: nat): nat {
    n + (4 - n % 4) % 4
  }

  // ----- the printer -----

  function ValueBytes(value: Data): seq<Byte>
    decreases value
  {
    match value
    case Raw(bytes) => bytes
    case Grouped(children) => Encode(children)
  }

  /** What the length field should say: the padding does not count. */
  function Length(a: Avp): nat
    decreases a, 0
  {
    HeaderSize(a.flags) + |ValueBytes(a.value)|
  }

  /** The header up to the value; the length field keeps 24 bits. */
  function Head(a: Avp, length: nat): (s: seq<Byte>)
    ensures |s| == HeaderSize(a.flags)
  {
    Be32(a.code) + [a.flags] + Low24(length) + if a.flags >= 128 then Be32(a.vendor) else []
  }

  function Zeros(n: nat): (s: seq<Byte>)
    ensures |s| == n
  {
    seq(n, _ => 0)
  }

  function EncodeOne(a: Avp): (s: seq<Byte>)
    ensures |s| == Padded(Length(a))
    decreases a, 1
  {
    var length := Length(a);
    Head(a, length) + ValueBytes(a.value) + Zeros(Padded(length) - length)
  }

  function Encode(avps: seq<Avp>): seq<Byte>
    decreases avps
  {
    if avps == [] then [] else EncodeOne(avps[0]) + Encode(avps[1..])
  }

  // ----- the parser -----

  /** A whole attribute starts at `pos`: its header, and as much as its length claims. */
  predicate Framed(data: seq<Byte>, pos: nat) {
    && pos + 8 <= |data|
    && HeaderSize(data[pos + 4]) <= Read24(data, pos + 5)
    && pos + Read24(data, pos + 5) <= |data|
  }

  function VendorAt(data: seq<Byte>, pos: nat): U32
    requires Framed(data, pos)
  {
    if data[pos + 4] >= 128 then Read32(data, pos + 8) else 0
  }

  function SliceAt(data: seq<Byte>, pos: nat): (s: seq<Byte>)
    requires Framed(data, pos)
    ensures |s| == Read24(data, pos + 5) - HeaderSize(data[pos + 4]) && |s| < |data|
  {
    data[pos + HeaderSize(data[pos + 4])..pos + Read24(data, pos + 5)]
  }

  /** A value is a list of attributes where the dictionary says so, and bytes otherwise. */
  function ValueOf(groups: Groups, key: (U32, U32), slice: seq<Byte>): Result<Data>
    decreases |slice|, |slice| + 1
  {
    if key in groups then
      match ParseAt(groups, slice, 0)
      case Ok(children) => Ok(Grouped(children))
      case Err(e) => Err(e)
    else Ok(Raw(slice))
  }

  /** An attribute and where the next one starts. */
  datatype Step = Step(avp: Avp, next: nat)

  /** The attribute at `pos`, with the checks in the parser's order. */
  function StepAt(groups: Groups, data: seq<Byte>, pos: nat): (r: Result<Step>)
    requires pos + 8 <= |data|
    ensures r.Ok? ==> r.value.next > pos
    decreases |data|, |data| - pos, 0
  {
    var length, header := Read24(data, pos + 5), HeaderSize(data[pos + 4]);
    if length < header then Err(InvalidAvpLength(pos, length, header))
    else if pos + length > |data| then Err(Truncated(pos, length, |data| - pos))
    else
      var code, vendor := Read32(data, pos), VendorAt(data, pos);
      match ValueOf(groups, (code, vendor), SliceAt(data, pos))
      case Err(e) => Err(e)
      case Ok(value) => Ok(Step(Avp(code, vendor, data[pos + 4], value), pos + Padded(length)))
  }

  /** The attributes from `pos` on; fewer than eight bytes at the end are passed over. */
  function ParseAt(groups: Groups, data: seq<Byte>, pos: nat): Result<seq<Avp>>
    decreases |data|, |data| - pos, 1
  {
    if pos + 8 > |data| then Ok([])
    else
      match StepAt(groups, data, pos)
      case Err(e) => Err(e)
      case Ok(step) => Prepend([step.avp], ParseAt(groups, data, step.next))
  }

  function Prepend(avps: seq<Avp>, r: Result<seq<Avp>>): Result<seq<Avp>> {
    match r
    case Ok(rest) => Ok(avps + rest)
    case Err(e) => Err(e)
  }

  function Parse(groups: Groups, data: seq<Byte>): Result<seq<Avp>> {
    ParseAt(groups, data, 0)
  }

  // ----- the loops -----

  method ParseAvps(groups: Groups, data: seq<Byte>) returns (r: Result<seq<Avp>>)
    ensures r == Parse(groups, data)
    decreases |data|, 2
  {
    var avps: seq<Avp> := [];
    var pos: nat := 0;
    NothingToPrepend(ParseAt(groups, data, 0));
    while pos + 8 <= |data|
      invariant Parse(groups, data) == Prepend(avps, ParseAt(groups, data, pos))
      decreases |data| - pos
    {
      var step := ReadOne(groups, data, pos);
      if step.Err? {
        return Err(step.error);
      }
      MoveOver(avps, step.value.avp, ParseAt(groups, data, step.value.next));
      avps := avps + [step.value.avp];
      pos := step.value.next;
    }
    assert avps + [] == avps;
    r := Ok(avps);
  }

  /** The body of the loop. */
  method ReadOne(groups: Groups, data: seq<Byte>, pos: nat) returns (r: Result<Step>)
    requires pos + 8 <= |data|
    ensures r == StepAt(groups, data, pos)
    decreases |data|, 1
  {
    var code, flags, length := Read32(data, pos), data[pos + 4], Read24(data, pos + 5);
    var header := HeaderSize(flags);
    if length < header {
      return Err(InvalidAvpLength(pos, length, header));
    }
    if pos + length > |data| {
      return Err(Truncated(pos, length, |data| - pos));
    }
    var vendor := if flags >= 128 then Read32(data, pos + 8) else 0;
    var value := ReadValue(groups, (code, vendor), data[pos + header..pos + length]);
    if value.Err? {
      return Err(value.error);
    }
    r := Ok(Step(Avp(code, vendor, flags, value.value), pos + Padded(length)));
  }

  method ReadValue(groups: Groups, key: (U32, U32), slice: seq<Byte>) returns (r: Result<Data>)
    ensures r == ValueOf(groups, key, slice)
    decreases |slice|, 3
  {
    if key !in groups {
      return Ok(Raw(slice));
    }
    var inner := ParseAvps(groups, slice);
    r := if inner.Ok? then Ok(Grouped(inner.value)) else Err(inner.error);
  }

  lemma NothingToPrepend(r: Result<seq<Avp>>)
    ensures Prepend([], r) == r
  {
    assert r.Ok? ==> [] + r.value == r.value;
  }

  lemma MoveOver(avps: seq<Avp>, a: Avp, r: Result<seq<Avp>>)
    ensures Prepend(avps, Prepend([a], r)) == Prepend(avps + [a], r)
  {
    assert r.Ok? ==> avps + ([a] + r.value) == avps + [a] + r.value;
  }

  method EncodeAvps(avps: seq<Avp>) returns (out: seq<Byte>)
    ensures out == Encode(avps)
    decreases avps
  {
    out := [];
    for i := 0 to |avps|
      invariant out + Encode(avps[i..]) == Encode(avps)
    {
      assert avps[i..][1..] == avps[i + 1..];
      ConcatAssociates(out, EncodeOne(avps[i]), Encode(avps[i + 1..]));
      out := EncodeOneAvp(avps[i], out);
    }
  }

  method EncodeOneAvp(a: Avp, before: seq<Byte>) returns (out: seq<Byte>)
    ensures out == before + EncodeOne(a)
    decreases a
  {
    var value: seq<Byte>;
    match a.value {
      case Raw(bytes) => value := bytes;
      case Grouped(children) => value := EncodeAvps(children);
    }
    var length := HeaderSize(a.flags) + |value|;
    var padded := Padded(length);
    out := before + (Head(a, length) + value);
    while |out| < |before| + padded
      invariant |before| + length <= |out| <= |before| + padded
      invariant out == before + (Head(a, length) + value + Zeros(|out| - |before| - length))
    {
      out := out + [0];
    }
  }

  // ----- well-formed trees -----

  /**
   * What the wire can say about one attribute: no vendor without the vendor
   * bit, grouped exactly when the dictionary says so, a length of 24 bits.
   */
  predicate Sound(groups: Groups, a: Avp) {
    && (a.flags < 128 ==> a.vendor == 0)
    && (a.value.Grouped? <==> (a.code, a.vendor) in groups)
    && Length(a) < LIMIT
  }

  predicate WellFormedOne(groups: Groups, a: Avp)
    decreases a
  {
    Sound(groups, a) && (a.value.Grouped? ==> WellFormed(groups, a.value.children))
  }

  /** The same at every depth. */
  predicate WellFormed(groups: Groups, avps: seq<Avp>)
    decreases avps
  {
    avps != [] ==> WellFormedOne(groups, avps[0]) && WellFormed(groups, avps[1..])
  }

  // ----- the parser reads what the printer wrote -----

  /** The fields of `a` stand at `pos`, the length as far as 24 bits go, then the value. */
  predicate Printed(a: Avp, data: seq<Byte>, pos: nat) {
    && pos + 8 <= pos + Length(a) <= |data|
    && Read32(data, pos) == a.code && data[pos + 4] == a.flags && Read24(data, pos + 5) == Length(a) % LIMIT
    && (a.flags >= 128 ==> Read32(data, pos + 8) == a.vendor)
    && Holds(data, pos + HeaderSize(a.flags), ValueBytes(a.value))
  }

  lemma HeadAt(a: Avp, data: seq<Byte>, pos: nat)
    requires Holds(data, pos, EncodeOne(a))
    ensures Printed(a, data, pos)
  {
    var length := Length(a);
    HoldsSplit(data, pos, Head(a, length) + ValueBytes(a.value), Zeros(Padded(length) - length));
    UnpaddedAt(a, data, pos);
  }

  /** The padding is not needed to read an attribute. */
  lemma UnpaddedAt(a: Avp, data: seq<Byte>, pos: nat)
    requires Holds(data, pos, Head(a, Length(a)) + ValueBytes(a.value))
    ensures Printed(a, data, pos)
  {
    var length := Length(a);
    var vendor := if a.flags >= 128 then Be32(a.vendor) else [];
    var start := Be32(a.code) + [a.flags];
    HoldsSplit(data, pos, Head(a, length), ValueBytes(a.value));
    HoldsSplit(data, pos, start + Low24(length), vendor);
    HoldsSplit(data, pos, start, Low24(length));
    HoldsSplit(data, pos, Be32(a.code), [a.flags]);
    HoldsOne(data, pos + 4, a.flags);
    Read32Back(data, pos, a.code);
    Read24Back(data, pos + 5, length);
    if a.flags >= 128 {
      Read32Back(data, pos + 8, a.vendor);
    }
  }

  /** A length that fits its field leads to the value. */
  lemma SliceIs(a: Avp, data: seq<Byte>, pos: nat)
    requires Printed(a, data, pos) && Length(a) < LIMIT
    ensures Framed(data, pos) && Read24(data, pos + 5) == Length(a) && SliceAt(data, pos) == ValueBytes(a.value)
  {
    HoldsSlice(data, pos + HeaderSize(a.flags), ValueBytes(a.value));
  }

  /** A well-formed attribute is read as what it is, and the next one looked for behind its padding. */
  lemma {:induction false} OneReads(groups: Groups, a: Avp, data: seq<Byte>, pos: nat)
    requires WellFormedOne(groups, a) && Printed(a, data, pos)
    ensures StepAt(groups, data, pos) == Ok(Step(a, pos + Padded(Length(a))))
    decreases a
  {
    SliceIs(a, data, pos);
    if a.value.Grouped? {
      TreeAt(groups, a.value.children, SliceAt(data, pos), 0);
    }
    assert ValueOf(groups, (a.code, a.vendor), SliceAt(data, pos)) == Ok(a.value);
  }

  /** From `pos` to the end stands the list. */
  predicate PrintedFrom(avps: seq<Avp>, data: seq<Byte>, pos: nat) {
    pos <= |data| && data[pos..] == Encode(avps)
  }

  /** A printed list starts with its first attribute. */
  lemma ListAt(avps: seq<Avp>, data: seq<Byte>, pos: nat)
    requires avps != [] && PrintedFrom(avps, data, pos)
    ensures Printed(avps[0], data, pos) && PrintedFrom(avps[1..], data, pos + Padded(Length(avps[0])))
  {
    Prefix(data, pos, EncodeOne(avps[0]), Encode(avps[1..]));
    HeadAt(avps[0], data, pos);
  }

  lemma Prefix(data: seq<Byte>, pos: nat, a: seq<Byte>, b: seq<Byte>)
    requires pos <= |data| && data[pos..] == a + b
    ensures Holds(data, pos, a) && data[pos + |a|..] == b
  {
    var rest := data[pos..];
    assert rest[..|a|] == a && rest[|a|..] == b && rest[|a|..] == data[pos + |a|..];
    forall i | 0 <= i < |a| ensures data[pos + i] == a[i] {
      assert rest[i] == a[i];
    }
  }

  /** Wherever a well-formed list is printed last, it is read. */
  lemma {:induction false} TreeAt(groups: Groups, avps: seq<Avp>, data: seq<Byte>, pos: nat)
    requires WellFormed(groups, avps) && PrintedFrom(avps, data, pos)
    ensures ParseAt(groups, data, pos) == Ok(avps)
    decreases avps
  {
    if avps != [] {
      ListAt(avps, data, pos);
      OneReads(groups, avps[0], data, pos);
      TreeAt(groups, avps[1..], data, pos + Padded(Length(avps[0])));
      assert avps == [avps[0]] + avps[1..];
    }
  }

  // ----- what the parser returns -----

  /** What a step read: the fields where they stand, and a value of the kind the dictionary asks for. */
  predicate ReadsAs(groups: Groups, data: seq<Byte>, pos: nat, a: Avp) {
    && Framed(data, pos)
    && a.code == Read32(data, pos) && a.vendor == VendorAt(data, pos) && a.flags == data[pos + 4]
    && (a.value.Grouped? <==> (a.code, a.vendor) in groups)
    && (a.value.Grouped? ==> ParseAt(groups, SliceAt(data, pos), 0) == Ok(a.value.children))
    && (a.value.Raw? ==> a.value.bytes == SliceAt(data, pos))
  }

  lemma StepMeans(groups: Groups, data: seq<Byte>, pos: nat)
    requires pos + 8 <= |data| && StepAt(groups, data, pos).Ok?
    ensures ReadsAs(groups, data, pos, StepAt(groups, data, pos).value.avp)
    ensures StepAt(groups, data, pos).value.next == pos + Padded(Read24(data, pos + 5))
  {
    var key := (Read32(data, pos), VendorAt(data, pos));
    assert ValueOf(groups, key, SliceAt(data, pos)) == Ok(StepAt(groups, data, pos).value.avp.value);
  }

  lemma PadBounds(n: nat) returns (words: nat)
    ensures Padded(n) == 4 * words && n <= 4 * words < n + 4
  {
    words := (n + 3) / 4;
  }

  lemma PadWithin(pos: nat, length: nat, size: nat)
    requires pos % 4 == 0 && pos + length <= size
    ensures (pos + Padded(length)) % 4 == 0 && pos + Padded(length) <= Padded(size)
  {
    var a := PadBounds(length);
    var b := PadBounds(size);
    WordsWithin(pos / 4, length, size, a, b);
  }

  lemma WordsWithin(pos: nat, length: nat, size: nat, a: nat, b: nat)
    requires 4 * a < length + 4 && size <= 4 * b && 4 * pos + length <= size
    ensures 4 * pos + 4 * a <= 4 * b && (4 * pos + 4 * a) % 4 == 0
  {
    assert pos + a <= b;
    assert 4 * pos + 4 * a == 4 * (pos + a);
  }

  lemma PadAgain(header: nat, value: nat, slice: nat, printed: nat, read: nat)
    requires header % 4 == 0 && value <= Padded(slice) && printed == header + value && read == header + slice
    ensures Padded(printed) <= Padded(read)
  {
    var a := PadBounds(slice);
    var b := PadBounds(printed);
    var c := PadBounds(read);
    WordsAgain(header / 4, value, slice, a, b, c);
  }

  lemma WordsAgain(header: nat, value: nat, slice: nat, a: nat, b: nat, c: nat)
    requires value <= 4 * a < slice + 4 && 4 * b < 4 * header + value + 4 && 4 * header + slice <= 4 * c
    ensures b <= c
  {
    assert b <= header + a <= c;
  }

  /** A successful parse, one attribute at a time. */
  lemma ParsedHead(groups: Groups, data: seq<Byte>, pos: nat, avps: seq<Avp>) returns (next: nat)
    requires ParseAt(groups, data, pos) == Ok(avps) && avps != []
    ensures ReadsAs(groups, data, pos, avps[0])
    ensures next == pos + Padded(Read24(data, pos + 5)) && next > pos
    ensures ParseAt(groups, data, next) == Ok(avps[1..])
  {
    var step := StepAt(groups, data, pos).value;
    next := step.next;
    StepMeans(groups, data, pos);
    var rest := ParseAt(groups, data, next).value;
    assert avps == [step.avp] + rest && avps[1..] == rest;
  }

  /** Printing what was parsed takes no more room than the input, rounded up. */
  lemma {:induction false} ParsedSize(groups: Groups, data: seq<Byte>, pos: nat, avps: seq<Avp>)
    requires ParseAt(groups, data, pos) == Ok(avps) && pos % 4 == 0 && pos <= Padded(|data|)
    ensures pos + |Encode(avps)| <= Padded(|data|)
    decreases |data|, |data| - pos, 1
  {
    if avps != [] {
      var next := ParsedHead(groups, data, pos, avps);
      ParsedValueSize(groups, data, pos, avps[0]);
      PadWithin(pos, Read24(data, pos + 5), |data|);
      ParsedSize(groups, data, next, avps[1..]);
    }
  }

  lemma {:induction false} ParsedValueSize(groups: Groups, data: seq<Byte>, pos: nat, a: Avp)
    requires ReadsAs(groups, data, pos, a)
    ensures Padded(Length(a)) <= Padded(Read24(data, pos + 5))
    decreases |data|, |data| - pos, 0
  {
    var slice := |SliceAt(data, pos)|;
    assert |ValueBytes(a.value)| <= Padded(slice) by {
      if a.value.Grouped? {
        ParsedSize(groups, SliceAt(data, pos), 0, a.value.children);
      }
    }
    PadAgain(HeaderSize(a.flags), |ValueBytes(a.value)|, slice, Length(a), Read24(data, pos + 5));
  }

  /** From input that leaves room for rounding up, the parser returns well-formed trees only. */
  lemma {:induction false} ParsedIsWellFormed(groups: Groups, data: seq<Byte>, pos: nat, avps: seq<Avp>)
    requires ParseAt(groups, data, pos) == Ok(avps) && |data| <= LIMIT - 4
    ensures WellFormed(groups, avps)
    decreases |data|, |data| - pos, 1
  {
    if avps != [] {
      var next := ParsedHead(groups, data, pos, avps);
      ParsedOneIsWellFormed(groups, data, pos, avps[0]);
      ParsedIsWellFormed(groups, data, next, avps[1..]);
    }
  }

  lemma {:induction false} ParsedOneIsWellFormed(groups: Groups, data: seq<Byte>, pos: nat, a: Avp)
    requires ReadsAs(groups, data, pos, a) && |data| <= LIMIT - 4
    ensures WellFormedOne(groups, a)
    decreases |data|, |data| - pos, 0
  {
    ParsedValueSize(groups, data, pos, a);
    PadBelow(Length(a), Read24(data, pos + 5));
    if a.value.Grouped? {
      ParsedIsWellFormed(groups, SliceAt(data, pos), 0, a.value.children);
    }
  }

  lemma PadBelow(m: nat, n: nat)
    requires Padded(m) <= Padded(n) && n <= LIMIT - 4
    ensures m < LIMIT
  {
  }

  // ----- the main results -----

  /** Every well-formed tree survives printing and parsing. */
  lemma RoundTrip(groups: Groups, avps: seq<Avp>)
    requires WellFormed(groups, avps)
    ensures Parse(groups, Encode(avps)) == Ok(avps)
  {
    TreeAt(groups, avps, Encode(avps), 0);
  }

  /** Relaying keeps the tree: what was parsed is parsed again from its own printout. */
  lemma NormalForm(groups: Groups, data: seq<Byte>, avps: seq<Avp>)
    requires Parse(groups, data) == Ok(avps) && |data| <= LIMIT - 4
    ensures Parse(groups, Encode(avps)) == Ok(avps)
    ensures |Encode(avps)| <= Padded(|data|)
  {
    ParsedIsWellFormed(groups, data, 0, avps);
    ParsedSize(groups, data, 0, avps);
    RoundTrip(groups, avps);
  }

  /** Only a length that fits its field is read back with the value behind it. */
  lemma LengthFits(groups: Groups, a: Avp, data: seq<Byte>, pos: nat)
    requires Printed(a, data, pos) && ReadsAs(groups, data, pos, a)
    ensures Length(a) < LIMIT
  {
    ParsedValueSize(groups, data, pos, a);
    PadTruncated(Length(a));
  }

  lemma PadTruncated(n: nat)
    requires Padded(n) <= Padded(n % LIMIT)
    ensures n < LIMIT
  {
  }

  /** A list that is read back from where it is printed is well-formed. */
  lemma {:induction false} OnlyWellFormed(groups: Groups, avps: seq<Avp>, data: seq<Byte>, pos: nat)
    requires PrintedFrom(avps, data, pos) && ParseAt(groups, data, pos) == Ok(avps)
    ensures WellFormed(groups, avps)
    decreases avps
  {
    if avps != [] {
      var a := avps[0];
      ListAt(avps, data, pos);
      var next := ParsedHead(groups, data, pos, avps);
      LengthFits(groups, a, data, pos);
      SliceIs(a, data, pos);
      OnlyWellFormedOne(groups, a, data, pos);
      OnlyWellFormed(groups, avps[1..], data, next);
    }
  }

  lemma {:induction false} OnlyWellFormedOne(groups: Groups, a: Avp, data: seq<Byte>, pos: nat)
    requires ReadsAs(groups, data, pos, a) && Length(a) < LIMIT && SliceAt(data, pos) == ValueBytes(a.value)
    ensures WellFormedOne(groups, a)
    decreases a
  {
    if a.value.Grouped? {
      OnlyWellFormed(groups, a.value.children, SliceAt(data, pos), 0);
    }
  }

  /** Printing and parsing give back exactly the well-formed trees. */
  lemma RoundTripIff(groups: Groups, avps: seq<Avp>)
    ensures Parse(groups, Encode(avps)) == Ok(avps) <==> WellFormed(groups, avps)
  {
    if WellFormed(groups, avps) {
      RoundTrip(groups, avps);
    } else if Parse(groups, Encode(avps)) == Ok(avps) {
      OnlyWellFormed(groups, avps, Encode(avps), 0);
    }
  }
}
