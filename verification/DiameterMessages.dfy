/**
 * Whole Diameter messages: the header, the stream they are cut from, and the
 * generator of the reference capture, which writes the same bytes on its own.
 */
module DiameterMessages {
  import opened ByteStrings
  import opened Common
  import opened Diameter
  import opened WireBytes

  datatype Message = Message(flags: Byte, command: U32, application: U32, hopByHop: U32, endToEnd: U32, avps: seq<Avp>)

  /** Version, length, flags, command, then three identifiers; length and command keep 24 bits. */
  function Header(total: nat, flags: Byte, command: U32, application: U32, hopByHop: U32, endToEnd: U32): (s: seq<Byte>)
    ensures |s| == 20
  {
    [1] + Low24(total) + [flags] + Low24(command) + Be32(application) + Be32(hopByHop) + Be32(endToEnd)
  }

  function ToWire(m: Message): (w: seq<Byte>)
    ensures |w| == 20 + |Encode(m.avps)|
  {
    Header(20 + |Encode(m.avps)|, m.flags, m.command, m.application, m.hopByHop, m.endToEnd) + Encode(m.avps)
  }

  function FromWire(groups: Groups, w: seq<Byte>): Result<Message> {
    if |w| < 20 then Err(HeaderTooShort(|w|))
    else if w[0] != 1 then Err(UnsupportedVersion(w[0]))
    else
      var declared := Read24(w, 1);
      if declared < 20 || declared > |w| then Err(LengthMismatch(declared, |w|))
      else
        match Parse(groups, w[20..declared])
        case Err(e) => Err(e)
        case Ok(avps) => Ok(Message(w[4], Read24(w, 5), Read32(w, 8), Read32(w, 12), Read32(w, 16), avps))
  }

  // ----- the header is read back -----

  /** A message's header stands at the start of `w`. */
  predicate HeaderIs(w: seq<Byte>, m: Message) {
    && |w| >= 20 && w[0] == 1
    && Read24(w, 1) == (20 + |Encode(m.avps)|) % LIMIT
    && w[4] == m.flags && Read24(w, 5) == m.command % LIMIT
    && Read32(w, 8) == m.application && Read32(w, 12) == m.hopByHop && Read32(w, 16) == m.endToEnd
  }

  lemma HeaderReads(w: seq<Byte>, total: nat, flags: Byte, command: U32, application: U32, hopByHop: U32, endToEnd: U32)
    requires Holds(w, 0, Header(total, flags, command, application, hopByHop, endToEnd))
    ensures |w| >= 20 && w[0] == 1 && Read24(w, 1) == total % LIMIT && w[4] == flags && Read24(w, 5) == command % LIMIT
    ensures Read32(w, 8) == application && Read32(w, 12) == hopByHop && Read32(w, 16) == endToEnd
  {
    var a := [1] + Low24(total);
    var b := a + [flags];
    var c := b + Low24(command);
    var d := c + Be32(application);
    HoldsSplit(w, 0, d + Be32(hopByHop), Be32(endToEnd));
    HoldsSplit(w, 0, d, Be32(hopByHop));
    HoldsSplit(w, 0, c, Be32(application));
    HoldsSplit(w, 0, b, Low24(command));
    HoldsSplit(w, 0, a, [flags]);
    HoldsSplit(w, 0, [1], Low24(total));
    HoldsOne(w, 0, 1);
    HoldsOne(w, 4, flags);
    Read24Back(w, 1, total);
    Read24Back(w, 5, command);
    Read32Back(w, 8, application);
    Read32Back(w, 12, hopByHop);
    Read32Back(w, 16, endToEnd);
  }

  lemma WireReads(m: Message)
    ensures HeaderIs(ToWire(m), m) && ToWire(m)[20..] == Encode(m.avps)
  {
    var total := 20 + |Encode(m.avps)|;
    var head := Header(total, m.flags, m.command, m.application, m.hopByHop, m.endToEnd);
    HoldsSplit(head + Encode(m.avps), 0, head, Encode(m.avps));
    HeaderReads(ToWire(m), total, m.flags, m.command, m.application, m.hopByHop, m.endToEnd);
  }

  // ----- round trips -----

  /** What a message needs to survive the wire. */
  predicate Carried(groups: Groups, m: Message) {
    WellFormed(groups, m.avps) && m.command < LIMIT && |ToWire(m)| < LIMIT
  }

  lemma CarriedIsRead(groups: Groups, m: Message)
    requires Carried(groups, m)
    ensures FromWire(groups, ToWire(m)) == Ok(m)
  {
    WireReads(m);
    AnnouncesItsLength(m);
    Whole24(m.command);
    RoundTrip(groups, m.avps);
    WholeIsRead(groups, ToWire(m), m);
  }

  lemma Whole24(n: nat)
    requires n < LIMIT
    ensures n % LIMIT == n
  {
  }

  lemma AnnouncesItsLength(m: Message)
    requires |ToWire(m)| < LIMIT
    ensures ToWire(m)[0] == 1 && Read24(ToWire(m), 1) == |ToWire(m)|
  {
    assert HeaderIs(ToWire(m), m) by {
      WireReads(m);
    }
    Whole24(20 + |Encode(m.avps)|);
  }

  lemma WholeIsRead(groups: Groups, w: seq<Byte>, m: Message)
    requires |w| >= 20 && w[0] == 1 && Read24(w, 1) == |w| && w[4] == m.flags && Read24(w, 5) == m.command
    requires Read32(w, 8) == m.application && Read32(w, 12) == m.hopByHop && Read32(w, 16) == m.endToEnd
    requires Parse(groups, w[20..]) == Ok(m.avps)
    ensures FromWire(groups, w) == Ok(m)
  {
    assert w[20..|w|] == w[20..];
  }

  lemma ReadIsCarried(groups: Groups, m: Message)
    requires FromWire(groups, ToWire(m)) == Ok(m)
    ensures Carried(groups, m)
  {
    var w := ToWire(m);
    WireReads(m);
    var declared := Read24(w, 1);
    ParsedSize(groups, w[20..declared], 0, m.avps);
    NotTruncated(|w|, declared);
    assert w[20..declared] == w[20..];
    RoundTripIff(groups, m.avps);
  }

  lemma NotTruncated(total: nat, declared: nat)
    requires 20 <= declared <= total && declared == total % LIMIT && total - 20 <= Padded(declared - 20)
    ensures total == declared < LIMIT
  {
  }

  /** Exactly the messages whose lengths and command fit 24 bits, with a well-formed tree, survive the wire. */
  lemma MessageRoundTripIff(groups: Groups, m: Message)
    ensures FromWire(groups, ToWire(m)) == Ok(m) <==> Carried(groups, m)
  {
    if Carried(groups, m) {
      CarriedIsRead(groups, m);
    } else if FromWire(groups, ToWire(m)) == Ok(m) {
      ReadIsCarried(groups, m);
    }
  }

  /**
   * The relay's promise: whatever a peer sent, once accepted, is the same
   * message again after printing, whatever its padding and trailing bytes were,
   * exactly when the printout stays below 2^24 bytes. It does unless the peer
   * announced one of the last three lengths below that and left padding out.
   */
  lemma RelayKeepsMessage(groups: Groups, w: seq<Byte>, m: Message)
    requires FromWire(groups, w) == Ok(m)
    ensures FromWire(groups, ToWire(m)) == Ok(m) <==> |ToWire(m)| < LIMIT
    ensures |ToWire(m)| <= Padded(Read24(w, 1))
    ensures Read24(w, 1) <= LIMIT - 4 ==> |ToWire(m)| < LIMIT
  {
    var declared := Read24(w, 1);
    AcceptedParts(groups, w, m);
    ParsedIsWellFormed(groups, w[20..declared], 0, m.avps);
    ParsedSize(groups, w[20..declared], 0, m.avps);
    RelayRoom(declared, |Encode(m.avps)|);
    MessageRoundTripIff(groups, m);
  }

  lemma AcceptedParts(groups: Groups, w: seq<Byte>, m: Message)
    requires FromWire(groups, w) == Ok(m)
    ensures |w| >= 20 && 20 <= Read24(w, 1) <= |w| && m.command < LIMIT
    ensures ParseAt(groups, w[20..Read24(w, 1)], 0) == Ok(m.avps)
  {
  }

  lemma RelayRoom(declared: nat, size: nat)
    requires 20 <= declared && size <= Padded(declared - 20)
    ensures 20 + size <= Padded(declared) && (declared <= LIMIT - 4 ==> 20 + size < LIMIT)
  {
    var a := PadBounds(declared - 20);
    var b := PadBounds(declared);
  }

  /** One attribute that fills the largest message but for the three bytes of its padding. */
  function Longest(code: U32): Avp {
    Avp(code, 0, 0, Raw(Zeros(LIMIT - 31)))
  }

  /** Such a message, the padding left out. */
  function LongestWire(code: U32): seq<Byte> {
    Header(LIMIT - 3, 0, 0, 0, 0, 0) + (Head(Longest(code), LIMIT - 23) + Zeros(LIMIT - 31))
  }

  /** It is accepted, and the relay's own printout of it is not. */
  lemma LongestMessageIsLost(groups: Groups, code: U32)
    requires (code, 0) !in groups
    ensures
      var m := Message(0, 0, 0, 0, 0, [Longest(code)]);
      FromWire(groups, LongestWire(code)) == Ok(m) && FromWire(groups, ToWire(m)) != Ok(m)
  {
    LongestIsAccepted(groups, code);
    PrintsTo(Longest(code));
    MessageRoundTripIff(groups, Message(0, 0, 0, 0, 0, [Longest(code)]));
  }

  lemma LongestIsAccepted(groups: Groups, code: U32)
    requires (code, 0) !in groups
    ensures FromWire(groups, LongestWire(code)) == Ok(Message(0, 0, 0, 0, 0, [Longest(code)]))
  {
    var body := Head(Longest(code), LIMIT - 23) + Zeros(LIMIT - 31);
    UnpaddedIsRead(groups, Longest(code), body);
    BodyIsAccepted(groups, body, [Longest(code)]);
  }

  lemma BodyIsAccepted(groups: Groups, body: seq<Byte>, avps: seq<Avp>)
    requires 20 + |body| < LIMIT && Parse(groups, body) == Ok(avps)
    ensures FromWire(groups, Header(20 + |body|, 0, 0, 0, 0, 0) + body) == Ok(Message(0, 0, 0, 0, 0, avps))
  {
    var head := Header(20 + |body|, 0, 0, 0, 0, 0);
    var w := head + body;
    assert w[20..] == body;
    assert Read24(w, 1) == |w| && w[0] == 1 && w[4] == 0 && Read24(w, 5) == 0
      && Read32(w, 8) == 0 && Read32(w, 12) == 0 && Read32(w, 16) == 0 by {
      HoldsSplit(w, 0, head, body);
      HeaderReads(w, 20 + |body|, 0, 0, 0, 0, 0);
      Whole24(20 + |body|);
    }
    WholeIsRead(groups, w, Message(0, 0, 0, 0, 0, avps));
  }

  lemma PrintsTo(a: Avp)
    requires Length(a) == LIMIT - 23
    ensures |Encode([a])| == LIMIT - 20
  {
    assert [a][1..] == [];
  }

  lemma UnpaddedIsRead(groups: Groups, a: Avp, body: seq<Byte>)
    requires WellFormedOne(groups, a) && body == Head(a, Length(a)) + ValueBytes(a.value)
    ensures Parse(groups, body) == Ok([a])
  {
    UnpaddedAt(a, body, 0);
    OneReads(groups, a, body, 0);
    assert ParseAt(groups, body, Padded(Length(a))) == Ok([]);
    assert [a] + [] == [a];
  }

  // ----- the stream -----

  /** The longest message the reader takes. */
  const MAX_MESSAGE := 1_048_576

  datatype Cut = Cut(message: seq<Byte>, rest: seq<Byte>) | BadVersion(version: Byte) | BadLength(length: nat) |
      EndOfStream

  /** One message off the front of a connection. */
  function ReadMessage(stream: seq<Byte>): Cut {
    if |stream| < 4 then EndOfStream
    else if stream[0] != 1 then BadVersion(stream[0])
    else
      var length := Read24(stream, 1);
      if !(20 <= length <= MAX_MESSAGE) then BadLength(length)
      else if |stream| < length then EndOfStream
      else Cut(stream[..length], stream[length..])
  }

  /** Reading to the end; nothing if any message is refused. */
  function ReadAll(groups: Groups, stream: seq<Byte>): Option<seq<Message>> {
    if stream == [] then Some([])
    else
      match ReadMessage(stream)
      case Cut(w, rest) =>
        assert |rest| < |stream|;
        (match (FromWire(groups, w), ReadAll(groups, rest))
         case (Ok(m), Some(ms)) => Some([m] + ms)
         case _ => None)
      case _ => None
  }

  function Stream(ms: seq<Message>): seq<Byte> {
    if ms == [] then [] else ToWire(ms[0]) + Stream(ms[1..])
  }

  lemma FirstOff(w: seq<Byte>, rest: seq<Byte>)
    requires 20 <= |w| <= MAX_MESSAGE && w[0] == 1 && Read24(w, 1) == |w|
    ensures ReadMessage(w + rest) == Cut(w, rest)
  {
    var stream := w + rest;
    assert stream[0] == w[0] && stream[1] == w[1] && stream[2] == w[2] && stream[3] == w[3];
    assert stream[..|w|] == w && stream[|w|..] == rest;
  }

  /**
   * The relay over a connection: every message the reader cuts off and the
   * parser accepts, whatever its padding and trailing bytes were, is passed on
   * as bytes that the next reader cuts off whole and accepts as the same message.
   */
  lemma RelayIsTransparent(groups: Groups, stream: seq<Byte>, m: Message, more: seq<Byte>)
    requires ReadMessage(stream).Cut? && FromWire(groups, ReadMessage(stream).message) == Ok(m)
    ensures FromWire(groups, ToWire(m)) == Ok(m)
    ensures ReadMessage(ToWire(m) + more) == Cut(ToWire(m), more)
  {
    var w := ReadMessage(stream).message;
    CutAnnouncesItself(stream);
    RelayKeepsMessage(groups, w, m);
    PaddedWithin(Read24(w, 1), MAX_MESSAGE);
    AnnouncesItsLength(m);
    FirstOff(ToWire(m), more);
  }

  lemma CutAnnouncesItself(stream: seq<Byte>)
    requires ReadMessage(stream).Cut?
    ensures
      var w := ReadMessage(stream).message;
      20 <= |w| <= MAX_MESSAGE && Read24(w, 1) == |w|
  {
    var w := ReadMessage(stream).message;
    assert w[1] == stream[1] && w[2] == stream[2] && w[3] == stream[3];
  }

  lemma PaddedWithin(n: nat, limit: nat)
    requires n <= limit && limit % 4 == 0
    ensures Padded(n) <= limit
  {
    var words := PadBounds(n);
    assert limit == 4 * (limit / 4);
  }

  lemma Received(groups: Groups, w: seq<Byte>, m: Message, rest: seq<Byte>, ms: seq<Message>)
    requires 20 <= |w| <= MAX_MESSAGE && w[0] == 1 && Read24(w, 1) == |w|
    requires FromWire(groups, w) == Ok(m) && ReadAll(groups, rest) == Some(ms)
    ensures ReadAll(groups, w + rest) == Some([m] + ms)
  {
    FirstOff(w, rest);
  }

  /** Messages sent back to back are cut apart and read in order. */
  lemma {:induction false} StreamIsSplit(groups: Groups, ms: seq<Message>)
    requires forall i :: 0 <= i < |ms| ==> Carried(groups, ms[i]) && |ToWire(ms[i])| <= MAX_MESSAGE
    ensures ReadAll(groups, Stream(ms)) == Some(ms)
  {
    if ms != [] {
      StreamIsSplit(groups, ms[1..]);
      CarriedIsRead(groups, ms[0]);
      AnnouncesItsLength(ms[0]);
      Received(groups, ToWire(ms[0]), ms[0], Stream(ms[1..]), ms[1..]);
      assert ms == [ms[0]] + ms[1..];
    }
  }

  // ----- the generator of the reference capture -----

  /** One attribute as the generator builds it; nothing where a number does not fit its field. */
  function GenAvp(code: nat, data: seq<Byte>, mandatory: bool, vendor: nat): Option<seq<Byte>> {
    var flags := (if vendor != 0 then 128 else 0) + (if mandatory then 64 else 0);
    var length := 8 + (if vendor != 0 then 4 else 0) + |data|;
    if code >= U32_MODULUS || vendor >= U32_MODULUS || length >= U32_MODULUS then None
    else
      var out := Be32(code) + [flags] + Be32(length)[1..] + (if vendor != 0 then Be32(vendor) else []) + data;
      Some(out + Zeros((4 - |out| % 4) % 4))
  }

  /** A nest of generator calls. */
  datatype Call =
    | Leaf(code: U32, data: seq<Byte>, mandatory: bool, vendor: U32)
    | Group(code: U32, children: seq<Call>, mandatory: bool, vendor: U32)

  function Gen(c: Call): Option<seq<Byte>>
    decreases c
  {
    match c
    case Leaf(code, data, mandatory, vendor) => GenAvp(code, data, mandatory, vendor)
    case Group(code, children, mandatory, vendor) =>
      match GenAll(children)
      case None => None
      case Some(data) => GenAvp(code, data, mandatory, vendor)
  }

  /** The attributes joined. */
  function GenAll(cs: seq<Call>): Option<seq<Byte>>
    decreases cs
  {
    if cs == [] then Some([])
    else
      match (Gen(cs[0]), GenAll(cs[1..]))
      case (Some(a), Some(b)) => Some(a + b)
      case _ => None
  }

  function GenMessage(command: nat, application: nat, flags: nat, hopByHop: nat, endToEnd: nat,
      body: seq<Byte>): Option<seq<Byte>> {
    var total := 20 + |body|;
    if flags > 255 || total >= U32_MODULUS || command >= U32_MODULUS || application >= U32_MODULUS
      || hopByHop >= U32_MODULUS || endToEnd >= U32_MODULUS then None
    else Some([1] + Be32(total)[1..] + [flags] + Be32(command)[1..] + Be32(application) + Be32(hopByHop) +
        Be32(endToEnd) + body)
  }

  /** The attribute a call stands for. */
  function TreeOf(c: Call): Avp
    decreases c
  {
    var flags := (if c.vendor != 0 then 128 else 0) + (if c.mandatory then 64 else 0);
    match c
    case Leaf(code, data, _, vendor) => Avp(code, vendor, flags, Raw(data))
    case Group(code, children, _, vendor) => Avp(code, vendor, flags, Grouped(TreesOf(children)))
  }

  function TreesOf(cs: seq<Call>): seq<Avp>
    decreases cs
  {
    if cs == [] then [] else [TreeOf(cs[0])] + TreesOf(cs[1..])
  }

  lemma GenOneMatches(a: Avp, mandatory: bool)
    requires a.flags == (if a.vendor != 0 then 128 else 0) + (if mandatory then 64 else 0)
    ensures
      var bytes := GenAvp(a.code, ValueBytes(a.value), mandatory, a.vendor);
      bytes.Some? ==> bytes.value == EncodeOne(a)
  {
    var length := Length(a);
    if length < U32_MODULUS {
      DropTopByte(length);
    }
  }

  /** The generator and the server's printer write the same bytes, at every depth. */
  lemma {:induction false} GeneratorMatches(c: Call)
    requires Gen(c).Some?
    ensures Gen(c).value == EncodeOne(TreeOf(c))
    decreases c
  {
    if c.Group? {
      GeneratorMatchesAll(c.children);
    }
    GenOneMatches(TreeOf(c), c.mandatory);
  }

  lemma {:induction false} GeneratorMatchesAll(cs: seq<Call>)
    requires GenAll(cs).Some?
    ensures GenAll(cs).value == Encode(TreesOf(cs))
    decreases cs
  {
    if cs != [] {
      GeneratorMatches(cs[0]);
      GeneratorMatchesAll(cs[1..]);
      assert TreesOf(cs)[1..] == TreesOf(cs[1..]);
    }
  }

  /** Nothing that fits the wire is refused by the generator. */
  lemma {:induction false} GeneratorAccepts(groups: Groups, c: Call)
    requires WellFormedOne(groups, TreeOf(c))
    ensures Gen(c).Some?
    decreases c
  {
    if c.Group? {
      GeneratorAcceptsAll(groups, c.children);
      GeneratorMatchesAll(c.children);
      assert Gen(c) == GenAvp(c.code, GenAll(c.children).value, c.mandatory, c.vendor);
    } else {
      assert Gen(c) == GenAvp(c.code, c.data, c.mandatory, c.vendor);
    }
    assert Length(TreeOf(c)) < LIMIT;
  }

  lemma {:induction false} GeneratorAcceptsAll(groups: Groups, cs: seq<Call>)
    requires WellFormed(groups, TreesOf(cs))
    ensures GenAll(cs).Some?
    decreases cs
  {
    if cs != [] {
      assert TreesOf(cs)[1..] == TreesOf(cs[1..]);
      GeneratorAccepts(groups, cs[0]);
      GeneratorAcceptsAll(groups, cs[1..]);
    }
  }

  /** What it refuses is exactly what does not fit a 32-bit length; what is inside an attribute is never longer. */
  lemma {:induction false} GeneratorAcceptsIff(c: Call)
    ensures Gen(c).Some? <==> Length(TreeOf(c)) < U32_MODULUS
    decreases c, 1
  {
    if c.Group? {
      GeneratorAcceptsAllIff(c.children);
      if GenAll(c.children).Some? {
        GeneratorMatchesAll(c.children);
      } else {
        var i :| 0 <= i < |TreesOf(c.children)| && Length(TreesOf(c.children)[i]) >= U32_MODULUS;
        ListIsLonger(TreesOf(c.children), i);
      }
    }
  }

  predicate AllShort(avps: seq<Avp>) {
    forall i :: 0 <= i < |avps| ==> Length(avps[i]) < U32_MODULUS
  }

  lemma ShortSplit(a: Avp, rest: seq<Avp>)
    ensures AllShort([a] + rest) <==> Length(a) < U32_MODULUS && AllShort(rest)
  {
    var all := [a] + rest;
    if AllShort(all) {
      assert Length(all[0]) < U32_MODULUS;
      forall i | 0 <= i < |rest| ensures Length(rest[i]) < U32_MODULUS {
        assert Length(all[i + 1]) < U32_MODULUS;
      }
    }
  }

  lemma {:induction false} GeneratorAcceptsAllIff(cs: seq<Call>)
    ensures GenAll(cs).Some? <==> AllShort(TreesOf(cs))
    decreases cs, 0
  {
    if cs != [] {
      GeneratorAcceptsIff(cs[0]);
      GeneratorAcceptsAllIff(cs[1..]);
      ShortSplit(TreeOf(cs[0]), TreesOf(cs[1..]));
    }
  }

  lemma {:induction false} ListIsLonger(avps: seq<Avp>, i: nat)
    requires i < |avps|
    ensures Length(avps[i]) <= |Encode(avps)|
  {
    if i > 0 {
      ListIsLonger(avps[1..], i - 1);
    }
  }

  /** A message is refused exactly when one of its numbers, or its length, does not fit. */
  lemma GeneratorFramesIff(command: nat, application: nat, flags: nat, hopByHop: nat, endToEnd: nat, body: seq<Byte>)
    ensures GenMessage(command, application, flags, hopByHop, endToEnd, body).Some? <==>
            && flags < 256 && command < U32_MODULUS && application < U32_MODULUS
            && hopByHop < U32_MODULUS && endToEnd < U32_MODULUS && 20 + |body| < U32_MODULUS
  {
  }

  /** Every capture message the server could have sent is read by it as the calls spelled it. */
  lemma {:induction false} GeneratedIsRead(groups: Groups, cs: seq<Call>, m: Message)
    requires m.avps == TreesOf(cs) && Carried(groups, m)
    ensures
      && GenAll(cs).Some?
      && var w := GenMessage(m.command, m.application, m.flags, m.hopByHop, m.endToEnd, GenAll(cs).value);
      w == Some(ToWire(m)) && FromWire(groups, w.value) == Ok(m)
  {
    GeneratorAcceptsAll(groups, cs);
    GeneratorMatchesAll(cs);
    DropTopByte(|ToWire(m)|);
    DropTopByte(m.command);
    CarriedIsRead(groups, m);
  }
}
