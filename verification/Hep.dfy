/**
 * The trace packets the server sends (HEP version 3, a list of typed chunks)
 * and the bridge that turns them back into network frames.
 */
module Hep {
  import opened ByteStrings
  import opened Common
  import opened Packets
  import opened WireBytes

  // ----- chunks -----

  datatype Chunk = Chunk(id: nat, value: seq<Byte>)

  /** A length field keeps 16 bits. */
  function ChunkBytes(c: Chunk): (s: seq<Byte>)
    requires c.id < 0x1_0000
    ensures |s| == 6 + |c.value|
  {
    Be16(0) + Be16(c.id) + Be16((6 + |c.value|) % 0x1_0000) + c.value
  }

  predicate Ids(cs: seq<Chunk>) {
    forall i :: 0 <= i < |cs| ==> cs[i].id < 0x1_0000
  }

  function ChunkList(cs: seq<Chunk>): seq<Byte>
    requires Ids(cs)
  {
    if cs == [] then [] else ChunkBytes(cs[0]) + ChunkList(cs[1..])
  }

  // ----- the encoder -----

  type Ipv6Address = s: seq<Byte> | |s| == 16 witness seq(16, _ => 0)

  datatype Ip = V4(octets4: Address) | V6(octets6: Ipv6Address)

  datatype Transport = UdpTransport | TcpTransport | TlsTransport | WebSocket | WebSocketSecure | SctpTransport

  datatype Info = Info(source: Ip, sport: nat, destination: Ip, dport: nat, transport: Transport,
                       seconds: U32, micros: U32, agent: U32, payload: seq<Byte>, callId: Option<seq<Byte>>)

  predicate Ports(info: Info) {
    info.sport < 0x1_0000 && info.dport < 0x1_0000
  }

  /** An IPv4 address inside IPv6 (`::ffff:a.b.c.d`). */
  function Mapped(ip: Ip): Ipv6Address {
    match ip
    case V4(a) => [0, 0, 0, 0, 0, 0, 0, 0, 0, 0, 255, 255] + a
    case V6(a) => a
  }

  function AddressChunks(info: Info): (cs: seq<Chunk>)
    ensures |cs| == 2
  {
    if info.source.V4? && info.destination.V4? then [Chunk(3, info.source.octets4), Chunk(4, info.destination.octets4)]
    else [Chunk(5, Mapped(info.source)), Chunk(6, Mapped(info.destination))]
  }

  function IpProtocol(t: Transport): Byte {
    match t
    case UdpTransport => 17
    case SctpTransport => 132
    case _ => 6
  }

  function FirstChunks(info: Info): seq<Chunk> {
    [Chunk(1, [if info.source.V6? then 10 else 2]), Chunk(2, [IpProtocol(info.transport)])]
  }

  function MiddleChunks(info: Info): seq<Chunk>
    requires Ports(info)
  {
    [Chunk(7, Be16(info.sport)), Chunk(8, Be16(info.dport)), Chunk(9, Be32(info.seconds)), Chunk(10, Be32(info.micros)),
     Chunk(11, [1]), Chunk(12, Be32(info.agent)), Chunk(15, info.payload)]
  }

  function LastChunks(info: Info): seq<Chunk> {
    if info.callId.Some? then [Chunk(17, info.callId.value)] else []
  }

  function Chunks(info: Info): seq<Chunk>
    requires Ports(info)
  {
    FirstChunks(info) + AddressChunks(info) + MiddleChunks(info) + LastChunks(info)
  }

  /** The length announced in front, computed before anything is written. */
  function TotalLength(info: Info): nat {
    var addresses := if info.source.V6? then 44 else 20;
    var correlation := if info.callId.Some? then 6 + |info.callId.value| else 0;
    (6 + 67 + addresses + 6 + |info.payload| + correlation) % 0x1_0000
  }

  const MAGIC: seq<Byte> := [72, 69, 80, 51]

  function EncodeHep3(info: Info): seq<Byte>
    requires Ports(info)
  {
    MAGIC + Be16(TotalLength(info)) + ChunkList(Chunks(info))
  }

  // ----- the bridge's parser -----

  /** What the bridge keeps of a trace packet. */
  datatype Capture = Capture(src: seq<Byte>, dst: seq<Byte>, sport: nat, dport: nat, seconds: U32, micros: U32,
      payload: seq<Byte>)

  /** The chunk loop from `offset` on; a later chunk of a type replaces an earlier one. */
  function Fields(data: seq<Byte>, offset: nat, fields: map<nat, seq<Byte>>): map<nat, seq<Byte>>
    decreases |data| - offset
  {
    if offset + 6 > |data| then fields
    else
      var length := Read16(data, offset + 4);
      if length < 6 then fields
      else
        var value := data[offset + 6..Min(offset + length, |data|)];
        Fields(data, offset + length, fields[Read16(data, offset + 2) := value])
  }

  /** A missing field or one of the wrong width gives up the packet. */
  function Extract(fields: map<nat, seq<Byte>>): Option<Capture> {
    if !({3, 4, 7, 8, 9, 10, 15} <= fields.Keys) then None
    else if |fields[7]| != 2 || |fields[8]| != 2 || |fields[9]| != 4 || |fields[10]| != 4 then None
    else Some(Capture(fields[3], fields[4], Read16(fields[7], 0), Read16(fields[8], 0), Read32(fields[9], 0),
        Read32(fields[10], 0), fields[15]))
  }

  function Parse(data: seq<Byte>): Option<Capture> {
    if |data| < 6 || data[..4] != MAGIC then None else Extract(Fields(data, 6, map[]))
  }

  method ParseHep3(data: seq<Byte>) returns (r: Option<Capture>)
    ensures r == Parse(data)
  {
    if |data| < 6 || data[..4] != MAGIC {
      return None;
    }
    var fields: map<nat, seq<Byte>> := map[];
    var offset: nat := 6;
    while offset + 6 <= |data|
      invariant Fields(data, offset, fields) == Fields(data, 6, map[])
      decreases |data| - offset
    {
      var id, length := Read16(data, offset + 2), Read16(data, offset + 4);
      if length < 6 {
        break;
      }
      fields := fields[id := data[offset + 6..Min(offset + length, |data|)]];
      offset := offset + length;
    }
    r := Extract(fields);
  }

  // ----- chunks are read back -----

  /** What a list of chunks means: the last value of each type. */
  function Collect(cs: seq<Chunk>, fields: map<nat, seq<Byte>>): map<nat, seq<Byte>> {
    if cs == [] then fields else Collect(cs[1..], fields[cs[0].id := cs[0].value])
  }

  /** No chunk is longer than its length field can say. */
  predicate Fit(cs: seq<Chunk>) {
    forall i :: 0 <= i < |cs| ==> 6 + |cs[i].value| < 0x1_0000
  }

  lemma ChunkReads(data: seq<Byte>, offset: nat, c: Chunk)
    requires c.id < 0x1_0000 && 6 + |c.value| < 0x1_0000 && Holds(data, offset, ChunkBytes(c))
    ensures offset + 6 + |c.value| <= |data|
    ensures Read16(data, offset + 2) == c.id && Read16(data, offset + 4) == 6 + |c.value|
    ensures data[offset + 6..offset + 6 + |c.value|] == c.value
  {
    var id, length := Be16(c.id), Be16(6 + |c.value|);
    HoldsSplit(data, offset, Be16(0) + id + length, c.value);
    HoldsSplit(data, offset, Be16(0) + id, length);
    HoldsSplit(data, offset, Be16(0), id);
    Read16Back(data, offset + 2, c.id);
    Read16Back(data, offset + 4, 6 + |c.value|);
    HoldsSlice(data, offset + 6, c.value);
  }

  lemma {:induction false} ChunksAreRead(data: seq<Byte>, offset: nat, cs: seq<Chunk>, fields: map<nat, seq<Byte>>)
    requires Ids(cs) && Fit(cs) && Holds(data, offset, ChunkList(cs)) && offset + |ChunkList(cs)| == |data|
    ensures Fields(data, offset, fields) == Collect(cs, fields)
    decreases |cs|
  {
    if cs != [] {
      var c := cs[0];
      HoldsSplit(data, offset, ChunkBytes(c), ChunkList(cs[1..]));
      ChunkReads(data, offset, c);
      ChunksAreRead(data, offset + 6 + |c.value|, cs[1..], fields[c.id := c.value]);
    }
  }

  lemma {:induction false} KeepsOthers(cs: seq<Chunk>, fields: map<nat, seq<Byte>>, id: nat)
    requires forall j :: 0 <= j < |cs| ==> cs[j].id != id
    ensures id in Collect(cs, fields) <==> id in fields
    ensures id in fields ==> Collect(cs, fields)[id] == fields[id]
  {
    if cs != [] {
      KeepsOthers(cs[1..], fields[cs[0].id := cs[0].value], id);
    }
  }

  lemma {:induction false} LastWriteWins(cs: seq<Chunk>, fields: map<nat, seq<Byte>>, i: nat)
    requires i < |cs| && forall j :: i < j < |cs| ==> cs[j].id != cs[i].id
    ensures cs[i].id in Collect(cs, fields) && Collect(cs, fields)[cs[i].id] == cs[i].value
  {
    var next := fields[cs[0].id := cs[0].value];
    if i == 0 {
      KeepsOthers(cs[1..], next, cs[0].id);
    } else {
      LastWriteWins(cs[1..], next, i - 1);
    }
  }

  /** The types of the chunks only go up, from `lo` to below `hi`. */
  predicate Ascending(cs: seq<Chunk>, lo: nat, hi: nat) {
    && (forall i :: 0 <= i < |cs| ==> lo <= cs[i].id < hi)
    && (forall i, j :: 0 <= i < j < |cs| ==> cs[i].id < cs[j].id)
  }

  lemma AscendOn(a: seq<Chunk>, b: seq<Chunk>, lo: nat, mid: nat, next: nat, hi: nat)
    requires Ascending(a, lo, mid) && Ascending(b, next, hi) && lo <= mid <= next <= hi
    ensures Ascending(a + b, lo, hi)
    ensures forall i :: 0 <= i < |a + b| ==> !(mid <= (a + b)[i].id < next)
  {
  }

  /** Addresses of both families: IPv4 chunks are there only when both ends are IPv4. */
  lemma ChunksAscend(info: Info)
    requires Ports(info)
    ensures Ascending(Chunks(info), 1, 18)
    ensures !(info.source.V4? && info.destination.V4?) ==> forall i :: 0 <= i < |Chunks(info)| ==>
        Chunks(info)[i].id != 3
  {
    var first, addresses, middle, last := FirstChunks(info), AddressChunks(info), MiddleChunks(info), LastChunks(info);
    var from := if info.source.V4? && info.destination.V4? then 3 else 5;
    AscendOn(first, addresses, 1, 3, from, 7);
    AscendOn(first + addresses, middle, 1, 7, 7, 17);
    AscendOn(first + addresses + middle, last, 1, 17, 17, 18);
    NoneAfter(first + addresses, middle, last);
  }

  lemma NoneAfter(a: seq<Chunk>, b: seq<Chunk>, c: seq<Chunk>)
    requires Ascending(b, 7, 17) && Ascending(c, 17, 18)
    ensures (forall i :: 0 <= i < |a| ==> a[i].id != 3) ==> forall i :: 0 <= i < |a + b + c| ==> (a + b + c)[i].id != 3
  {
  }

  lemma Found(info: Info, i: nat)
    requires Ports(info) && i < |Chunks(info)|
    ensures
      var c, fields := Chunks(info)[i], Collect(Chunks(info), map[]);
      c.id in fields && fields[c.id] == c.value
  {
    ChunksAscend(info);
    LastWriteWins(Chunks(info), map[], i);
  }

  lemma HeaderReads(info: Info)
    requires Ports(info)
    ensures
      var data := EncodeHep3(info);
      && |data| == 6 + |ChunkList(Chunks(info))| && data[..4] == MAGIC && Holds(data, 6, ChunkList(Chunks(info)))
  {
    var head := MAGIC + Be16(TotalLength(info));
    Whole(head, ChunkList(Chunks(info)));
    assert (head + ChunkList(Chunks(info)))[..4] == MAGIC;
  }

  lemma Whole(head: seq<Byte>, rest: seq<Byte>)
    ensures Holds(head + rest, |head|, rest)
  {
  }

  function Expected(info: Info): Option<Capture> {
    if info.source.V4? && info.destination.V4? then
      Some(Capture(info.source.octets4, info.destination.octets4, info.sport, info.dport, info.seconds, info.micros,
          info.payload))
    else None
  }

  /** What the server traced over IPv4 is what the bridge reads; the bridge passes over everything else. */
  lemma TraceIsReadBack(info: Info)
    requires Ports(info) && Fit(Chunks(info))
    ensures Parse(EncodeHep3(info)) == Expected(info)
  {
    var data, cs := EncodeHep3(info), Chunks(info);
    var fields := Collect(cs, map[]);
    HeaderReads(info);
    ChunksAscend(info);
    ChunksAreRead(data, 6, cs, map[]);
    if info.source.V4? && info.destination.V4? {
      TracedFields(info);
      ExtractTraced(info, fields);
    } else {
      KeepsOthers(cs, map[], 3);
    }
  }

  predicate Short(fields: map<nat, seq<Byte>>) {
    forall id :: id in fields ==> |fields[id]| < 65530
  }

  /** No field is longer than a length field can say. */
  lemma {:induction false} FieldsAreShort(data: seq<Byte>, offset: nat, fields: map<nat, seq<Byte>>)
    requires Short(fields)
    ensures Short(Fields(data, offset, fields))
    decreases |data| - offset
  {
    if offset + 6 <= |data| {
      var length := Read16(data, offset + 4);
      if length >= 6 {
        var value := data[offset + 6..Min(offset + length, |data|)];
        FieldsAreShort(data, offset + length, fields[Read16(data, offset + 2) := value]);
      }
    }
  }

  /**
   * A message traced over IPv4 is read back exactly when its payload is short
   * enough for one chunk; where it is not, no later chunk can make up for it.
   */
  lemma TraceIsReadBackIff(info: Info)
    requires Ports(info) && info.source.V4? && info.destination.V4?
    requires info.callId.Some? ==> 6 + |info.callId.value| < 0x1_0000
    ensures Parse(EncodeHep3(info)) == Expected(info) <==> 6 + |info.payload| < 0x1_0000
  {
    if 6 + |info.payload| < 0x1_0000 {
      TraceIsReadBack(info);
    } else {
      FieldsAreShort(EncodeHep3(info), 6, map[]);
    }
  }

  /** The seven fields the bridge looks for, by chunk type. */
  predicate Traced(info: Info, fields: map<nat, seq<Byte>>)
    requires Ports(info) && info.source.V4? && info.destination.V4?
  {
    && {3, 4, 7, 8, 9, 10, 15} <= fields.Keys
    && fields[3] == info.source.octets4 && fields[4] == info.destination.octets4
    && fields[7] == Be16(info.sport) && fields[8] == Be16(info.dport)
    && fields[9] == Be32(info.seconds) && fields[10] == Be32(info.micros)
    && fields[15] == info.payload
  }

  lemma TracedFields(info: Info)
    requires Ports(info) && info.source.V4? && info.destination.V4?
    ensures Traced(info, Collect(Chunks(info), map[]))
  {
    Found(info, 2);
    Found(info, 3);
    Found(info, 4);
    Found(info, 5);
    Found(info, 6);
    Found(info, 7);
    Found(info, 10);
  }

  lemma ExtractTraced(info: Info, fields: map<nat, seq<Byte>>)
    requires Ports(info) && info.source.V4? && info.destination.V4? && Traced(info, fields)
    ensures Extract(fields) == Expected(info)
  {
    Read16Back(fields[7], 0, info.sport);
    Read16Back(fields[8], 0, info.dport);
    Read32Back(fields[9], 0, info.seconds);
    Read32Back(fields[10], 0, info.micros);
  }

  // ----- what a collector reads -----

  /** Everything a trace packet says. */
  datatype Trace = Trace(family: Byte, protocol: Byte, src: seq<Byte>, dst: seq<Byte>, sport: nat, dport: nat,
      seconds: U32, micros: U32, kind: Byte, agent: U32, payload: seq<Byte>, callId: Option<seq<Byte>>)

  /** The addresses of either family, IPv4 first. */
  function Addresses(fields: map<nat, seq<Byte>>): Option<(seq<Byte>, seq<Byte>)> {
    if {3, 4} <= fields.Keys then Some((fields[3], fields[4]))
    else if {5, 6} <= fields.Keys then Some((fields[5], fields[6]))
    else None
  }

  predicate Wide(fields: map<nat, seq<Byte>>, id: nat, width: nat) {
    id in fields && |fields[id]| == width
  }

  function CollectTrace(fields: map<nat, seq<Byte>>): Option<Trace> {
    if Addresses(fields).None? || 15 !in fields then None
    else if !(Wide(fields, 1, 1) && Wide(fields, 2, 1) && Wide(fields, 7, 2) && Wide(fields, 8, 2) &&
        Wide(fields, 9, 4) && Wide(fields, 10, 4) && Wide(fields, 11, 1) && Wide(fields, 12, 4)) then None
    else
      var (src, dst) := Addresses(fields).value;
      Some(Trace(fields[1][0], fields[2][0], src, dst, Read16(fields[7], 0), Read16(fields[8], 0),
          Read32(fields[9], 0), Read32(fields[10], 0), fields[11][0], Read32(fields[12], 0), fields[15],
          if 17 in fields then Some(fields[17]) else None))
  }

  /** The packet as the encoder's caller meant it: the family of the source, the protocol under the transport, the
      addresses as they are when both are IPv4 and as sixteen bytes otherwise, and SIP for the kind. */
  function Meant(info: Info): Trace {
    var plain := info.source.V4? && info.destination.V4?;
    Trace(
      if info.source.V6? then 10 else 2,
      if info.transport.UdpTransport? then 17 else if info.transport.SctpTransport? then 132 else 6,
      if plain then info.source.octets4 else Sixteen(info.source),
      if plain then info.destination.octets4 else Sixteen(info.destination),
      info.sport, info.dport, info.seconds, info.micros, 1, info.agent, info.payload, info.callId)
  }

  /** Section 2.5.5.2 of RFC 4291: ten zero bytes, two bytes of ones, the IPv4 address. */
  function Sixteen(ip: Ip): seq<Byte> {
    if ip.V6? then ip.octets6 else seq(10, _ => 0) + [0xff, 0xff] + ip.octets4
  }

  lemma MappedIsSixteen(ip: Ip)
    ensures Mapped(ip) == Sixteen(ip)
  {
  }

  predicate Collected(info: Info, fields: map<nat, seq<Byte>>)
    requires Ports(info)
  {
    && {1, 2, 7, 8, 9, 10, 11, 12, 15} <= fields.Keys
    && fields[1] == [Meant(info).family] && fields[2] == [Meant(info).protocol]
    && Addresses(fields) == Some((Meant(info).src, Meant(info).dst))
    && fields[7] == Be16(info.sport) && fields[8] == Be16(info.dport)
    && fields[9] == Be32(info.seconds) && fields[10] == Be32(info.micros)
    && fields[11] == [1] && fields[12] == Be32(info.agent) && fields[15] == info.payload
    && (if 17 in fields then Some(fields[17]) else None) == info.callId
  }

  lemma AddressesCollected(info: Info)
    requires Ports(info)
    ensures Addresses(Collect(Chunks(info), map[])) == Some((Meant(info).src, Meant(info).dst))
  {
    Found(info, 2);
    Found(info, 3);
    MappedIsSixteen(info.source);
    MappedIsSixteen(info.destination);
    if !(info.source.V4? && info.destination.V4?) {
      ChunksAscend(info);
      KeepsOthers(Chunks(info), map[], 3);
    }
  }

  lemma CallIdCollected(info: Info)
    requires Ports(info)
    ensures
      var fields := Collect(Chunks(info), map[]);
      (if 17 in fields then Some(fields[17]) else None) == info.callId
  {
    if info.callId.Some? {
      Found(info, 11);
    } else {
      ChunksAscend(info);
      KeepsOthers(Chunks(info), map[], 17);
    }
  }

  lemma AllCollected(info: Info)
    requires Ports(info)
    ensures Collected(info, Collect(Chunks(info), map[]))
  {
    Found(info, 0);
    Found(info, 1);
    Found(info, 4);
    Found(info, 5);
    Found(info, 6);
    Found(info, 7);
    Found(info, 8);
    Found(info, 9);
    Found(info, 10);
    AddressesCollected(info);
    CallIdCollected(info);
  }

  lemma CollectedIsMeant(info: Info, fields: map<nat, seq<Byte>>)
    requires Ports(info) && Collected(info, fields)
    ensures CollectTrace(fields) == Some(Meant(info))
  {
    Read16Back(fields[7], 0, info.sport);
    Read16Back(fields[8], 0, info.dport);
    Read32Back(fields[9], 0, info.seconds);
    Read32Back(fields[10], 0, info.micros);
    Read32Back(fields[12], 0, info.agent);
  }

  /** Over either family, a collector that reads every chunk gets back everything that was traced. */
  lemma EverythingIsCollected(info: Info)
    requires Ports(info) && Fit(Chunks(info))
    ensures CollectTrace(Fields(EncodeHep3(info), 6, map[])) == Some(Meant(info))
  {
    HeaderReads(info);
    ChunksAscend(info);
    ChunksAreRead(EncodeHep3(info), 6, Chunks(info), map[]);
    AllCollected(info);
    CollectedIsMeant(info, Collect(Chunks(info), map[]));
  }

  // ----- sizes -----

  function Size(cs: seq<Chunk>): nat {
    if cs == [] then 0 else 6 + |cs[0].value| + Size(cs[1..])
  }

  lemma {:induction false} ChunkListSize(cs: seq<Chunk>)
    requires Ids(cs)
    ensures |ChunkList(cs)| == Size(cs)
  {
    if cs != [] {
      ChunkListSize(cs[1..]);
    }
  }

  lemma {:induction false} SizeConcat(a: seq<Chunk>, b: seq<Chunk>)
    ensures Size(a + b) == Size(a) + Size(b)
  {
    if a == [] {
      assert a + b == b;
    } else {
      assert (a + b)[1..] == a[1..] + b;
      SizeConcat(a[1..], b);
    }
  }

  lemma SizeOfTwo(a: Chunk, b: Chunk)
    ensures Size([a, b]) == 12 + |a.value| + |b.value|
  {
    assert [a, b][1..] == [b] && [b][1..] == [];
    assert Size([b]) == 6 + |b.value|;
  }

  lemma SizeOfSeven(a: Chunk, b: Chunk, c: Chunk, d: Chunk, e: Chunk, f: Chunk, g: Chunk)
    ensures Size([a, b, c, d, e, f, g])
      == 42 + |a.value| + |b.value| + |c.value| + |d.value| + |e.value| + |f.value| + |g.value|
  {
    SizeOfTwo(a, b);
    SizeOfTwo(c, d);
    SizeOfTwo(e, f);
    SizeConcat([a, b], [c, d]);
    SizeConcat([a, b] + [c, d], [e, f]);
    SizeConcat([a, b] + [c, d] + [e, f], [g]);
    assert [g][1..] == [];
    assert [a, b, c, d, e, f, g] == [a, b] + [c, d] + [e, f] + [g];
  }

  /** How long the packet really is. */
  function PacketSize(info: Info): nat {
    var addresses := if info.source.V4? && info.destination.V4? then 20 else 44;
    var correlation := if info.callId.Some? then 6 + |info.callId.value| else 0;
    79 + addresses + |info.payload| + correlation
  }

  lemma PartSizes(info: Info)
    requires Ports(info)
    ensures Size(FirstChunks(info)) == 14
    ensures Size(AddressChunks(info)) == if info.source.V4? && info.destination.V4? then 20 else 44
    ensures Size(MiddleChunks(info)) == 59 + |info.payload|
    ensures Size(LastChunks(info)) == if info.callId.Some? then 6 + |info.callId.value| else 0
  {
    var first, addresses, middle, last := FirstChunks(info), AddressChunks(info), MiddleChunks(info), LastChunks(info);
    SizeOfTwo(first[0], first[1]);
    SizeOfTwo(addresses[0], addresses[1]);
    SizeOfSeven(middle[0], middle[1], middle[2], middle[3], middle[4], middle[5], middle[6]);
    assert last != [] ==> last[1..] == [];
  }

  lemma SizeOfParts(a: seq<Chunk>, b: seq<Chunk>, c: seq<Chunk>, d: seq<Chunk>)
    ensures Size(a + b + c + d) == Size(a) + Size(b) + Size(c) + Size(d)
  {
    SizeConcat(a, b);
    SizeConcat(a + b, c);
    SizeConcat(a + b + c, d);
  }

  lemma PacketHasSize(info: Info)
    requires Ports(info)
    ensures |EncodeHep3(info)| == PacketSize(info)
  {
    PartSizes(info);
    SizeOfParts(FirstChunks(info), AddressChunks(info), MiddleChunks(info), LastChunks(info));
    ChunksAscend(info);
    ChunkListSize(Chunks(info));
    HeaderReads(info);
  }

  /**
   * The announced length is right exactly when the packet stays under 64 KiB
   * and an IPv4 source is not traced with an IPv6 destination: the length is
   * computed from the source's family alone, the chunks from both.
   */
  lemma AnnouncedLengthIff(info: Info)
    requires Ports(info)
    ensures TotalLength(info) == |EncodeHep3(info)|
      <==> |EncodeHep3(info)| < 0x1_0000 && !(info.source.V4? && info.destination.V6?)
  {
    PacketHasSize(info);
    var correlation := if info.callId.Some? then 6 + |info.callId.value| else 0;
    var announced := 79 + (if info.source.V6? then 44 else 20) + |info.payload| + correlation;
    assert TotalLength(info) == announced % 0x1_0000;
  }

  lemma SmallPacketFits(info: Info)
    requires Ports(info) && |EncodeHep3(info)| < 0x1_0000
    ensures Fit(Chunks(info)) && 28 + |info.payload| < 0x1_0000
  {
    PacketHasSize(info);
  }

  /**
   * From the server's trace to the capture file: every IPv4 message whose trace
   * packet is under 64 KiB comes out as a frame that verifies and carries the
   * same addresses, ports and payload.
   */
  lemma BridgeIsFaithful(info: Info)
    requires Ports(info) && info.source.V4? && info.destination.V4? && |EncodeHep3(info)| < 0x1_0000
    ensures
      var c := Parse(EncodeHep3(info));
      && c.Some?
      && var frame := BuildFrame(c.value.src, c.value.dst, c.value.sport, c.value.dport, c.value.payload);
      && frame.Some? && |frame.value| == 42 + |info.payload|
      && var delivery, rest := Delivery(0, false, 64), frame.value[34..];
      && ReadFrame(frame.value) ==
          Some(Datagram(info.source.octets4, info.destination.octets4, UDP, 0, delivery, rest))
      && ReadUdp(info.source.octets4, info.destination.octets4, frame.value[34..]) ==
          Some(Segment(info.sport, info.dport, info.payload))
  {
    SmallPacketFits(info);
    TraceIsReadBack(info);
    FrameIsReadBack(info.source.octets4, info.destination.octets4, info.sport, info.dport, info.payload);
  }
}
