/**
 * The IPv4, UDP and TCP framing of the two capture generators, and what a
 * receiver that checks lengths and checksums reads back from it.
 */
module Packets {
  import opened ByteStrings
  import opened Common
  import opened InternetChecksum
  import opened WireBytes

  type Address = s: seq<Byte> | |s| == 4 witness [0, 0, 0, 0]

  const UDP: Byte := 17
  const TCP: Byte := 6

  // ----- the senders -----

  /** The ten bytes before an IPv4 header's checksum. */
  function Front(total: nat, ident: nat, fragment: nat, protocol: Byte): (s: seq<Byte>)
    requires total < 0x1_0000 && ident < 0x1_0000 && fragment < 0x1_0000
    ensures |s| == 10
  {
    [0x45, 0] + Be16(total) + Be16(ident) + Be16(fragment) + [64, protocol]
  }

  /** Nothing where a field does not fit. */
  function Ipv4(src: Address, dst: Address, protocol: nat, payload: seq<Byte>, ident: nat): Option<seq<Byte>> {
    var total := 20 + |payload|;
    if total > 65535 || ident > 65535 || protocol > 255 then None
    else
      var header := Front(total, ident, 0x4000, protocol) + Be16(0) + (src + dst);
      Some(Patch(header, 10, Checksum(header)) + payload)
  }

  /** What a segment's checksum covers in front of it. */
  function Pseudo(src: Address, dst: Address, protocol: Byte, length: nat): (s: seq<Byte>)
    requires length < 0x1_0000
    ensures |s| == 12
  {
    src + dst + [0, protocol] + Be16(length)
  }

  /** The checksum over the pseudo-header and a segment of up to 65535 bytes. */
  function L4Checksum(src: Address, dst: Address, protocol: Byte, segment: seq<Byte>): (r: nat)
    requires |segment| < 0x1_0000
    ensures r <= 65535
  {
    Checksum(Pseudo(src, dst, protocol, |segment|) + segment)
  }

  function Udp(sport: nat, dport: nat, payload: seq<Byte>, src: Address, dst: Address): Option<seq<Byte>> {
    if sport > 65535 || dport > 65535 || 8 + |payload| > 65535 then None
    else
      var segment := Be16(sport) + Be16(dport) + Be16(8 + |payload|) + Be16(0) + payload;
      var sum := L4Checksum(src, dst, UDP, segment);
      Some(Patch(segment, 6, if sum == 0 then 65535 else sum))
  }

  /** The sixteen bytes before a TCP segment's checksum: no options, the widest window. */
  function TcpFront(sport: nat, dport: nat, number: U32, ack: U32, flags: Byte): (s: seq<Byte>)
    requires sport < 0x1_0000 && dport < 0x1_0000
    ensures |s| == 16
  {
    Be16(sport) + Be16(dport) + Be32(number) + Be32(ack) + [0x50, flags] + Be16(65535)
  }

  function Tcp(sport: nat, dport: nat, number: nat, ack: nat, flags: nat, payload: seq<Byte>, src: Address,
      dst: Address): Option<seq<Byte>> {
    if sport > 65535 || dport > 65535 || number >= U32_MODULUS || ack >= U32_MODULUS || flags > 255 ||
        20 + |payload| > 65535 then None
    else
      var segment := TcpFront(sport, dport, number, ack, flags) + Be16(0) + (Be16(0) + payload);
      Some(Patch(segment, 16, L4Checksum(src, dst, TCP, segment)))
  }

  // ----- the receiver -----

  /** What a header says besides addresses and payload: the service byte, whether the datagram may be cut up, and
      how many hops it may take. */
  datatype Delivery = Delivery(service: Byte, dontFragment: bool, hops: Byte)

  datatype Datagram = Datagram(src: seq<Byte>, dst: seq<Byte>, protocol: Byte, ident: nat, delivery: Delivery,
      payload: seq<Byte>)

  /** Section 3.1 of RFC 791, for a header without options: version and length, a total that is the packet's, no
      fragment, hops left, and a checksum that verifies. */
  function ReadIpv4(packet: seq<Byte>): Option<Datagram> {
    if |packet| < 20 || packet[0] != 0x45 || Read16(packet, 2) != |packet| || Checksum(packet[..20]) != 0 then None
    else if Read16(packet, 6) !in {0, 0x4000} || packet[8] == 0 then None
    else
      var delivery := Delivery(packet[1], Read16(packet, 6) == 0x4000, packet[8]);
      Some(Datagram(packet[12..16], packet[16..20], packet[9], Read16(packet, 4), delivery, packet[20..]))
  }

  /** An Ethernet frame, taken if it carries IPv4. */
  function ReadFrame(frame: seq<Byte>): Option<Datagram> {
    if |frame| < 14 || Read16(frame, 12) != 0x0800 then None else ReadIpv4(frame[14..])
  }

  datatype Segment = Segment(sport: nat, dport: nat, payload: seq<Byte>)

  /** RFC 768: a zero checksum field means the sender computed none. */
  function ReadUdp(src: Address, dst: Address, segment: seq<Byte>): Option<Segment> {
    if |segment| < 8 || Read16(segment, 4) != |segment| then None
    else if Read16(segment, 6) != 0 && L4Checksum(src, dst, UDP, segment) != 0 then None
    else Some(Segment(Read16(segment, 0), Read16(segment, 2), segment[8..]))
  }

  datatype Stream = Stream(sport: nat, dport: nat, number: U32, ack: U32, flags: Byte, window: nat, payload: seq<Byte>)

  /** Section 3.1 of RFC 793, for a header without options. */
  function ReadTcp(src: Address, dst: Address, segment: seq<Byte>): Option<Stream> {
    if |segment| < 20 || |segment| > 65535 || segment[12] != 0x50 || L4Checksum(src, dst, TCP, segment) != 0 then None
    else Some(Stream(Read16(segment, 0), Read16(segment, 2), Read32(segment, 4), Read32(segment, 8), segment[13],
        Read16(segment, 14), segment[20..]))
  }

  // ----- what is sent is read back -----

  lemma PatchMiddle(front: seq<Byte>, a: nat, b: nat, rest: seq<Byte>)
    requires a < 0x1_0000 && b < 0x1_0000
    ensures Patch(front + Be16(a) + rest, |front|, b) == front + Be16(b) + rest
  {
    var data := front + Be16(a) + rest;
    assert data[..|front|] == front && data[|front| + 2..] == rest;
  }

  lemma FieldIsZero(front: seq<Byte>, rest: seq<Byte>)
    ensures Read16(front + Be16(0) + rest, |front|) == 0
  {
  }

  /** The checksum written over a zeroed field verifies. */
  lemma FilledIn(front: seq<Byte>, rest: seq<Byte>, word: nat)
    requires |front| % 2 == 0 && |front| + 2 + |rest| <= 131076 && word < 0x1_0000
    requires
      var sum := Checksum(front + Be16(0) + rest);
      word == sum || (sum == 0 && word == 65535)
    ensures Checksum(front + Be16(word) + rest) == 0
  {
    var zeroed := front + Be16(0) + rest;
    FieldIsZero(front, rest);
    FieldVerifiesIff(zeroed, |front|, word);
    PatchMiddle(front, 0, word, rest);
  }

  /** The same where the sum also covers a pseudo-header. */
  lemma FilledInBehind(pseudo: seq<Byte>, front: seq<Byte>, rest: seq<Byte>, word: nat)
    requires |pseudo| % 2 == 0 && |front| % 2 == 0 && |pseudo| + |front| + 2 + |rest| <= 131076 && word < 0x1_0000
    requires
      var sum := Checksum(pseudo + (front + Be16(0) + rest));
      word == sum || (sum == 0 && word == 65535)
    ensures Checksum(pseudo + (front + Be16(word) + rest)) == 0
  {
    Regroup(pseudo, front, Be16(0), rest);
    Regroup(pseudo, front, Be16(word), rest);
    FilledIn(pseudo + front, rest, word);
  }

  lemma Regroup(a: seq<Byte>, b: seq<Byte>, c: seq<Byte>, d: seq<Byte>)
    ensures a + (b + c + d) == (a + b) + c + d
  {
  }

  lemma HeaderReads(total: nat, ident: nat, fragment: nat, protocol: Byte, sum: nat, addresses: seq<Byte>,
      payload: seq<Byte>)
    requires total < 0x1_0000 && ident < 0x1_0000 && fragment < 0x1_0000 && sum < 0x1_0000
    requires |addresses| == 8 && total == 20 + |payload|
    requires Checksum(Front(total, ident, fragment, protocol) + Be16(sum) + addresses) == 0
    requires fragment == 0 || fragment == 0x4000
    ensures ReadIpv4(Front(total, ident, fragment, protocol) + Be16(sum) + addresses + payload)
      == Some(Datagram(addresses[..4], addresses[4..], protocol, ident, Delivery(0, fragment == 0x4000, 64), payload))
  {
    var front := Front(total, ident, fragment, protocol);
    var header := front + Be16(sum) + addresses;
    var packet := header + payload;
    assert packet[..20] == header && packet[20..] == payload;
    assert packet[12..16] == addresses[..4] && packet[16..20] == addresses[4..];
    assert packet[..10] == front;
    FrontReads(packet, total, ident, fragment, protocol);
  }

  lemma FrontReads(packet: seq<Byte>, total: nat, ident: nat, fragment: nat, protocol: Byte)
    requires total < 0x1_0000 && ident < 0x1_0000 && fragment < 0x1_0000
    requires |packet| >= 10 && packet[..10] == Front(total, ident, fragment, protocol)
    ensures packet[0] == 0x45 && Read16(packet, 2) == total && Read16(packet, 4) == ident && packet[9] == protocol
    ensures packet[1] == 0 && Read16(packet, 6) == fragment && packet[8] == 64
  {
    var front := packet[..10];
    assert forall i :: 0 <= i < 10 ==> front[i] == packet[i];
    assert front[0] == packet[0] && front[1] == packet[1] && front[2] == packet[2] && front[3] == packet[3];
    assert front[4] == packet[4] && front[5] == packet[5] && front[6] == packet[6] && front[7] == packet[7];
    assert front[8] == packet[8] && front[9] == packet[9];
  }

  /** Every datagram whose fields fit is accepted by the receiver, fields and payload intact. */
  lemma {:induction false} Ipv4IsReadBack(src: Address, dst: Address, protocol: nat, payload: seq<Byte>, ident: nat)
    ensures
      var packet := Ipv4(src, dst, protocol, payload, ident);
      && (packet.Some? <==> 20 + |payload| <= 65535 && ident <= 65535 && protocol <= 255)
      && (packet.Some? ==>
            ReadIpv4(packet.value) == Some(Datagram(src, dst, protocol, ident, Delivery(0, true, 64), payload)))
  {
    if 20 + |payload| > 65535 || ident > 65535 || protocol > 255 {
      return;
    }
    var front := Front(20 + |payload|, ident, 0x4000, protocol);
    var sum := Checksum(front + Be16(0) + (src + dst));
    PatchMiddle(front, 0, sum, src + dst);
    FilledIn(front, src + dst, sum);
    assert (src + dst)[..4] == src && (src + dst)[4..] == dst;
    HeaderReads(20 + |payload|, ident, 0x4000, protocol, sum, src + dst, payload);
  }

  lemma UdpReads(src: Address, dst: Address, sport: nat, dport: nat, sum: nat, payload: seq<Byte>)
    requires sport < 0x1_0000 && dport < 0x1_0000 && sum < 0x1_0000 && 8 + |payload| <= 65535
    requires
      var segment := Be16(sport) + Be16(dport) + Be16(8 + |payload|) + Be16(sum) + payload;
      sum == 0 || L4Checksum(src, dst, UDP, segment) == 0
    ensures ReadUdp(src, dst, Be16(sport) + Be16(dport) + Be16(8 + |payload|) + Be16(sum) + payload) ==
        Some(Segment(sport, dport, payload))
  {
    var segment := Be16(sport) + Be16(dport) + Be16(8 + |payload|) + Be16(sum) + payload;
    assert segment[8..] == payload;
  }

  /**
   * A UDP segment carries its payload to the receiver, odd lengths included, and
   * its checksum field is never the zero that would switch the check off.
   */
  lemma UdpIsReadBack(src: Address, dst: Address, sport: nat, dport: nat, payload: seq<Byte>)
    ensures
      var segment := Udp(sport, dport, payload, src, dst);
      && (segment.Some? <==> sport <= 65535 && dport <= 65535 && 8 + |payload| <= 65535)
      && (segment.Some? ==>
            && |segment.value| == 8 + |payload|
            && Read16(segment.value, 6) != 0 && L4Checksum(src, dst, UDP, segment.value) == 0
            && ReadUdp(src, dst, segment.value) == Some(Segment(sport, dport, payload)))
  {
    if sport > 65535 || dport > 65535 || 8 + |payload| > 65535 {
      return;
    }
    var front := Be16(sport) + Be16(dport) + Be16(8 + |payload|);
    var zeroed := front + Be16(0) + payload;
    var sum := L4Checksum(src, dst, UDP, zeroed);
    var word := if sum == 0 then 65535 else sum;
    PatchMiddle(front, 0, word, payload);
    FilledInBehind(Pseudo(src, dst, UDP, |zeroed|), front, payload, word);
    UdpReads(src, dst, sport, dport, word, payload);
  }

  lemma TcpReads(src: Address, dst: Address, sport: nat, dport: nat, number: U32, ack: U32, flags: Byte, sum: nat,
      payload: seq<Byte>)
    requires sport < 0x1_0000 && dport < 0x1_0000 && sum < 0x1_0000 && 20 + |payload| <= 65535
    requires L4Checksum(src, dst, TCP, TcpFront(sport, dport, number, ack, flags) + Be16(sum) +
        (Be16(0) + payload)) == 0
    ensures ReadTcp(src, dst, TcpFront(sport, dport, number, ack, flags) + Be16(sum) + (Be16(0) + payload))
      == Some(Stream(sport, dport, number, ack, flags, 65535, payload))
  {
    var front := TcpFront(sport, dport, number, ack, flags);
    var segment := front + Be16(sum) + (Be16(0) + payload);
    assert segment[20..] == payload;
    assert segment[..16] == front;
    TcpFrontReads(segment, sport, dport, number, ack, flags);
  }

  lemma TcpFrontReads(segment: seq<Byte>, sport: nat, dport: nat, number: U32, ack: U32, flags: Byte)
    requires sport < 0x1_0000 && dport < 0x1_0000
    requires |segment| >= 16 && segment[..16] == TcpFront(sport, dport, number, ack, flags)
    ensures Read16(segment, 0) == sport && Read16(segment, 2) == dport
    ensures Read32(segment, 4) == number && Read32(segment, 8) == ack
    ensures segment[12] == 0x50 && segment[13] == flags && Read16(segment, 14) == 65535
  {
    var front := segment[..16];
    assert Holds(segment, 4, Be32(number)) by {
      assert front[4..8] == Be32(number);
    }
    assert Holds(segment, 8, Be32(ack)) by {
      assert front[8..12] == Be32(ack);
    }
    Read32Back(segment, 4, number);
    Read32Back(segment, 8, ack);
    assert segment[0] == front[0] && segment[1] == front[1] && segment[2] == front[2] && segment[3] == front[3];
    assert segment[12] == front[12] && segment[13] == front[13];
    assert segment[14] == front[14] && segment[15] == front[15];
  }

  /** A TCP segment carries its payload to the receiver, odd lengths included. */
  lemma TcpIsReadBack(src: Address, dst: Address, sport: nat, dport: nat, number: nat, ack: nat, flags: nat,
      payload: seq<Byte>)
    ensures
      var segment := Tcp(sport, dport, number, ack, flags, payload, src, dst);
      && (segment.Some? <==>
          && sport <= 65535 && dport <= 65535 && number < U32_MODULUS && ack < U32_MODULUS && flags <= 255
          && 20 + |payload| <= 65535)
      && (segment.Some? ==>
            && |segment.value| == 20 + |payload|
            && ReadTcp(src, dst, segment.value) == Some(Stream(sport, dport, number, ack, flags, 65535, payload)))
  {
    if Tcp(sport, dport, number, ack, flags, payload, src, dst).None? {
      return;
    }
    var front, rest := TcpFront(sport, dport, number, ack, flags), Be16(0) + payload;
    var zeroed := front + Be16(0) + rest;
    var sum := L4Checksum(src, dst, TCP, zeroed);
    PatchMiddle(front, 0, sum, rest);
    FilledInBehind(Pseudo(src, dst, TCP, |zeroed|), front, rest, sum);
    TcpReads(src, dst, sport, dport, number, ack, flags, sum, payload);
  }

  // ----- the trace bridge's frames -----

  /** Zeroed hardware addresses and the IPv4 ethertype. */
  const ETHERNET: seq<Byte> := [0, 0, 0, 0, 0, 0, 0, 0, 0, 0, 0, 0, 8, 0]

  /** A frame around a traced payload; addresses come as they were received, whatever their length. */
  function BuildFrame(src: seq<Byte>, dst: seq<Byte>, sport: nat, dport: nat, payload: seq<Byte>): Option<seq<Byte>> {
    if sport > 65535 || dport > 65535 || 28 + |payload| > 65535 || (|src| + |dst|) % 2 != 0 then None
    else
      var udp := Be16(sport) + Be16(dport) + Be16(8 + |payload|) + Be16(0) + payload;
      var header := Front(28 + |payload|, 0, 0, UDP) + Be16(0) + (src + dst);
      Some(ETHERNET + (Patch(header, 10, Checksum(header)) + udp))
  }

  /** The bytes the builder sums verify in every frame, however long the addresses are. */
  lemma FrameHeaderVerifies(src: seq<Byte>, dst: seq<Byte>, sport: nat, dport: nat, payload: seq<Byte>)
    requires |src| <= 65529 && |dst| <= 65529
    requires BuildFrame(src, dst, sport, dport, payload).Some?
    ensures
      var frame := BuildFrame(src, dst, sport, dport, payload).value;
      |frame| >= 26 + |src| + |dst| && Checksum(frame[14..26 + |src| + |dst|]) == 0
  {
    var front := Front(28 + |payload|, 0, 0, UDP);
    var sum := Checksum(front + Be16(0) + (src + dst));
    var header := front + Be16(sum) + (src + dst);
    PatchMiddle(front, 0, sum, src + dst);
    FilledIn(front, src + dst, sum);
    var frame := BuildFrame(src, dst, sport, dport, payload).value;
    assert frame[14..26 + |src| + |dst|] == header;
  }

  /**
   * A receiver accepts a frame exactly when its two addresses have eight bytes
   * together, and then reads the first four and the last four of them: for
   * every other length the announced total is not the packet's.
   */
  lemma FrameIsAcceptedIff(src: seq<Byte>, dst: seq<Byte>, sport: nat, dport: nat, payload: seq<Byte>)
    ensures
      var built := BuildFrame(src, dst, sport, dport, payload);
      && (built.Some? <==> sport <= 65535 && dport <= 65535 && 28 + |payload| <= 65535 && |src + dst| % 2 == 0)
      && (built.Some? ==>
            var frame := built.value;
            && (ReadFrame(frame).Some? <==> |src + dst| == 8)
            && (|src + dst| == 8 ==>
                  ReadFrame(frame) ==
                  Some(Datagram((src + dst)[..4], (src + dst)[4..], UDP, 0, Delivery(0, false, 64), frame[34..]))))
  {
    if BuildFrame(src, dst, sport, dport, payload).None? {
      return;
    }
    var udp := Be16(sport) + Be16(dport) + Be16(8 + |payload|) + Be16(0) + payload;
    var front := Front(28 + |payload|, 0, 0, UDP);
    var sum := Checksum(front + Be16(0) + (src + dst));
    var packet := front + Be16(sum) + (src + dst) + udp;
    var frame := BuildFrame(src, dst, sport, dport, payload).value;
    PatchMiddle(front, 0, sum, src + dst);
    assert frame[14..] == packet;
    if |src + dst| == 8 {
      FilledIn(front, src + dst, sum);
      HeaderReads(28 + |payload|, 0, 0, UDP, sum, src + dst, udp);
      assert frame[34..] == udp;
    } else {
      assert packet[..10] == front;
      FrontReads(packet, 28 + |payload|, 0, 0, UDP);
    }
  }

  /** A frame around IPv4 addresses is read back as the datagram it stands for. */
  lemma FrameIsReadBack(src: Address, dst: Address, sport: nat, dport: nat, payload: seq<Byte>)
    requires sport <= 65535 && dport <= 65535 && 28 + |payload| <= 65535
    ensures
      var frame := BuildFrame(src, dst, sport, dport, payload);
      && frame.Some? && |frame.value| == 42 + |payload|
      && ReadFrame(frame.value) == Some(Datagram(src, dst, UDP, 0, Delivery(0, false, 64), frame.value[34..]))
      && ReadUdp(src, dst, frame.value[34..]) == Some(Segment(sport, dport, payload))
  {
    var udp := Be16(sport) + Be16(dport) + Be16(8 + |payload|) + Be16(0) + payload;
    var front := Front(28 + |payload|, 0, 0, UDP);
    var sum := Checksum(front + Be16(0) + (src + dst));
    var packet := front + Be16(sum) + (src + dst) + udp;
    PatchMiddle(front, 0, sum, src + dst);
    FilledIn(front, src + dst, sum);
    assert (src + dst)[..4] == src && (src + dst)[4..] == dst;
    HeaderReads(28 + |payload|, 0, 0, UDP, sum, src + dst, udp);
    UdpReads(src, dst, sport, dport, 0, payload);
    assert (ETHERNET + packet)[14..] == packet;
    assert (ETHERNET + packet)[34..] == udp;
  }
}
