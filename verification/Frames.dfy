// Ethernet frames as a sender lays them out (section 3.1 of RFC 791, section 3 of RFC 8200),
// and what the classifier's parser makes of them.
module Frames {
  import opened Wrappers
  import opened Policy
  import opened TcProgram
  import Bits

  function Bytes16(n: U16): seq<U8> {
    [n / 256, n % 256]
  }

  // The first header fields of TCP and UDP, and what follows them.
  function Segment(sport: U16, dport: U16, rest: seq<U8>): seq<U8> {
    Bytes16(sport) + Bytes16(dport) + rest
  }

  function MinimumHeader(protocol: U8): nat {
    if protocol == IPPROTO_TCP then 20 else if protocol == IPPROTO_UDP then 8 else 0
  }

  datatype Header4 = Header4(
    ihl: U8, tosLengthId: seq<U8>, fragment: U16, ttl: U8, protocol: U8, checksum: seq<U8>,
    src: seq<U8>, dst: seq<U8>, options: seq<U8>)

  predicate WellFormed4(h: Header4) {
    && 5 <= h.ihl < 16 && |h.options| == 4 * (h.ihl - 5)
    && |h.tosLengthId| == 5 && |h.checksum| == 2 && |h.src| == 4 && |h.dst| == 4
  }

  function Frame4(macs: seq<U8>, h: Header4, segment: seq<U8>): seq<U8>
    requires |macs| == 12 && WellFormed4(h)
  {
    macs + [8, 0] + [64 + h.ihl] + h.tosLengthId + Bytes16(h.fragment) + [h.ttl, h.protocol] + h.checksum
    + h.src + h.dst + h.options + segment
  }

  // The more-fragments flag or a fragment offset.
  predicate IsFragment(h: Header4) {
    h.fragment % 0x4000 != 0
  }

  function ExpectedL4(protocol: U8, sport: U16, dport: U16, rest: seq<U8>): L4 {
    if MinimumHeader(protocol) == 0 then NoPorts
    else if 4 + |rest| < MinimumHeader(protocol) then Truncated
    else Ports(sport, dport)
  }

  lemma Be16ReadsBack(frame: seq<U8>, at: nat, n: U16)
    requires at + 2 <= |frame| && frame[at..at + 2] == Bytes16(n)
    ensures Be16(frame, at) == n
  {
    assert frame[at] == frame[at..at + 2][0] && frame[at + 1] == frame[at..at + 2][1];
  }

  lemma PortsReadBack(frame: seq<U8>, protocol: U8, at: nat, sport: U16, dport: U16, rest: seq<U8>)
    requires at <= |frame| && frame[at..] == Segment(sport, dport, rest)
    ensures ParsePorts(frame, protocol, at) == ExpectedL4(protocol, sport, dport, rest)
  {
    var s := Segment(sport, dport, rest);
    assert frame[at..at + 2] == s[..2] == Bytes16(sport);
    assert frame[at + 2..at + 4] == s[2..4] == Bytes16(dport);
    Be16ReadsBack(frame, at, sport);
    Be16ReadsBack(frame, at + 2, dport);
  }

  // Where the fields of an IPv4 frame are.
  lemma Fields4(macs: seq<U8>, h: Header4, segment: seq<U8>)
    requires |macs| == 12 && WellFormed4(h)
    ensures var f := Frame4(macs, h, segment);
            && |f| == 34 + |h.options| + |segment|
            && f[12..14] == [8, 0] && f[14] == 64 + h.ihl && f[20..22] == Bytes16(h.fragment)
            && f[23] == h.protocol && f[30..34] == h.dst && f[34 + |h.options|..] == segment
  {
  }

  // For every header and segment the parser sees the destination, the protocol, fragmentation
  // and the ports that were sent, and rejects exactly the unfragmented truncated segments.
  lemma Frame4ReadsBack(macs: seq<U8>, h: Header4, sport: U16, dport: U16, rest: seq<U8>)
    requires |macs| == 12 && WellFormed4(h)
    ensures var l4 := if IsFragment(h) then NoPorts else ExpectedL4(h.protocol, sport, dport, rest);
            Parse(Frame4(macs, h, Segment(sport, dport, rest)))
            == if l4.Truncated? then Malformed
               else Packet(IpData.Ip(Inet, Bits.OfBytes(h.dst)), h.protocol, IsFragment(h), l4, false)
  {
    var f := Frame4(macs, h, Segment(sport, dport, rest));
    Fields4(macs, h, Segment(sport, dport, rest));
    Be16ReadsBack(f, 12, 0x0800);
    Be16ReadsBack(f, 20, h.fragment);
    assert f[14] % 16 == h.ihl;
    PortsReadBack(f, h.protocol, 34 + |h.options|, sport, dport, rest);
  }

  datatype Header6 = Header6(classLabelLength: seq<U8>, next: U8, hops: U8, src: seq<U8>, dst: seq<U8>)

  predicate WellFormed6(h: Header6) {
    |h.classLabelLength| == 6 && |h.src| == 16 && |h.dst| == 16
  }

  function Frame6(macs: seq<U8>, h: Header6, segment: seq<U8>): seq<U8>
    requires |macs| == 12 && WellFormed6(h)
  {
    macs + [0x86, 0xDD] + h.classLabelLength + [h.next, h.hops] + h.src + h.dst + segment
  }

  lemma Fields6(macs: seq<U8>, h: Header6, segment: seq<U8>)
    requires |macs| == 12 && WellFormed6(h)
    ensures var f := Frame6(macs, h, segment);
            && |f| == 54 + |segment| && f[12..14] == [0x86, 0xDD] && f[20] == h.next
            && f[38..54] == h.dst && f[54..] == segment
  {
  }

  // The same for IPv6 without extension headers.
  lemma Frame6ReadsBack(macs: seq<U8>, h: Header6, sport: U16, dport: U16, rest: seq<U8>)
    requires |macs| == 12 && WellFormed6(h) && h.next != IPPROTO_ICMPV6
    ensures var l4 := ExpectedL4(h.next, sport, dport, rest);
            Parse(Frame6(macs, h, Segment(sport, dport, rest)))
            == if l4.Truncated? then Malformed
               else Packet(IpData.Ip(Inet6, Bits.OfBytes(h.dst)), h.next, false, l4, false)
  {
    var f := Frame6(macs, h, Segment(sport, dport, rest));
    Fields6(macs, h, Segment(sport, dport, rest));
    Be16ReadsBack(f, 12, 0x86DD);
    PortsReadBack(f, h.next, 54, sport, dport, rest);
  }

  // An ICMPv6 message of at least eight bytes is neighbour discovery by its type.
  lemma Icmp6ReadsBack(macs: seq<U8>, h: Header6, message: seq<U8>)
    requires |macs| == 12 && WellFormed6(h) && h.next == IPPROTO_ICMPV6
    ensures Parse(Frame6(macs, h, message))
            == Packet(IpData.Ip(Inet6, Bits.OfBytes(h.dst)), h.next, false, NoPorts,
                      |message| >= 8 && 133 <= message[0] <= 136)
  {
    var f := Frame6(macs, h, message);
    Fields6(macs, h, message);
    Be16ReadsBack(f, 12, 0x86DD);
    assert |message| >= 8 ==> f[54] == f[54..][0];
  }

  // On what the policy has no say: address configuration passes, broken frames and unknown
  // interfaces are dropped, and other protocols follow default_allow alone.
  lemma OutsideThePolicy(m: Maps, ifindex: U32, frame: seq<U8>)
    ensures var v, verdict := Parse(frame), Egress(m, ifindex, Parse(frame));
            && (ifindex !in m.id || v.Malformed? ==> verdict == Shot)
            && (ifindex in m.id && IsBootstrap(v) ==> verdict == Bootstrap)
            && (ifindex in m.id && v.OtherProtocol? ==> verdict == NonIp(m.id[ifindex].defaultAllow))
  {
  }

  /* Which frames pass before any policy, by their bytes. */

  predicate TypeBytes(frame: seq<U8>, a: U8, b: U8) {
    |frame| >= 14 && frame[12] == a && frame[13] == b
  }

  // The type field decides between the four readings.
  lemma TypeDecides(frame: seq<U8>)
    requires |frame| >= 14
    ensures TypeBytes(frame, 0x08, 0x06) ==> Parse(frame) == Arp
    ensures !TypeBytes(frame, 0x08, 0x06) && !TypeBytes(frame, 0x08, 0x00) && !TypeBytes(frame, 0x86, 0xDD) ==>
              Parse(frame) == OtherProtocol
  {
  }

  // ARP passes on every known interface; no other protocol than ARP and IP does by itself.
  lemma ArpPasses(m: Maps, ifindex: U32, frame: seq<U8>)
    requires ifindex in m.id && |frame| >= 14
    ensures TypeBytes(frame, 0x08, 0x06) ==> Egress(m, ifindex, Parse(frame)) == Bootstrap
    ensures !TypeBytes(frame, 0x08, 0x06) && !TypeBytes(frame, 0x08, 0x00) && !TypeBytes(frame, 0x86, 0xDD) ==>
              Egress(m, ifindex, Parse(frame)) == NonIp(m.id[ifindex].defaultAllow)
  {
    TypeDecides(frame);
  }

  // IPv4: under every configuration exactly the complete, unfragmented UDP segments between
  // ports 67 and 68.
  lemma Bootstrap4Iff(m: Maps, ifindex: U32, macs: seq<U8>, h: Header4, sport: U16, dport: U16, rest: seq<U8>)
    requires ifindex in m.id && |macs| == 12 && WellFormed4(h)
    ensures Egress(m, ifindex, Parse(Frame4(macs, h, Segment(sport, dport, rest)))) == Bootstrap
            <==> && h.protocol == 17 && h.fragment % 0x4000 == 0 && 4 + |rest| >= 8
                 && ((sport == 67 && dport == 68) || (sport == 68 && dport == 67))
  {
    Frame4ReadsBack(macs, h, sport, dport, rest);
  }

  // IPv6: UDP between ports 546 and 547 ...
  lemma Bootstrap6Iff(m: Maps, ifindex: U32, macs: seq<U8>, h: Header6, sport: U16, dport: U16, rest: seq<U8>)
    requires ifindex in m.id && |macs| == 12 && WellFormed6(h) && h.next != 58
    ensures Egress(m, ifindex, Parse(Frame6(macs, h, Segment(sport, dport, rest)))) == Bootstrap
            <==> && h.next == 17 && 4 + |rest| >= 8
                 && ((sport == 546 && dport == 547) || (sport == 547 && dport == 546))
  {
    Frame6ReadsBack(macs, h, sport, dport, rest);
  }

  // ... and neighbour and router discovery.
  lemma BootstrapIcmp6Iff(m: Maps, ifindex: U32, macs: seq<U8>, h: Header6, message: seq<U8>)
    requires ifindex in m.id && |macs| == 12 && WellFormed6(h) && h.next == 58
    ensures Egress(m, ifindex, Parse(Frame6(macs, h, message))) == Bootstrap
            <==> |message| >= 8 && 133 <= message[0] <= 136
  {
    Icmp6ReadsBack(macs, h, message);
  }

  // A frame too short for its headers, and any frame on an unknown interface, is dropped.
  lemma BrokenFramesAreShot(m: Maps, ifindex: U32, frame: seq<U8>)
    ensures |frame| < 14 || ifindex !in m.id ==> Egress(m, ifindex, Parse(frame)) == Shot
    ensures TypeBytes(frame, 0x08, 0x00) && |frame| < 34 ==> Egress(m, ifindex, Parse(frame)) == Shot
    ensures TypeBytes(frame, 0x08, 0x00) && |frame| >= 34
            && (frame[14] % 16 < 5 || 14 + frame[14] % 16 * 4 > |frame|) ==>
              Egress(m, ifindex, Parse(frame)) == Shot
    ensures TypeBytes(frame, 0x86, 0xDD) && |frame| < 54 ==> Egress(m, ifindex, Parse(frame)) == Shot
  {
  }
}
