// The VM-edge TC classifier: parsing a frame, looking it up in the policy maps, judging it.
module TcProgram {
  import opened Wrappers
  import opened Policy
  import opened Lpm
  import Bits
  import LittleEndian

  // struct iface_config
  datatype Config = Config(
    identity: U32,
    defaultAllow: bool,
    enforceCidr: bool,
    enforceL4: bool,
    sampleRate: U32,
    rateBytes: U64,
    ratePackets: U64)

  // The policy maps of one loaded program: fluxvm_id, fluxvm_v4, fluxvm_v6, fluxvm_l4.
  datatype Maps = Maps(id: map<U32, Config>, v4: Table, v6: Table, l4: Table)

  const EmptyMaps := Maps(map[], map[], map[], map[])

  /* Frames. Every read below is within the frame: what the kernel's verifier demands. */

  const ETH_HLEN := 14
  const ETH_P_IP := 0x0800
  const ETH_P_ARP := 0x0806
  const ETH_P_IPV6 := 0x86DD
  const IPPROTO_ICMPV6: U8 := 58

  function Be16(frame: seq<U8>, at: nat): U16
    requires at + 2 <= |frame|
  {
    frame[at] as int * 256 + frame[at + 1] as int
  }

  datatype L4 = Truncated | NoPorts | Ports(sport: U16, dport: U16)

  // parse_ports4 / parse_ports6
  function ParsePorts(frame: seq<U8>, protocol: U8, at: nat): L4 {
    if protocol == IPPROTO_TCP then
      if at + 20 > |frame| then Truncated else Ports(Be16(frame, at), Be16(frame, at + 2))
    else if protocol == IPPROTO_UDP then
      if at + 8 > |frame| then Truncated else Ports(Be16(frame, at), Be16(frame, at + 2))
    else NoPorts
  }

  datatype View =
    | Malformed
    | Arp
    | OtherProtocol
    | Packet(dst: Ip, protocol: U8, fragmented: bool, l4: L4, ndp: bool)

  function Parse4(frame: seq<U8>): View
    requires |frame| >= ETH_HLEN
  {
    if |frame| < ETH_HLEN + 20 || frame[14] % 16 < 5 then Malformed
    else
      var at := ETH_HLEN + frame[14] % 16 * 4;
      if at > |frame| then Malformed
      else
        // MF or a fragment offset: `frag_off & 0x3fff`
        var fragmented := Be16(frame, 20) % 0x4000 != 0;
        var l4 := if fragmented then NoPorts else ParsePorts(frame, frame[23], at);
        if l4.Truncated? then Malformed
        else Packet(IpData.Ip(Inet, Bits.OfBytes(frame[30..34])), frame[23], fragmented, l4, false)
  }

  function Parse6(frame: seq<U8>): View
    requires |frame| >= ETH_HLEN
  {
    if |frame| < ETH_HLEN + 40 then Malformed
    else
      var l4 := ParsePorts(frame, frame[20], 54);
      if l4.Truncated? then Malformed
      else
        var ndp := frame[20] == IPPROTO_ICMPV6 && 54 + 8 <= |frame| && 133 <= frame[54] <= 136;
        Packet(IpData.Ip(Inet6, Bits.OfBytes(frame[38..54])), frame[20], false, l4, ndp)
  }

  function Parse(frame: seq<U8>): View {
    if |frame| < ETH_HLEN then Malformed
    else
      var proto := Be16(frame, 12);
      if proto == ETH_P_ARP then Arp
      else if proto == ETH_P_IP then Parse4(frame)
      else if proto == ETH_P_IPV6 then Parse6(frame)
      else OtherProtocol
  }

  predicate IsDhcp(p: View)
    requires p.Packet?
  {
    p.protocol == IPPROTO_UDP && p.l4.Ports? &&
    var (s, d) := (p.l4.sport, p.l4.dport);
    if p.dst.family.Inet? then (s == 67 && d == 68) || (s == 68 && d == 67)
    else (s == 546 && d == 547) || (s == 547 && d == 546)
  }

  // Address configuration traffic, admitted before any policy.
  predicate IsBootstrap(v: View) {
    v.Arp? || (v.Packet? && (v.ndp || IsDhcp(v)))
  }

  // The destination port a policy can see.
  function VisiblePort(p: View): Option<PortRule>
    requires p.Packet?
  {
    if p.l4.Ports? then Some(PortRule(p.protocol, p.l4.dport)) else None
  }

  /* Map keys, byte for byte as the loader writes them. */

  function IdentityBits(identity: U32): (r: seq<bool>)
    ensures |r| == 32
  {
    Bits.OfBytes(LittleEndian.Encode(identity, 4))
  }

  // struct l4_key: identity, port, protocol, pad
  function L4Key(identity: U32, r: PortRule): seq<bool> {
    Bits.OfBytes(LittleEndian.Encode(identity, 4) + LittleEndian.Encode(r.port, 2) + [r.protocol, 0])
  }

  lemma IdentityBitsInjective(i: U32, j: U32)
    requires IdentityBits(i) == IdentityBits(j)
    ensures i == j
  {
    Bits.OfBytesInjective(LittleEndian.Encode(i, 4), LittleEndian.Encode(j, 4));
    LittleEndian.WidthOf(i);
    LittleEndian.WidthOf(j);
    LittleEndian.EncodeInjective(i, j, 4);
  }

  lemma L4KeyInjective(i: U32, a: PortRule, j: U32, b: PortRule)
    requires L4Key(i, a) == L4Key(j, b)
    ensures i == j && a == b
  {
    var x := LittleEndian.Encode(i, 4) + LittleEndian.Encode(a.port, 2) + [a.protocol, 0];
    var y := LittleEndian.Encode(j, 4) + LittleEndian.Encode(b.port, 2) + [b.protocol, 0];
    Bits.OfBytesInjective(x, y);
    assert x[..4] == LittleEndian.Encode(i, 4) && y[..4] == LittleEndian.Encode(j, 4);
    IdentityBitsInjective(i, j);
    assert x[4..6] == LittleEndian.Encode(a.port, 2) && y[4..6] == LittleEndian.Encode(b.port, 2);
    assert x[6] == a.protocol && y[6] == b.protocol;
    LittleEndian.WidthOf(a.port);
    LittleEndian.WidthOf(b.port);
    LittleEndian.EncodeInjective(a.port, b.port, 2);
  }

  // cidr_allowed4 / cidr_allowed6
  predicate CidrHit(m: Maps, identity: U32, v: View) {
    v.Packet? && Hit(if v.dst.family.Inet? then m.v4 else m.v6, IdentityBits(identity) + v.dst.bits)
  }

  // l4_allowed, asked only when ports were parsed
  predicate L4Hit(m: Maps, identity: U32, v: View) {
    v.Packet? && v.l4.Ports? &&
    var key := L4Key(identity, PortRule(v.protocol, v.l4.dport));
    key in m.l4 && m.l4[key] != 0
  }

  datatype Verdict =
    | Shot                    // TC_ACT_SHOT before any judgement
    | Bootstrap               // TC_ACT_OK before any policy
    | NonIp(allowed: bool)    // judged by default_allow alone
    | Judged(allowed: bool)   // judged by policy; still subject to the rate limit

  // The decision, given the answers of the two allowlist lookups.
  function Judge(cfg: Config, v: View, cidrHit: bool, l4Hit: bool): Verdict {
    match v
    case Malformed => Shot
    case Arp => Bootstrap
    case OtherProtocol => NonIp(cfg.defaultAllow)
    case Packet(dst, _, fragmented, l4, ndp) =>
      if dst.family.Inet? && fragmented && cfg.enforceL4 then Judged(false)
      else if ndp || IsDhcp(v) then Bootstrap
      else
        var allowed := if cfg.enforceCidr || cfg.enforceL4 then true else cfg.defaultAllow;
        var allowed := if cfg.enforceCidr then allowed && cidrHit else allowed;
        var allowed := if cfg.enforceL4 then allowed && l4.Ports? && l4Hit else allowed;
        Judged(allowed)
  }

  // fluxvm_egress up to the rate limiter. The three lookups may see three different map
  // states: `c` answers the interface lookup, `t` the CIDR lookup, `l` the port lookup.
  function EgressAcross(c: Maps, t: Maps, l: Maps, ifindex: U32, v: View): Verdict {
    if ifindex !in c.id then Shot
    else
      var cfg := c.id[ifindex];
      Judge(cfg, v, CidrHit(t, cfg.identity, v), L4Hit(l, cfg.identity, v))
  }

  function Egress(m: Maps, ifindex: U32, v: View): Verdict {
    EgressAcross(m, m, m, ifindex, v)
  }

  // A packet on which the policy has a say, and which it lets through.
  predicate AllowedByPolicy(verdict: Verdict) {
    verdict.Judged? && verdict.allowed
  }

  /* The 40 bytes of struct iface_config. */

  function Flag(b: bool): nat {
    if b then 1 else 0
  }

  // A field of a packed record: its value and its width in bytes.
  datatype Field = Field(value: nat, width: nat)

  function Layout(fields: seq<Field>): seq<U8> {
    if fields == [] then [] else LittleEndian.Encode(fields[0].value, fields[0].width) + Layout(fields[1..])
  }

  function Offset(fields: seq<Field>, k: nat): nat
    requires k <= |fields|
  {
    if k == 0 then 0 else fields[0].width + Offset(fields[1..], k - 1)
  }

  // update_iface_config: 6 x u32, then 2 x u64
  function ConfigFields(c: Config): seq<Field> {
    [Field(c.identity, 4), Field(Flag(c.defaultAllow), 4), Field(Flag(c.enforceCidr), 4), Field(Flag(c.enforceL4), 4),
     Field(c.sampleRate, 4), Field(0, 4), Field(c.rateBytes, 8), Field(c.ratePackets, 8)]
  }

  function ConfigBytes(c: Config): seq<U8> {
    Layout(ConfigFields(c))
  }

  // The fields at the offsets the C compiler gives them; flags are tested for being non-zero.
  function FieldAt(bytes: seq<U8>, at: nat, width: nat): nat
    requires at + width <= |bytes|
  {
    LittleEndian.Decode(bytes[at..at + width])
  }

  lemma {:induction false} FieldReadsBack(fields: seq<Field>, k: nat)
    requires k < |fields| && fields[k].value < LittleEndian.Pow256(fields[k].width)
    ensures Offset(fields, k) + fields[k].width <= |Layout(fields)|
    ensures FieldAt(Layout(fields), Offset(fields, k), fields[k].width) == fields[k].value
  {
    var head, rest := LittleEndian.Encode(fields[0].value, fields[0].width), Layout(fields[1..]);
    assert Layout(fields) == head + rest;
    if k == 0 {
      HeadSlice(head, rest);
      LittleEndian.DecodeEncode(fields[0].value, fields[0].width);
    } else {
      FieldReadsBack(fields[1..], k - 1);
      RestSlice(head, rest, Offset(fields[1..], k - 1), fields[k].width);
    }
  }

  lemma HeadSlice(head: seq<U8>, rest: seq<U8>)
    ensures (head + rest)[0..|head|] == head
  {
  }

  lemma RestSlice(head: seq<U8>, rest: seq<U8>, at: nat, width: nat)
    requires at + width <= |rest|
    ensures (head + rest)[|head| + at..|head| + at + width] == rest[at..at + width]
  {
  }

  // The C struct's offsets are where the loader's fields land.
  lemma ConfigOffsets(c: Config)
    ensures var f := ConfigFields(c);
            && Offset(f, 1) == 4 && Offset(f, 2) == 8 && Offset(f, 3) == 12 && Offset(f, 4) == 16
            && Offset(f, 6) == 24 && Offset(f, 7) == 32
  {
    var f := ConfigFields(c);
    assert forall k :: 0 <= k < 8 ==> f[k..][1..] == f[k + 1..];
    forall k | 0 <= k < 8 ensures Offset(f[k..], 1) == f[k].width {}
    OffsetSplits(f, 1, 1);
    OffsetSplits(f, 2, 1);
    OffsetSplits(f, 3, 1);
    OffsetSplits(f, 4, 1);
    OffsetSplits(f, 5, 1);
    OffsetSplits(f, 6, 1);
  }

  lemma {:induction false} OffsetSplits(fields: seq<Field>, a: nat, b: nat)
    requires a + b <= |fields|
    ensures Offset(fields, a + b) == Offset(fields, a) + Offset(fields[a..], b)
  {
    if a > 0 {
      OffsetSplits(fields[1..], a - 1, b);
      assert fields[1..][a - 1..] == fields[a..];
    } else {
      assert fields[0..] == fields;
    }
  }

  lemma ConfigFieldReadsBack(c: Config, k: nat)
    requires k < 8
    ensures var f := ConfigFields(c);
            && Offset(f, k) + f[k].width <= |ConfigBytes(c)|
            && FieldAt(ConfigBytes(c), Offset(f, k), f[k].width) == f[k].value
  {
    LittleEndian.WidthOf(ConfigFields(c)[k].value);
    FieldReadsBack(ConfigFields(c), k);
  }

  // What the loader writes is what the classifier reads.
  lemma ConfigBytesReadBack(c: Config)
    ensures var b := ConfigBytes(c);
            && |b| >= 40
            && FieldAt(b, 0, 4) == c.identity
            && (FieldAt(b, 4, 4) != 0 <==> c.defaultAllow)
            && (FieldAt(b, 8, 4) != 0 <==> c.enforceCidr)
            && (FieldAt(b, 12, 4) != 0 <==> c.enforceL4)
            && FieldAt(b, 16, 4) == c.sampleRate
            && FieldAt(b, 24, 8) == c.rateBytes
            && FieldAt(b, 32, 8) == c.ratePackets
  {
    ConfigOffsets(c);
    ConfigFieldReadsBack(c, 0);
    ConfigFieldReadsBack(c, 1);
    ConfigFieldReadsBack(c, 2);
    ConfigFieldReadsBack(c, 3);
    ConfigFieldReadsBack(c, 4);
    ConfigFieldReadsBack(c, 6);
    ConfigFieldReadsBack(c, 7);
  }
}
