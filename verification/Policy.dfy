// The operator's network policy: parsing, validation and its direct reading.
module Policy {
  import opened Wrappers
  import Bits

  datatype Family = Inet | Inet6

  function Width(f: Family): nat {
    if f.Inet? then 32 else 128
  }

  datatype IpData = Ip(family: Family, bits: seq<bool>)

  type Ip = ip: IpData | |ip.bits| == Width(ip.family)
    witness IpData.Ip(Inet, Bits.Zeros(32))

  // A CIDR string as `split_once('/')` and the library parsers of its two halves leave it.
  datatype CidrText = NoSlash | Slash(ip: Option<Ip>, prefix: Option<U8>)

  datatype CidrData = Cidr(network: Ip, prefix: nat)

  type Cidr = c: CidrData | c.prefix <= Width(c.network.family)
    witness CidrData.Cidr(IpData.Ip(Inet, Bits.Zeros(32)), 0)

  function NetworkOf(ip: Ip, prefix: nat): (network: Ip)
    requires prefix <= Width(ip.family)
    ensures network == IpData.Ip(ip.family, ip.bits[..prefix] + Bits.Zeros(|ip.bits| - prefix))
  {
    Bits.MaskKeepsPrefix(ip.bits, prefix);
    IpData.Ip(ip.family, Bits.And(ip.bits, Bits.PrefixMask(|ip.bits|, prefix)))
  }

  function ParseIpCidr(text: CidrText): Result<Cidr> {
    match text
    case Slash(Some(ip), Some(prefix)) =>
      if prefix > Width(ip.family) then Err else Ok(CidrData.Cidr(NetworkOf(ip, prefix), prefix))
    case _ => Err
  }

  // The protocol half of a port rule after trimming and lower-casing.
  datatype ProtoText = TcpText | UdpText | OtherText

  datatype PortText = NoPortSlash | Rule(proto: ProtoText, port: Option<U16>)

  datatype PortRule = PortRule(protocol: U8, port: U16)

  const IPPROTO_TCP: U8 := 6
  const IPPROTO_UDP: U8 := 17

  function ParsePortRule(text: PortText): Result<PortRule> {
    match text
    case Rule(TcpText, Some(port)) => if port == 0 then Err else Ok(PortRule(IPPROTO_TCP, port))
    case Rule(UdpText, Some(port)) => if port == 0 then Err else Ok(PortRule(IPPROTO_UDP, port))
    case _ => Err
  }

  // A rule is well-formed exactly when it is tcp or udp and a port that is not zero.
  lemma PortRuleMeans(text: PortText, rule: PortRule)
    ensures ParsePortRule(text) == Ok(rule) <==>
              && text.Rule? && text.port == Some(rule.port) && rule.port != 0
              && ((text.proto.TcpText? && rule.protocol == 6) || (text.proto.UdpText? && rule.protocol == 17))
  {
  }

  datatype VmNetworkPolicy = VmNetworkPolicy(
    defaultAllow: bool,
    allowCidrs: seq<CidrText>,
    allowPorts: seq<PortText>,
    maxEgressMbps: Option<U32>,
    maxEgressPps: Option<U32>,
    sampleRate: U32)

  // `checked_mul(1_000_000)` and then `/ 8`; the product of two u32 fits u64.
  function MbpsToBytesPerSecond(mbps: U32): Result<U64> {
    if mbps == 0 then Err
    else if mbps * 1_000_000 >= 0x1_0000_0000_0000_0000 then Err
    else Ok(mbps * 1_000_000 / 8)
  }

  lemma MbpsIs125000BytesPerSecond(mbps: U32)
    ensures MbpsToBytesPerSecond(mbps) == if mbps == 0 then Err else Ok(mbps * 125_000)
  {
    assert mbps * 1_000_000 == 8 * (mbps * 125_000);
  }

  predicate Valid(p: VmNetworkPolicy) {
    && (forall t :: t in p.allowCidrs ==> ParseIpCidr(t).Ok?)
    && (forall t :: t in p.allowPorts ==> ParsePortRule(t).Ok?)
    && (p.maxEgressMbps.Some? ==> MbpsToBytesPerSecond(p.maxEgressMbps.value).Ok?)
    && p.maxEgressPps != Some(0)
  }

  // What a policy has to satisfy, without the parsers.
  lemma ValidMeans(p: VmNetworkPolicy)
    ensures Valid(p) <==>
              && (forall t :: t in p.allowCidrs ==>
                    && t.Slash? && t.ip.Some? && t.prefix.Some?
                    && t.prefix.value <= if t.ip.value.family.Inet? then 32 else 128)
              && (forall t :: t in p.allowPorts ==>
                    t.Rule? && !t.proto.OtherText? && t.port.Some? && t.port.value != 0)
              && p.maxEgressMbps != Some(0) && p.maxEgressPps != Some(0)
  {
    if p.maxEgressMbps.Some? {
      MbpsIs125000BytesPerSecond(p.maxEgressMbps.value);
    }
  }

  /* The direct reading, written without masks, tries or keys. */

  // `ip/prefix` contains dst: same family and the same leading bits.
  predicate CidrContains(text: CidrText, dst: Ip) {
    match text
    case Slash(Some(ip), Some(prefix)) =>
      && ip.family == dst.family
      && prefix <= Width(ip.family)
      && dst.bits[..prefix] == ip.bits[..prefix]
    case _ => false
  }

  predicate PortMatches(text: PortText, protocol: U8, port: U16) {
    match text
    case Rule(TcpText, Some(p)) => protocol == IPPROTO_TCP && p == port
    case Rule(UdpText, Some(p)) => protocol == IPPROTO_UDP && p == port
    case _ => false
  }

  predicate SomeCidr(cidrs: seq<CidrText>, dst: Ip) {
    exists t :: t in cidrs && CidrContains(t, dst)
  }

  predicate SomePort(ports: seq<PortText>, l4: Option<PortRule>) {
    l4.Some? && exists t :: t in ports && PortMatches(t, l4.value.protocol, l4.value.port)
  }

  // May the VM send to dst? `l4` is the TCP or UDP destination port, if there is one to see.
  predicate Permits(p: VmNetworkPolicy, dst: Ip, l4: Option<PortRule>) {
    if p.allowCidrs == [] && p.allowPorts == [] then p.defaultAllow
    else
      && (p.allowCidrs != [] ==> SomeCidr(p.allowCidrs, dst))
      && (p.allowPorts != [] ==> SomePort(p.allowPorts, l4))
  }

  // The mask arithmetic of the parser agrees with the direct reading.
  lemma NormalizedCidrContains(text: CidrText, dst: Ip)
    ensures CidrContains(text, dst) <==>
              match ParseIpCidr(text)
              case Ok(c) => c.network.family == dst.family && NetworkOf(dst, c.prefix) == c.network
              case Err => false
  {
    match ParseIpCidr(text)
    case Err =>
    case Ok(c) =>
      if text.ip.value.family == dst.family {
        var a, b := NetworkOf(dst, c.prefix).bits, c.network.bits;
        assert a[..c.prefix] == dst.bits[..c.prefix] && b[..c.prefix] == text.ip.value.bits[..c.prefix];
      }
  }
}
