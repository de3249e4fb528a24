// The nftables backend for the same policy, used when the native dataplane is not available.
module NftFallback {
  import opened Wrappers
  import opened Policy
  import opened TcProgram
  import opened MapCompiler
  import Bits

  // A rule of the forward chain; every rule accepts.
  datatype NftRule =
    | From(saddr: CidrText, daddr: Option<CidrText>, dport: Option<PortRule>)
    | Established

  // The VM's table: is there a forward chain (with policy drop), and its rules.
  datatype Table = NoChain | Chain(rules: seq<NftRule>)

  // What the chain sees of a packet. `established` is conntrack's established or related.
  datatype Seen = Seen(src: Ip, dst: Ip, dport: Option<PortRule>, established: bool)

  predicate Matches(r: NftRule, s: Seen) {
    match r
    case Established => s.established
    case From(saddr, daddr, dport) =>
      && CidrContains(saddr, s.src)
      && (daddr.Some? ==> CidrContains(daddr.value, s.dst))
      && (dport.Some? ==> s.dport == dport)
  }

  predicate Accepts(t: Table, s: Seen) {
    t.NoChain? || exists r :: r in t.rules && Matches(r, s)
  }

  predicate UsesNativeOnlyFeatures(p: VmNetworkPolicy) {
    || p.maxEgressMbps.Some?
    || p.maxEgressPps.Some?
    || exists t :: t in p.allowCidrs && ParseIpCidr(t).Ok? && ParseIpCidr(t).value.network.family.Inet6?
  }

  predicate Enforced(p: VmNetworkPolicy) {
    p.allowCidrs != [] || p.allowPorts != [] || !p.defaultAllow
  }

  /* The rules a policy asks for, without the order of the loops. */

  function PortOf(t: PortText): Option<PortRule> {
    match ParsePortRule(t) case Ok(r) => Some(r) case Err => None
  }

  // One rule for every pair, every CIDR or every port; Established after any of them.
  ghost predicate IsRuleFor(r: NftRule, guest: CidrText, p: VmNetworkPolicy) {
    match r
    case Established => p.allowCidrs != [] || p.allowPorts != []
    case From(saddr, daddr, dport) =>
      && saddr == guest
      && (p.allowCidrs != [] || p.allowPorts != [])
      && (if p.allowCidrs == [] then daddr.None? else daddr.Some? && daddr.value in p.allowCidrs)
      && (if p.allowPorts == [] then dport.None?
          else dport.Some? && exists t :: t in p.allowPorts && PortOf(t) == dport)
  }

  // What a chain holds on top of the rules that were `left` from before.
  ghost predicate OnlyRulesFor(t: Table, left: Table, guest: CidrText, p: VmNetworkPolicy) {
    && t.Chain?
    && (left.Chain? ==> left.rules <= t.rules)
    && forall r :: r in t.rules ==> IsRuleFor(r, guest, p) || (left.Chain? && r in left.rules)
  }

  // A rule for this CIDR with each of these ports.
  ghost predicate HasPairs(t: Table, guest: CidrText, cidr: CidrText, ports: seq<PortText>) {
    t.Chain? && forall r :: r in ports ==> PortOf(r).Some? && From(guest, Some(cidr), PortOf(r)) in t.rules
  }

  // A rule for everything the policy asks for.
  ghost predicate HasRules(t: Table, guest: CidrText, p: VmNetworkPolicy) {
    && t.Chain?
    && (p.allowCidrs != [] && p.allowPorts != [] ==>
          forall c :: c in p.allowCidrs ==> HasPairs(t, guest, c, p.allowPorts))
    && (p.allowCidrs != [] && p.allowPorts == [] ==>
          forall c :: c in p.allowCidrs ==> From(guest, Some(c), None) in t.rules)
    && (p.allowCidrs == [] && p.allowPorts != [] ==>
          forall r :: r in p.allowPorts ==> PortOf(r).Some? && From(guest, None, PortOf(r)) in t.rules)
    && (p.allowCidrs != [] || p.allowPorts != [] ==> Established in t.rules)
  }

  // Adding the policy's rules cannot leave `inv`.
  ghost predicate Growable(inv: Table -> bool, guest: CidrText, p: VmNetworkPolicy) {
    forall rules, r {:trigger inv(Chain(rules + [r]))} ::
      inv(Chain(rules)) && IsRuleFor(r, guest, p) ==> inv(Chain(rules + [r]))
  }

  class NftTable {
    var table: Table
    // every state the kernel has been in, oldest first
    ghost var trace: seq<Table>
    // how many commands have reported failure
    ghost var failures: nat

    ghost predicate Valid()
      reads this
    {
      trace != [] && trace[|trace| - 1] == table
    }

    // One nft run.
    method RunNft(next: Table) returns (ok: bool)
      requires Valid()
      modifies this
      ensures Valid()
      ensures trace == old(trace) + [table]
      ensures table == next || (!ok && table == old(table))
      ensures failures == old(failures) + if ok then 0 else 1
    {
      ok, table := RunCommand(table, next);
      trace := trace + [table];
      failures := failures + if ok then 0 else 1;
    }

    // A chain stands, in states of `inv` ever since `mark`.
    ghost predicate Since(mark: nat, inv: Table -> bool)
      reads this
    {
      && Valid() && mark <= |trace|
      && table.Chain? && inv(table)
      && forall i :: mark <= i < |trace| ==> inv(trace[i])
    }

    method AddRule(r: NftRule, ghost guest: CidrText, ghost p: VmNetworkPolicy,
                   ghost mark: nat, ghost inv: Table -> bool)
      returns (ok: bool)
      requires Since(mark, inv) && Growable(inv, guest, p) && IsRuleFor(r, guest, p)
      modifies this
      ensures Since(mark, inv) && old(trace) <= trace && old(failures) <= failures
      ensures ok <==> failures == old(failures)
      ensures ok ==> table == Chain(old(table.rules) + [r])
    {
      assert table == Chain(table.rules);
      ok := RunNft(Chain(table.rules + [r]));
    }

    // The inner loop of the (true, true) arm.
    method AddPortsFor(guest: CidrText, cidr: CidrText, p: VmNetworkPolicy, ghost mark: nat, ghost inv: Table -> bool)
      returns (ok: bool)
      requires Since(mark, inv) && Growable(inv, guest, p) && cidr in p.allowCidrs && p.allowPorts != []
      modifies this
      ensures Since(mark, inv) && old(trace) <= trace && old(failures) <= failures
      ensures ok <==> failures == old(failures) && forall t :: t in p.allowPorts ==> PortOf(t).Some?
      ensures ok ==> old(table.rules) <= table.rules && HasPairs(table, guest, cidr, p.allowPorts)
    {
      var k := 0;
      while k < |p.allowPorts|
        invariant k <= |p.allowPorts|
        invariant Since(mark, inv) && old(trace) <= trace && failures == old(failures)
        invariant old(table.rules) <= table.rules && HasPairs(table, guest, cidr, p.allowPorts[..k])
        invariant forall t :: t in p.allowPorts[..k] ==> PortOf(t).Some?
      {
        var port := PortOf(p.allowPorts[k]);
        if port.None? {
          return false;
        }
        ok := AddRule(From(guest, Some(cidr), port), guest, p, mark, inv);
        if !ok {
          return false;
        }
        k := k + 1;
      }
      assert p.allowPorts[..k] == p.allowPorts;
      ok := true;
    }

    // The (true, true) arm: CIDRs times ports.
    method AddPairs(guest: CidrText, p: VmNetworkPolicy, ghost mark: nat, ghost inv: Table -> bool) returns (ok: bool)
      requires Since(mark, inv) && Growable(inv, guest, p) && p.allowCidrs != [] && p.allowPorts != []
      modifies this
      ensures Since(mark, inv) && old(trace) <= trace && old(failures) <= failures
      ensures ok <==> failures == old(failures) && forall t :: t in p.allowPorts ==> PortOf(t).Some?
      ensures ok ==> forall c :: c in p.allowCidrs ==> HasPairs(table, guest, c, p.allowPorts)
    {
      var n := 0;
      while n < |p.allowCidrs|
        invariant n <= |p.allowCidrs|
        invariant Since(mark, inv) && old(trace) <= trace && failures == old(failures)
        invariant forall c :: c in p.allowCidrs[..n] ==> HasPairs(table, guest, c, p.allowPorts)
        invariant n > 0 ==> forall t :: t in p.allowPorts ==> PortOf(t).Some?
      {
        ghost var before := table;
        ok := AddPortsFor(guest, p.allowCidrs[n], p, mark, inv);
        if !ok {
          return false;
        }
        assert forall c :: HasPairs(before, guest, c, p.allowPorts) ==> HasPairs(table, guest, c, p.allowPorts);
        n := n + 1;
      }
      ok := true;
    }

    method AddCidrs(guest: CidrText, p: VmNetworkPolicy, ghost mark: nat, ghost inv: Table -> bool) returns (ok: bool)
      requires Since(mark, inv) && Growable(inv, guest, p) && p.allowCidrs != [] && p.allowPorts == []
      modifies this
      ensures Since(mark, inv) && old(trace) <= trace && old(failures) <= failures
      ensures ok <==> failures == old(failures)
      ensures ok ==> forall c :: c in p.allowCidrs ==> From(guest, Some(c), None) in table.rules
    {
      var n := 0;
      while n < |p.allowCidrs|
        invariant n <= |p.allowCidrs|
        invariant Since(mark, inv) && old(trace) <= trace && failures == old(failures)
        invariant forall c :: c in p.allowCidrs[..n] ==> From(guest, Some(c), None) in table.rules
      {
        ok := AddRule(From(guest, Some(p.allowCidrs[n]), None), guest, p, mark, inv);
        if !ok {
          return false;
        }
        n := n + 1;
      }
      ok := true;
    }

    method AddPorts(guest: CidrText, p: VmNetworkPolicy, ghost mark: nat, ghost inv: Table -> bool) returns (ok: bool)
      requires Since(mark, inv) && Growable(inv, guest, p) && p.allowCidrs == [] && p.allowPorts != []
      modifies this
      ensures Since(mark, inv) && old(trace) <= trace && old(failures) <= failures
      ensures ok <==> failures == old(failures) && forall t :: t in p.allowPorts ==> PortOf(t).Some?
      ensures ok ==> forall t :: t in p.allowPorts ==> PortOf(t).Some? && From(guest, None, PortOf(t)) in table.rules
    {
      var n := 0;
      while n < |p.allowPorts|
        invariant n <= |p.allowPorts|
        invariant Since(mark, inv) && old(trace) <= trace && failures == old(failures)
        invariant forall t :: t in p.allowPorts[..n] ==> PortOf(t).Some? && From(guest, None, PortOf(t)) in table.rules
      {
        var port := PortOf(p.allowPorts[n]);
        if port.None? {
          return false;
        }
        ok := AddRule(From(guest, None, port), guest, p, mark, inv);
        if !ok {
          return false;
        }
        n := n + 1;
      }
      ok := true;
    }

    method AddRules(guest: CidrText, p: VmNetworkPolicy, ghost mark: nat, ghost inv: Table -> bool) returns (ok: bool)
      requires Since(mark, inv) && Growable(inv, guest, p)
      modifies this
      ensures Since(mark, inv) && old(trace) <= trace && old(failures) <= failures
      ensures ok <==> failures == old(failures) && forall t :: t in p.allowPorts ==> PortOf(t).Some?
      ensures ok ==> HasRules(table, guest, p)
    {
      ok := true;
      if p.allowCidrs != [] && p.allowPorts != [] {
        ok := AddPairs(guest, p, mark, inv);
      } else if p.allowCidrs != [] {
        ok := AddCidrs(guest, p, mark, inv);
      } else if p.allowPorts != [] {
        ok := AddPorts(guest, p, mark, inv);
      }
      if ok && (p.allowCidrs != [] || p.allowPorts != []) {
        ghost var before := table;
        ok := AddRule(Established, guest, p, mark, inv);
        assert forall c :: HasPairs(before, guest, c, p.allowPorts) && ok ==> HasPairs(table, guest, c, p.allowPorts);
      }
    }

    // delete table (its failure is ignored), then add table, the postrouting chain and the
    // masquerade rule, none of which touches a forward chain.
    method Reset() returns (ok: bool)
      requires Valid()
      modifies this
      ensures Valid() && old(trace) <= trace && old(failures) <= failures
      ensures table == old(table) || table.NoChain?
      ensures forall i :: |old(trace)| <= i < |trace| ==> trace[i] == table
      ensures if ok then failures <= old(failures) + 1 else failures > old(failures)
      ensures failures == old(failures) ==> table.NoChain?
    {
      var _ := RunNft(NoChain);
      ok := RunNft(table);
      if ok { ok := RunNft(table); }
      if ok { ok := RunNft(table); }
    }

    // apply_nftables. The table is deleted first and a failure to do so ignored: `left` is
    // what remains. Then, up to `closed`, no new chain stands; from there on it does.
    method Apply(guest: CidrText, p: VmNetworkPolicy) returns (ok: bool, ghost left: Table, ghost closed: nat)
      requires Valid()
      modifies this
      ensures Valid() && old(trace) <= trace && old(failures) <= failures
      ensures left == old(table) || left.NoChain?
      ensures |old(trace)| <= closed <= |trace|
      ensures forall i :: |old(trace)| <= i < closed ==> trace[i] == left
      ensures forall i :: closed <= i < |trace| ==> OnlyRulesFor(trace[i], left, guest, p)
      ensures ok ==> !UsesNativeOnlyFeatures(p) && Implements(table, left, guest, p)
      ensures !ok && failures == old(failures) ==>
                UsesNativeOnlyFeatures(p) || exists t :: t in p.allowPorts && PortOf(t).None?
      ensures ok ==> failures <= old(failures) + 1
      ensures !UsesNativeOnlyFeatures(p) && failures == old(failures) ==> left.NoChain?
    {
      closed, left := |trace|, table;
      if UsesNativeOnlyFeatures(p) {
        return false, left, closed;
      }
      ok := Reset();
      left, closed := table, |trace|;
      if !ok || !Enforced(p) {
        return;
      }
      ok := RunNft(if table.NoChain? then Chain([]) else table);
      if table.NoChain? {
        closed := |trace|;
      }
      if !ok {
        return;
      }
      ghost var mark := |trace| - 1;
      ghost var inv := t => OnlyRulesFor(t, left, guest, p);
      RulesMayBeAdded(left, guest, p);
      ok := AddRules(guest, p, mark, inv);
    }
  }

  lemma RulesMayBeAdded(left: Table, guest: CidrText, p: VmNetworkPolicy)
    ensures Growable(t => OnlyRulesFor(t, left, guest, p), guest, p)
  {
  }

  // The finished table: a rule for everything the policy asks for, and nothing but such rules
  // and what was left from before.
  ghost predicate Implements(t: Table, left: Table, guest: CidrText, p: VmNetworkPolicy) {
    if Enforced(p) then OnlyRulesFor(t, left, guest, p) && HasRules(t, guest, p) else t == left
  }

  /* The two backends compared. */

  // Port 0 is in no rule, and the classifier never looks it up successfully either.
  lemma SomePortIffRule(ports: seq<PortText>, dport: Option<PortRule>)
    requires forall t :: t in ports ==> PortOf(t).Some?
    ensures SomePort(ports, dport) <==> dport.Some? && exists t :: t in ports && PortOf(t) == dport
  {
    if SomePort(ports, dport) {
      var t :| t in ports && PortMatches(t, dport.value.protocol, dport.value.port);
      assert PortOf(t) == dport;
    }
  }

  // The VM's own chain accepts a new connection from its subnet exactly when its policy permits it.
  lemma FallbackMeansThePolicy(t: Table, guest: CidrText, p: VmNetworkPolicy, s: Seen)
    requires Implements(t, NoChain, guest, p) && forall r :: r in p.allowPorts ==> PortOf(r).Some?
    requires CidrContains(guest, s.src) && !s.established
    ensures Accepts(t, s) <==> Permits(p, s.dst, s.dport)
  {
    SomePortIffRule(p.allowPorts, s.dport);
    if Enforced(p) {
      if Accepts(t, s) {
        var r :| r in t.rules && Matches(r, s);
        assert IsRuleFor(r, guest, p);
        if r.daddr.Some? {
          assert SomeCidr(p.allowCidrs, s.dst);
        }
      }
      if Permits(p, s.dst, s.dport) {
        PermittedHasARule(t, guest, p, s);
      }
    }
  }

  lemma PermittedHasARule(t: Table, guest: CidrText, p: VmNetworkPolicy, s: Seen)
    requires Enforced(p) && Implements(t, NoChain, guest, p) && forall r :: r in p.allowPorts ==> PortOf(r).Some?
    requires CidrContains(guest, s.src) && Permits(p, s.dst, s.dport)
    ensures Accepts(t, s)
  {
    SomePortIffRule(p.allowPorts, s.dport);
    var daddr: Option<CidrText>, dport := None, None;
    if p.allowCidrs != [] {
      var c :| c in p.allowCidrs && CidrContains(c, s.dst);
      daddr := Some(c);
    }
    if p.allowPorts != [] {
      var r :| r in p.allowPorts && PortOf(r) == s.dport;
      dport := PortOf(r);
    }
    assert From(guest, daddr, dport) in t.rules;
    assert Matches(From(guest, daddr, dport), s);
  }

  function SeenAs(src: Ip, v: View): Seen
    requires v.Packet?
  {
    Seen(src, v.dst, VisiblePort(v), false)
  }

  // What the fallback refuses is what it cannot do: a policy under which the native classifier
  // would limit rates, or would have an IPv6 destination to let through.
  lemma NativeOnlyMeans(identity: U32, p: VmNetworkPolicy)
    requires Valid(p) && Compilable(p)
    ensures UsesNativeOnlyFeatures(p) <==>
              || PolicyConfig(identity, p).rateBytes > 0
              || PolicyConfig(identity, p).ratePackets > 0
              || exists dst: Ip :: dst.family.Inet6? && SomeCidr(p.allowCidrs, dst)
  {
    if t :| t in p.allowCidrs && ParseIpCidr(t).Ok? && ParseIpCidr(t).value.network.family.Inet6? {
      assert CidrContains(t, t.ip.value);
      assert SomeCidr(p.allowCidrs, t.ip.value);
    }
    if !UsesNativeOnlyFeatures(p) {
      forall dst: Ip | dst.family.Inet6? ensures !SomeCidr(p.allowCidrs, dst) {
        NoIpv6Cidr(p, dst);
      }
    }
  }

  // Replies, from wherever they come, are accepted exactly when the policy has a list or denies
  // nothing by default.
  lemma EstablishedAcceptedIff(t: Table, guest: CidrText, p: VmNetworkPolicy, s: Seen)
    requires Implements(t, NoChain, guest, p) && s.established
    ensures Accepts(t, s) <==> p.allowCidrs != [] || p.allowPorts != [] || p.defaultAllow
  {
    if p.allowCidrs != [] || p.allowPorts != [] {
      assert Matches(Established, s);
    } else if Enforced(p) {
      assert forall r :: r in t.rules ==> IsRuleFor(r, guest, p);
    }
  }

  // A packet from elsewhere meets no rule: the chain's drop policy decides.
  lemma ForeignPacket(t: Table, guest: CidrText, p: VmNetworkPolicy, s: Seen)
    requires Implements(t, NoChain, guest, p) && !CidrContains(guest, s.src) && !s.established
    ensures Accepts(t, s) <==> !Enforced(p)
  {
    if Enforced(p) {
      forall r | r in t.rules ensures !Matches(r, s) {
        assert IsRuleFor(r, guest, p);
      }
    }
  }

  /* The host: every VM's base chain sees every forwarded packet, and any of them drops it. */

  datatype Filter = Filter(table: Table, guest: CidrText, policy: VmNetworkPolicy)

  type Host = map<nat, Filter>

  predicate HostAccepts(h: Host, s: Seen) {
    forall u :: u in h ==> Accepts(h[u].table, s)
  }

  // Every VM's fallback was applied to a clean table and ran through.
  ghost predicate Installed(h: Host) {
    forall u :: u in h ==>
      && Implements(h[u].table, NoChain, h[u].guest, h[u].policy)
      && forall r :: r in h[u].policy.allowPorts ==> PortOf(r).Some?
  }

  // A new connection passes exactly when the policy of every VM it comes from permits it and
  // no other VM has anything to enforce.
  lemma HostVerdict(h: Host, s: Seen)
    requires Installed(h) && !s.established
    ensures HostAccepts(h, s) <==>
              forall u :: u in h ==>
                if CidrContains(h[u].guest, s.src) then Permits(h[u].policy, s.dst, s.dport)
                else !Enforced(h[u].policy)
  {
    forall u | u in h
      ensures Accepts(h[u].table, s) <==>
                if CidrContains(h[u].guest, s.src) then Permits(h[u].policy, s.dst, s.dport)
                else !Enforced(h[u].policy)
    {
      if CidrContains(h[u].guest, s.src) {
        FallbackMeansThePolicy(h[u].table, h[u].guest, h[u].policy, s);
      } else {
        ForeignPacket(h[u].table, h[u].guest, h[u].policy, s);
      }
    }
  }

  // Replies to a connection pass exactly when no VM on the host denies by default without lists.
  lemma RepliesPassIff(h: Host, s: Seen)
    requires Installed(h) && s.established
    ensures HostAccepts(h, s) <==>
              forall u :: u in h ==>
                h[u].policy.allowCidrs != [] || h[u].policy.allowPorts != [] || h[u].policy.defaultAllow
  {
    forall u | u in h
      ensures Accepts(h[u].table, s) <==>
                h[u].policy.allowCidrs != [] || h[u].policy.allowPorts != [] || h[u].policy.defaultAllow
    {
      EstablishedAcceptedIff(h[u].table, h[u].guest, h[u].policy, s);
    }
  }

  predicate NeighboursFree(h: Host, v: nat) {
    forall u :: u in h && u != v ==> !Enforced(h[u].policy)
  }

  // For an unfragmented packet that opens a connection from v's own subnet the two backends
  // agree if and only if the policy refuses it or no other VM on the host enforces anything.
  lemma FallbackAgreesWithNativeIff(h: Host, v: nat, m: Maps, identity: U32, ifindex: U32, src: Ip, frame: seq<U8>)
    requires Installed(h) && v in h && Holds(m, identity, ifindex, h[v].policy)
    requires Parse(frame).Packet? && !IsBootstrap(Parse(frame)) && !Parse(frame).fragmented
    requires forall u :: u in h ==> (CidrContains(h[u].guest, src) <==> u == v)
    ensures (HostAccepts(h, SeenAs(src, Parse(frame))) <==> AllowedByPolicy(Egress(m, ifindex, Parse(frame))))
            <==> (Permits(h[v].policy, Parse(frame).dst, VisiblePort(Parse(frame))) ==> NeighboursFree(h, v))
  {
    HostVerdict(h, SeenAs(src, Parse(frame)));
    CompiledMapsMeanThePolicy(m, identity, ifindex, h[v].policy, frame);
  }

  // An IPv6 source is in no IPv4 guest subnet. The host agrees with v's policy if and only if
  // that policy refuses the packet or nobody, v included, enforces anything; and a policy the
  // fallback takes permits an IPv6 packet only by default or by its port alone.
  lemma FallbackOnIpv6Iff(h: Host, v: nat, s: Seen)
    requires Installed(h) && v in h && !UsesNativeOnlyFeatures(h[v].policy)
    requires s.dst.family.Inet6? && !s.established && forall u :: u in h ==> !CidrContains(h[u].guest, s.src)
    ensures var p := h[v].policy;
            && ((HostAccepts(h, s) <==> Permits(p, s.dst, s.dport))
                <==> (Permits(p, s.dst, s.dport) ==> !Enforced(p) && NeighboursFree(h, v)))
            && (Permits(p, s.dst, s.dport)
                <==> !Enforced(p) || (p.allowCidrs == [] && SomePort(p.allowPorts, s.dport)))
  {
    HostVerdict(h, s);
    NoIpv6Cidr(h[v].policy, s.dst);
  }

  lemma NoIpv6Cidr(p: VmNetworkPolicy, dst: Ip)
    requires !UsesNativeOnlyFeatures(p) && dst.family.Inet6?
    ensures !SomeCidr(p.allowCidrs, dst)
  {
    forall c | c in p.allowCidrs ensures !CidrContains(c, dst) {
      NormalizedCidrContains(c, dst);
    }
  }

  /* Packets on which the fallback fails. */

  const OPEN_PORT := PortRule(IPPROTO_TCP, 80)
  const PortOnly := VmNetworkPolicy(false, [], [Rule(TcpText, Some(80))], None, None, 0)

  function PortOnlyFilter(guest: CidrText): Filter {
    Filter(Chain([From(guest, None, Some(OPEN_PORT)), Established]), guest, PortOnly)
  }

  lemma PortOnlyImplements(guest: CidrText)
    ensures var f := PortOnlyFilter(guest);
            Implements(f.table, NoChain, guest, PortOnly) && forall r :: r in PortOnly.allowPorts ==> PortOf(r).Some?
    ensures forall dst :: Permits(PortOnly, dst, Some(OPEN_PORT))
  {
    assert PortOf(PortOnly.allowPorts[0]) == Some(OPEN_PORT);
    assert PortMatches(PortOnly.allowPorts[0], IPPROTO_TCP, 80);
    forall r | r in PortOnlyFilter(guest).table.rules ensures IsRuleFor(r, guest, PortOnly) {
      assert PortOnly.allowPorts[0] in PortOnly.allowPorts;
    }
  }

  function Subnet28(first: bool): CidrText {
    Slash(Some(IpData.Ip(Inet, [first] + Bits.Zeros(31))), Some(28))
  }

  // Two VMs, each allowed TCP port 80: the host drops the first one's new connections to it.
  lemma NeighboursBlockEachOther(dst: Ip)
    ensures var h: Host := map[0 := PortOnlyFilter(Subnet28(false)), 1 := PortOnlyFilter(Subnet28(true))];
            var s := Seen(IpData.Ip(Inet, Bits.Zeros(32)), dst, Some(OPEN_PORT), false);
            && Installed(h) && CidrContains(h[0].guest, s.src)
            && Permits(h[0].policy, s.dst, s.dport) && !HostAccepts(h, s)
  {
    PortOnlyImplements(Subnet28(false));
    PortOnlyImplements(Subnet28(true));
    var h: Host := map[0 := PortOnlyFilter(Subnet28(false)), 1 := PortOnlyFilter(Subnet28(true))];
    var s := Seen(IpData.Ip(Inet, Bits.Zeros(32)), dst, Some(OPEN_PORT), false);
    assert s.src.bits[..28] == ([false] + Bits.Zeros(31))[..28];
    assert s.src.bits[..28][0] != ([true] + Bits.Zeros(31))[..28][0];
    HostVerdict(h, s);
    assert 1 in h && Enforced(h[1].policy);
  }

  // One VM, allowed TCP port 80: the host drops its IPv6 packets to that port.
  lemma Ipv6PortIsBlocked()
    ensures var h: Host := map[0 := PortOnlyFilter(Subnet28(false))];
            var any := IpData.Ip(Inet6, Bits.Zeros(128));
            var s := Seen(any, any, Some(OPEN_PORT), false);
            && Installed(h) && !UsesNativeOnlyFeatures(h[0].policy)
            && Permits(h[0].policy, s.dst, s.dport) && !HostAccepts(h, s)
  {
    PortOnlyImplements(Subnet28(false));
    var h: Host := map[0 := PortOnlyFilter(Subnet28(false))];
    var any := IpData.Ip(Inet6, Bits.Zeros(128));
    FallbackOnIpv6Iff(h, 0, Seen(any, any, Some(OPEN_PORT), false));
  }

  // If the delete fails, what the old rules accepted stays accepted, however the apply ends.
  lemma LeftoverRulesStayInForce(t: Table, left: Table, guest: CidrText, p: VmNetworkPolicy, s: Seen)
    requires left.Chain? && OnlyRulesFor(t, left, guest, p)
    requires Accepts(left, s)
    ensures Accepts(t, s)
  {
    var r :| r in left.rules && Matches(r, s);
    assert r in t.rules;
  }
}
