// Packets racing with a live policy update.
module LiveUpdate {
  import opened Wrappers
  import opened Policy
  import opened Lpm
  import opened TcProgram
  import opened MapCompiler

  // q with each allowlist it has widened by p's entries.
  function Widened(q: VmNetworkPolicy, p: VmNetworkPolicy): VmNetworkPolicy {
    q.(allowCidrs := if q.allowCidrs == [] then [] else q.allowCidrs + p.allowCidrs,
       allowPorts := if q.allowPorts == [] then [] else q.allowPorts + p.allowPorts)
  }

  lemma HeldTables(m: Maps, identity: U32, ifindex: U32, q: VmNetworkPolicy, w: Which)
    requires Holds(m, identity, ifindex, q)
    ensures TableOf(m, w) == OnesOn(PolicyKeys(identity, q, w))
  {
  }

  lemma HoldingIsWithin(m: Maps, old0: Maps, identity: U32, ifindex: U32, p: VmNetworkPolicy)
    requires Holds(m, identity, ifindex, p)
    ensures Within(m, old0, identity, p)
  {
    forall w ensures TableOf(m, w) == OnesOn(PolicyKeys(identity, p, w)) {
      HeldTables(m, identity, ifindex, p, w);
    }
  }

  lemma SameIsWithin(m: Maps, identity: U32, p: VmNetworkPolicy)
    ensures Within(m, m, identity, p)
  {
  }

  // At every point of the update each table holds only entries of the old or the new policy.
  lemma AlwaysWithin(tr: seq<Maps>, denied: nat, published: nat, identity: U32, ifindex: U32,
                     p: VmNetworkPolicy, i: nat)
    requires UpdateTrace(tr, denied, published, identity, ifindex, p)
    requires i < |tr|
    ensures Within(tr[i], tr[0], identity, p)
  {
    if i < denied {
      SameIsWithin(tr[0], identity, p);
    } else if i >= published {
      HoldingIsWithin(tr[i], tr[0], identity, ifindex, p);
    }
  }

  lemma TableWithin(m: Maps, old0: Maps, identity: U32, ifindex: U32, q: VmNetworkPolicy, p: VmNetworkPolicy, w: Which)
    requires Within(m, old0, identity, p) && Holds(old0, identity, ifindex, q)
    ensures AllOnes(TableOf(m, w))
    ensures TableOf(m, w).Keys <= PolicyKeys(identity, q, w) + PolicyKeys(identity, p, w)
  {
    HeldTables(old0, identity, ifindex, q, w);
  }

  lemma CidrHitWithin(m: Maps, old0: Maps, identity: U32, ifindex: U32, q: VmNetworkPolicy, p: VmNetworkPolicy, v: View)
    requires Within(m, old0, identity, p) && Holds(old0, identity, ifindex, q) && Compilable(p)
    requires v.Packet? && CidrHit(m, identity, v)
    ensures SomeCidr(q.allowCidrs + p.allowCidrs, v.dst)
  {
    var f, w := v.dst.family, if v.dst.family.Inet? then V4 else V6;
    var both := q.allowCidrs + p.allowCidrs;
    TableWithin(m, old0, identity, ifindex, q, p, w);
    HitIffCovers(TableOf(m, w), IdentityBits(identity) + v.dst.bits);
    var t := OnesOn(CidrKeys(identity, both, f));
    assert TableOf(m, w).Keys <= t.Keys;
    HitIffCovers(t, IdentityBits(identity) + v.dst.bits);
    TrieMeansCidrs(identity, both, v.dst);
  }

  lemma L4HitWithin(m: Maps, old0: Maps, identity: U32, ifindex: U32, q: VmNetworkPolicy, p: VmNetworkPolicy, v: View)
    requires Within(m, old0, identity, p) && Holds(old0, identity, ifindex, q) && Compilable(p)
    requires v.Packet? && L4Hit(m, identity, v)
    ensures SomePort(q.allowPorts + p.allowPorts, VisiblePort(v))
  {
    var both := q.allowPorts + p.allowPorts;
    TableWithin(m, old0, identity, ifindex, q, p, Ports4);
    assert PortKeys(identity, q.allowPorts) + PortKeys(identity, p.allowPorts) <= PortKeys(identity, both);
    TableMeansPorts(identity, both, PortRule(v.protocol, v.l4.dport));
  }

  // A packet whose interface, CIDR and port lookups fall anywhere, in this order, among the
  // updater's writes, and which is let through: it read the old configuration and meets its
  // flags against old and new entries together, or it meets exactly the new policy.
  lemma PacketRacingAnUpdate(tr: seq<Maps>, denied: nat, published: nat, identity: U32, ifindex: U32,
                             q: VmNetworkPolicy, p: VmNetworkPolicy, i: nat, j: nat, k: nat, frame: seq<U8>)
    requires UpdateTrace(tr, denied, published, identity, ifindex, p)
    requires Holds(tr[0], identity, ifindex, q) && Compilable(p)
    requires i <= j <= k < |tr|
    requires AllowedByPolicy(EgressAcross(tr[i], tr[j], tr[k], ifindex, Parse(frame)))
    ensures var v := Parse(frame);
            || (i < denied && Permits(Widened(q, p), v.dst, VisiblePort(v)))
            || (published <= i && Permits(p, v.dst, VisiblePort(v)))
  {
    var v := Parse(frame);
    assert denied <= i < published ==> Denies(tr[i], identity, ifindex);
    if i < denied {
      AlwaysWithin(tr, denied, published, identity, ifindex, p, j);
      AlwaysWithin(tr, denied, published, identity, ifindex, p, k);
      if q.allowCidrs != [] {
        CidrHitWithin(tr[j], tr[0], identity, ifindex, q, p, v);
      }
      if q.allowPorts != [] {
        L4HitWithin(tr[k], tr[0], identity, ifindex, q, p, v);
      }
    } else if published <= i {
      assert Holds(tr[i], identity, ifindex, p);
      assert EgressAcross(tr[i], tr[j], tr[k], ifindex, v) == Egress(tr[i], ifindex, v) by {
        assert Holds(tr[j], identity, ifindex, p) && Holds(tr[k], identity, ifindex, p);
        forall w ensures TableOf(tr[j], w) == TableOf(tr[i], w) && TableOf(tr[k], w) == TableOf(tr[i], w) {
          HeldTables(tr[i], identity, ifindex, p, w);
          HeldTables(tr[j], identity, ifindex, p, w);
          HeldTables(tr[k], identity, ifindex, p, w);
        }
        assert tr[j].v4 == TableOf(tr[i], V4) && tr[j].v6 == TableOf(tr[i], V6);
        assert tr[k].l4 == TableOf(tr[i], Ports4);
      }
      CompiledMapsMeanThePolicy(tr[i], identity, ifindex, p, frame);
    }
  }

  // A packet judged between two writes: the old policy until the first write lands, nothing
  // while tables are being replaced, the new policy once the last write lands.
  lemma PacketBetweenWrites(tr: seq<Maps>, denied: nat, published: nat, identity: U32, ifindex: U32,
                            q: VmNetworkPolicy, p: VmNetworkPolicy, i: nat, frame: seq<U8>)
    requires UpdateTrace(tr, denied, published, identity, ifindex, p)
    requires Holds(tr[0], identity, ifindex, q)
    requires i < |tr|
    requires Parse(frame).Packet? && !IsBootstrap(Parse(frame))
    ensures var v := Parse(frame);
            AllowedByPolicy(Egress(tr[i], ifindex, v)) <==>
              if i < denied then Permits(q, v.dst, VisiblePort(v))
              else published <= i && Permits(p, v.dst, VisiblePort(v))
  {
    if i < denied {
      CompiledMapsMeanThePolicy(tr[i], identity, ifindex, q, frame);
    } else if published <= i {
      CompiledMapsMeanThePolicy(tr[i], identity, ifindex, p, frame);
    } else {
      assert Denies(tr[i], identity, ifindex);
    }
  }

  // A frame that is neither IP nor ARP, judged anywhere in an update: the old policy's default,
  // then nothing, then the new policy's.
  lemma NonIpDuringAnUpdate(tr: seq<Maps>, denied: nat, published: nat, identity: U32, ifindex: U32,
                            q: VmNetworkPolicy, p: VmNetworkPolicy, i: nat, frame: seq<U8>)
    requires UpdateTrace(tr, denied, published, identity, ifindex, p)
    requires Holds(tr[0], identity, ifindex, q) && i < |tr| && |frame| >= 14
    requires (frame[12], frame[13]) != (0x08, 0x00)
    requires (frame[12], frame[13]) != (0x08, 0x06) && (frame[12], frame[13]) != (0x86, 0xDD)
    ensures Egress(tr[i], ifindex, Parse(frame))
            == NonIp(if i < denied then q.defaultAllow else published <= i && p.defaultAllow)
  {
    if i < denied {
      NonIpFollowsTheDefault(tr[i], identity, ifindex, q, frame);
    } else if published <= i {
      NonIpFollowsTheDefault(tr[i], identity, ifindex, p, frame);
    } else {
      assert Denies(tr[i], identity, ifindex);
    }
  }
}
