// The loader's half of the dataplane: compiling a policy into the classifier's maps, and
// replacing one compiled policy by another while packets are being judged.
module MapCompiler {
  import opened Wrappers
  import opened Policy
  import opened Lpm
  import opened TcProgram
  import Bits

  /* What a policy compiles to. */

  // The first 32 + prefix bits of identity and network: the trie entry update_ipv4_allow makes.
  function CidrKey(identity: U32, c: Cidr): seq<bool> {
    (IdentityBits(identity) + c.network.bits)[..32 + c.prefix]
  }

  function CidrKeys(identity: U32, cidrs: seq<CidrText>, f: Family): set<seq<bool>> {
    set t | t in cidrs && ParseIpCidr(t).Ok? && ParseIpCidr(t).value.network.family == f
      :: CidrKey(identity, ParseIpCidr(t).value)
  }

  function PortKeys(identity: U32, ports: seq<PortText>): set<seq<bool>> {
    set t | t in ports && ParsePortRule(t).Ok? :: L4Key(identity, ParsePortRule(t).value)
  }

  function OnesOn(keys: set<seq<bool>>): Table {
    map k | k in keys :: 1
  }

  datatype Which = V4 | V6 | Ports4

  function TableOf(m: Maps, w: Which): Table {
    match w case V4 => m.v4 case V6 => m.v6 case Ports4 => m.l4
  }

  function WithTable(m: Maps, w: Which, t: Table): Maps {
    match w case V4 => m.(v4 := t) case V6 => m.(v6 := t) case Ports4 => m.(l4 := t)
  }

  function PolicyKeys(identity: U32, p: VmNetworkPolicy, w: Which): set<seq<bool>> {
    match w
    case V4 => CidrKeys(identity, p.allowCidrs, Inet)
    case V6 => CidrKeys(identity, p.allowCidrs, Inet6)
    case Ports4 => PortKeys(identity, p.allowPorts)
  }

  function RateBytes(p: VmNetworkPolicy): Result<U64> {
    match p.maxEgressMbps
    case None => Ok(0)
    case Some(mbps) => MbpsToBytesPerSecond(mbps)
  }

  // configure_maps can finish: every entry parses and the rate converts.
  predicate Compilable(p: VmNetworkPolicy) {
    && (forall t :: t in p.allowCidrs ==> ParseIpCidr(t).Ok?)
    && (forall t :: t in p.allowPorts ==> ParsePortRule(t).Ok?)
    && RateBytes(p).Ok?
  }

  function PolicyConfig(identity: U32, p: VmNetworkPolicy): Config
    requires Compilable(p)
  {
    Config(identity, p.defaultAllow, p.allowCidrs != [], p.allowPorts != [], p.sampleRate,
           RateBytes(p).value, if p.maxEgressPps.Some? then p.maxEgressPps.value else 0)
  }

  function DenyConfig(identity: U32): Config {
    Config(identity, false, false, false, 0, 0, 0)
  }

  // The maps hold exactly this policy for the interface.
  ghost predicate Holds(m: Maps, identity: U32, ifindex: U32, p: VmNetworkPolicy) {
    && Compilable(p)
    && ifindex in m.id && m.id[ifindex] == PolicyConfig(identity, p)
    && (forall w :: TableOf(m, w) == OnesOn(PolicyKeys(identity, p, w)))
  }

  ghost predicate Denies(m: Maps, identity: U32, ifindex: U32) {
    ifindex in m.id && m.id[ifindex] == DenyConfig(identity)
  }

  /* Compilation preserves meaning. */

  lemma TrieMeansCidrs(identity: U32, cidrs: seq<CidrText>, dst: Ip)
    requires forall t :: t in cidrs ==> ParseIpCidr(t).Ok?
    ensures Hit(OnesOn(CidrKeys(identity, cidrs, dst.family)), IdentityBits(identity) + dst.bits)
            <==> SomeCidr(cidrs, dst)
  {
    var t, key := OnesOn(CidrKeys(identity, cidrs, dst.family)), IdentityBits(identity) + dst.bits;
    HitIffCovers(t, key);
    if Covers(t, key) {
      var n: nat :| n <= |key| && key[..n] in t;
      var text :| text in cidrs && ParseIpCidr(text).value.network.family == dst.family
                  && key[..n] == CidrKey(identity, ParseIpCidr(text).value);
      KeyIsPrefixIffContains(identity, identity, text, dst);
      assert CidrContains(text, dst);
    }
    if SomeCidr(cidrs, dst) {
      var text :| text in cidrs && CidrContains(text, dst);
      KeyIsPrefixIffContains(identity, identity, text, dst);
      var n := 32 + ParseIpCidr(text).value.prefix;
      assert key[..n] in t;
    }
  }

  // Entries of another identity never match.
  lemma KeyIsPrefixIffContains(owner: U32, identity: U32, text: CidrText, dst: Ip)
    requires ParseIpCidr(text).Ok? && ParseIpCidr(text).value.network.family == dst.family
    ensures var c := ParseIpCidr(text).value;
            (IdentityBits(identity) + dst.bits)[..32 + c.prefix] == CidrKey(owner, c)
            <==> owner == identity && CidrContains(text, dst)
  {
    var c, id, own := ParseIpCidr(text).value, IdentityBits(identity), IdentityBits(owner);
    assert (id + dst.bits)[..32 + c.prefix] == id + dst.bits[..c.prefix];
    assert CidrKey(owner, c) == own + c.network.bits[..c.prefix];
    assert c.network.bits[..c.prefix] == text.ip.value.bits[..c.prefix];
    assert (id + dst.bits[..c.prefix])[32..] == dst.bits[..c.prefix];
    assert (own + c.network.bits[..c.prefix])[32..] == c.network.bits[..c.prefix];
    assert (id + dst.bits[..c.prefix])[..32] == id && (own + c.network.bits[..c.prefix])[..32] == own;
    if id == own {
      IdentityBitsInjective(owner, identity);
    }
  }

  lemma TableMeansPorts(identity: U32, ports: seq<PortText>, rule: PortRule)
    requires forall t :: t in ports ==> ParsePortRule(t).Ok?
    ensures L4Key(identity, rule) in PortKeys(identity, ports) <==> SomePort(ports, Some(rule))
  {
    if L4Key(identity, rule) in PortKeys(identity, ports) {
      var text :| text in ports && ParsePortRule(text).Ok?
                  && L4Key(identity, rule) == L4Key(identity, ParsePortRule(text).value);
      L4KeyInjective(identity, rule, identity, ParsePortRule(text).value);
      assert PortMatches(text, rule.protocol, rule.port);
    }
    if SomePort(ports, Some(rule)) {
      var text :| text in ports && PortMatches(text, rule.protocol, rule.port);
      assert ParsePortRule(text).value == rule;
    }
  }

  // The classifier over compiled maps decides every well-formed packet as the policy reads.
  lemma CompiledMapsMeanThePolicy(m: Maps, identity: U32, ifindex: U32, p: VmNetworkPolicy, frame: seq<U8>)
    requires Holds(m, identity, ifindex, p)
    requires Parse(frame).Packet? && !IsBootstrap(Parse(frame))
    ensures Egress(m, ifindex, Parse(frame))
            == Judged(Permits(p, Parse(frame).dst, VisiblePort(Parse(frame))))
  {
    var v := Parse(frame);
    TrieMeansCidrs(identity, p.allowCidrs, v.dst);
    assert TableOf(m, V4) == m.v4 && TableOf(m, V6) == m.v6 && TableOf(m, Ports4) == m.l4;
    assert CidrHit(m, identity, v) <==> SomeCidr(p.allowCidrs, v.dst);
    if v.l4.Ports? {
      TableMeansPorts(identity, p.allowPorts, PortRule(v.protocol, v.l4.dport));
    }
    assert L4Hit(m, identity, v) <==> SomePort(p.allowPorts, VisiblePort(v));
  }

  // Frames that are neither IP nor ARP follow the policy's default, whatever its lists are.
  lemma NonIpFollowsTheDefault(m: Maps, identity: U32, ifindex: U32, p: VmNetworkPolicy, frame: seq<U8>)
    requires Holds(m, identity, ifindex, p) && |frame| >= 14
    requires (frame[12], frame[13]) != (0x08, 0x00)
    requires (frame[12], frame[13]) != (0x08, 0x06) && (frame[12], frame[13]) != (0x86, 0xDD)
    ensures Egress(m, ifindex, Parse(frame)) == NonIp(p.defaultAllow)
  {
  }

  // What the published record says at each offset, in the policy's own terms.
  lemma PublishedBytes(identity: U32, p: VmNetworkPolicy)
    requires Compilable(p)
    ensures var b := ConfigBytes(PolicyConfig(identity, p));
            && |b| >= 40
            && FieldAt(b, 0, 4) == identity
            && (FieldAt(b, 4, 4) != 0 <==> p.defaultAllow)
            && (FieldAt(b, 8, 4) != 0 <==> p.allowCidrs != [])
            && (FieldAt(b, 12, 4) != 0 <==> p.allowPorts != [])
            && FieldAt(b, 16, 4) == p.sampleRate
            && FieldAt(b, 24, 8) == (if p.maxEgressMbps.Some? then p.maxEgressMbps.value * 125_000 else 0)
            && FieldAt(b, 32, 8) == (if p.maxEgressPps.Some? then p.maxEgressPps.value else 0)
  {
    ConfigBytesReadBack(PolicyConfig(identity, p));
    if p.maxEgressMbps.Some? {
      MbpsIs125000BytesPerSecond(p.maxEgressMbps.value);
    }
  }

  // Only the entries matter, not their order or multiplicity: sorting and deduplicating the
  // allowlist before compiling changes nothing.
  lemma OrderDoesNotMatter(m: Maps, identity: U32, ifindex: U32, p: VmNetworkPolicy, q: VmNetworkPolicy)
    requires forall t :: t in p.allowCidrs <==> t in q.allowCidrs
    requires p == q.(allowCidrs := p.allowCidrs)
    ensures Holds(m, identity, ifindex, p) <==> Holds(m, identity, ifindex, q)
  {
    assert (p.allowCidrs == []) == (q.allowCidrs == []) by {
      if p.allowCidrs != [] { assert p.allowCidrs[0] in q.allowCidrs; }
      if q.allowCidrs != [] { assert q.allowCidrs[0] in p.allowCidrs; }
    }
    forall w ensures PolicyKeys(identity, p, w) == PolicyKeys(identity, q, w) {}
    assert Compilable(p) <==> Compilable(q);
  }

  /* The update, write by write. */

  function Without(m: Maps, w: Which, key: seq<bool>): Maps {
    WithTable(m, w, TableOf(m, w) - {key})
  }

  function WithKey(m: Maps, w: Which, key: seq<bool>): Maps {
    WithTable(m, w, TableOf(m, w)[key := 1])
  }

  // Every entry of every table was there before the update or belongs to the new policy.
  ghost predicate Within(m: Maps, old0: Maps, identity: U32, p: VmNetworkPolicy) {
    forall w, k :: k in TableOf(m, w) ==>
      || (k in TableOf(old0, w) && TableOf(m, w)[k] == TableOf(old0, w)[k])
      || (k in PolicyKeys(identity, p, w) && TableOf(m, w)[k] == 1)
  }

  // The states an in-place update passes through: unchanged, then denying, then compiled.
  ghost predicate UpdateTrace(tr: seq<Maps>, denied: nat, published: nat,
                              identity: U32, ifindex: U32, p: VmNetworkPolicy) {
    && 0 < denied <= published <= |tr|
    && (forall i :: 0 <= i < denied ==> tr[i] == tr[0])
    && (forall i :: denied <= i < published ==> Editing(tr[i], tr[0], identity, ifindex, p))
    && (forall i :: published <= i < |tr| ==> Holds(tr[i], identity, ifindex, p))
  }

  ghost predicate Editing(m: Maps, old0: Maps, identity: U32, ifindex: U32, p: VmNetworkPolicy) {
    Denies(m, identity, ifindex) && Within(m, old0, identity, p)
  }

  // The loader's table edits cannot leave `inv`.
  ghost predicate Closed(inv: Maps -> bool, identity: U32, p: VmNetworkPolicy) {
    && (forall m, w, k {:trigger Without(m, w, k)} :: inv(m) ==> inv(Without(m, w, k)))
    && (forall m, w, k {:trigger WithKey(m, w, k)} ::
          inv(m) && k in PolicyKeys(identity, p, w) ==> inv(WithKey(m, w, k)))
  }

  lemma RemovalStaysWithin(m: Maps, old0: Maps, identity: U32, p: VmNetworkPolicy, w: Which, key: seq<bool>)
    requires Within(m, old0, identity, p)
    ensures Within(Without(m, w, key), old0, identity, p)
  {
    var m' := Without(m, w, key);
    forall x, k | k in TableOf(m', x)
      ensures k in TableOf(m, x) && TableOf(m', x)[k] == TableOf(m, x)[k]
    {
      assert TableOf(m', x) == if x == w then TableOf(m, w) - {key} else TableOf(m, x);
    }
  }

  lemma AdditionStaysWithin(m: Maps, old0: Maps, identity: U32, p: VmNetworkPolicy, w: Which, key: seq<bool>)
    requires Within(m, old0, identity, p) && key in PolicyKeys(identity, p, w)
    ensures Within(WithKey(m, w, key), old0, identity, p)
  {
    var m' := WithKey(m, w, key);
    forall x, k | k in TableOf(m', x)
      ensures || (x == w && k == key && TableOf(m', x)[k] == 1)
              || (k in TableOf(m, x) && TableOf(m', x)[k] == TableOf(m, x)[k])
    {
      assert TableOf(m', x) == if x == w then TableOf(m, w)[key := 1] else TableOf(m, x);
    }
  }

  lemma EditingIsClosed(old0: Maps, identity: U32, ifindex: U32, p: VmNetworkPolicy)
    ensures Closed(m => Editing(m, old0, identity, ifindex, p), identity, p)
  {
    forall m, w, k | Editing(m, old0, identity, ifindex, p)
      ensures Editing(Without(m, w, k), old0, identity, ifindex, p)
    {
      RemovalIsEditing(m, old0, identity, ifindex, p, w, k);
    }
    forall m, w, k | Editing(m, old0, identity, ifindex, p) && k in PolicyKeys(identity, p, w)
      ensures Editing(WithKey(m, w, k), old0, identity, ifindex, p)
    {
      AdditionIsEditing(m, old0, identity, ifindex, p, w, k);
    }
  }

  lemma RemovalIsEditing(m: Maps, old0: Maps, identity: U32, ifindex: U32, p: VmNetworkPolicy,
                         w: Which, key: seq<bool>)
    requires Editing(m, old0, identity, ifindex, p)
    ensures Editing(Without(m, w, key), old0, identity, ifindex, p)
  {
    RemovalStaysWithin(m, old0, identity, p, w, key);
    assert Without(m, w, key).id == m.id;
  }

  lemma AdditionIsEditing(m: Maps, old0: Maps, identity: U32, ifindex: U32, p: VmNetworkPolicy,
                          w: Which, key: seq<bool>)
    requires Editing(m, old0, identity, ifindex, p) && key in PolicyKeys(identity, p, w)
    ensures Editing(WithKey(m, w, key), old0, identity, ifindex, p)
  {
    AdditionStaysWithin(m, old0, identity, p, w, key);
    assert WithKey(m, w, key).id == m.id;
  }

  lemma DenyingIsEditing(m: Maps, identity: U32, ifindex: U32, p: VmNetworkPolicy)
    ensures Editing(m.(id := m.id[ifindex := DenyConfig(identity)]), m, identity, ifindex, p)
  {
    var next := m.(id := m.id[ifindex := DenyConfig(identity)]);
    forall w ensures TableOf(next, w) == TableOf(m, w) {}
  }

  function WithCidrs(m: Maps, identity: U32, cidrs: seq<CidrText>): Maps {
    m.(v4 := OnesOn(CidrKeys(identity, cidrs, Inet)), v6 := OnesOn(CidrKeys(identity, cidrs, Inet6)))
  }

  function WithPorts(m: Maps, identity: U32, ports: seq<PortText>): Maps {
    m.(l4 := OnesOn(PortKeys(identity, ports)))
  }

  class PinnedMaps {
    var maps: Maps
    // every state the kernel has been in, oldest first
    ghost var trace: seq<Maps>
    // how many commands have reported failure
    ghost var failures: nat

    ghost predicate Valid()
      reads this
    {
      trace != [] && trace[|trace| - 1] == maps
    }

    // The kernel has been in states of `inv` ever since `mark`.
    ghost predicate Since(mark: nat, inv: Maps -> bool)
      reads this
    {
      && Valid()
      && inv(maps)
      && mark <= |trace|
      && forall i :: mark <= i < |trace| ==> inv(trace[i])
    }

    // One bpftool run.
    method Write(next: Maps) returns (ok: bool)
      requires Valid()
      modifies this
      ensures Valid()
      ensures trace == old(trace) + [maps]
      ensures maps == next || (!ok && maps == old(maps))
      ensures failures == old(failures) + if ok then 0 else 1
    {
      ok, maps := RunCommand(maps, next);
      trace := trace + [maps];
      failures := failures + if ok then 0 else 1;
    }

    // `bpftool map dump`, which may fail as well.
    method Dump(w: Which) returns (keys: Option<set<seq<bool>>>)
      modifies this`failures
      ensures keys.Some? ==> keys.value == TableOf(maps, w).Keys
      ensures failures == old(failures) + if keys.Some? then 0 else 1
    {
      var dumped: bool := *;
      keys := if dumped then Some(TableOf(maps, w).Keys) else None;
      failures := failures + if dumped then 0 else 1;
    }

    method ClearMap(w: Which, ghost identity: U32, ghost p: VmNetworkPolicy,
                    ghost mark: nat, ghost inv: Maps -> bool)
      returns (ok: bool)
      requires Since(mark, inv) && Closed(inv, identity, p)
      modifies this
      ensures Since(mark, inv) && old(trace) <= trace && old(failures) <= failures
      ensures ok <==> failures == old(failures)
      ensures ok ==> maps == WithTable(old(maps), w, map[])
    {
      var dumped := Dump(w);
      if dumped.None? {
        return false;
      }
      var keys := dumped.value;
      while keys != {}
        invariant Since(mark, inv) && old(trace) <= trace && failures == old(failures)
        invariant maps == WithTable(old(maps), w, TableOf(maps, w))
        invariant TableOf(maps, w).Keys == keys
        decreases keys
      {
        var k :| k in keys;
        ok := Write(Without(maps, w, k));
        if !ok {
          return false;
        }
        keys := keys - {k};
      }
      ok := true;
    }

    method AllowCidrs(identity: U32, p: VmNetworkPolicy, ghost mark: nat, ghost inv: Maps -> bool)
      returns (ok: bool)
      requires Since(mark, inv) && Closed(inv, identity, p)
      requires maps.v4 == map[] && maps.v6 == map[]
      modifies this
      ensures Since(mark, inv) && old(trace) <= trace && old(failures) <= failures
      ensures ok <==> failures == old(failures) && forall t :: t in p.allowCidrs ==> ParseIpCidr(t).Ok?
      ensures ok ==> maps == WithCidrs(old(maps), identity, p.allowCidrs)
    {
      var n := 0;
      while n < |p.allowCidrs|
        invariant n <= |p.allowCidrs|
        invariant Since(mark, inv) && old(trace) <= trace && failures == old(failures)
        invariant forall t :: t in p.allowCidrs[..n] ==> ParseIpCidr(t).Ok?
        invariant maps == WithCidrs(old(maps), identity, p.allowCidrs[..n])
      {
        var text := p.allowCidrs[n];
        assert p.allowCidrs[..n + 1] == p.allowCidrs[..n] + [text];
        match ParseIpCidr(text) {
          case Err =>
            return false;
          case Ok(c) =>
            var w := if c.network.family.Inet? then V4 else V6;
            assert CidrKey(identity, c) in PolicyKeys(identity, p, w);
            OneMoreCidr(old(maps), maps, identity, p.allowCidrs[..n], text);
            ok := Write(WithKey(maps, w, CidrKey(identity, c)));
            if !ok {
              return false;
            }
        }
        n := n + 1;
      }
      assert p.allowCidrs[..n] == p.allowCidrs;
      ok := true;
    }

    method AllowPorts(identity: U32, p: VmNetworkPolicy, ghost mark: nat, ghost inv: Maps -> bool)
      returns (ok: bool)
      requires Since(mark, inv) && Closed(inv, identity, p)
      requires maps.l4 == map[]
      modifies this
      ensures Since(mark, inv) && old(trace) <= trace && old(failures) <= failures
      ensures ok <==> failures == old(failures) && forall t :: t in p.allowPorts ==> ParsePortRule(t).Ok?
      ensures ok ==> maps == WithPorts(old(maps), identity, p.allowPorts)
    {
      var n := 0;
      while n < |p.allowPorts|
        invariant n <= |p.allowPorts|
        invariant Since(mark, inv) && old(trace) <= trace && failures == old(failures)
        invariant forall t :: t in p.allowPorts[..n] ==> ParsePortRule(t).Ok?
        invariant maps == WithPorts(old(maps), identity, p.allowPorts[..n])
      {
        var text := p.allowPorts[n];
        assert p.allowPorts[..n + 1] == p.allowPorts[..n] + [text];
        match ParsePortRule(text) {
          case Err =>
            return false;
          case Ok(rule) =>
            assert L4Key(identity, rule) in PolicyKeys(identity, p, Ports4);
            OneMorePort(old(maps), maps, identity, p.allowPorts[..n], text);
            ok := Write(WithKey(maps, Ports4, L4Key(identity, rule)));
            if !ok {
              return false;
            }
        }
        n := n + 1;
      }
      assert p.allowPorts[..n] == p.allowPorts;
      ok := true;
    }

    // configure_maps between the first and the last interface-config write.
    method ReplaceTables(identity: U32, p: VmNetworkPolicy, ghost mark: nat, ghost inv: Maps -> bool)
      returns (ok: bool)
      requires Since(mark, inv) && Closed(inv, identity, p)
      modifies this
      ensures Since(mark, inv) && old(trace) <= trace && old(failures) <= failures
      ensures ok <==> failures == old(failures) && Compilable(p)
      ensures ok ==> maps == Tables(old(maps).id, identity, p)
    {
      ok := ClearMap(V4, identity, p, mark, inv);
      if ok { ok := ClearMap(V6, identity, p, mark, inv); }
      if ok { ok := ClearMap(Ports4, identity, p, mark, inv); }
      if ok { ok := AllowCidrs(identity, p, mark, inv); }
      if ok { ok := AllowPorts(identity, p, mark, inv); }
      ok := ok && RateBytes(p).Ok?;
    }

    // Before the program is attached: no state on the way matters, only the last one. It fails only
    // if a command does or the policy does not compile.
    method Build(ifindex: U32, identity: U32, p: VmNetworkPolicy) returns (ok: bool)
      requires Valid()
      modifies this
      ensures Valid()
      ensures ok <==> failures == old(failures) && Compilable(p)
      ensures ok ==> Holds(maps, identity, ifindex, p)
    {
      ok := ReplaceTables(identity, p, |trace|, _ => true);
      if ok {
        ok := Write(maps.(id := maps.id[ifindex := PolicyConfig(identity, p)]));
        if ok {
          TablesHold(maps, identity, ifindex, p);
        }
      }
    }

    // On a live program: however it ends, the states it went through form an UpdateTrace.
    method Update(ifindex: U32, identity: U32, p: VmNetworkPolicy)
      returns (ok: bool, ghost denied: nat, ghost published: nat)
      requires Valid()
      modifies this
      ensures Valid() && old(trace) <= trace && old(failures) <= failures
      ensures ok <==> failures == old(failures) && Compilable(p)
      ensures ok ==> Holds(maps, identity, ifindex, p)
      ensures UpdateTrace(trace[|old(trace)| - 1..], denied, published, identity, ifindex, p)
    {
      ghost var start, old0 := |trace| - 1, maps;
      ok := Write(maps.(id := maps.id[ifindex := DenyConfig(identity)]));
      denied, published := if !ok && maps == old0 then 2 else 1, 2;
      DenyingIsEditing(old0, identity, ifindex, p);
      if !ok {
        TraceFrom(trace, start, denied, published, identity, ifindex, p);
        return;
      }
      ghost var inv := m => Editing(m, old0, identity, ifindex, p);
      EditingIsClosed(old0, identity, ifindex, p);
      ok := ReplaceTables(identity, p, start + 1, inv);
      published := |trace| - start;
      if ok {
        ghost var next := maps.(id := maps.id[ifindex := PolicyConfig(identity, p)]);
        TablesHold(next, identity, ifindex, p);
        ok := Write(maps.(id := maps.id[ifindex := PolicyConfig(identity, p)]));
        if maps != next {
          published := |trace| - start;
        }
      }
      TraceFrom(trace, start, denied, published, identity, ifindex, p);
    }
  }

  // An update's states, counted from its start.
  lemma TraceFrom(trace: seq<Maps>, start: nat, denied: nat, published: nat,
                  identity: U32, ifindex: U32, p: VmNetworkPolicy)
    requires start < |trace| && 0 < denied <= published <= |trace| - start
    requires forall i :: start <= i < start + denied ==> trace[i] == trace[start]
    requires forall i :: start + denied <= i < start + published ==>
               Editing(trace[i], trace[start], identity, ifindex, p)
    requires forall i :: start + published <= i < |trace| ==> Holds(trace[i], identity, ifindex, p)
    ensures UpdateTrace(trace[start..], denied, published, identity, ifindex, p)
  {
    var tr := trace[start..];
    assert forall i :: 0 <= i < |tr| ==> tr[i] == trace[start + i];
  }

  function Tables(id: map<U32, Config>, identity: U32, p: VmNetworkPolicy): Maps {
    Maps(id, OnesOn(CidrKeys(identity, p.allowCidrs, Inet)), OnesOn(CidrKeys(identity, p.allowCidrs, Inet6)),
         OnesOn(PortKeys(identity, p.allowPorts)))
  }

  lemma TablesHold(m: Maps, identity: U32, ifindex: U32, p: VmNetworkPolicy)
    requires Compilable(p) && ifindex in m.id && m.id[ifindex] == PolicyConfig(identity, p)
    requires m == Tables(m.id, identity, p)
    ensures Holds(m, identity, ifindex, p)
  {
  }

  lemma OnesOnPlus(keys: set<seq<bool>>, key: seq<bool>)
    ensures OnesOn(keys)[key := 1] == OnesOn(keys + {key})
  {
  }

  lemma OneMoreCidr(base: Maps, m: Maps, identity: U32, cidrs: seq<CidrText>, text: CidrText)
    requires m == WithCidrs(base, identity, cidrs)
    requires ParseIpCidr(text).Ok?
    ensures var c := ParseIpCidr(text).value;
            WithKey(m, if c.network.family.Inet? then V4 else V6, CidrKey(identity, c))
            == WithCidrs(base, identity, cidrs + [text])
  {
    var c := ParseIpCidr(text).value;
    CidrKeysOfOneMore(identity, cidrs, text, Inet);
    CidrKeysOfOneMore(identity, cidrs, text, Inet6);
    OnesOnPlus(CidrKeys(identity, cidrs, c.network.family), CidrKey(identity, c));
    if c.network.family.Inet? {
      assert CidrKeys(identity, cidrs + [text], Inet6) == CidrKeys(identity, cidrs, Inet6);
    } else {
      assert CidrKeys(identity, cidrs + [text], Inet) == CidrKeys(identity, cidrs, Inet);
    }
  }

  lemma CidrKeysOfOneMore(identity: U32, cidrs: seq<CidrText>, text: CidrText, f: Family)
    requires ParseIpCidr(text).Ok?
    ensures var c := ParseIpCidr(text).value;
            CidrKeys(identity, cidrs + [text], f)
            == CidrKeys(identity, cidrs, f) + if c.network.family == f then {CidrKey(identity, c)} else {}
  {
  }

  lemma OneMorePort(base: Maps, m: Maps, identity: U32, ports: seq<PortText>, text: PortText)
    requires m == WithPorts(base, identity, ports)
    requires ParsePortRule(text).Ok?
    ensures WithKey(m, Ports4, L4Key(identity, ParsePortRule(text).value))
            == WithPorts(base, identity, ports + [text])
  {
    var key := L4Key(identity, ParsePortRule(text).value);
    assert PortKeys(identity, ports + [text]) == PortKeys(identity, ports) + {key};
    OnesOnPlus(PortKeys(identity, ports), key);
  }
}
