// The XDP source blocklist and its synchroniser.
module XdpGuard {
  import opened Wrappers
  import opened Policy
  import opened Lpm
  import Bits
  import LittleEndian

  // The trie entry of a block CIDR.
  function BlockKey(c: Cidr): seq<bool> {
    c.network.bits[..c.prefix]
  }

  // The bytes the loader writes and compares: prefix length, then the network's octets.
  function KeyData(c: Cidr): (seq<U8>, seq<bool>) {
    (LittleEndian.Encode(c.prefix, 4), c.network.bits)
  }

  // Because networks are masked, equal bytes and equal trie entries are the same thing: the
  // synchroniser's byte comparison decides which entries are stale.
  lemma BytesIdentifyEntries(a: CidrText, b: CidrText)
    requires ParseIpCidr(a).Ok? && ParseIpCidr(b).Ok?
    requires ParseIpCidr(a).value.network.family == ParseIpCidr(b).value.network.family
    ensures var (x, y) := (ParseIpCidr(a).value, ParseIpCidr(b).value);
            KeyData(x) == KeyData(y) <==> BlockKey(x) == BlockKey(y)
  {
    var x, y := ParseIpCidr(a).value, ParseIpCidr(b).value;
    if KeyData(x) == KeyData(y) {
      LittleEndian.WidthOf(x.prefix);
      LittleEndian.WidthOf(y.prefix);
      LittleEndian.EncodeInjective(x.prefix, y.prefix, 4);
    }
    if BlockKey(x) == BlockKey(y) {
      assert |BlockKey(x)| == x.prefix && |BlockKey(y)| == y.prefix;
      assert x.network.bits == BlockKey(x) + Bits.Zeros(|x.network.bits| - x.prefix);
      assert y.network.bits == BlockKey(y) + Bits.Zeros(|y.network.bits| - y.prefix);
    }
  }

  // fluxvm_xdp_guard's question for a well-formed packet.
  predicate Blocked(t: Table, src: Ip) {
    Hit(t, src.bits)
  }

  // Between two table states of a sync: nothing but old and wanted entries, and all of the old
  // ones or all of the wanted ones.
  ghost predicate Syncing(t: Table, old0: Table, wanted: set<seq<bool>>) {
    && AllOnes(t)
    && t.Keys <= old0.Keys + wanted
    && (old0.Keys <= t.Keys || wanted <= t.Keys)
  }

  class BlockMap {
    var table: Table
    // every state the kernel has been in, oldest first
    ghost var trace: seq<Table>
    // how many commands have reported failure
    ghost var failures: nat

    ghost predicate Valid()
      reads this
    {
      trace != [] && trace[|trace| - 1] == table && AllOnes(table)
    }

    // One bpftool run.
    method Write(next: Table) returns (ok: bool)
      requires Valid() && AllOnes(next)
      modifies this
      ensures Valid()
      ensures trace == old(trace) + [table]
      ensures table == next || (!ok && table == old(table))
      ensures failures == old(failures) + if ok then 0 else 1
    {
      ok, table := RunCommand(table, next);
      trace := trace + [table];
      failures := failures + if ok then 0 else 1;
    }

    // `bpftool map dump`, which may fail as well.
    method Dump() returns (keys: Option<set<seq<bool>>>)
      modifies this`failures
      ensures keys.Some? ==> keys.value == table.Keys
      ensures failures == old(failures) + if keys.Some? then 0 else 1
    {
      var dumped: bool := *;
      keys := if dumped then Some(table.Keys) else None;
      failures := failures + if dumped then 0 else 1;
    }

    ghost predicate SyncingSince(mark: nat, old0: Table, wanted: set<seq<bool>>)
      reads this
    {
      && Valid() && mark <= |trace| && Syncing(table, old0, wanted)
      && forall i :: mark <= i < |trace| ==> Syncing(trace[i], old0, wanted)
    }

    // The first loop: everything wanted goes in before anything goes out.
    method AddWanted(desired: seq<seq<bool>>, ghost old0: Table, ghost mark: nat) returns (ok: bool)
      requires Valid() && table == old0 && mark == |trace|
      modifies this
      ensures SyncingSince(mark, old0, Set(desired)) && old(trace) <= trace && old(failures) <= failures
      ensures ok <==> failures == old(failures)
      ensures ok ==> table.Keys == old0.Keys + Set(desired)
    {
      var n := 0;
      while n < |desired|
        invariant n <= |desired|
        invariant SyncingSince(mark, old0, Set(desired)) && old(trace) <= trace
        invariant failures == old(failures)
        invariant table.Keys == old0.Keys + Set(desired[..n])
      {
        assert Set(desired[..n + 1]) == Set(desired[..n]) + {desired[n]} by {
          assert desired[..n + 1] == desired[..n] + [desired[n]];
        }
        ok := Write(table[desired[n] := 1]);
        if !ok {
          return false;
        }
        n := n + 1;
      }
      assert desired[..n] == desired;
      ok := true;
    }

    // The second loop: existing entries that are not wanted go out.
    method DeleteStale(existing: set<seq<bool>>, desired: seq<seq<bool>>, ghost old0: Table, ghost mark: nat)
      returns (ok: bool)
      requires SyncingSince(mark, old0, Set(desired)) && existing == old0.Keys
      requires table.Keys == old0.Keys + Set(desired)
      modifies this
      ensures SyncingSince(mark, old0, Set(desired)) && old(trace) <= trace && old(failures) <= failures
      ensures ok <==> failures == old(failures)
      ensures ok ==> table.Keys == Set(desired)
    {
      var left := existing;
      while left != {}
        invariant SyncingSince(mark, old0, Set(desired)) && old(trace) <= trace
        invariant failures == old(failures)
        invariant left <= old0.Keys
        invariant table.Keys == left + Set(desired)
        decreases left
      {
        var key :| key in left;
        if key !in desired {
          ok := Write(table - {key});
          if !ok {
            return false;
          }
        }
        left := left - {key};
      }
      ok := true;
    }

    // sync_block_map: every state on the way is Syncing, and success leaves the wanted keys.
    method Sync(desired: seq<seq<bool>>) returns (ok: bool)
      requires Valid()
      modifies this
      ensures Valid() && old(trace) <= trace && old(failures) <= failures
      ensures forall i :: |old(trace)| <= i < |trace| ==> Syncing(trace[i], old(table), Set(desired))
      ensures ok <==> failures == old(failures)
      ensures ok ==> table.Keys == Set(desired)
    {
      var existing := Dump();
      if existing.None? {
        return false;
      }
      ghost var old0, mark := table, |trace|;
      ok := AddWanted(desired, old0, mark);
      if ok {
        ok := DeleteStale(existing.value, desired, old0, mark);
      }
    }
  }

  function Set(keys: seq<seq<bool>>): set<seq<bool>> {
    set k | k in keys
  }

  function KeysFor(cidrs: seq<CidrText>, f: Family): set<seq<bool>> {
    set c | c in cidrs && ParseIpCidr(c).Ok? && ParseIpCidr(c).value.network.family == f
      :: BlockKey(ParseIpCidr(c).value)
  }

  lemma OneMoreKey(cidrs: seq<CidrText>, text: CidrText, f: Family)
    requires ParseIpCidr(text).Ok?
    ensures KeysFor(cidrs + [text], f)
            == KeysFor(cidrs, f)
               + if ParseIpCidr(text).value.network.family == f then {BlockKey(ParseIpCidr(text).value)} else {}
  {
  }

  lemma SetOfOneMore(keys: seq<seq<bool>>, key: seq<bool>)
    ensures Set(keys + [key]) == Set(keys) + {key}
  {
  }

  class Guard {
    const map4: BlockMap
    const map6: BlockMap

    constructor (map4: BlockMap, map6: BlockMap)
      ensures this.map4 == map4 && this.map6 == map6
    {
      this.map4, this.map6 := map4, map6;
    }

    // reconfigure_maps: the whole list is parsed before the first write.
    method Reconfigure(cidrs: seq<CidrText>) returns (ok: bool)
      requires map4 != map6 && map4.Valid() && map6.Valid()
      modifies map4, map6
      ensures map4.Valid() && map6.Valid()
      ensures (exists c :: c in cidrs && ParseIpCidr(c).Err?) ==>
                !ok && map4.trace == old(map4.trace) && map6.trace == old(map6.trace)
      ensures ok <==>
                && map4.failures == old(map4.failures) && map6.failures == old(map6.failures)
                && forall c :: c in cidrs ==> ParseIpCidr(c).Ok?
      ensures ok ==> map4.table.Keys == KeysFor(cidrs, Inet) && map6.table.Keys == KeysFor(cidrs, Inet6)
      ensures old(map4.trace) <= map4.trace && old(map6.trace) <= map6.trace
      ensures forall i :: |old(map4.trace)| <= i < |map4.trace| ==>
                Syncing(map4.trace[i], old(map4.table), KeysFor(cidrs, Inet))
      ensures forall i :: |old(map6.trace)| <= i < |map6.trace| ==>
                Syncing(map6.trace[i], old(map6.table), KeysFor(cidrs, Inet6))
    {
      var desired4: seq<seq<bool>>, desired6: seq<seq<bool>> := [], [];
      var n := 0;
      while n < |cidrs|
        invariant n <= |cidrs|
        invariant Set(desired4) == KeysFor(cidrs[..n], Inet) && Set(desired6) == KeysFor(cidrs[..n], Inet6)
        invariant forall c :: c in cidrs[..n] ==> ParseIpCidr(c).Ok?
        modifies {}
      {
        assert cidrs[..n + 1] == cidrs[..n] + [cidrs[n]];
        match ParseIpCidr(cidrs[n]) {
          case Err =>
            return false;
          case Ok(c) =>
            OneMoreKey(cidrs[..n], cidrs[n], Inet);
            OneMoreKey(cidrs[..n], cidrs[n], Inet6);
            if c.network.family.Inet? {
              SetOfOneMore(desired4, BlockKey(c));
              desired4 := desired4 + [BlockKey(c)];
            } else {
              SetOfOneMore(desired6, BlockKey(c));
              desired6 := desired6 + [BlockKey(c)];
            }
        }
        n := n + 1;
      }
      assert cidrs[..n] == cidrs;
      ok := map4.Sync(desired4);
      if ok {
        ok := map6.Sync(desired6);
      }
    }
  }

  ghost predicate CoveredBy(keys: set<seq<bool>>, src: Ip) {
    exists n: nat :: n <= |src.bits| && src.bits[..n] in keys
  }

  lemma BlockedIffCovered(t: Table, src: Ip)
    requires AllOnes(t)
    ensures Blocked(t, src) <==> CoveredBy(t.Keys, src)
  {
    HitIffCovers(t, src.bits);
  }

  // In every state of a sync, finished, running or failed: what the old and the new list both
  // block is blocked, and what neither blocks is not.
  lemma SyncNeverFailsOpen(t: Table, old0: Table, wanted: set<seq<bool>>, src: Ip)
    requires Syncing(t, old0, wanted) && AllOnes(old0)
    ensures Blocked(old0, src) && CoveredBy(wanted, src) ==> Blocked(t, src)
    ensures Blocked(t, src) ==> Blocked(old0, src) || CoveredBy(wanted, src)
  {
    BlockedIffCovered(t, src);
    BlockedIffCovered(old0, src);
    if Blocked(t, src) {
      var n: nat :| n <= |src.bits| && src.bits[..n] in t.Keys;
      assert src.bits[..n] in old0.Keys || src.bits[..n] in wanted;
    }
    if Blocked(old0, src) && CoveredBy(wanted, src) {
      var n: nat :| n <= |src.bits| && src.bits[..n] in old0.Keys;
      var m: nat :| m <= |src.bits| && src.bits[..m] in wanted;
      assert src.bits[..n] in t.Keys || src.bits[..m] in t.Keys;
    }
  }

  // After a successful sync an address is blocked exactly when some configured CIDR contains it.
  lemma SyncedMeansTheList(t: Table, cidrs: seq<CidrText>, src: Ip)
    requires AllOnes(t)
    requires t.Keys == KeysFor(cidrs, src.family)
    ensures Blocked(t, src) <==> SomeCidr(cidrs, src)
  {
    BlockedIffCovered(t, src);
    if Blocked(t, src) {
      var n: nat :| n <= |src.bits| && src.bits[..n] in t.Keys;
      var c :| c in cidrs && ParseIpCidr(c).Ok? && ParseIpCidr(c).value.network.family == src.family
               && src.bits[..n] == BlockKey(ParseIpCidr(c).value);
      assert |BlockKey(ParseIpCidr(c).value)| == ParseIpCidr(c).value.prefix;
      assert CidrContains(c, src);
    }
    if SomeCidr(cidrs, src) {
      var c :| c in cidrs && CidrContains(c, src);
      var n := ParseIpCidr(c).value.prefix;
      assert src.bits[..n] == BlockKey(ParseIpCidr(c).value);
      assert src.bits[..n] in t.Keys;
    }
  }
}
