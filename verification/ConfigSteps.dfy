// configure_maps command by command: each command acts on the maps as it finds them, and what
// to do next depends only on what the loader has seen and done itself.
module ConfigSteps {
  import opened Wrappers
  import opened Policy
  import opened TcProgram
  import opened MapCompiler

  // Deny everything; for each table list its keys and delete them one by one; add the policy's
  // entries one by one; publish the configuration.
  datatype ConfigPc = Deny | Dump(which: Which) | Delete(which: Which, left: set<seq<bool>>) | Add(done: nat)

  // The policy's entries in the order they are added.
  function Entries(p: VmNetworkPolicy): nat {
    |p.allowCidrs| + |p.allowPorts|
  }

  function Entry(identity: U32, p: VmNetworkPolicy, k: nat): (Which, seq<bool>)
    requires Compilable(p) && k < Entries(p)
  {
    if k < |p.allowCidrs| then
      var c := ParseIpCidr(p.allowCidrs[k]).value;
      (if c.network.family.Inet? then V4 else V6, CidrKey(identity, c))
    else (Ports4, L4Key(identity, ParsePortRule(p.allowPorts[k - |p.allowCidrs|]).value))
  }

  // What the next command does to the maps. `key` is the one a deletion comes to.
  function Effect(m: Maps, identity: U32, ifindex: U32, p: VmNetworkPolicy, pc: ConfigPc, key: seq<bool>): Maps {
    match pc
    case Deny => m.(id := m.id[ifindex := DenyConfig(identity)])
    case Dump(_) => m
    case Delete(w, left) => if left == {} then m else Without(m, w, key)
    case Add(k) =>
      if !Compilable(p) then m
      else if k < Entries(p) then WithKey(m, Entry(identity, p, k).0, Entry(identity, p, k).1)
      else m.(id := m.id[ifindex := PolicyConfig(identity, p)])
  }

  // What comes after it, or None when it was the last.
  function Following(m: Maps, p: VmNetworkPolicy, pc: ConfigPc, key: seq<bool>): Option<ConfigPc> {
    match pc
    case Deny => Some(Dump(V4))
    case Dump(w) => Some(Delete(w, TableOf(m, w).Keys))
    case Delete(w, left) =>
      if left != {} then Some(Delete(w, left - {key}))
      else Some(match w case V4 => Dump(V6) case V6 => Dump(Ports4) case Ports4 => Add(0))
    case Add(k) => if k < Entries(p) then Some(Add(k + 1)) else None
  }

  // A deletion takes a key that was listed, and succeeds only if it is still there.
  predicate Deletable(m: Maps, pc: ConfigPc, key: seq<bool>, ok: bool) {
    pc.Delete? && pc.left != {} ==> key in pc.left && (ok ==> key in TableOf(m, pc.which))
  }

  // The command that puts the policy's configuration in force.
  predicate Publishes(p: VmNetworkPolicy, pc: ConfigPc) {
    Compilable(p) && pc.Add? && pc.done >= Entries(p)
  }

  /* When nobody else changes the maps. */

  function EntriesBefore(identity: U32, p: VmNetworkPolicy, k: nat, w: Which): set<seq<bool>>
    requires Compilable(p) && k <= Entries(p)
  {
    set j | 0 <= j < k && Entry(identity, p, j).0 == w :: Entry(identity, p, j).1
  }

  ghost predicate EmptyBefore(m: Maps, w: Which) {
    (w != V4 ==> m.v4 == map[]) && (w == Ports4 ==> m.v6 == map[])
  }

  ghost predicate ConfigInv(m: Maps, identity: U32, ifindex: U32, p: VmNetworkPolicy, live: bool, pc: ConfigPc) {
    && Compilable(p)
    && (live && !pc.Deny? ==> Denies(m, identity, ifindex))
    && match pc
       case Deny => live
       case Dump(w) => EmptyBefore(m, w)
       case Delete(w, left) => EmptyBefore(m, w) && TableOf(m, w).Keys == left
       case Add(k) =>
         k <= Entries(p) && forall w :: TableOf(m, w) == OnesOn(EntriesBefore(identity, p, k, w))
  }

  lemma EntryIsPolicyKey(identity: U32, p: VmNetworkPolicy, k: nat)
    requires Compilable(p) && k < Entries(p)
    ensures Entry(identity, p, k).1 in PolicyKeys(identity, p, Entry(identity, p, k).0)
  {
  }

  lemma CidrIsEntry(identity: U32, p: VmNetworkPolicy, f: Family, key: seq<bool>)
    requires Compilable(p) && key in CidrKeys(identity, p.allowCidrs, f)
    ensures key in EntriesBefore(identity, p, Entries(p), if f.Inet? then V4 else V6)
  {
    var t :| t in p.allowCidrs && ParseIpCidr(t).Ok? && ParseIpCidr(t).value.network.family == f
             && key == CidrKey(identity, ParseIpCidr(t).value);
    var i :| 0 <= i < |p.allowCidrs| && p.allowCidrs[i] == t;
    assert Entry(identity, p, i) == (if f.Inet? then V4 else V6, key);
  }

  lemma PortIsEntry(identity: U32, p: VmNetworkPolicy, key: seq<bool>)
    requires Compilable(p) && key in PortKeys(identity, p.allowPorts)
    ensures key in EntriesBefore(identity, p, Entries(p), Ports4)
  {
    var t :| t in p.allowPorts && ParsePortRule(t).Ok? && key == L4Key(identity, ParsePortRule(t).value);
    var i :| 0 <= i < |p.allowPorts| && p.allowPorts[i] == t;
    assert Entry(identity, p, |p.allowCidrs| + i) == (Ports4, key);
  }

  lemma AllEntries(identity: U32, p: VmNetworkPolicy, w: Which)
    requires Compilable(p)
    ensures EntriesBefore(identity, p, Entries(p), w) == PolicyKeys(identity, p, w)
  {
    forall key | key in PolicyKeys(identity, p, w) ensures key in EntriesBefore(identity, p, Entries(p), w) {
      match w
      case V4 => CidrIsEntry(identity, p, Inet, key);
      case V6 => CidrIsEntry(identity, p, Inet6, key);
      case Ports4 => PortIsEntry(identity, p, key);
    }
    forall key | key in EntriesBefore(identity, p, Entries(p), w) ensures key in PolicyKeys(identity, p, w) {
      var k :| 0 <= k < Entries(p) && Entry(identity, p, k).0 == w && Entry(identity, p, k).1 == key;
      EntryIsPolicyKey(identity, p, k);
    }
  }

  // A command that runs leads to the next one with the invariant, and the last one to maps that
  // hold the policy.
  lemma CommandKeepsInv(m: Maps, identity: U32, ifindex: U32, p: VmNetworkPolicy, live: bool, pc: ConfigPc,
                        key: seq<bool>)
    requires ConfigInv(m, identity, ifindex, p, live, pc) && Deletable(m, pc, key, true)
    ensures var m', next := Effect(m, identity, ifindex, p, pc, key), Following(m, p, pc, key);
            if next.Some? then ConfigInv(m', identity, ifindex, p, live, next.value)
            else Holds(m', identity, ifindex, p)
  {
    match pc
    case Deny =>
    case Dump(_) =>
    case Delete(w, left) => DeleteKeepsInv(m, identity, ifindex, p, live, w, left, key);
    case Add(k) =>
      if k < Entries(p) {
        AddKeepsInv(m, identity, p, k);
      } else {
        PublishHolds(m, identity, ifindex, p);
      }
  }

  lemma DeleteKeepsInv(m: Maps, identity: U32, ifindex: U32, p: VmNetworkPolicy, live: bool, w: Which,
                       left: set<seq<bool>>, key: seq<bool>)
    requires ConfigInv(m, identity, ifindex, p, live, Delete(w, left)) && (left != {} ==> key in left)
    ensures var pc := Delete(w, left);
            ConfigInv(Effect(m, identity, ifindex, p, pc, key), identity, ifindex, p, live,
                      Following(m, p, pc, key).value)
  {
    if left != {} {
      assert (TableOf(m, w) - {key}).Keys == left - {key};
    } else {
      assert TableOf(m, w) == map[];
      forall x ensures EntriesBefore(identity, p, 0, x) == {} {}
    }
  }

  lemma PublishHolds(m: Maps, identity: U32, ifindex: U32, p: VmNetworkPolicy)
    requires ConfigInv(m, identity, ifindex, p, false, Add(Entries(p)))
    ensures Holds(m.(id := m.id[ifindex := PolicyConfig(identity, p)]), identity, ifindex, p)
  {
    var m' := m.(id := m.id[ifindex := PolicyConfig(identity, p)]);
    forall w ensures TableOf(m', w) == OnesOn(PolicyKeys(identity, p, w)) {
      AllEntries(identity, p, w);
      assert TableOf(m', w) == TableOf(m, w);
    }
  }

  lemma OneMoreEntry(identity: U32, p: VmNetworkPolicy, k: nat, w: Which)
    requires Compilable(p) && k < Entries(p)
    ensures EntriesBefore(identity, p, k + 1, w)
            == EntriesBefore(identity, p, k, w) + if w == Entry(identity, p, k).0 then {Entry(identity, p, k).1} else {}
  {
  }

  lemma AddKeepsInv(m: Maps, identity: U32, p: VmNetworkPolicy, k: nat)
    requires Compilable(p) && k < Entries(p)
    requires forall w :: TableOf(m, w) == OnesOn(EntriesBefore(identity, p, k, w))
    ensures var (w0, e) := Entry(identity, p, k);
            forall w :: TableOf(WithKey(m, w0, e), w) == OnesOn(EntriesBefore(identity, p, k + 1, w))
  {
    var (w0, e) := Entry(identity, p, k);
    forall w ensures TableOf(WithKey(m, w0, e), w) == OnesOn(EntriesBefore(identity, p, k + 1, w)) {
      OneMoreEntry(identity, p, k, w);
      OneMoreOne(m, w0, e, w, EntriesBefore(identity, p, k, w));
    }
  }

  lemma OneMoreOne(m: Maps, w0: Which, e: seq<bool>, w: Which, keys: set<seq<bool>>)
    requires TableOf(m, w) == OnesOn(keys)
    ensures TableOf(WithKey(m, w0, e), w) == OnesOn(keys + if w == w0 then {e} else {})
  {
    OnesOnPlus(keys, e);
  }

  // Whatever becomes of a command on live maps: if it publishes they hold the policy, the first
  // one makes them deny, otherwise they stay as they are or deny.
  lemma CommandIsSafe(m: Maps, identity: U32, ifindex: U32, p: VmNetworkPolicy, pc: ConfigPc, key: seq<bool>)
    requires ConfigInv(m, identity, ifindex, p, true, pc)
    ensures var m' := Effect(m, identity, ifindex, p, pc, key);
            if Publishes(p, pc) then Holds(m', identity, ifindex, p)
            else Denies(m', identity, ifindex) || (!pc.Deny? && m' == m)
  {
    if pc.Add? && pc.done == Entries(p) {
      CommandKeepsInv(m, identity, ifindex, p, true, pc, key);
    }
  }

  /* An undisturbed sequence of commands is an UpdateTrace. */

  ghost predicate Commands(tr: seq<Maps>, pcs: seq<ConfigPc>, keys: seq<seq<bool>>,
                           identity: U32, ifindex: U32, p: VmNetworkPolicy) {
    && |tr| == |pcs| + 1 && |keys| == |pcs| && pcs != [] && pcs[0] == Deny && Compilable(p)
    && (forall i :: 0 <= i < |pcs| ==> Deletable(tr[i], pcs[i], keys[i], true))
    && (forall i :: 0 <= i < |pcs| ==> tr[i + 1] == Effect(tr[i], identity, ifindex, p, pcs[i], keys[i]))
    && (forall i :: 0 <= i < |pcs| - 1 ==> Following(tr[i], p, pcs[i], keys[i]) == Some(pcs[i + 1]))
  }

  lemma CommandEdits(m: Maps, old0: Maps, identity: U32, ifindex: U32, p: VmNetworkPolicy, pc: ConfigPc, key: seq<bool>)
    requires ConfigInv(m, identity, ifindex, p, true, pc) && Deletable(m, pc, key, true)
    requires if pc.Deny? then m == old0 else Editing(m, old0, identity, ifindex, p)
    requires Following(m, p, pc, key).Some?
    ensures Editing(Effect(m, identity, ifindex, p, pc, key), old0, identity, ifindex, p)
  {
    CommandKeepsInv(m, identity, ifindex, p, true, pc, key);
    match pc
    case Deny => DenyingIsEditing(m, identity, ifindex, p);
    case Dump(_) =>
    case Delete(w, left) =>
      if left != {} {
        RemovalStaysWithin(m, old0, identity, p, w, key);
      }
    case Add(k) =>
      EntryIsPolicyKey(identity, p, k);
      AdditionStaysWithin(m, old0, identity, p, Entry(identity, p, k).0, Entry(identity, p, k).1);
  }

  lemma {:induction false} CommandsEdit(tr: seq<Maps>, pcs: seq<ConfigPc>, keys: seq<seq<bool>>,
                                        identity: U32, ifindex: U32, p: VmNetworkPolicy, i: nat)
    requires Commands(tr, pcs, keys, identity, ifindex, p) && i < |pcs|
    ensures ConfigInv(tr[i], identity, ifindex, p, true, pcs[i])
    ensures if pcs[i].Deny? then i == 0 else Editing(tr[i], tr[0], identity, ifindex, p)
  {
    if i > 0 {
      CommandsEdit(tr, pcs, keys, identity, ifindex, p, i - 1);
      assert Following(tr[i - 1], p, pcs[i - 1], keys[i - 1]) == Some(pcs[i - 1 + 1]);
      CommandKeepsInv(tr[i - 1], identity, ifindex, p, true, pcs[i - 1], keys[i - 1]);
      CommandEdits(tr[i - 1], tr[0], identity, ifindex, p, pcs[i - 1], keys[i - 1]);
    }
  }

  // So packets between and across these commands are treated as LiveUpdate says.
  lemma CommandsAreAnUpdateTrace(tr: seq<Maps>, pcs: seq<ConfigPc>, keys: seq<seq<bool>>,
                                 identity: U32, ifindex: U32, p: VmNetworkPolicy)
    requires Commands(tr, pcs, keys, identity, ifindex, p)
    ensures var n := |pcs|;
            var finished := Following(tr[n - 1], p, pcs[n - 1], keys[n - 1]).None?;
            UpdateTrace(tr, 1, if finished then n else n + 1, identity, ifindex, p)
  {
    var n := |pcs|;
    forall i | 1 <= i < n ensures Editing(tr[i], tr[0], identity, ifindex, p) {
      CommandsEdit(tr, pcs, keys, identity, ifindex, p, i);
    }
    CommandsEdit(tr, pcs, keys, identity, ifindex, p, n - 1);
    CommandKeepsInv(tr[n - 1], identity, ifindex, p, true, pcs[n - 1], keys[n - 1]);
    if Following(tr[n - 1], p, pcs[n - 1], keys[n - 1]).Some? {
      CommandEdits(tr[n - 1], tr[0], identity, ifindex, p, pcs[n - 1], keys[n - 1]);
    }
  }
}
