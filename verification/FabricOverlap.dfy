// Two operations on one VM that overlap: nothing in the source prevents it, and what a serial
// run guarantees is lost. Together with FabricResults this makes serial operations the exact
// condition.
module FabricOverlap {
  import opened Wrappers
  import opened Policy
  import opened Lpm
  import opened TcProgram
  import opened MapCompiler
  import opened ConfigSteps
  import opened Fabric
  import opened FabricSafety
  import opened FabricSerial
  import opened FabricHeal
  import opened FabricResults
  import opened Frames
  import Bits

  // An attached VM with two updates begun: operation 1 for job a, operation 2 for job b.
  lemma TwoUpdates(env: Env, v: VmId, a: Job, b: Job) returns (w: World)
    requires ValidJob(a) && ValidJob(b) && a.iface == b.iface
    ensures Reachable(env, w) && w.requested == {(v, a.policy), (v, b.policy)}
    ensures w.tasks == map[1 := Op(v, Updating(UInvalidate, a)), 2 := Op(v, Updating(UInvalidate, b))]
    ensures FilesOf(w, v) == Synced(env, 0, a) && 0 in w.programs && w.programs[0].vm == v
    ensures a.iface in w.slot && w.slot[a.iface] == 0
  {
    var w0 := AttachedWorld(env, v, a);
    var w1 := Begin(w0, 1, v, Updating(UInvalidate, a));
    assert Startable(w0, v, Updating(UInvalidate, a));
    assert OpNext(env, w0, w1, 1);
    ReachNext(env, w0, w1);
    w := Begin(w1, 2, v, Updating(UInvalidate, b));
    assert Startable(w1, v, Updating(UInvalidate, b));
    assert OpNext(env, w1, w, 2);
    ReachNext(env, w1, w);
  }

  // An update by itself, from its beginning up to the commit.
  lemma UpdateStage(env: Env, w: World, o: OpId, v: VmId, job: Job, p: ProgId) returns (w': World, n: nat)
    requires o in w.tasks && w.tasks[o] == Op(v, Updating(UInvalidate, job)) && ValidJob(job)
    requires FilesOf(w, v).mapPin == Some(p) && p in w.programs
    ensures o in w'.tasks && w'.tasks[o] == Op(v, Updating(UCommit, job))
    ensures FilesOf(w', v) == FilesOf(w, v).(fingerprint := None) && w'.slot == w.slot
    ensures p in w'.programs && w'.programs[p].vm == w.programs[p].vm && HoldsJob(env, v, job, w'.programs[p].maps)
    ensures Gets(env, w, w', o, 0, n)
  {
    var w1 := OneStep(env, w, o, 0);
    var steps;
    w', steps := ConfigStage(env, w1, o, v, true, Deny, job, p, 0);
    n := 1 + steps;
    GetsThen(env, w, w1, w', o, 0, 1, steps);
  }

  // Operation 2 updates the maps, then operation 1 does, then operation 2 commits: the status
  // says b is in force, the next ensure does nothing, and packets are judged by a.
  lemma OverlapBreaksTruth(env: Env, v: VmId, a: Job, b: Job) returns (w: World)
    requires ValidJob(a) && ValidJob(b) && a.iface == b.iface
    ensures Reachable(env, w) && Healthy(env, w, v, b.base, b.iface)
    ensures HoldsJob(env, v, a, AttachedMaps(w, v))
  {
    var w0 := TwoUpdates(env, v, a, b);
    var w1, n1 := UpdateStage(env, w0, 2, v, b, 0);
    SoloReaches(env, w0, 2, 0, n1);
    OthersKept(w0, w1, 2, 1);
    var w2, n2 := UpdateStage(env, w1, 1, v, a, 0);
    SoloReaches(env, w1, 1, 0, n2);
    OthersKept(w1, w2, 1, 2);
    w := OneStep(env, w2, 2, 0);
    SoloReaches(env, w2, 2, 0, 1);
  }

  lemma OthersKept(w: World, w': World, o: OpId, q: OpId)
    requires w'.tasks - {o} == w.tasks - {o} && q != o && q in w.tasks
    ensures q in w'.tasks && w'.tasks[q] == w.tasks[q]
  {
    assert q in w.tasks - {o} && (w.tasks - {o})[q] == w.tasks[q];
    assert q in w'.tasks - {o} && (w'.tasks - {o})[q] == w'.tasks[q];
  }

  // Reachable, by a run in which v's operations do not overlap if that is enforced.
  ghost predicate ReachableUnder(env: Env, w: World, v: VmId, serial: bool) {
    exists run :: IsRun(env, run) && run[|run| - 1] == w && (serial ==> Serial(run, v))
  }

  // The fingerprint tells b apart from every other policy, and a differs from b by more than
  // extra CIDRs.
  ghost predicate ToldApart(env: Env, a: Job, b: Job) {
    && (forall q :: env.fingerprint(q) == env.fingerprint(b.base) ==> q == b.base)
    && a.policy.defaultAllow != b.base.defaultAllow
  }

  lemma NotCommitted(env: Env, requested: Requests, v: VmId, a: Job, b: Job, m: Maps)
    requires a.iface == b.iface && HoldsJob(env, v, a, m) && ToldApart(env, a, b)
    ensures !Committed(env, requested, v, b.iface, env.fingerprint(b.base), m)
  {
  }

  // The stored fingerprint is truthful in every reachable world if and only if operations on
  // the VM are kept from overlapping.
  lemma TruthfulIffSerial(env: Env, v: VmId, a: Job, b: Job, serial: bool)
    requires ValidJob(a) && ValidJob(b) && a.iface == b.iface && ToldApart(env, a, b)
    ensures (forall w :: ReachableUnder(env, w, v, serial) ==> Truthful(env, w, v)) <==> serial
  {
    if serial {
      forall w | ReachableUnder(env, w, v, true) ensures Truthful(env, w, v) {
        var run :| IsRun(env, run) && run[|run| - 1] == w && Serial(run, v);
        StoredFingerprintIsTruthful(env, run, v, |run| - 1);
      }
    } else {
      var w := OverlapBreaksTruth(env, v, a, b);
      assert ReachableUnder(env, w, v, false);
      NotCommitted(env, w.requested, v, a, b, AttachedMaps(w, v));
      assert !Truthful(env, w, v);
    }
  }

  /* Two updates whose table edits interleave. */

  // The maps after the first k of these entries were added to m.
  function AddedTo(m: Maps, entries: seq<(Which, seq<bool>)>, k: nat): Maps
    requires k <= |entries|
  {
    if k == 0 then m else WithKey(AddedTo(m, entries, k - 1), entries[k - 1].0, entries[k - 1].1)
  }

  lemma OneMoreKey(m: Maps, w0: Which, e: seq<bool>, w: Which)
    ensures AllOnes(TableOf(m, w)) ==> AllOnes(TableOf(WithKey(m, w0, e), w))
    ensures WithKey(m, w0, e).id == m.id
    ensures TableOf(m, w).Keys <= TableOf(WithKey(m, w0, e), w).Keys && e in TableOf(WithKey(m, w0, e), w0)
  {
  }

  lemma {:induction false} AddedToGrows(m: Maps, entries: seq<(Which, seq<bool>)>, k: nat, w: Which)
    requires k <= |entries|
    ensures TableOf(m, w).Keys <= TableOf(AddedTo(m, entries, k), w).Keys && AddedTo(m, entries, k).id == m.id
    ensures AllOnes(TableOf(m, w)) ==> AllOnes(TableOf(AddedTo(m, entries, k), w))
  {
    if k > 0 {
      AddedToGrows(m, entries, k - 1, w);
      OneMoreKey(AddedTo(m, entries, k - 1), entries[k - 1].0, entries[k - 1].1, w);
    }
  }

  lemma {:induction false} AddedToHas(m: Maps, entries: seq<(Which, seq<bool>)>, k: nat, i: nat)
    requires i < k <= |entries|
    ensures entries[i].1 in TableOf(AddedTo(m, entries, k), entries[i].0)
  {
    OneMoreKey(AddedTo(m, entries, k - 1), entries[k - 1].0, entries[k - 1].1, entries[i].0);
    if i < k - 1 {
      AddedToHas(m, entries, k - 1, i);
    }
  }

  // The policy's entries in the order configure_maps adds them.
  function EntriesOf(identity: U32, p: VmNetworkPolicy): seq<(Which, seq<bool>)>
    requires Compilable(p)
  {
    seq(Entries(p), k requires 0 <= k < Entries(p) => Entry(identity, p, k))
  }

  function Added(m: Maps, identity: U32, p: VmNetworkPolicy, k: nat): Maps
    requires Compilable(p) && k <= Entries(p)
  {
    AddedTo(m, EntriesOf(identity, p), k)
  }

  lemma AddedTables(m: Maps, identity: U32, p: VmNetworkPolicy, w: Which)
    requires Compilable(p)
    ensures var after := Added(m, identity, p, Entries(p));
            && TableOf(m, w).Keys <= TableOf(after, w).Keys && PolicyKeys(identity, p, w) <= TableOf(after, w).Keys
            && (AllOnes(TableOf(m, w)) ==> AllOnes(TableOf(after, w))) && after.id == m.id
  {
    AddedToGrows(m, EntriesOf(identity, p), Entries(p), w);
    AllEntries(identity, p, w);
    forall key | key in PolicyKeys(identity, p, w) ensures key in TableOf(Added(m, identity, p, Entries(p)), w) {
      var i :| 0 <= i < Entries(p) && Entry(identity, p, i).0 == w && Entry(identity, p, i).1 == key;
      AddedToHas(m, EntriesOf(identity, p), Entries(p), i);
    }
  }

  // All of an update's deletions: from the first command up to the first addition.
  lemma {:induction false} ClearStage(env: Env, w: World, o: OpId, v: VmId, cpc: ConfigPc, job: Job, p: ProgId)
    returns (w': World, n: nat)
    requires Configures(env, w, o, v, true, cpc, job, p) && !cpc.Add?
    ensures OnlyMaps(w, w', v, p) && Configures(env, w', o, v, true, Add(0), job, p)
    ensures Gets(env, w, w', o, 0, n)
    decreases Rank(cpc), Remaining(job.policy, cpc)
  {
    var m, key := w.programs[p].maps, NextKey(w, o);
    var w1 := CommandStage(env, w, o, v, true, cpc, job, p, 0);
    CommandKeepsInv(m, env.identity(v), env.ifindex(job.iface), job.policy, true, cpc, key);
    var next := Following(m, job.policy, cpc, key).value;
    CloserToTheEnd(m, job.policy, cpc, key);
    w', n := w1, 1;
    if !next.Add? {
      var rest;
      w', rest := ClearStage(env, w1, o, v, next, job, p);
      n := 1 + rest;
      GetsThen(env, w, w1, w', o, 0, 1, rest);
    }
  }

  lemma InvalidateAndClear(env: Env, w: World, o: OpId, v: VmId, job: Job, p: ProgId) returns (w': World, n: nat)
    requires o in w.tasks && w.tasks[o] == Op(v, Updating(UInvalidate, job)) && ValidJob(job)
    requires FilesOf(w, v).mapPin == Some(p) && p in w.programs
    ensures FilesOf(w', v) == FilesOf(w, v).(fingerprint := None) && w'.slot == w.slot
    ensures Configures(env, w', o, v, true, Add(0), job, p) && w'.programs[p].vm == w.programs[p].vm
    ensures Gets(env, w, w', o, 0, n)
  {
    var w1 := OneStep(env, w, o, 0);
    var steps;
    w', steps := ClearStage(env, w1, o, v, Deny, job, p);
    n := 1 + steps;
    GetsThen(env, w, w1, w', o, 0, 1, steps);
  }

  // Operation o is about to add entry k.
  predicate Adding(w: World, o: OpId, v: VmId, job: Job, p: ProgId, k: nat) {
    && o in w.tasks && w.tasks[o] == Op(v, Configuring(true, Add(k), job))
    && FilesOf(w, v).mapPin == Some(p) && p in w.programs
  }

  // Operation o has added k entries to m0.
  predicate HasAdded(env: Env, w: World, o: OpId, v: VmId, job: Job, p: ProgId, m0: Maps, k: nat) {
    && Compilable(job.policy) && k <= Entries(job.policy) && Adding(w, o, v, job, p, k)
    && w.programs[p].maps == Added(m0, env.identity(v), job.policy, k)
  }

  // From w it has come to w' that way, by itself.
  ghost predicate AddedSoFar(env: Env, w: World, w': World, o: OpId, v: VmId, job: Job, p: ProgId, k: nat) {
    && p in w.programs && OnlyMaps(w, w', v, p) && Gets(env, w, w', o, 0, k)
    && HasAdded(env, w', o, v, job, p, w.programs[p].maps, k)
  }

  // An update's additions, to whatever the maps hold.
  lemma {:induction false} AddStage(env: Env, w: World, o: OpId, v: VmId, job: Job, p: ProgId, k: nat)
    returns (w': World)
    requires Compilable(job.policy) && k <= Entries(job.policy) && Adding(w, o, v, job, p, 0)
    ensures AddedSoFar(env, w, w', o, v, job, p, k)
  {
    if k == 0 {
      w' := w;
    } else {
      w' := AddStage(env, w, o, v, job, p, k - 1);
      w' := AddOneMore(env, w, w', o, v, job, p, k - 1);
    }
  }

  lemma OnlyMapsThen(w: World, w1: World, w2: World, v: VmId, p: ProgId)
    requires p in w.programs && OnlyMaps(w, w1, v, p) && OnlyMaps(w1, w2, v, p)
    ensures OnlyMaps(w, w2, v, p)
  {
  }

  lemma AddOneMore(env: Env, w: World, w1: World, o: OpId, v: VmId, job: Job, p: ProgId, k: nat) returns (w': World)
    requires AddedSoFar(env, w, w1, o, v, job, p, k) && k < Entries(job.policy)
    ensures AddedSoFar(env, w, w', o, v, job, p, k + 1)
  {
    w' := AddOne(env, w1, o, v, job, p, w.programs[p].maps, k);
    OnlyMapsThen(w, w1, w', v, p);
    GetsThen(env, w, w1, w', o, 0, k, 1);
  }

  lemma AddOne(env: Env, w: World, o: OpId, v: VmId, job: Job, p: ProgId, m0: Maps, k: nat) returns (w': World)
    requires HasAdded(env, w, o, v, job, p, m0, k) && k < Entries(job.policy)
    ensures OnlyMaps(w, w', v, p) && HasAdded(env, w', o, v, job, p, m0, k + 1)
    ensures Gets(env, w, w', o, 0, 1)
  {
    assert MapsAt(w, FilesOf(w, v).mapPin) == Some(w.programs[p].maps);
    w' := OneStep(env, w, o, 0);
  }

  function Published(m: Maps, env: Env, v: VmId, job: Job): Maps
    requires Compilable(job.policy)
  {
    m.(id := m.id[env.ifindex(job.iface) := PolicyConfig(env.identity(v), job.policy)])
  }

  lemma PublishStage(env: Env, w: World, o: OpId, v: VmId, job: Job, p: ProgId) returns (w': World)
    requires Compilable(job.policy) && Adding(w, o, v, job, p, Entries(job.policy))
    ensures OnlyMaps(w, w', v, p) && w'.programs[p].maps == Published(w.programs[p].maps, env, v, job)
    ensures Gets(env, w, w', o, 0, 1)
  {
    assert MapsAt(w, FilesOf(w, v).mapPin) == Some(w.programs[p].maps);
    w' := OneStep(env, w, o, 0);
  }

  function Mixed(m: Maps, env: Env, v: VmId, a: Job, b: Job): Maps
    requires Compilable(a.policy) && Compilable(b.policy)
  {
    var first := Published(Added(m, env.identity(v), a.policy, Entries(a.policy)), env, v, a);
    Added(first, env.identity(v), b.policy, Entries(b.policy))
  }

  // Both operations clear the tables; operation 1 adds a's entries and publishes a; operation 2
  // adds b's entries to them.
  lemma EntriesOfBoth(env: Env, v: VmId, a: Job, b: Job) returns (w: World, m: Maps)
    requires ValidJob(a) && ValidJob(b) && a.iface == b.iface
    ensures Reachable(env, w) && w.requested == {(v, a.policy), (v, b.policy)}
    ensures a.iface in w.slot && w.slot[a.iface] == 0 && 0 in w.programs && w.programs[0].vm == v
    ensures (forall x :: TableOf(m, x) == map[]) && w.programs[0].maps == Mixed(m, env, v, a, b)
  {
    var w0 := TwoUpdates(env, v, a, b);
    var w1, n1 := InvalidateAndClear(env, w0, 1, v, a, 0);
    SoloReaches(env, w0, 1, 0, n1);
    OthersKept(w0, w1, 1, 2);
    var w2, n2 := InvalidateAndClear(env, w1, 2, v, b, 0);
    SoloReaches(env, w1, 2, 0, n2);
    OthersKept(w1, w2, 2, 1);
    m := w2.programs[0].maps;
    forall x ensures TableOf(m, x) == map[] {
      assert EntriesBefore(env.identity(v), b.policy, 0, x) == {};
    }
    w := AddBoth(env, w2, v, a, b, m);
  }

  lemma AddBoth(env: Env, w0: World, v: VmId, a: Job, b: Job, m: Maps) returns (w: World)
    requires ValidJob(a) && ValidJob(b) && a.iface == b.iface && Reachable(env, w0)
    requires Adding(w0, 1, v, a, 0, 0) && Adding(w0, 2, v, b, 0, 0) && w0.programs[0].maps == m
    ensures Reachable(env, w) && w.requested == w0.requested && w.slot == w0.slot
    ensures 0 in w.programs && w.programs[0].vm == w0.programs[0].vm && w.programs[0].maps == Mixed(m, env, v, a, b)
  {
    var w1 := AddStage(env, w0, 1, v, a, 0, Entries(a.policy));
    SoloReaches(env, w0, 1, 0, Entries(a.policy));
    OthersKept(w0, w1, 1, 2);
    var w2 := PublishStage(env, w1, 1, v, a, 0);
    SoloReaches(env, w1, 1, 0, 1);
    OthersKept(w1, w2, 1, 2);
    w := AddStage(env, w2, 2, v, b, 0, Entries(b.policy));
    SoloReaches(env, w2, 2, 0, Entries(b.policy));
  }

  // a's CIDRs and b's ports: a packet neither policy permits.
  ghost predicate BetweenPolicies(a: VmNetworkPolicy, b: VmNetworkPolicy, frame: seq<U8>) {
    var v := Parse(frame);
    && v.Packet? && !IsBootstrap(v) && a.allowCidrs != [] && a.allowPorts != []
    && SomeCidr(a.allowCidrs, v.dst) && SomePort(b.allowPorts, VisiblePort(v))
    && !Permits(a, v.dst, VisiblePort(v)) && !Permits(b, v.dst, VisiblePort(v))
  }

  lemma MixedTable(m: Maps, env: Env, v: VmId, a: Job, b: Job, x: Which)
    requires Compilable(a.policy) && Compilable(b.policy) && forall y :: TableOf(m, y) == map[]
    ensures var t := TableOf(Mixed(m, env, v, a, b), x);
            && Mixed(m, env, v, a, b).id == m.id[env.ifindex(a.iface) := PolicyConfig(env.identity(v), a.policy)]
            && AllOnes(t)
            && PolicyKeys(env.identity(v), a.policy, x) <= t.Keys && PolicyKeys(env.identity(v), b.policy, x) <= t.Keys
  {
    var id := env.identity(v);
    var first := Added(m, id, a.policy, Entries(a.policy));
    AddedTables(m, id, a.policy, x);
    assert TableOf(Published(first, env, v, a), x) == TableOf(first, x);
    AddedTables(Published(first, env, v, a), id, b.policy, x);
  }

  lemma MixedLetsThrough(m: Maps, env: Env, v: VmId, a: Job, b: Job, frame: seq<U8>)
    requires Compilable(a.policy) && Compilable(b.policy) && forall y :: TableOf(m, y) == map[]
    requires BetweenPolicies(a.policy, b.policy, frame)
    ensures AllowedByPolicy(Egress(Mixed(m, env, v, a, b), env.ifindex(a.iface), Parse(frame)))
  {
    var mixed, id, view := Mixed(m, env, v, a, b), env.identity(v), Parse(frame);
    MixedTable(m, env, v, a, b, V4);
    MixedTable(m, env, v, a, b, V6);
    MixedTable(m, env, v, a, b, Ports4);
    CidrsStillHit(mixed, id, a.policy, view);
    TableMeansPorts(id, b.policy.allowPorts, VisiblePort(view).value);
    assert L4Hit(mixed, id, view);
  }

  lemma CidrsStillHit(m: Maps, identity: U32, p: VmNetworkPolicy, v: View)
    requires Compilable(p) && v.Packet? && SomeCidr(p.allowCidrs, v.dst)
    requires AllOnes(m.v4) && AllOnes(m.v6)
    requires PolicyKeys(identity, p, V4) <= m.v4.Keys && PolicyKeys(identity, p, V6) <= m.v6.Keys
    ensures CidrHit(m, identity, v)
  {
    var key := IdentityBits(identity) + v.dst.bits;
    var only := OnesOn(CidrKeys(identity, p.allowCidrs, v.dst.family));
    TrieMeansCidrs(identity, p.allowCidrs, v.dst);
    HitIffCovers(only, key);
    HitIffCovers(if v.dst.family.Inet? then m.v4 else m.v6, key);
  }

  ghost predicate NeverOpener(env: Env, w: World, v: VmId, frame: seq<U8>) {
    forall i :: i in w.slot && w.slot[i] in w.programs && w.programs[w.slot[i]].vm == v ==> NoOpener(env, w, i, frame)
  }

  // Where two policies can be told apart by a packet, the classifier is never opener than the
  // policy in force in every reachable world if and only if operations on the VM are kept from
  // overlapping.
  lemma NeverOpenerIffSerial(env: Env, v: VmId, a: Job, b: Job, frame: seq<U8>, serial: bool)
    requires ValidJob(a) && ValidJob(b) && a.iface == b.iface && BetweenPolicies(a.policy, b.policy, frame)
    ensures (forall w :: ReachableUnder(env, w, v, serial) ==> NeverOpener(env, w, v, frame)) <==> serial
  {
    if serial {
      forall w | ReachableUnder(env, w, v, true) ensures NeverOpener(env, w, v, frame) {
        SerialNeverOpener(env, w, v, frame);
      }
    } else {
      var w := OverlapOpens(env, v, a, b, frame);
    }
  }

  lemma SerialNeverOpener(env: Env, w: World, v: VmId, frame: seq<U8>)
    requires ReachableUnder(env, w, v, true)
    ensures NeverOpener(env, w, v, frame)
  {
    var run :| IsRun(env, run) && run[|run| - 1] == w && Serial(run, v);
    forall i | i in w.slot && w.slot[i] in w.programs && w.programs[w.slot[i]].vm == v
      ensures NoOpener(env, w, i, frame)
    {
      NeverOpenerThanPublished(env, run, |run| - 1, i, frame);
    }
  }

  lemma OverlapOpens(env: Env, v: VmId, a: Job, b: Job, frame: seq<U8>) returns (w: World)
    requires ValidJob(a) && ValidJob(b) && a.iface == b.iface && BetweenPolicies(a.policy, b.policy, frame)
    ensures ReachableUnder(env, w, v, false) && !NeverOpener(env, w, v, frame)
  {
    var m;
    w, m := EntriesOfBoth(env, v, a, b);
    MixedLetsThrough(m, env, v, a, b, frame);
    assert !NoOpener(env, w, a.iface, frame);
  }

  /* There are such policies and packets. */

  // Half of the IPv4 addresses, and one TCP port.
  function HalfAndPort(upper: bool, port: U16): VmNetworkPolicy {
    VmNetworkPolicy(false, [Slash(Some(IpData.Ip(Inet, [upper] + Bits.Zeros(31))), Some(1))],
                    [Rule(TcpText, Some(port))], None, None, 0)
  }

  // A TCP segment to 0.0.0.0 port 81.
  function Segment81(): seq<U8> {
    Frame4(seq(12, _ => 0), Header4(5, [0, 0, 0, 0, 0], 0, 64, IPPROTO_TCP, [0, 0], [0, 0, 0, 0], [0, 0, 0, 0], []),
           Segment(1024, 81, seq(16, _ => 0)))
  }

  lemma SomePacketIsBetween()
    ensures Valid(HalfAndPort(false, 80)) && Valid(HalfAndPort(true, 81))
    ensures BetweenPolicies(HalfAndPort(false, 80), HalfAndPort(true, 81), Segment81())
  {
    Segment81Parses();
    var dst := Parse(Segment81()).dst;
    FirstBitOfZero();
    assert dst.bits[..1] == [false];
    HalfContains(false, 80, dst, false);
    HalfContains(true, 81, dst, false);
    PortMatchesOnly(false, 80, 81);
    PortMatchesOnly(true, 81, 81);
  }

  lemma HalfContains(upper: bool, port: U16, dst: Ip, first: bool)
    requires dst.family.Inet? && dst.bits[..1] == [first]
    ensures SomeCidr(HalfAndPort(upper, port).allowCidrs, dst) <==> first == upper
  {
    var t := HalfAndPort(upper, port).allowCidrs[0];
    assert ([upper] + Bits.Zeros(31))[..1] == [upper];
    assert CidrContains(t, dst) <==> [first] == [upper];
    assert [first][0] == first && [upper][0] == upper;
  }

  lemma PortMatchesOnly(upper: bool, port: U16, seen: U16)
    ensures SomePort(HalfAndPort(upper, port).allowPorts, Some(PortRule(IPPROTO_TCP, seen))) <==> seen == port
  {
    assert PortMatches(HalfAndPort(upper, port).allowPorts[0], IPPROTO_TCP, seen) <==> seen == port;
  }

  lemma Segment81Parses()
    ensures Parse(Segment81())
            == Packet(IpData.Ip(Inet, Bits.OfBytes([0, 0, 0, 0])), IPPROTO_TCP, false, Ports(1024, 81), false)
  {
    var h := Header4(5, [0, 0, 0, 0, 0], 0, 64, IPPROTO_TCP, [0, 0], [0, 0, 0, 0], [0, 0, 0, 0], []);
    Frame4ReadsBack(seq(12, _ => 0), h, 1024, 81, seq(16, _ => 0));
  }

  lemma FirstBitOfZero()
    ensures Bits.OfBytes([0, 0, 0, 0])[0] == false
  {
    assert Bits.OfBytes([0, 0, 0, 0])[..8] == Bits.OfNat(0, 8);
  }
}
