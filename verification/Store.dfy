// The VM and warm-pool stores: every operation reads, changes and rewrites its file under one
// exclusive lock, so a run is a sequence of whole operations of all processes.
module VmStore {
  import opened Wrappers

  type VmId = string

  datatype VmRecord = VmRecord(id: VmId, guestCid: Option<U32>, rest: string)

  type Vms = map<VmId, VmRecord>

  function UsedCids(vms: Vms): set<U32> {
    set id | id in vms && vms[id].guestCid.Some? :: vms[id].guestCid.value
  }

  ghost predicate UniqueCids(vms: Vms) {
    forall a, b :: a in vms && b in vms && a != b && vms[a].guestCid.Some? ==> vms[a].guestCid != vms[b].guestCid
  }

  // The least free CID at or above `first`, or None when the counter would overflow.
  ghost predicate LeastFree(used: set<U32>, first: U32, cid: Option<U32>) {
    match cid
    case Some(c) => first <= c && c !in used && forall k: U32 :: first <= k < c ==> k in used
    case None => forall k: U32 :: first <= k ==> k in used
  }

  ghost predicate SomeVmHas(vms: Vms, cid: U32) {
    exists id :: id in vms && vms[id].guestCid == Some(cid)
  }

  lemma EveryUserCounts(vms: Vms)
    ensures forall cid: U32 :: cid in UsedCids(vms) <==> SomeVmHas(vms, cid)
  {
  }

  class Store {
    var vms: Vms

    constructor ()
      ensures vms == map[]
    {
      vms := map[];
    }

    // `insert` and `update`: the record replaces whatever its id named.
    method Insert(vm: VmRecord)
      modifies this
      ensures Next(old(vms), Op.Insert(vm), vms)
    {
      vms := vms[vm.id := vm];
    }

    method InsertWithCid(record: VmRecord, needsCid: bool, firstCid: U32) returns (r: Result<VmRecord>)
      modifies this
      ensures !needsCid ==> r == Ok(record)
      ensures needsCid ==> exists cid ::
                && LeastFree(UsedCids(old(vms)), firstCid, cid)
                && r == if cid.Some? then Ok(record.(guestCid := cid)) else Err
      ensures needsCid && r.Ok? ==>
                && r.value.guestCid.Some? && r.value.guestCid.value >= firstCid
                && !SomeVmHas(old(vms), r.value.guestCid.value)
                && forall k: U32 :: firstCid <= k < r.value.guestCid.value ==> SomeVmHas(old(vms), k)
      ensures r.Err? ==> needsCid && forall k: U32 :: firstCid <= k ==> SomeVmHas(old(vms), k)
      ensures vms == if r.Ok? then old(vms)[record.id := r.value] else old(vms)
      ensures Next(old(vms), Op.InsertWithCid(record, needsCid, firstCid), vms)
    {
      var stored := record;
      if needsCid {
        var used := UsedCids(vms);
        var candidate := firstCid;
        while candidate in used
          invariant firstCid <= candidate && forall k: U32 :: firstCid <= k < candidate ==> k in used
          invariant vms == old(vms)
          decreases MAX_U32 - candidate
        {
          if candidate == MAX_U32 {
            assert LeastFree(used, firstCid, None);
            EveryUserCounts(vms);
            return Err;
          }
          candidate := candidate + 1;
        }
        assert LeastFree(used, firstCid, Some(candidate));
        EveryUserCounts(vms);
        stored := stored.(guestCid := Some(candidate));
      }
      vms := vms[stored.id := stored];
      r := Ok(stored);
    }

    method Remove(id: VmId) returns (r: Option<VmRecord>)
      modifies this
      ensures r == if id in old(vms) then Some(old(vms)[id]) else None
      ensures Next(old(vms), Op.Remove(id), vms)
    {
      r := if id in vms then Some(vms[id]) else None;
      vms := vms - {id};
    }
  }

  /* Runs of the store. */

  datatype Op =
    | Insert(vm: VmRecord)
    | InsertWithCid(record: VmRecord, needsCid: bool, firstCid: U32)
    | Remove(id: VmId)

  ghost predicate Next(vms: Vms, op: Op, after: Vms) {
    match op
    case Insert(vm) => after == vms[vm.id := vm]
    case Remove(id) => after == vms - {id}
    case InsertWithCid(record, needsCid, firstCid) =>
      if !needsCid then after == vms[record.id := record]
      else
        exists cid :: LeastFree(UsedCids(vms), firstCid, cid)
                      && after == if cid.Some? then vms[record.id := record.(guestCid := cid)] else vms
  }

  // A blind write of `vm` duplicates no CID: the guard its caller could evaluate.
  ghost predicate Fresh(vms: Vms, vm: VmRecord) {
    vm.guestCid.Some? ==> forall id :: id in vms && id != vm.id ==> vms[id].guestCid != vm.guestCid
  }

  ghost predicate Disciplined(vms: Vms, op: Op) {
    match op
    case Insert(vm) => Fresh(vms, vm)
    case InsertWithCid(record, needsCid, _) => !needsCid ==> Fresh(vms, record)
    case Remove(_) => true
  }

  lemma AssignedIsFresh(vms: Vms, vm: VmRecord)
    requires vm.guestCid.Some? && vm.guestCid.value !in UsedCids(vms)
    ensures Fresh(vms, vm)
  {
  }

  lemma WriteKeepsUniqueIff(vms: Vms, vm: VmRecord)
    requires UniqueCids(vms)
    ensures UniqueCids(vms[vm.id := vm]) <==> Fresh(vms, vm)
  {
    var after := vms[vm.id := vm];
    if UniqueCids(after) && vm.guestCid.Some? {
      forall id | id in vms && id != vm.id ensures vms[id].guestCid != vm.guestCid {
        assert after[id] == vms[id] && after[vm.id] == vm;
      }
    }
  }

  // One operation keeps CIDs unique exactly when its blind writes are fresh.
  lemma UniqueIffDisciplined(vms: Vms, op: Op, after: Vms)
    requires UniqueCids(vms) && Next(vms, op, after)
    ensures UniqueCids(after) <==> Disciplined(vms, op)
  {
    match op
    case Insert(vm) => WriteKeepsUniqueIff(vms, vm);
    case Remove(_) =>
    case InsertWithCid(record, needsCid, firstCid) =>
      if needsCid {
        var cid :| LeastFree(UsedCids(vms), firstCid, cid)
                   && after == if cid.Some? then vms[record.id := record.(guestCid := cid)] else vms;
        if cid.Some? {
          AssignedIsFresh(vms, record.(guestCid := cid));
          WriteKeepsUniqueIff(vms, record.(guestCid := cid));
        }
      } else {
        WriteKeepsUniqueIff(vms, record);
      }
  }

  ghost predicate IsRun(states: seq<Vms>, ops: seq<Op>) {
    && |states| == |ops| + 1
    && states[0] == map[]
    && forall k :: 0 <= k < |ops| ==> Next(states[k], ops[k], states[k + 1])
  }

  /* What the callers know. */

  // The record an operation writes as it is.
  function Written(op: Op): Option<VmRecord> {
    match op
    case Insert(vm) => Some(vm)
    case InsertWithCid(record, needsCid, _) => if needsCid then None else Some(record)
    case Remove(_) => None
  }

  // Step k writes vm with the CID its id had when it was read, before step j, and the id has
  // not been removed since.
  ghost predicate Updates(states: seq<Vms>, ops: seq<Op>, vm: VmRecord, j: nat, k: nat)
    requires j <= k < |ops| < |states|
  {
    && vm.id in states[j] && states[j][vm.id].guestCid == vm.guestCid
    && forall i :: j <= i < k ==> ops[i] != Remove(vm.id)
  }

  // Step k is how the scheduler uses the store: a new id, with an assigned CID or none, or an
  // update of a record read earlier that kept its CID. Between the read and the update any
  // number of other operations, on this id as well, may have come.
  ghost predicate Careful(states: seq<Vms>, ops: seq<Op>, k: nat)
    requires k < |ops| < |states|
  {
    match Written(ops[k])
    case Some(vm) =>
      || (vm.id !in states[k] && vm.guestCid.None?)
      || exists j :: 0 <= j <= k && Updates(states, ops, vm, j, k)
    case None => ops[k].InsertWithCid? ==> ops[k].record.id !in states[k]
  }

  ghost predicate CarefulBefore(states: seq<Vms>, ops: seq<Op>, n: nat)
    requires n <= |ops| < |states|
  {
    forall k :: 0 <= k < n ==> Careful(states, ops, k)
  }

  // A record that is not removed keeps its CID, whatever updates it meanwhile.
  lemma {:induction false} CidKept(states: seq<Vms>, ops: seq<Op>, id: VmId, j: nat, n: nat)
    requires IsRun(states, ops) && j <= n <= |ops| && CarefulBefore(states, ops, n)
    requires id in states[j] && forall i :: j <= i < n ==> ops[i] != Remove(id)
    ensures id in states[n] && states[n][id].guestCid == states[j][id].guestCid
    decreases n
  {
    if j < n {
      CidKept(states, ops, id, j, n - 1);
      assert Next(states[n - 1], ops[n - 1], states[n]) && Careful(states, ops, n - 1);
      var written := Written(ops[n - 1]);
      if written.Some? && written.value.id == id {
        var i :| 0 <= i <= n - 1 && Updates(states, ops, written.value, i, n - 1);
        CidKept(states, ops, id, i, n - 1);
      }
    }
  }

  // Over every interleaving of careful operations no two stored VMs share a CID.
  lemma {:induction false} RunKeepsCidsUnique(states: seq<Vms>, ops: seq<Op>, n: nat)
    requires IsRun(states, ops) && n <= |ops| && CarefulBefore(states, ops, n)
    ensures UniqueCids(states[n])
  {
    if n > 0 {
      var k := n - 1;
      RunKeepsCidsUnique(states, ops, k);
      assert Next(states[k], ops[k], states[n]) && Careful(states, ops, k);
      var written := Written(ops[k]);
      if written.Some? && written.value.guestCid.Some? {
        var j :| 0 <= j <= k && Updates(states, ops, written.value, j, k);
        CidKept(states, ops, written.value.id, j, k);
        assert Fresh(states[k], written.value);
      }
      UniqueIffDisciplined(states[k], ops[k], states[n]);
    }
  }

  // The removal since the read is what matters: here every step is careful but the last, which
  // writes a record back that was removed after it was read, and its CID is someone else's now.
  lemma StaleUpdateDuplicates(a: VmRecord, b: VmRecord, first: U32) returns (states: seq<Vms>, ops: seq<Op>)
    requires a.id != b.id
    ensures IsRun(states, ops) && |ops| == 4 && CarefulBefore(states, ops, 3)
    ensures a.id in states[1] && ops[1] == Remove(a.id) && ops[3] == Insert(states[1][a.id])
    ensures !UniqueCids(states[4])
  {
    var cid := Some(first);
    var a', b' := a.(guestCid := cid), b.(guestCid := cid);
    ops := [InsertWithCid(a, true, first), Remove(a.id), InsertWithCid(b, true, first), Insert(a')];
    states := [map[], map[a.id := a'], map[], map[b.id := b'], map[b.id := b'][a.id := a']];
    assert LeastFree(UsedCids(map[]), first, cid);
    assert Next(states[0], ops[0], states[1]);
    assert states[1] - {a.id} == states[2];
    assert Next(states[2], ops[2], states[3]);
    var last := states[4];
    assert last[a.id].guestCid == last[b.id].guestCid;
  }
}

module PoolStore {
  import opened Wrappers

  type Name = string
  type Member = string
  type Pools = map<Name, seq<Member>>

  class Store {
    var pools: Pools

    constructor ()
      ensures pools == map[]
    {
      pools := map[];
    }

    method PopMember(name: Name) returns (r: Option<Member>)
      modifies this
      ensures Next(old(pools), Pop(name, r), pools)
    {
      if name !in pools || pools[name] == [] {
        assert pools == old(pools);
        return None;
      }
      var members := pools[name];
      r := Some(members[|members| - 1]);
      pools := pools[name := members[..|members| - 1]];
    }

    method PushMember(name: Name, member: Member) returns (found: bool)
      modifies this
      ensures Next(old(pools), Push(name, member, found), pools)
    {
      found := name in pools;
      if found {
        pools := pools[name := pools[name] + [member]];
      }
    }

    method Insert(name: Name, members: seq<Member>)
      modifies this
      ensures Next(old(pools), Op.Insert(name, members), pools)
    {
      pools := pools[name := members];
    }

    method Remove(name: Name) returns (r: Option<seq<Member>>)
      modifies this
      ensures Next(old(pools), Op.Remove(name), pools)
      ensures r == if name in old(pools) then Some(old(pools)[name]) else None
    {
      r := if name in pools then Some(pools[name]) else None;
      pools := pools - {name};
    }
  }

  /* Runs, with the outcome of each operation. */

  datatype Op =
    | Insert(name: Name, members: seq<Member>)
    | Remove(name: Name)
    | Push(name: Name, member: Member, found: bool)
    | Pop(name: Name, popped: Option<Member>)

  function MembersOf(pools: Pools, name: Name): seq<Member> {
    if name in pools then pools[name] else []
  }

  ghost predicate Next(pools: Pools, op: Op, after: Pools) {
    match op
    case Insert(name, members) => after == pools[name := members]
    case Remove(name) => after == pools - {name}
    case Push(name, member, found) =>
      && found == (name in pools)
      && after == if found then pools[name := pools[name] + [member]] else pools
    case Pop(name, popped) =>
      var members := MembersOf(pools, name);
      if members == [] then popped == None && after == pools
      else popped == Some(members[|members| - 1]) && after == pools[name := members[..|members| - 1]]
  }

  ghost predicate IsRun(states: seq<Pools>, ops: seq<Op>) {
    && |states| == |ops| + 1
    && states[0] == map[]
    && forall k :: 0 <= k < |ops| ==> Next(states[k], ops[k], states[k + 1])
  }

  // How often an operation puts x into pool `name`, hands it out of it, or discards it with it.
  function Added(op: Op, name: Name, x: Member): nat {
    match op
    case Insert(n, members) => if n == name then multiset(members)[x] else 0
    case Push(n, member, found) => if n == name && found && member == x then 1 else 0
    case _ => 0
  }

  function HandedOut(op: Op, name: Name, x: Member): nat {
    match op
    case Pop(n, popped) => if n == name && popped == Some(x) then 1 else 0
    case _ => 0
  }

  function Discarded(pools: Pools, op: Op, name: Name, x: Member): nat {
    match op
    case Insert(n, _) => if n == name then Held(pools, name, x) else 0
    case Remove(n) => if n == name then Held(pools, name, x) else 0
    case _ => 0
  }

  function Held(pools: Pools, name: Name, x: Member): nat {
    multiset(MembersOf(pools, name))[x]
  }

  // The totals over the first n operations.
  function AllAdded(ops: seq<Op>, name: Name, x: Member, n: nat): nat
    requires n <= |ops|
  {
    if n == 0 then 0 else AllAdded(ops, name, x, n - 1) + Added(ops[n - 1], name, x)
  }

  function AllHandedOut(ops: seq<Op>, name: Name, x: Member, n: nat): nat
    requires n <= |ops|
  {
    if n == 0 then 0 else AllHandedOut(ops, name, x, n - 1) + HandedOut(ops[n - 1], name, x)
  }

  function AllDiscarded(states: seq<Pools>, ops: seq<Op>, name: Name, x: Member, n: nat): nat
    requires n <= |ops| && |states| == |ops| + 1
  {
    if n == 0 then 0
    else AllDiscarded(states, ops, name, x, n - 1) + Discarded(states[n - 1], ops[n - 1], name, x)
  }

  lemma StepConserves(pools: Pools, op: Op, after: Pools, name: Name, x: Member)
    requires Next(pools, op, after)
    ensures Held(pools, name, x) + Added(op, name, x)
            == Held(after, name, x) + HandedOut(op, name, x) + Discarded(pools, op, name, x)
  {
    var members := MembersOf(pools, name);
    if members != [] {
      assert members == members[..|members| - 1] + [members[|members| - 1]];
    }
  }

  // Everything added to a pool so far was handed out once, discarded with it, or is still there.
  lemma {:induction false} RunConservesMembers(states: seq<Pools>, ops: seq<Op>, name: Name, x: Member, n: nat)
    requires IsRun(states, ops) && n <= |ops|
    ensures AllAdded(ops, name, x, n)
            == AllHandedOut(ops, name, x, n) + AllDiscarded(states, ops, name, x, n) + Held(states[n], name, x)
  {
    if n > 0 {
      RunConservesMembers(states, ops, name, x, n - 1);
      assert Next(states[n - 1], ops[n - 1], states[n - 1 + 1]);
      StepConserves(states[n - 1], ops[n - 1], states[n], name, x);
      assert AllAdded(ops, name, x, n) == AllAdded(ops, name, x, n - 1) + Added(ops[n - 1], name, x);
    }
  }

  lemma {:induction false} HandedOutAt(ops: seq<Op>, i: nat, j: nat, name: Name, x: Member, n: nat)
    requires i <= j < n <= |ops| && ops[i] == Pop(name, Some(x)) && ops[j] == Pop(name, Some(x))
    ensures AllHandedOut(ops, name, x, n) >= if i == j then 1 else 2
  {
    if j < n - 1 {
      HandedOutAt(ops, i, j, name, x, n - 1);
    } else if i < j {
      HandedOutAt(ops, i, i, name, x, n - 1);
    }
  }

  // A member added once, to one pool, is handed out at most once.
  lemma NeverHandedOutTwice(states: seq<Pools>, ops: seq<Op>, x: Member, home: Name, i: nat, j: nat)
    requires IsRun(states, ops) && i < j < |ops|
    requires AllAdded(ops, home, x, |ops|) <= 1
    requires forall name :: name != home ==> AllAdded(ops, name, x, |ops|) == 0
    requires ops[i].Pop? && ops[j].Pop? && ops[i].popped == Some(x)
    ensures ops[j].popped != Some(x)
  {
    if ops[j].popped == Some(x) {
      var n := |ops|;
      HandedOutAt(ops, i, i, ops[i].name, x, n);
      HandedOutAt(ops, j, j, ops[j].name, x, n);
      RunConservesMembers(states, ops, ops[i].name, x, n);
      RunConservesMembers(states, ops, ops[j].name, x, n);
      HandedOutAt(ops, i, j, home, x, n);
    }
  }
}
