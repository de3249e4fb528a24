// What the protocol guarantees about status, packets and filter ownership in every run.
module FabricResults {
  import opened Wrappers
  import opened Policy
  import opened TcProgram
  import opened MapCompiler
  import opened ConfigSteps
  import opened Fabric
  import opened FabricSafety
  import opened FabricSerial

  // The classifier attached in front of the VM on the interface its metadata records.
  function AttachedMaps(w: World, v: VmId): Maps
    requires Attached(w, v)
  {
    var p := w.slot[FilesOf(w, v).iface.value];
    if p in w.programs then w.programs[p].maps else EmptyMaps
  }

  // The commit marker tells the truth: attached with a stored fingerprint means the attached
  // maps were compiled from a requested policy with that fingerprint.
  ghost predicate Truthful(env: Env, w: World, v: VmId) {
    Attached(w, v) && FilesOf(w, v).fingerprint.Some? ==>
      var f := FilesOf(w, v);
      Committed(env, w.requested, v, f.iface.value, f.fingerprint.value, AttachedMaps(w, v))
  }

  // It does whatever fails or crashes, as long as v's own operations do not overlap. They may
  // in the source; FabricOverlap shows that the condition is exact.
  lemma StoredFingerprintIsTruthful(env: Env, run: seq<World>, v: VmId, k: nat)
    requires IsRun(env, run) && k < |run| && Serial(run, v)
    ensures Truthful(env, run[k], v)
  {
    RunKeepsInv(env, run, v, k);
  }

  // So a healthy status means packets are judged by a requested policy with the desired
  // fingerprint.
  lemma HealthyMeansEnforced(env: Env, run: seq<World>, v: VmId, k: nat, base: VmNetworkPolicy, iface: Iface,
                             frame: seq<U8>)
    requires IsRun(env, run) && k < |run| && Serial(run, v) && Healthy(env, run[k], v, base, iface)
    requires Parse(frame).Packet? && !IsBootstrap(Parse(frame))
    ensures exists job ::
              && ValidJob(job) && env.fingerprint(job.base) == env.fingerprint(base)
              && (v, job.policy) in run[k].requested
              && Egress(AttachedMaps(run[k], v), env.ifindex(iface), Parse(frame))
                 == Judged(Permits(job.policy, Parse(frame).dst, VisiblePort(Parse(frame))))
  {
    StoredFingerprintIsTruthful(env, run, v, k);
    var m := AttachedMaps(run[k], v);
    var job :|
      && ValidJob(job) && job.iface == iface && env.fingerprint(job.base) == env.fingerprint(base)
      && (v, job.policy) in run[k].requested && HoldsJob(env, v, job, m);
    CompiledMapsMeanThePolicy(m, env.identity(v), env.ifindex(iface), job.policy, frame);
  }

  // What the classifier in a slot lets through by policy, the policy in force permits: one that
  // was asked for and published, with no deny-all since.
  ghost predicate NoOpener(env: Env, w: World, i: Iface, frame: seq<U8>) {
    i in w.slot && w.slot[i] in w.programs ==>
      var p := w.programs[w.slot[i]];
      var verdict := Egress(p.maps, env.ifindex(i), Parse(frame));
      && (AllowedByPolicy(verdict) ==>
            && p.inForce.Some? && (p.vm, p.inForce.value) in w.requested
            && Permits(p.inForce.value, Parse(frame).dst, VisiblePort(Parse(frame))))
      && (verdict == NonIp(true) ==>
            && p.inForce.Some? && (p.vm, p.inForce.value) in w.requested && p.inForce.value.defaultAllow)
  }

  // Fail closed at every instant of every run in which that VM's operations do not overlap: the
  // classifier follows the policy in force, and from the first write of an update to its last,
  // and for as long as it is left unfinished, it lets nothing through.
  lemma NeverOpenerThanPublished(env: Env, run: seq<World>, k: nat, i: Iface, frame: seq<U8>)
    requires IsRun(env, run) && k < |run|
    requires i in run[k].slot && run[k].slot[i] in run[k].programs ==> Serial(run, run[k].programs[run[k].slot[i]].vm)
    ensures NoOpener(env, run[k], i, frame)
  {
    if i in run[k].slot && run[k].slot[i] in run[k].programs {
      var program := run[k].programs[run[k].slot[i]];
      RunKeepsInv(env, run, program.vm, k);
      assert SlotInv(env, KernelOf(run[k]), program.vm, i);
      if AllowedByPolicy(Egress(program.maps, env.ifindex(i), Parse(frame))) {
        var p := program.inForce.value;
        CompiledMapsMeanThePolicy(program.maps, env.identity(program.vm), env.ifindex(i), p, frame);
      }
    }
  }

  /* Ownership, however operations overlap. */

  // A step for a VM deletes only a filter loaded for that VM, replaces none, and adds only that
  // VM's own program, only to an empty slot. Beginning and stopping change no slot.
  lemma OnlyOwnFiltersTouched(env: Env, run: seq<World>, k: nat, o: OpId)
    requires IsRun(env, run) && k + 1 < |run| && OpNext(env, run[k], run[k + 1], o)
    ensures || run[k + 1].slot == run[k].slot
            || (&& o in run[k].tasks
                && SlotsKept(run[k].programs, run[k].slot, run[k + 1].slot, run[k].tasks[o].vm))
  {
    RunKeepsOwned(env, run, k);
    if Steps(env, run[k], run[k + 1], o) {
      var c :| Possible(run[k], o, c) && run[k + 1] == Exec(env, run[k], o, c);
      StepOwned(env, run[k], o, c);
    }
  }

  // Two VMs are never attached to the same interface.
  lemma OneVmPerInterface(env: Env, run: seq<World>, k: nat, u: VmId, v: VmId)
    requires IsRun(env, run) && k < |run|
    requires Attached(run[k], u) && Attached(run[k], v)
    requires FilesOf(run[k], u).iface == FilesOf(run[k], v).iface
    ensures u == v
  {
    RunKeepsOwned(env, run, k);
    assert OwnFiles(run[k].programs, u, FilesOf(run[k], u)) && OwnFiles(run[k].programs, v, FilesOf(run[k], v));
  }

  /* A reconfigure from beginning to end. */

  // Operation o is an update of v for this job.
  predicate Reconfigures(w: World, o: OpId, v: VmId, job: Job) {
    && o in w.tasks && w.tasks[o].vm == v
    && match w.tasks[o].task
       case Updating(_, j) => j == job
       case Configuring(live, _, j) => live && j == job
       case _ => false
  }

  lemma OwnUpdateStaysAttached(env: Env, w: World, o: OpId, v: VmId, job: Job, c: Choice)
    requires Reconfigures(w, o, v, job) && Attached(w, v)
    ensures Attached(Exec(env, w, o, c), v) && FilesOf(Exec(env, w, o, c), v).iface == FilesOf(w, v).iface
  {
    var w' := Exec(env, w, o, c);
    assert w'.slot == w.slot;
  }

  lemma OtherStepStaysAttached(env: Env, w: World, w': World, o: OpId, v: VmId)
    requires Next(env, w, w') && Attached(w, v) && OnlyOp(w, v, o)
    requires var i := FilesOf(w, v).iface.value; i in w'.slot && w'.slot[i] == w.slot[i]
    requires !Steps(env, w, w', o)
    ensures Attached(w', v) && FilesOf(w', v) == FilesOf(w, v)
  {
    if q :| OpNext(env, w, w', q) {
      if Steps(env, w, w', q) {
        var c :| Possible(w, q, c) && w' == Exec(env, w, q, c);
        assert w.tasks[q].vm != v;
      }
    }
  }

  lemma StepStaysAttached(env: Env, w: World, w': World, o: OpId, v: VmId, job: Job)
    requires Next(env, w, w') && Attached(w, v) && Reconfigures(w, o, v, job) && OnlyOp(w, v, o)
    requires var i := FilesOf(w, v).iface.value; i in w'.slot && w'.slot[i] == w.slot[i]
    ensures Attached(w', v) && FilesOf(w', v).iface == FilesOf(w, v).iface
  {
    if Steps(env, w, w', o) {
      var c :| Possible(w, o, c) && w' == Exec(env, w, o, c);
      OwnUpdateStaysAttached(env, w, o, v, job, c);
    } else {
      OtherStepStaysAttached(env, w, w', o, v);
    }
  }

  // From world a on to world b operation o keeps updating v, and nobody removes v's filter.
  ghost predicate KeepsUpdating(run: seq<World>, a: nat, b: nat, o: OpId, v: VmId, job: Job) {
    && a <= b < |run| && Attached(run[a], v)
    && (forall k :: a <= k <= b ==> Reconfigures(run[k], o, v, job))
    && var i := FilesOf(run[a], v).iface.value;
       forall k :: a <= k <= b ==> i in run[k].slot && run[k].slot[i] == run[a].slot[i]
  }

  ghost predicate StaysAttached(w: World, w': World, v: VmId) {
    Attached(w, v) && FilesOf(w, v).iface.value in w'.slot
    && w'.slot[FilesOf(w, v).iface.value] == w.slot[FilesOf(w, v).iface.value] ==>
      Attached(w', v) && FilesOf(w', v).iface == FilesOf(w, v).iface
  }

  lemma RunStaysAttached(env: Env, run: seq<World>, k: nat, o: OpId, v: VmId, job: Job)
    requires IsRun(env, run) && Serial(run, v) && k + 1 < |run| && Reconfigures(run[k], o, v, job)
    ensures StaysAttached(run[k], run[k + 1], v)
  {
    RunStep(env, run, k);
    var w, w' := run[k], run[k + 1];
    assert OnlyOp(w, v, o);
    if Attached(w, v) {
      var i := FilesOf(w, v).iface.value;
      if i in w'.slot && w'.slot[i] == w.slot[i] {
        StepStaysAttached(env, w, w', o, v, job);
      }
    }
  }

  // The filter of run[a] in its slot all the way, and no step detaching.
  lemma {:induction false} AttachedAllTheWay(run: seq<World>, a: nat, k: nat, v: VmId)
    requires a <= k < |run| && Attached(run[a], v)
    requires var i := FilesOf(run[a], v).iface.value;
             forall j :: a <= j <= k ==> i in run[j].slot && run[j].slot[i] == run[a].slot[i]
    requires forall j :: a <= j < k ==> StaysAttached(run[j], run[j + 1], v)
    ensures Attached(run[k], v) && FilesOf(run[k], v).iface == FilesOf(run[a], v).iface
  {
    if a < k {
      AttachedAllTheWay(run, a, k - 1, v);
      assert StaysAttached(run[k - 1], run[k - 1 + 1], v);
    }
  }

  // Throughout the VM stays attached where it was.
  lemma ReconfigureStaysAttached(env: Env, run: seq<World>, a: nat, b: nat, k: nat, o: OpId, v: VmId, job: Job)
    requires IsRun(env, run) && Serial(run, v) && KeepsUpdating(run, a, b, o, v, job) && a <= k <= b
    ensures Attached(run[k], v) && FilesOf(run[k], v).iface == FilesOf(run[a], v).iface
  {
    forall j | a <= j < k ensures StaysAttached(run[j], run[j + 1], v) {
      RunStaysAttached(env, run, j, o, v, job);
    }
    AttachedAllTheWay(run, a, k, v);
  }

  // A reconfigure that runs through, whatever happens to other VMs meanwhile, ends attached and
  // synced with the new policy in the attached maps.
  lemma ReconfigureEndsHealthy(env: Env, run: seq<World>, a: nat, b: nat, o: OpId, v: VmId, job: Job, c: Choice)
    requires IsRun(env, run) && Serial(run, v) && KeepsUpdating(run, a, b, o, v, job)
    requires run[b].tasks[o].task == Updating(UCommit, job) && c.ok
    ensures var w' := Exec(env, run[b], o, c);
            && o !in w'.tasks && Healthy(env, w', v, job.base, job.iface)
            && HoldsJob(env, v, job, AttachedMaps(w', v))
  {
    ReconfigureStaysAttached(env, run, a, b, b, o, v, job);
    RunKeepsInv(env, run, v, b);
    assert TaskInv(env, KernelOf(run[b]), v, FilesOf(run[b], v), run[b].tasks[o].task);
  }
}
