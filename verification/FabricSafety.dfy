// What holds in every world any run of the protocol can reach: for every VM, that its records
// name its own programs; for a VM whose operations do not overlap, far more.
module FabricSafety {
  import opened Wrappers
  import opened Policy
  import opened TcProgram
  import opened MapCompiler
  import opened ConfigSteps
  import opened Fabric

  type Programs = map<ProgId, Program>
  type Requests = set<(VmId, VmNetworkPolicy)>

  /* Ownership: under any overlap. */

  predicate Loaded(programs: Programs, p: Option<ProgId>, v: VmId) {
    p.Some? ==> p.value in programs && programs[p.value].vm == v
  }

  predicate OwnFiles(programs: Programs, v: VmId, f: Files) {
    Loaded(programs, f.progPin, v) && Loaded(programs, f.mapPin, v) && Loaded(programs, f.progId, v)
  }

  predicate OwnTask(programs: Programs, v: VmId, t: Task) {
    t.Applying? && t.apc.APinMaps? ==> Loaded(programs, Some(t.apc.prog), v)
  }

  ghost predicate Owned(w: World) {
    && (forall v :: OwnFiles(w.programs, v, FilesOf(w, v)))
    && (forall o :: o in w.tasks ==> OwnTask(w.programs, w.tasks[o].vm, w.tasks[o].task))
  }

  // Programs are never unloaded and keep their VM and interface; only v's maps change.
  ghost predicate ProgramsKept(programs: Programs, programs': Programs, v: VmId) {
    && (forall p :: p in programs ==>
          && p in programs' && programs'[p].vm == programs[p].vm && programs'[p].iface == programs[p].iface
          && (programs[p].vm != v ==> programs'[p] == programs[p]))
    && (forall p :: p in programs' && p !in programs ==> programs'[p].vm == v)
  }

  // Slots lose at most a program of v, and gain one at most where there was none.
  ghost predicate SlotsKept(programs: Programs, slot: map<Iface, ProgId>, slot': map<Iface, ProgId>, v: VmId) {
    && (forall i :: i in slot && (i !in slot' || slot'[i] != slot[i]) ==>
          i !in slot' && slot[i] in programs && programs[slot[i]].vm == v)
    && (forall i :: i !in slot && i in slot' ==> slot'[i] in programs && programs[slot'[i]].vm == v)
  }

  ghost predicate OutcomeOwned(w: World, v: VmId, out: Outcome) {
    && ProgramsKept(w.programs, out.programs, v)
    && SlotsKept(w.programs, w.slot, out.slot, v)
    && OwnFiles(out.programs, v, out.files)
    && (out.next.Some? ==> OwnTask(out.programs, v, out.next.value))
  }

  lemma ApplyOwned(env: Env, w: World, v: VmId, pc: ApplyPc, job: Job, c: Choice)
    requires OwnFiles(w.programs, v, FilesOf(w, v)) && OwnTask(w.programs, v, Applying(pc, job))
    requires pc.ALoad? ==> FreshProgram(w, c.prog)
    ensures OutcomeOwned(w, v, ApplyOutcome(env, w, v, pc, job, c))
  {
  }

  lemma CommandedOwned(w: World, v: VmId, p: ProgId, m: Maps, q: VmNetworkPolicy, cpc: ConfigPc)
    requires p in w.programs && w.programs[p].vm == v
    ensures ProgramsKept(w.programs, Commanded(w, p, m, q, cpc), v)
  {
  }

  lemma ConfigOwned(env: Env, w: World, v: VmId, live: bool, cpc: ConfigPc, job: Job, c: Choice)
    requires OwnFiles(w.programs, v, FilesOf(w, v))
    ensures OutcomeOwned(w, v, ConfigOutcome(env, w, v, live, cpc, job, c))
  {
    var maps := MapsAt(w, FilesOf(w, v).mapPin);
    if maps.Some? {
      var m' := Effect(maps.value, env.identity(v), env.ifindex(job.iface), job.policy, cpc, c.key);
      CommandedOwned(w, v, FilesOf(w, v).mapPin.value, m', job.policy, cpc);
    }
  }

  lemma RemoveOwned(w: World, v: VmId, pc: RemovePc, c: Choice)
    requires OwnFiles(w.programs, v, FilesOf(w, v))
    ensures OutcomeOwned(w, v, RemoveOutcome(w, v, pc, c))
  {
  }

  lemma UpdateOwned(env: Env, w: World, v: VmId, pc: UpdatePc, job: Job, c: Choice)
    requires OwnFiles(w.programs, v, FilesOf(w, v))
    ensures OutcomeOwned(w, v, UpdateOutcome(env, w, v, pc, job, c))
  {
  }

  predicate LoadsFresh(w: World, t: Task, c: Choice) {
    t.Applying? && t.apc.ALoad? ==> FreshProgram(w, c.prog)
  }

  lemma TaskOwned(env: Env, w: World, v: VmId, t: Task, c: Choice)
    requires OwnFiles(w.programs, v, FilesOf(w, v)) && OwnTask(w.programs, v, t) && LoadsFresh(w, t, c)
    ensures OutcomeOwned(w, v, OutcomeOf(env, w, v, t, c))
  {
    match t
    case Applying(pc, job) => ApplyOwned(env, w, v, pc, job, c);
    case Configuring(live, cpc, job) => ConfigOwned(env, w, v, live, cpc, job, c);
    case Removing(pc) => RemoveOwned(w, v, pc, c);
    case Updating(pc, job) => UpdateOwned(env, w, v, pc, job, c);
  }

  lemma StepOwned(env: Env, w: World, o: OpId, c: Choice)
    requires Owned(w) && o in w.tasks && Possible(w, o, c)
    ensures OutcomeOwned(w, w.tasks[o].vm, OutcomeOf(env, w, w.tasks[o].vm, w.tasks[o].task, c))
  {
    assert LoadsFresh(w, w.tasks[o].task, c);
    TaskOwned(env, w, w.tasks[o].vm, w.tasks[o].task, c);
  }

  lemma DoneKeepsOwned(w: World, o: OpId, v: VmId, out: Outcome)
    requires Owned(w) && OutcomeOwned(w, v, out)
    ensures Owned(Done(w, o, v, out))
  {
    var w' := Done(w, o, v, out);
    forall u ensures OwnFiles(w'.programs, u, FilesOf(w', u)) {
      assert OwnFiles(w.programs, u, FilesOf(w, u));
    }
    forall q | q in w'.tasks ensures OwnTask(w'.programs, w'.tasks[q].vm, w'.tasks[q].task) {
      if q != o {
        assert OwnTask(w.programs, w.tasks[q].vm, w.tasks[q].task);
      }
    }
  }

  lemma ExecKeepsOwned(env: Env, w: World, o: OpId, c: Choice)
    requires Owned(w) && o in w.tasks && Possible(w, o, c)
    ensures Owned(Exec(env, w, o, c))
  {
    StepOwned(env, w, o, c);
    DoneKeepsOwned(w, o, w.tasks[o].vm, OutcomeOf(env, w, w.tasks[o].vm, w.tasks[o].task, c));
  }

  lemma SameRecordsKeepOwned(w: World, w': World)
    requires Owned(w) && w'.programs == w.programs && w'.files == w.files
    requires forall o :: o in w'.tasks ==> OwnTask(w.programs, w'.tasks[o].vm, w'.tasks[o].task)
    ensures Owned(w')
  {
    forall v ensures OwnFiles(w'.programs, v, FilesOf(w', v)) {
      assert OwnFiles(w.programs, v, FilesOf(w, v));
    }
  }

  lemma NextKeepsOwned(env: Env, w: World, w': World)
    requires Owned(w) && Next(env, w, w')
    ensures Owned(w')
  {
    if o :| Steps(env, w, w', o) {
      var c :| Possible(w, o, c) && w' == Exec(env, w, o, c);
      ExecKeepsOwned(env, w, o, c);
    } else {
      NoStepKeepsRecords(env, w, w');
      SameRecordsKeepOwned(w, w');
    }
  }

  ghost predicate RecordsKept(w: World, w': World) {
    && w'.programs == w.programs && w'.files == w.files && w.requested <= w'.requested
    && forall o :: o in w'.tasks ==> OwnTask(w.programs, w'.tasks[o].vm, w'.tasks[o].task)
  }

  lemma NoStepKeepsRecords(env: Env, w: World, w': World)
    requires Next(env, w, w') && !exists o :: Steps(env, w, w', o)
    requires forall q :: q in w.tasks ==> OwnTask(w.programs, w.tasks[q].vm, w.tasks[q].task)
    ensures RecordsKept(w, w')
  {
    if !OtherParty(w, w') {
      var o :| OpNext(env, w, w', o);
      assert !Steps(env, w, w', o);
    }
  }

  lemma {:induction false} RunKeepsOwned(env: Env, run: seq<World>, k: nat)
    requires IsRun(env, run) && k < |run|
    ensures Owned(run[k])
  {
    if k > 0 {
      RunKeepsOwned(env, run, k - 1);
      NextKeepsOwned(env, run[k - 1], run[k]);
    }
  }
}
