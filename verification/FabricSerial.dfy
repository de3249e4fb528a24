// What holds in every world of a run for a VM whose own operations do not overlap in it,
// whatever the operations on other VMs and the other parties do.
module FabricSerial {
  import opened Wrappers
  import opened Policy
  import opened TcProgram
  import opened MapCompiler
  import opened ConfigSteps
  import opened Fabric
  import opened FabricSafety

  // The part of a world the invariant of one VM looks at besides its files and tasks.
  datatype Kernel = Kernel(programs: Programs, slot: map<Iface, ProgId>, requested: Requests)

  function KernelOf(w: World): Kernel {
    Kernel(w.programs, w.slot, w.requested)
  }

  ghost predicate HoldsJob(env: Env, v: VmId, job: Job, m: Maps) {
    Holds(m, env.identity(v), env.ifindex(job.iface), job.policy)
  }

  // The maps were compiled from a requested policy whose durable part has this fingerprint.
  ghost predicate Committed(env: Env, requested: Requests, v: VmId, iface: Iface, fp: U64, m: Maps) {
    exists job ::
      && ValidJob(job) && job.iface == iface && env.fingerprint(job.base) == fp
      && (v, job.policy) in requested && HoldsJob(env, v, job, m)
  }

  // The maps deny everything, or hold the policy in force, which somebody asked for.
  ghost predicate SafeProgram(env: Env, requested: Requests, v: VmId, iface: Iface, p: Program) {
    || Denies(p.maps, env.identity(v), env.ifindex(iface))
    || (&& p.inForce.Some? && (v, p.inForce.value) in requested
        && Holds(p.maps, env.identity(v), env.ifindex(iface), p.inForce.value))
  }

  predicate InSlot(slot: map<Iface, ProgId>, p: ProgId) {
    exists i :: i in slot && slot[i] == p
  }

  ghost predicate FilesInv(env: Env, k: Kernel, v: VmId, f: Files) {
    && OwnFiles(k.programs, v, f)
    && (f.progPin.Some? && f.mapPin.Some? ==> f.mapPin == f.progPin)
    && (f.progPin.Some? && f.progId.Some? ==> f.progId == f.progPin)
    && (f.progPin.Some? && f.iface.Some? ==> k.programs[f.progPin.value].iface == f.iface.value)
    && (f.progPin.Some? && f.fingerprint.Some? && f.iface.Some? ==>
          Committed(env, k.requested, v, f.iface.value, f.fingerprint.value, k.programs[f.progPin.value].maps))
  }

  // The files of an apply once its program p and the maps are pinned.
  function Recorded(p: ProgId, iface: Iface, id: bool, schema: bool): Files {
    Files(Some(p), Some(p), Some(iface), if id then Some(p) else None,
          if schema then Some(SCHEMA_VERSION) else None, None)
  }

  predicate HasProgram(k: Kernel, v: VmId, p: ProgId, iface: Iface) {
    p in k.programs && k.programs[p].vm == v && k.programs[p].iface == iface
  }

  predicate AtProgram(k: Kernel, v: VmId, f: Files, iface: Iface, id: bool, schema: bool) {
    f.progPin.Some? && f == Recorded(f.progPin.value, iface, id, schema) && HasProgram(k, v, f.progPin.value, iface)
  }

  ghost predicate ApplyInv(env: Env, k: Kernel, v: VmId, f: Files, pc: ApplyPc, job: Job) {
    match pc
    case ADetach => true
    case ARmPins => true
    case ARmMeta => f.progPin.None? && f.mapPin.None?
    case AIface => f == NoFiles
    case ALoad => f == NoFiles.(iface := Some(job.iface))
    case APinMaps(p) =>
      && f == NoFiles.(iface := Some(job.iface), progPin := Some(p))
      && HasProgram(k, v, p, job.iface) && !InSlot(k.slot, p)
    case AProgId => AtProgram(k, v, f, job.iface, false, false) && !InSlot(k.slot, f.progPin.value)
    case ASchema => Built(env, k, v, f, job, false) && !InSlot(k.slot, f.progPin.value)
    case AAttach => Built(env, k, v, f, job, true) && !InSlot(k.slot, f.progPin.value)
    case ACommit => Built(env, k, v, f, job, true)
  }

  ghost predicate Built(env: Env, k: Kernel, v: VmId, f: Files, job: Job, schema: bool) {
    && AtProgram(k, v, f, job.iface, true, schema)
    && HoldsJob(env, v, job, k.programs[f.progPin.value].maps)
    && k.programs[f.progPin.value].inForce == Some(job.policy)
  }

  // An update under way: the filter's program and interface on record, the marker gone.
  predicate Live(k: Kernel, f: Files, job: Job) {
    f.progPin.Some? && f.progPin.value in k.programs && f.iface == Some(job.iface) && f.fingerprint.None?
  }

  ghost predicate ConfiguringInv(env: Env, k: Kernel, v: VmId, f: Files, live: bool, cpc: ConfigPc, job: Job) {
    if live && cpc.Deny? then Live(k, f, job)
    else
      && (if live then Live(k, f, job) && f.mapPin == f.progPin
          else AtProgram(k, v, f, job.iface, true, false) && !InSlot(k.slot, f.progPin.value))
      && ConfigInv(k.programs[f.progPin.value].maps, env.identity(v), env.ifindex(job.iface), job.policy, live, cpc)
  }

  ghost predicate UpdateInv(env: Env, k: Kernel, v: VmId, f: Files, pc: UpdatePc, job: Job) {
    match pc
    case UInvalidate => f.progPin.Some? && f.iface == Some(job.iface)
    case UCommit => Live(k, f, job) && f.mapPin == f.progPin && HoldsJob(env, v, job, k.programs[f.progPin.value].maps)
  }

  ghost predicate TaskInv(env: Env, k: Kernel, v: VmId, f: Files, t: Task) {
    t.Removing? ||
    (ValidJob(t.job) && (v, t.job.policy) in k.requested &&
     match t
     case Applying(pc, job) => ApplyInv(env, k, v, f, pc, job)
     case Updating(pc, job) => UpdateInv(env, k, v, f, pc, job)
     case Configuring(live, cpc, job) => ConfiguringInv(env, k, v, f, live, cpc, job)
     case Removing(_) => true)
  }

  ghost predicate SlotInv(env: Env, k: Kernel, v: VmId, i: Iface) {
    i in k.slot && k.slot[i] in k.programs && k.programs[k.slot[i]].vm == v ==>
      var p := k.programs[k.slot[i]];
      p.iface == i && SafeProgram(env, k.requested, v, i, p)
  }

  ghost predicate Inv(env: Env, w: World, v: VmId) {
    var k := KernelOf(w);
    && FilesInv(env, k, v, FilesOf(w, v))
    && (forall o :: o in w.tasks && w.tasks[o].vm == v ==> TaskInv(env, k, v, FilesOf(w, v), w.tasks[o].task))
    && (forall i :: SlotInv(env, k, v, i))
  }

  /* Steps that leave v's part of the kernel alone. */

  ghost predicate KernelKept(k: Kernel, k': Kernel, v: VmId) {
    && (forall p :: p in k.programs && k.programs[p].vm == v ==> p in k'.programs && k'.programs[p] == k.programs[p])
    && (forall i :: i in k'.slot && k'.slot[i] in k'.programs && k'.programs[k'.slot[i]].vm == v ==>
          i in k.slot && k.slot[i] == k'.slot[i] && k.slot[i] in k.programs && k.programs[k.slot[i]].vm == v)
    && k.requested <= k'.requested
  }

  lemma KeptSlots(env: Env, k: Kernel, k': Kernel, v: VmId, i: Iface)
    requires KernelKept(k, k', v) && SlotInv(env, k, v, i)
    ensures SlotInv(env, k', v, i)
  {
  }

  lemma KeptFiles(env: Env, k: Kernel, k': Kernel, v: VmId, f: Files)
    requires KernelKept(k, k', v) && FilesInv(env, k, v, f)
    ensures FilesInv(env, k', v, f)
  {
    if f.progPin.Some? && f.fingerprint.Some? && f.iface.Some? {
      var job :|
        && ValidJob(job) && job.iface == f.iface.value && env.fingerprint(job.base) == f.fingerprint.value
        && (v, job.policy) in k.requested && HoldsJob(env, v, job, k.programs[f.progPin.value].maps);
      assert (v, job.policy) in k'.requested;
    }
  }

  lemma KeptOutOfSlot(k: Kernel, k': Kernel, v: VmId, p: ProgId)
    requires KernelKept(k, k', v) && p in k.programs && k.programs[p].vm == v && !InSlot(k.slot, p)
    ensures !InSlot(k'.slot, p)
  {
  }

  lemma KeptTask(env: Env, k: Kernel, k': Kernel, v: VmId, f: Files, t: Task)
    requires KernelKept(k, k', v) && FilesInv(env, k, v, f) && TaskInv(env, k, v, f, t)
    ensures TaskInv(env, k', v, f, t)
  {
    if f.progPin.Some? && !InSlot(k.slot, f.progPin.value) {
      KeptOutOfSlot(k, k', v, f.progPin.value);
    }
  }

  lemma KeptInv(env: Env, w: World, w': World, v: VmId)
    requires Inv(env, w, v) && KernelKept(KernelOf(w), KernelOf(w'), v) && FilesOf(w', v) == FilesOf(w, v)
    requires forall o :: o in w'.tasks && w'.tasks[o].vm == v ==>
               || (o in w.tasks && w.tasks[o] == w'.tasks[o])
               || TaskInv(env, KernelOf(w'), v, FilesOf(w, v), w'.tasks[o].task)
    ensures Inv(env, w', v)
  {
    var k, k' := KernelOf(w), KernelOf(w');
    KeptFiles(env, k, k', v, FilesOf(w, v));
    forall o | o in w'.tasks && w'.tasks[o].vm == v ensures TaskInv(env, k', v, FilesOf(w', v), w'.tasks[o].task) {
      if o in w.tasks && w.tasks[o] == w'.tasks[o] {
        KeptTask(env, k, k', v, FilesOf(w, v), w.tasks[o].task);
      }
    }
    forall i ensures SlotInv(env, k', v, i) {
      KeptSlots(env, k, k', v, i);
    }
  }

  // A step on another VM.
  lemma ForeignStep(env: Env, w: World, o: OpId, u: VmId, out: Outcome, v: VmId)
    requires Inv(env, w, v) && OutcomeOwned(w, u, out) && u != v
    ensures Inv(env, Done(w, o, u, out), v)
  {
    KeptInv(env, w, Done(w, o, u, out), v);
  }

  lemma OtherPartyStep(env: Env, w: World, w': World, v: VmId)
    requires Inv(env, w, v) && OtherParty(w, w')
    ensures Inv(env, w', v)
  {
    KeptInv(env, w, w', v);
  }

  lemma EndStep(env: Env, w: World, o: OpId, v: VmId)
    requires Inv(env, w, v)
    ensures Inv(env, End(w, o), v)
  {
    KeptInv(env, w, End(w, o), v);
  }

  // An operation begins: one more policy was asked for.
  lemma BeginStep(env: Env, w: World, o: OpId, u: VmId, t: Task, v: VmId)
    requires Inv(env, w, v) && Startable(w, u, t)
    ensures Inv(env, Begin(w, o, u, t), v)
  {
    KeptInv(env, w, Begin(w, o, u, t), v);
  }

  /* Steps of v's own operation. */

  // What an outcome must meet for the invariant to hold once it is done.
  ghost predicate OutcomeInv(env: Env, w: World, v: VmId, out: Outcome) {
    var k := Kernel(out.programs, out.slot, w.requested);
    && FilesInv(env, k, v, out.files)
    && (out.next.Some? ==> TaskInv(env, k, v, out.files, out.next.value))
    && (forall i :: SlotInv(env, k, v, i))
  }

  lemma OwnStep(env: Env, w: World, o: OpId, v: VmId, out: Outcome)
    requires OnlyOp(w, v, o) && OutcomeInv(env, w, v, out)
    ensures Inv(env, Done(w, o, v, out), v)
  {
    var w' := Done(w, o, v, out);
    assert KernelOf(w') == Kernel(out.programs, out.slot, w.requested);
    assert FilesOf(w', v) == out.files;
    forall q | q in w'.tasks && w'.tasks[q].vm == v
      ensures q == o && out.next.Some? && w'.tasks[q].task == out.next.value
    {
    }
  }

  // What is known before the step.
  ghost predicate Before(env: Env, w: World, v: VmId, t: Task) {
    && FilesInv(env, KernelOf(w), v, FilesOf(w, v))
    && TaskInv(env, KernelOf(w), v, FilesOf(w, v), t)
    && (forall i :: SlotInv(env, KernelOf(w), v, i))
  }

  // Fewer files break nothing.
  lemma FewerFiles(env: Env, k: Kernel, v: VmId, f: Files, f': Files)
    requires FilesInv(env, k, v, f)
    requires f'.progPin == f.progPin || f'.progPin.None?
    requires f'.mapPin == f.mapPin || f'.mapPin.None?
    requires f'.iface == f.iface || f'.iface.None?
    requires f'.progId == f.progId || f'.progId.None?
    requires f'.fingerprint == f.fingerprint || f'.fingerprint.None?
    ensures FilesInv(env, k, v, f')
  {
  }

  // Nor does a slot without one of its filters.
  lemma FewerFilters(env: Env, w: World, v: VmId, took: bool)
    requires forall i :: SlotInv(env, KernelOf(w), v, i)
    ensures forall i :: SlotInv(env, Kernel(w.programs, Detached(w, v, took), w.requested), v, i)
  {
    forall i ensures SlotInv(env, Kernel(w.programs, Detached(w, v, took), w.requested), v, i) {
      assert SlotInv(env, KernelOf(w), v, i);
    }
  }

  lemma RemoveInv(env: Env, w: World, v: VmId, pc: RemovePc, c: Choice)
    requires Before(env, w, v, Removing(pc))
    ensures OutcomeInv(env, w, v, RemoveOutcome(w, v, pc, c))
  {
    var f, out := FilesOf(w, v), RemoveOutcome(w, v, pc, c);
    FewerFiles(env, KernelOf(w), v, f, out.files);
    if pc.RDetach? {
      FewerFilters(env, w, v, c.took);
      KeptFilesAnySlot(env, w, v, out.slot);
    } else {
      assert Kernel(out.programs, out.slot, w.requested) == KernelOf(w);
    }
  }

  // Files do not depend on the slots.
  lemma KeptFilesAnySlot(env: Env, w: World, v: VmId, slot: map<Iface, ProgId>)
    requires FilesInv(env, KernelOf(w), v, FilesOf(w, v))
    ensures FilesInv(env, Kernel(w.programs, slot, w.requested), v, FilesOf(w, v))
  {
  }

  lemma DetachInv(env: Env, w: World, v: VmId, job: Job, c: Choice)
    requires Before(env, w, v, Applying(ADetach, job))
    ensures OutcomeInv(env, w, v, ApplyOutcome(env, w, v, ADetach, job, c))
  {
    FewerFilters(env, w, v, c.took);
    KeptFilesAnySlot(env, w, v, Detached(w, v, c.took));
  }

  // The steps of an apply that only write or remove files.
  predicate WritesFiles(pc: ApplyPc) {
    !pc.ADetach? && !pc.ALoad? && !pc.AAttach?
  }

  lemma FilesInvOfWrite(env: Env, w: World, v: VmId, pc: ApplyPc, job: Job, c: Choice)
    requires Before(env, w, v, Applying(pc, job)) && WritesFiles(pc)
    ensures FilesInv(env, KernelOf(w), v, ApplyOutcome(env, w, v, pc, job, c).files)
  {
    var f, k := FilesOf(w, v), KernelOf(w);
    match pc
    case ARmPins => FewerFiles(env, k, v, f, ApplyOutcome(env, w, v, pc, job, c).files);
    case ARmMeta => FewerFiles(env, k, v, f, ApplyOutcome(env, w, v, pc, job, c).files);
    case ACommit => CommitFiles(env, k, v, f, job, c);
    case AIface =>
    case APinMaps(_) =>
    case AProgId =>
    case ASchema =>
  }

  lemma CommitFiles(env: Env, k: Kernel, v: VmId, f: Files, job: Job, c: Choice)
    requires FilesInv(env, k, v, f) && ValidJob(job) && (v, job.policy) in k.requested
    requires f.progPin.Some? && f.iface == Some(job.iface) && HoldsJob(env, v, job, k.programs[f.progPin.value].maps)
    ensures FilesInv(env, k, v, Committing(env, f, job, c))
  {
    assert Committed(env, k.requested, v, job.iface, env.fingerprint(job.base), k.programs[f.progPin.value].maps);
  }

  lemma WriteInv(env: Env, w: World, v: VmId, pc: ApplyPc, job: Job, c: Choice)
    requires Before(env, w, v, Applying(pc, job)) && WritesFiles(pc)
    ensures OutcomeInv(env, w, v, ApplyOutcome(env, w, v, pc, job, c))
  {
    var out := ApplyOutcome(env, w, v, pc, job, c);
    FilesInvOfWrite(env, w, v, pc, job, c);
    assert Kernel(out.programs, out.slot, w.requested) == KernelOf(w);
    WriteTask(env, w, v, pc, job, c);
  }

  lemma WriteTask(env: Env, w: World, v: VmId, pc: ApplyPc, job: Job, c: Choice)
    requires Before(env, w, v, Applying(pc, job)) && WritesFiles(pc)
    ensures var out := ApplyOutcome(env, w, v, pc, job, c);
            out.next.Some? ==> TaskInv(env, KernelOf(w), v, out.files, out.next.value)
  {
  }

  lemma LoadInv(env: Env, w: World, v: VmId, job: Job, c: Choice)
    requires Before(env, w, v, Applying(ALoad, job)) && FreshProgram(w, c.prog)
    ensures OutcomeInv(env, w, v, ApplyOutcome(env, w, v, ALoad, job, c))
  {
    var out := ApplyOutcome(env, w, v, ALoad, job, c);
    var k := Kernel(out.programs, out.slot, w.requested);
    assert !InSlot(k.slot, c.prog);
    forall i ensures SlotInv(env, k, v, i) {
      assert SlotInv(env, KernelOf(w), v, i);
    }
  }

  lemma AttachInv(env: Env, w: World, v: VmId, job: Job, c: Choice)
    requires Before(env, w, v, Applying(AAttach, job))
    ensures OutcomeInv(env, w, v, ApplyOutcome(env, w, v, AAttach, job, c))
  {
    var f, out := FilesOf(w, v), ApplyOutcome(env, w, v, AAttach, job, c);
    var k, p := Kernel(out.programs, out.slot, w.requested), f.progPin.value;
    KeptFilesAnySlot(env, w, v, out.slot);
    assert SafeProgram(env, w.requested, v, job.iface, w.programs[p]);
    forall i ensures SlotInv(env, k, v, i) {
      assert SlotInv(env, KernelOf(w), v, i);
    }
  }

  lemma ApplyInvKept(env: Env, w: World, v: VmId, pc: ApplyPc, job: Job, c: Choice)
    requires Before(env, w, v, Applying(pc, job)) && (pc.ALoad? ==> FreshProgram(w, c.prog))
    ensures OutcomeInv(env, w, v, ApplyOutcome(env, w, v, pc, job, c))
  {
    match pc
    case ADetach => DetachInv(env, w, v, job, c);
    case ALoad => LoadInv(env, w, v, job, c);
    case AAttach => AttachInv(env, w, v, job, c);
    case _ => WriteInv(env, w, v, pc, job, c);
  }

  lemma UpdateInvKept(env: Env, w: World, v: VmId, pc: UpdatePc, job: Job, c: Choice)
    requires Before(env, w, v, Updating(pc, job))
    ensures OutcomeInv(env, w, v, UpdateOutcome(env, w, v, pc, job, c))
  {
    var f, out := FilesOf(w, v), UpdateOutcome(env, w, v, pc, job, c);
    assert Kernel(out.programs, out.slot, w.requested) == KernelOf(w);
    if pc.UInvalidate? {
      FewerFiles(env, KernelOf(w), v, f, out.files);
    } else {
      CommitFiles(env, KernelOf(w), v, f, job, c);
    }
  }

  /* The commands of configure_maps. */

  ghost predicate CommandSafe(env: Env, v: VmId, job: Job, m: Maps, m': Maps, cpc: ConfigPc) {
    if Publishes(job.policy, cpc) then HoldsJob(env, v, job, m')
    else Denies(m', env.identity(v), env.ifindex(job.iface)) || (!cpc.Deny? && m' == m)
  }

  // Writing the maps of v's program: its slots stay safe if the maps do, or it is in no slot.
  lemma WrittenSlots(env: Env, w: World, v: VmId, job: Job, p: ProgId, m': Maps, cpc: ConfigPc)
    requires HasProgram(KernelOf(w), v, p, job.iface) && (v, job.policy) in w.requested
    requires InSlot(w.slot, p) ==> CommandSafe(env, v, job, w.programs[p].maps, m', cpc)
    requires forall i :: SlotInv(env, KernelOf(w), v, i)
    ensures forall i :: SlotInv(env, Kernel(Commanded(w, p, m', job.policy, cpc), w.slot, w.requested), v, i)
  {
    forall i ensures SlotInv(env, Kernel(Commanded(w, p, m', job.policy, cpc), w.slot, w.requested), v, i) {
      assert SlotInv(env, KernelOf(w), v, i);
    }
  }

  // While the marker is gone the files promise nothing about the maps.
  lemma WrittenFiles(env: Env, w: World, v: VmId, p: ProgId, m': Maps, q: VmNetworkPolicy, cpc: ConfigPc)
    requires FilesInv(env, KernelOf(w), v, FilesOf(w, v)) && FilesOf(w, v).fingerprint.None?
    requires p in w.programs
    ensures FilesInv(env, Kernel(Commanded(w, p, m', q, cpc), w.slot, w.requested), v, FilesOf(w, v))
  {
  }

  function NewMaps(env: Env, w: World, v: VmId, cpc: ConfigPc, job: Job, c: Choice): Maps
    requires MapsAt(w, FilesOf(w, v).mapPin).Some?
  {
    Effect(MapsAt(w, FilesOf(w, v).mapPin).value, env.identity(v), env.ifindex(job.iface), job.policy, cpc, c.key)
  }

  // The maps a command goes to are those of the program on record.
  lemma ConfiguredProgram(env: Env, w: World, v: VmId, live: bool, cpc: ConfigPc, job: Job)
    requires Before(env, w, v, Configuring(live, cpc, job)) && MapsAt(w, FilesOf(w, v).mapPin).Some?
    ensures var f := FilesOf(w, v);
            && f.fingerprint.None? && f.mapPin == f.progPin && HasProgram(KernelOf(w), v, f.progPin.value, job.iface)
            && (!live ==> !InSlot(w.slot, f.progPin.value))
            && ConfigInv(w.programs[f.progPin.value].maps, env.identity(v), env.ifindex(job.iface), job.policy,
                         live, cpc)
  {
  }

  lemma ConfigNext(env: Env, w: World, v: VmId, live: bool, cpc: ConfigPc, job: Job, c: Choice)
    requires Before(env, w, v, Configuring(live, cpc, job)) && MapsAt(w, FilesOf(w, v).mapPin).Some?
    requires Deletable(MapsAt(w, FilesOf(w, v).mapPin).value, cpc, c.key, true)
    ensures var f := FilesOf(w, v);
            var k := Kernel(Commanded(w, f.mapPin.value, NewMaps(env, w, v, cpc, job, c), job.policy, cpc),
                            w.slot, w.requested);
            TaskInv(env, k, v, f, AfterCommand(live, job, Following(MapsAt(w, f.mapPin).value, job.policy, cpc, c.key)))
  {
    ConfiguredProgram(env, w, v, live, cpc, job);
    var m := MapsAt(w, FilesOf(w, v).mapPin).value;
    CommandKeepsInv(m, env.identity(v), env.ifindex(job.iface), job.policy, live, cpc, c.key);
  }

  lemma ConfigInvKept(env: Env, w: World, v: VmId, live: bool, cpc: ConfigPc, job: Job, c: Choice)
    requires Before(env, w, v, Configuring(live, cpc, job))
    requires var m := MapsAt(w, FilesOf(w, v).mapPin); m.Some? && c.ok ==> Deletable(m.value, cpc, c.key, true)
    ensures OutcomeInv(env, w, v, ConfigOutcome(env, w, v, live, cpc, job, c))
  {
    var f, out := FilesOf(w, v), ConfigOutcome(env, w, v, live, cpc, job, c);
    if MapsAt(w, f.mapPin).Some? && (c.ok || c.took) {
      ConfiguredProgram(env, w, v, live, cpc, job);
      var m, m' := MapsAt(w, f.mapPin).value, NewMaps(env, w, v, cpc, job, c);
      if live {
        CommandIsSafe(m, env.identity(v), env.ifindex(job.iface), job.policy, cpc, c.key);
      }
      WrittenSlots(env, w, v, job, f.progPin.value, m', cpc);
      WrittenFiles(env, w, v, f.progPin.value, m', job.policy, cpc);
      if c.ok {
        ConfigNext(env, w, v, live, cpc, job, c);
      }
    } else {
      assert Kernel(out.programs, out.slot, w.requested) == KernelOf(w);
    }
  }

  /* All together. */

  lemma OwnTaskInv(env: Env, w: World, o: OpId, c: Choice)
    requires o in w.tasks && Before(env, w, w.tasks[o].vm, w.tasks[o].task) && Possible(w, o, c)
    ensures OutcomeInv(env, w, w.tasks[o].vm, OutcomeOf(env, w, w.tasks[o].vm, w.tasks[o].task, c))
  {
    var v := w.tasks[o].vm;
    match w.tasks[o].task
    case Applying(pc, job) => ApplyInvKept(env, w, v, pc, job, c);
    case Removing(pc) => RemoveInv(env, w, v, pc, c);
    case Updating(pc, job) => UpdateInvKept(env, w, v, pc, job, c);
    case Configuring(live, cpc, job) => ConfigInvKept(env, w, v, live, cpc, job, c);
  }

  lemma ExecKeepsInv(env: Env, w: World, o: OpId, c: Choice, v: VmId)
    requires Inv(env, w, v) && Owned(w) && Alone(w, v) && o in w.tasks && Possible(w, o, c)
    ensures Inv(env, Exec(env, w, o, c), v)
  {
    var u := w.tasks[o].vm;
    var out := OutcomeOf(env, w, u, w.tasks[o].task, c);
    if u == v {
      OwnTaskInv(env, w, o, c);
      OwnStep(env, w, o, v, out);
    } else {
      StepOwned(env, w, o, c);
      ForeignStep(env, w, o, u, out, v);
    }
  }

  // Every step of any operation or other party keeps the invariant of a VM whose operations
  // do not overlap.
  lemma NextKeepsInv(env: Env, w: World, w': World, v: VmId)
    requires Inv(env, w, v) && Owned(w) && Alone(w, v) && Next(env, w, w')
    ensures Inv(env, w', v)
  {
    if OtherParty(w, w') {
      OtherPartyStep(env, w, w', v);
    } else {
      var o :| OpNext(env, w, w', o);
      if Starts(w, w', o) {
        var u, t :| Startable(w, u, t) && w' == Begin(w, o, u, t);
        BeginStep(env, w, o, u, t, v);
      } else if Stops(w, w', o) {
        EndStep(env, w, o, v);
      } else {
        var c :| Possible(w, o, c) && w' == Exec(env, w, o, c);
        ExecKeepsInv(env, w, o, c, v);
      }
    }
  }

  // Every world of every run satisfies the invariant of every such VM.
  lemma {:induction false} RunKeepsInv(env: Env, run: seq<World>, v: VmId, k: nat)
    requires IsRun(env, run) && k < |run| && forall i :: 0 <= i < k ==> Alone(run[i], v)
    ensures Inv(env, run[k], v)
  {
    if k > 0 {
      RunKeepsInv(env, run, v, k - 1);
      RunKeepsOwned(env, run, k - 1);
      NextKeepsInv(env, run[k - 1], run[k], v);
    }
  }
}
