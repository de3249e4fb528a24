// The attach, update, remove and reconcile protocol of the eBPF dataplane, as a state machine.
//
// A World is everything that outlives a crash of the daemon - loaded programs and their maps,
// the reserved TC slot of each interface, the pin and metadata files of each VM - and the
// operations in progress. One step is one command or file operation of one operation. A step
// may fail, before or after it took effect, and an operation may stop for good after any step.
// Operations interleave freely, those on one VM as well: the source takes no lock per VM. Other
// parties change TC slots.
module Fabric {
  import opened Wrappers
  import opened Policy
  import opened TcProgram
  import opened MapCompiler
  import opened ConfigSteps

  type VmId = nat
  type OpId = nat
  type Iface = nat
  type ProgId = nat

  const SCHEMA_VERSION := 3

  // Fixed facts about the host: the policy fingerprint, interface indices and VM identities.
  datatype Env = Env(fingerprint: VmNetworkPolicy -> U64, ifindex: Iface -> U32, identity: VmId -> U32)

  // A program FluxVM loaded: for which VM, to be attached where, with which maps, and the policy
  // in force: the last one whose publishing command took effect, unless a deny-all took effect
  // since.
  datatype Program = Program(vm: VmId, iface: Iface, maps: Maps, inForce: Option<VmNetworkPolicy>)

  // The pin directory (progPin, mapPin) and the metadata directory of one VM.
  datatype Files = Files(
    progPin: Option<ProgId>,
    mapPin: Option<ProgId>,
    iface: Option<Iface>,
    progId: Option<ProgId>,
    schema: Option<nat>,
    fingerprint: Option<U64>)

  const NoFiles := Files(None, None, None, None, None, None)

  // The durable policy, the policy to compile (with DNS-resolved CIDRs added), the interface.
  datatype Job = Job(base: VmNetworkPolicy, policy: VmNetworkPolicy, iface: Iface)

  // APinMaps knows the program it has just loaded; everything later goes by the pinned paths.
  datatype ApplyPc =
    | ADetach | ARmPins | ARmMeta | AIface | ALoad | APinMaps(prog: ProgId) | AProgId | ASchema | AAttach | ACommit

  datatype RemovePc = RDetach | RRmPins | RRmMeta

  datatype UpdatePc = UInvalidate | UCommit

  // Configuring is configure_maps: within an update of live maps, or within an apply.
  datatype Task =
    | Applying(apc: ApplyPc, job: Job)
    | Removing(rpc: RemovePc)
    | Updating(upc: UpdatePc, job: Job)
    | Configuring(live: bool, cpc: ConfigPc, job: Job)

  // An operation in progress.
  datatype Op = Op(vm: VmId, task: Task)

  datatype World = World(
    programs: map<ProgId, Program>,
    slot: map<Iface, ProgId>,
    files: map<VmId, Files>,
    tasks: map<OpId, Op>,
    requested: set<(VmId, VmNetworkPolicy)>)   // every policy an operation was started with

  const Init := World(map[], map[], map[], map[], {})

  function FilesOf(w: World, v: VmId): Files {
    if v in w.files then w.files[v] else NoFiles
  }

  // The maps at a pinned path.
  function MapsAt(w: World, p: Option<ProgId>): Option<Maps> {
    if p.Some? && p.value in w.programs then Some(w.programs[p.value].maps) else None
  }

  // A map command for policy q took effect on the maps of p.
  function Commanded(w: World, p: ProgId, m: Maps, q: VmNetworkPolicy, cpc: ConfigPc): map<ProgId, Program>
    requires p in w.programs
  {
    var inForce := if Publishes(q, cpc) then Some(q) else if cpc.Deny? then None else w.programs[p].inForce;
    w.programs[p := w.programs[p].(maps := m, inForce := inForce)]
  }

  // read_owned_program_id, or else the pinned program's id
  function OwnedId(f: Files): Option<ProgId> {
    if f.progId.Some? then f.progId else f.progPin
  }

  // detach_tc_filter would delete a filter here.
  predicate OwnsFilter(w: World, f: Files) {
    f.iface.Some? && OwnedId(f).Some? && f.iface.value in w.slot && w.slot[f.iface.value] == OwnedId(f).value
  }

  // attachment_status
  predicate Attached(w: World, v: VmId) {
    var f := FilesOf(w, v);
    OwnsFilter(w, f) && f.schema == Some(SCHEMA_VERSION) && f.progPin.Some?
  }

  // ensure_sandbox_policy's early return
  predicate Healthy(env: Env, w: World, v: VmId, base: VmNetworkPolicy, iface: Iface) {
    var f := FilesOf(w, v);
    Attached(w, v) && f.iface == Some(iface) && f.fingerprint == Some(env.fingerprint(base))
  }

  // How a step turns out: whether it reports success, whether it took effect all the same, the
  // fresh program id, the key a deletion comes to, what an interrupted directory removal left.
  datatype Choice = Choice(ok: bool, took: bool, prog: ProgId, key: seq<bool>, kept: Files)

  function Kept<T(==)>(x: Option<T>, kept: Option<T>): Option<T> {
    if x == kept then x else None
  }

  function PartlyUnpinned(f: Files, kept: Files): Files {
    f.(progPin := Kept(f.progPin, kept.progPin), mapPin := Kept(f.mapPin, kept.mapPin))
  }

  function PartlyCleared(f: Files, kept: Files): Files {
    f.(iface := Kept(f.iface, kept.iface), progId := Kept(f.progId, kept.progId),
       schema := Kept(f.schema, kept.schema), fingerprint := Kept(f.fingerprint, kept.fingerprint))
  }

  function Unpinned(f: Files): Files {
    f.(progPin := None, mapPin := None)
  }

  function Cleared(f: Files): Files {
    f.(iface := None, progId := None, schema := None, fingerprint := None)
  }

  predicate FreshProgram(w: World, p: ProgId) {
    p !in w.programs && forall i :: i in w.slot ==> w.slot[i] != p
  }

  // Which outcomes are possible: fresh ids are fresh, pinning over a pin fails, what is not
  // there cannot be read or deleted.
  predicate Possible(w: World, o: OpId, c: Choice)
    requires o in w.tasks
  {
    var f := FilesOf(w, w.tasks[o].vm);
    match w.tasks[o].task
    case Applying(ALoad, _) => FreshProgram(w, c.prog) && (c.ok || c.took ==> f.progPin.None?)
    case Applying(APinMaps(_), _) => c.ok || c.took ==> f.mapPin.None?
    case Applying(AProgId, _) => c.ok || c.took ==> f.progPin.Some?
    case Configuring(_, cpc, _) =>
      var m := MapsAt(w, f.mapPin);
      if m.Some? then Deletable(m.value, cpc, c.key, c.ok) else !c.ok && !c.took
    case _ => true
  }

  // What a step of an operation on behalf of v leaves: v's files, and where the operation goes
  // next, if it goes on.
  datatype Outcome = Outcome(programs: map<ProgId, Program>, slot: map<Iface, ProgId>, files: Files, next: Option<Task>)

  function Done(w: World, o: OpId, v: VmId, out: Outcome): World {
    World(out.programs, out.slot, w.files[v := out.files],
          if out.next.Some? then w.tasks[o := Op(v, out.next.value)] else w.tasks - {o}, w.requested)
  }

  function Exec(env: Env, w: World, o: OpId, c: Choice): World
    requires o in w.tasks
  {
    Done(w, o, w.tasks[o].vm, OutcomeOf(env, w, w.tasks[o].vm, w.tasks[o].task, c))
  }

  function OutcomeOf(env: Env, w: World, v: VmId, t: Task, c: Choice): Outcome {
    match t
    case Applying(pc, job) => ApplyOutcome(env, w, v, pc, job, c)
    case Removing(pc) => RemoveOutcome(w, v, pc, c)
    case Updating(pc, job) => UpdateOutcome(env, w, v, pc, job, c)
    case Configuring(live, cpc, job) => ConfigOutcome(env, w, v, live, cpc, job, c)
  }

  // Only files change.
  function Moved(w: World, f: Files, next: Option<Task>): Outcome {
    Outcome(w.programs, w.slot, f, next)
  }

  // A file operation that turns v's files into f and leads to `next`, or fails into `otherwise`.
  function Wrote(w: World, v: VmId, f: Files, c: Choice, next: Task, otherwise: Option<Task>): Outcome {
    Moved(w, if c.ok || c.took then f else FilesOf(w, v), if c.ok then Some(next) else otherwise)
  }

  // The slots after detach_tc_filter.
  function Detached(w: World, v: VmId, took: bool): map<Iface, ProgId> {
    if took && OwnsFilter(w, FilesOf(w, v)) then w.slot - {FilesOf(w, v).iface.value} else w.slot
  }

  // ebpf::remove, also the cleanup of a failed apply
  function RemoveOutcome(w: World, v: VmId, pc: RemovePc, c: Choice): Outcome {
    var f := FilesOf(w, v);
    match pc
    case RDetach => Outcome(w.programs, Detached(w, v, c.took), f, Some(Removing(RRmPins)))
    case RRmPins =>
      if c.ok then Moved(w, Unpinned(f), Some(Removing(RRmMeta))) else Moved(w, PartlyUnpinned(f, c.kept), None)
    case RRmMeta => Moved(w, if c.ok then Cleared(f) else PartlyCleared(f, c.kept), None)
  }

  // ebpf::apply and the commit of the fingerprint after it
  function ApplyOutcome(env: Env, w: World, v: VmId, pc: ApplyPc, job: Job, c: Choice): Outcome {
    var f := FilesOf(w, v);
    match pc
    case ADetach => Outcome(w.programs, Detached(w, v, c.took), f, Some(Applying(ARmPins, job)))
    case ARmPins =>
      if c.ok then Moved(w, Unpinned(f), Some(Applying(ARmMeta, job))) else Moved(w, PartlyUnpinned(f, c.kept), None)
    case ARmMeta =>
      if c.ok then Moved(w, Cleared(f), Some(Applying(AIface, job))) else Moved(w, PartlyCleared(f, c.kept), None)
    case AIface => Wrote(w, v, f.(iface := Some(job.iface)), c, Applying(ALoad, job), None)
    case ALoad =>
      Wrote(w, v, f.(progPin := Some(c.prog)), c, Applying(APinMaps(c.prog), job), Some(Removing(RRmPins)))
        .(programs := w.programs[c.prog := Program(v, job.iface, EmptyMaps, None)])
    case APinMaps(prog) =>
      Wrote(w, v, f.(mapPin := Some(prog)), c, Applying(AProgId, job), Some(Removing(RRmPins)))
    case AProgId =>
      Wrote(w, v, f.(progId := f.progPin), c, Configuring(false, Dump(V4), job), Some(Removing(RRmPins)))
    case ASchema =>
      Wrote(w, v, f.(schema := Some(SCHEMA_VERSION)), c, Applying(AAttach, job), Some(Removing(RDetach)))
    case AAttach =>
      // `add`, not `replace`: fails on an occupied slot
      var possible := job.iface !in w.slot && f.progPin.Some?;
      Outcome(w.programs,
              if possible && (c.ok || c.took) then w.slot[job.iface := f.progPin.value] else w.slot, f,
              Some(if possible && c.ok then Applying(ACommit, job) else Removing(RDetach)))
    case ACommit => Moved(w, Committing(env, f, job, c), None)
  }

  // commit_policy_fingerprint: the rename either happened or did not
  function Committing(env: Env, f: Files, job: Job, c: Choice): Files {
    if c.ok || c.took then f.(fingerprint := Some(env.fingerprint(job.base))) else f
  }

  // The start and end of ebpf::reconfigure, and the commit of the fingerprint after it
  function UpdateOutcome(env: Env, w: World, v: VmId, pc: UpdatePc, job: Job, c: Choice): Outcome {
    var f := FilesOf(w, v);
    match pc
    case UInvalidate => Wrote(w, v, f.(fingerprint := None), c, Configuring(true, Deny, job), None)
    case UCommit => Moved(w, Committing(env, f, job, c), None)
  }

  // One command of configure_maps, on the maps now pinned for v.
  function ConfigOutcome(env: Env, w: World, v: VmId, live: bool, cpc: ConfigPc, job: Job, c: Choice): Outcome {
    var f := FilesOf(w, v);
    var failed := if live then None else Some(Removing(RDetach));
    var maps := MapsAt(w, f.mapPin);
    if maps.None? then Moved(w, f, failed)
    else
      var m := maps.value;
      var m' := Effect(m, env.identity(v), env.ifindex(job.iface), job.policy, cpc, c.key);
      Outcome(if c.ok || c.took then Commanded(w, f.mapPin.value, m', job.policy, cpc) else w.programs, w.slot, f,
              if c.ok then Some(AfterCommand(live, job, Following(m, job.policy, cpc, c.key))) else failed)
  }

  function AfterCommand(live: bool, job: Job, next: Option<ConfigPc>): Task {
    if next.Some? then Configuring(live, next.value, job)
    else if live then Updating(UCommit, job)
    else Applying(ASchema, job)
  }

  // The policy compiled for a durable policy: its own entries and possibly more CIDRs.
  predicate Extends(policy: VmNetworkPolicy, base: VmNetworkPolicy) {
    policy == base.(allowCidrs := policy.allowCidrs) && forall t :: t in base.allowCidrs ==> t in policy.allowCidrs
  }

  predicate ValidJob(job: Job) {
    Valid(job.policy) && Extends(job.policy, job.base)
  }

  // What an operation on v may begin as: the orphan reconcile removes, ensure_sandbox_policy
  // applies unless Healthy, a policy change updates an attached VM.
  predicate Startable(w: World, v: VmId, t: Task) {
    match t
    case Removing(RDetach) => true
    case Applying(ADetach, job) => ValidJob(job)
    case Updating(UInvalidate, job) => ValidJob(job) && Attached(w, v) && FilesOf(w, v).iface == Some(job.iface)
    case _ => false
  }

  function Asked(v: VmId, t: Task): set<(VmId, VmNetworkPolicy)> {
    if t.Removing? then {} else {(v, t.job.policy)}
  }

  function Begin(w: World, o: OpId, v: VmId, t: Task): World {
    w.(tasks := w.tasks[o := Op(v, t)], requested := w.requested + Asked(v, t))
  }

  ghost predicate Starts(w: World, w': World, o: OpId) {
    o !in w.tasks && exists v, t :: Startable(w, v, t) && w' == Begin(w, o, v, t)
  }

  function End(w: World, o: OpId): World {
    w.(tasks := w.tasks - {o})
  }

  // Another party removes the filter in a slot, or puts a program of its own there; or the
  // interface is deleted, by the teardown of a VM's network as well, and its filter with it.
  ghost predicate OtherParty(w: World, w': World) {
    exists i: Iface, p: ProgId ::
      || w' == w.(slot := w.slot - {i})
      || (p !in w.programs && w' == w.(slot := w.slot[i := p]))
  }

  ghost predicate Steps(env: Env, w: World, w': World, o: OpId) {
    && o in w.tasks
    && exists c :: Possible(w, o, c) && w' == Exec(env, w, o, c)
  }

  // An operation stops: an error return with nothing to clean up, or a crash.
  ghost predicate Stops(w: World, w': World, o: OpId) {
    o in w.tasks && w' == End(w, o)
  }

  ghost predicate OpNext(env: Env, w: World, w': World, o: OpId) {
    Starts(w, w', o) || Steps(env, w, w', o) || Stops(w, w', o)
  }

  ghost predicate Next(env: Env, w: World, w': World) {
    OtherParty(w, w') || exists o :: OpNext(env, w, w', o)
  }

  /* Operations on one VM that do not overlap. */

  predicate OnlyOp(w: World, v: VmId, o: OpId) {
    forall q :: q in w.tasks && w.tasks[q].vm == v ==> q == o
  }

  predicate Alone(w: World, v: VmId) {
    forall o :: o in w.tasks && w.tasks[o].vm == v ==> OnlyOp(w, v, o)
  }

  ghost predicate Serial(run: seq<World>, v: VmId) {
    forall k :: 0 <= k < |run| ==> Alone(run[k], v)
  }

  ghost predicate IsRun(env: Env, run: seq<World>) {
    && run != [] && run[0] == Init
    && forall k :: 0 <= k < |run| - 1 ==> Next(env, run[k], run[k + 1])
  }

  ghost predicate Reachable(env: Env, w: World) {
    exists run :: IsRun(env, run) && run[|run| - 1] == w
  }

  lemma RunStep(env: Env, run: seq<World>, k: nat)
    requires IsRun(env, run) && k + 1 < |run|
    ensures Next(env, run[k], run[k + 1])
  {
  }

  lemma ReachNext(env: Env, w: World, w': World)
    requires Reachable(env, w) && Next(env, w, w')
    ensures Reachable(env, w')
  {
    var run :| IsRun(env, run) && run[|run| - 1] == w;
    var longer := run + [w'];
    forall k | 0 <= k < |longer| - 1 ensures Next(env, longer[k], longer[k + 1]) {
      if k < |run| - 1 {
        assert Next(env, run[k], run[k + 1]);
      }
    }
    assert IsRun(env, longer) && longer[|longer| - 1] == w';
  }
}
