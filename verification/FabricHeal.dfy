// Repair: when a fault-free ensure_sandbox_policy restores a VM, and when it cannot.
module FabricHeal {
  import opened Wrappers
  import opened Policy
  import opened TcProgram
  import opened MapCompiler
  import opened ConfigSteps
  import opened Fabric
  import opened FabricSafety
  import opened FabricSerial

  /* One operation running by itself with nothing going wrong. */

  ghost function NextKey(w: World, o: OpId): seq<bool>
    requires o in w.tasks
  {
    var t := w.tasks[o].task;
    if t.Configuring? && t.cpc.Delete? && t.cpc.left != {} then
      var key :| key in t.cpc.left;
      key
    else []
  }

  // Everything works; a load returns `prog`.
  ghost function AllOk(w: World, o: OpId, prog: ProgId): Choice
    requires o in w.tasks
  {
    Choice(true, true, prog, NextKey(w, o), NoFiles)
  }

  // Operation o runs n steps, or to its end.
  ghost function Solo(env: Env, w: World, o: OpId, prog: ProgId, n: nat): World
    decreases n
  {
    if n == 0 || o !in w.tasks then w else Solo(env, Exec(env, w, o, AllOk(w, o, prog)), o, prog, n - 1)
  }

  // ensure_sandbox_policy as operation o, n steps far
  ghost function Ensure(env: Env, w: World, o: OpId, v: VmId, job: Job, prog: ProgId, n: nat): World {
    if Healthy(env, w, v, job.base, job.iface) then w
    else Solo(env, Begin(w, o, v, Applying(ADetach, job)), o, prog, n)
  }

  // The reserved slot is empty, or holds the filter this VM's own records would remove.
  predicate SlotAvailable(w: World, v: VmId, iface: Iface) {
    iface in w.slot ==> FilesOf(w, v).iface == Some(iface) && OwnsFilter(w, FilesOf(w, v))
  }

  // All n steps are possible.
  ghost predicate CanSolo(env: Env, w: World, o: OpId, prog: ProgId, n: nat)
    decreases n
  {
    n > 0 && o in w.tasks ==>
      && Possible(w, o, AllOk(w, o, prog))
      && CanSolo(env, Exec(env, w, o, AllOk(w, o, prog)), o, prog, n - 1)
  }

  lemma {:induction false} SoloThen(env: Env, w: World, o: OpId, prog: ProgId, a: nat, b: nat)
    requires CanSolo(env, w, o, prog, a) && CanSolo(env, Solo(env, w, o, prog, a), o, prog, b)
    ensures Solo(env, Solo(env, w, o, prog, a), o, prog, b) == Solo(env, w, o, prog, a + b)
    ensures CanSolo(env, w, o, prog, a + b)
    decreases a
  {
    if a > 0 && o in w.tasks {
      var w1 := Exec(env, w, o, AllOk(w, o, prog));
      assert Solo(env, w, o, prog, a) == Solo(env, w1, o, prog, a - 1);
      SoloThen(env, w1, o, prog, a - 1, b);
      assert Solo(env, w, o, prog, a + b) == Solo(env, w1, o, prog, a - 1 + b);
    }
  }

  lemma StepReaches(env: Env, w: World, o: OpId, c: Choice)
    requires Reachable(env, w) && o in w.tasks && Possible(w, o, c)
    ensures Reachable(env, Exec(env, w, o, c))
  {
    assert Steps(env, w, Exec(env, w, o, c), o);
    assert OpNext(env, w, Exec(env, w, o, c), o);
    ReachNext(env, w, Exec(env, w, o, c));
  }

  lemma {:induction false} SoloReaches(env: Env, w: World, o: OpId, prog: ProgId, n: nat)
    requires Reachable(env, w) && CanSolo(env, w, o, prog, n)
    ensures Reachable(env, Solo(env, w, o, prog, n))
    decreases n
  {
    if n > 0 && o in w.tasks {
      StepReaches(env, w, o, AllOk(w, o, prog));
      SoloReaches(env, Exec(env, w, o, AllOk(w, o, prog)), o, prog, n - 1);
    }
  }

  // From w operation o gets to w' by itself.
  ghost predicate Gets(env: Env, w: World, w': World, o: OpId, prog: ProgId, n: nat) {
    && CanSolo(env, w, o, prog, n) && w' == Solo(env, w, o, prog, n)
    && w'.tasks - {o} == w.tasks - {o}
    && w'.requested == w.requested
  }

  lemma GetsThen(env: Env, w: World, w1: World, w2: World, o: OpId, prog: ProgId, a: nat, b: nat)
    requires Gets(env, w, w1, o, prog, a) && Gets(env, w1, w2, o, prog, b)
    ensures Gets(env, w, w2, o, prog, a + b)
  {
    SoloThen(env, w, o, prog, a, b);
  }

  lemma OneStep(env: Env, w: World, o: OpId, prog: ProgId) returns (w': World)
    requires o in w.tasks && Possible(w, o, AllOk(w, o, prog))
    ensures w' == Exec(env, w, o, AllOk(w, o, prog)) && Gets(env, w, w', o, prog, 1)
  {
    w' := Exec(env, w, o, AllOk(w, o, prog));
    assert Solo(env, w, o, prog, 1) == Solo(env, w', o, prog, 0) == w';
    assert CanSolo(env, w', o, prog, 0);
  }

  /* Stage by stage. */

  // Where operation o stands.
  predicate At(w: World, o: OpId, v: VmId, t: Task, f: Files, slot: map<Iface, ProgId>) {
    o in w.tasks && w.tasks[o] == Op(v, t) && FilesOf(w, v) == f && w.slot == slot
  }

  lemma RemovalStage(env: Env, w: World, o: OpId, v: VmId, job: Job, prog: ProgId) returns (w': World)
    requires o in w.tasks && w.tasks[o] == Op(v, Applying(ADetach, job))
    ensures At(w', o, v, Applying(AIface, job), NoFiles, Detached(w, v, true)) && w'.programs == w.programs
    ensures Gets(env, w, w', o, prog, 3)
  {
    var w1 := OneStep(env, w, o, prog);
    var w2 := OneStep(env, w1, o, prog);
    w' := OneStep(env, w2, o, prog);
    GetsThen(env, w, w1, w2, o, prog, 1, 1);
    GetsThen(env, w, w2, w', o, prog, 2, 1);
  }

  lemma LoadStage(env: Env, w: World, o: OpId, v: VmId, job: Job, prog: ProgId, slot: map<Iface, ProgId>)
    returns (w': World)
    requires At(w, o, v, Applying(AIface, job), NoFiles, slot) && FreshProgram(w, prog)
    ensures At(w', o, v, Applying(APinMaps(prog), job),
               NoFiles.(iface := Some(job.iface), progPin := Some(prog)), slot)
    ensures w'.programs == w.programs[prog := Program(v, job.iface, EmptyMaps, None)]
    ensures Gets(env, w, w', o, prog, 2)
  {
    var w1 := OneStep(env, w, o, prog);
    w' := OneStep(env, w1, o, prog);
    GetsThen(env, w, w1, w', o, prog, 1, 1);
  }

  lemma PinStage(env: Env, w: World, o: OpId, v: VmId, job: Job, prog: ProgId, slot: map<Iface, ProgId>)
    returns (w': World)
    requires At(w, o, v, Applying(APinMaps(prog), job),
                NoFiles.(iface := Some(job.iface), progPin := Some(prog)), slot)
    ensures At(w', o, v, Configuring(false, Dump(V4), job), Recorded(prog, job.iface, true, false), slot)
    ensures w'.programs == w.programs && Gets(env, w, w', o, prog, 2)
  {
    var w1 := OneStep(env, w, o, prog);
    w' := OneStep(env, w1, o, prog);
    GetsThen(env, w, w1, w', o, prog, 1, 1);
  }

  /* configure_maps by itself. */

  function Rank(pc: ConfigPc): nat {
    match pc
    case Deny => 7
    case Dump(w) => (match w case V4 => 6 case V6 => 4 case Ports4 => 2)
    case Delete(w, _) => (match w case V4 => 5 case V6 => 3 case Ports4 => 1)
    case Add(_) => 0
  }

  function Remaining(p: VmNetworkPolicy, pc: ConfigPc): nat {
    match pc
    case Delete(_, left) => |left|
    case Add(k) => if k < Entries(p) then Entries(p) - k else 0
    case _ => 0
  }

  // Operation o is at command cpc of configure_maps and the maps are as it left them.
  ghost predicate Configures(env: Env, w: World, o: OpId, v: VmId, live: bool, cpc: ConfigPc, job: Job, p: ProgId) {
    && o in w.tasks && w.tasks[o] == Op(v, Configuring(live, cpc, job))
    && FilesOf(w, v).mapPin == Some(p) && p in w.programs
    && ConfigInv(w.programs[p].maps, env.identity(v), env.ifindex(job.iface), job.policy, live, cpc)
  }

  // What a stretch of configure_maps leaves: everything but the maps of one program.
  ghost predicate OnlyMaps(w: World, w': World, v: VmId, p: ProgId)
    requires p in w.programs
  {
    && FilesOf(w', v) == FilesOf(w, v) && w'.slot == w.slot
    && p in w'.programs && w'.programs == w.programs[p := w'.programs[p]]
    && w'.programs[p].vm == w.programs[p].vm && w'.programs[p].iface == w.programs[p].iface
  }

  lemma CommandStage(env: Env, w: World, o: OpId, v: VmId, live: bool, cpc: ConfigPc, job: Job, p: ProgId, prog: ProgId)
    returns (w': World)
    requires Configures(env, w, o, v, live, cpc, job, p)
    ensures var m, key := w.programs[p].maps, NextKey(w, o);
            && Deletable(m, cpc, key, true)
            && OnlyMaps(w, w', v, p)
            && w'.programs[p].maps == Effect(m, env.identity(v), env.ifindex(job.iface), job.policy, cpc, key)
            && o in w'.tasks && w'.tasks[o] == Op(v, AfterCommand(live, job, Following(m, job.policy, cpc, key)))
    ensures Gets(env, w, w', o, prog, 1)
  {
    assert MapsAt(w, FilesOf(w, v).mapPin) == Some(w.programs[p].maps);
    w' := OneStep(env, w, o, prog);
  }

  lemma {:induction false} ConfigStage(env: Env, w: World, o: OpId, v: VmId, live: bool, cpc: ConfigPc, job: Job,
                                       p: ProgId, prog: ProgId) returns (w': World, n: nat)
    requires Configures(env, w, o, v, live, cpc, job, p)
    ensures OnlyMaps(w, w', v, p) && HoldsJob(env, v, job, w'.programs[p].maps)
    ensures o in w'.tasks && w'.tasks[o] == Op(v, AfterCommand(live, job, None))
    ensures Gets(env, w, w', o, prog, n)
    decreases Rank(cpc), Remaining(job.policy, cpc)
  {
    var m, key := w.programs[p].maps, NextKey(w, o);
    var w1 := CommandStage(env, w, o, v, live, cpc, job, p, prog);
    CommandKeepsInv(m, env.identity(v), env.ifindex(job.iface), job.policy, live, cpc, key);
    match Following(m, job.policy, cpc, key) {
      case None => w', n := w1, 1;
      case Some(next) =>
        CloserToTheEnd(m, job.policy, cpc, key);
        var rest;
        w', rest := ConfigStage(env, w1, o, v, live, next, job, p, prog);
        n := 1 + rest;
        GetsThen(env, w, w1, w', o, prog, 1, rest);
    }
  }

  lemma CloserToTheEnd(m: Maps, p: VmNetworkPolicy, pc: ConfigPc, key: seq<bool>)
    requires Following(m, p, pc, key).Some? && Deletable(m, pc, key, true)
    ensures var next := Following(m, p, pc, key).value;
            Rank(next) < Rank(pc) || (Rank(next) == Rank(pc) && Remaining(p, next) < Remaining(p, pc))
  {
  }

  // The files of an attached and synced VM.
  function Synced(env: Env, p: ProgId, job: Job): Files {
    Recorded(p, job.iface, true, true).(fingerprint := Some(env.fingerprint(job.base)))
  }

  // The slot is free: attach, commit, done.
  lemma AttachStage(env: Env, w: World, o: OpId, v: VmId, job: Job, prog: ProgId, slot: map<Iface, ProgId>)
    returns (w': World)
    requires At(w, o, v, Applying(ASchema, job), Recorded(prog, job.iface, true, false), slot) && job.iface !in slot
    ensures o !in w'.tasks && Healthy(env, w', v, job.base, job.iface)
    ensures FilesOf(w', v) == Synced(env, prog, job)
    ensures w'.slot == slot[job.iface := prog] && w'.programs == w.programs
    ensures Gets(env, w, w', o, prog, 3)
  {
    var w1 := OneStep(env, w, o, prog);
    var w2 := OneStep(env, w1, o, prog);
    w' := OneStep(env, w2, o, prog);
    GetsThen(env, w, w1, w2, o, prog, 1, 1);
    GetsThen(env, w, w2, w', o, prog, 2, 1);
  }

  // The slot is taken: the attach fails and everything is removed again.
  lemma AttachFailsStage(env: Env, w: World, o: OpId, v: VmId, job: Job, prog: ProgId, slot: map<Iface, ProgId>)
    returns (w': World)
    requires At(w, o, v, Applying(ASchema, job), Recorded(prog, job.iface, true, false), slot) && job.iface in slot
    ensures o !in w'.tasks && FilesOf(w', v) == NoFiles
    ensures Gets(env, w, w', o, prog, 5)
  {
    var w1 := OneStep(env, w, o, prog);
    var w2 := OneStep(env, w1, o, prog);
    w' := CleanupStage(env, w2, o, v, prog);
    GetsThen(env, w, w1, w2, o, prog, 1, 1);
    GetsThen(env, w, w2, w', o, prog, 2, 3);
  }

  // The records name the program in the slot of the interface they name: by the recorded id, or
  // where none is on record by the pinned program.
  predicate RecordsNameSlot(f: Files, slot: map<Iface, ProgId>, i: Iface) {
    && f.iface == Some(i) && i in slot
    && (if f.progId.Some? then f.progId.value == slot[i] else f.progPin == Some(slot[i]))
  }

  // What a removal leaves of the slots: the one the records name is empty, the others are as
  // they were.
  ghost predicate OnlyNamedSlotFreed(f: Files, slot: map<Iface, ProgId>, slot': map<Iface, ProgId>) {
    forall i: Iface ::
      if RecordsNameSlot(f, slot, i) then i !in slot'
      else (i in slot' <==> i in slot) && (i in slot ==> slot'[i] == slot[i])
  }

  // A removal with nothing going wrong, also the cleanup of a failed apply: no file is left, and
  // the slot its records name is free.
  lemma CleanupStage(env: Env, w: World, o: OpId, v: VmId, prog: ProgId) returns (w': World)
    requires o in w.tasks && w.tasks[o] == Op(v, Removing(RDetach))
    ensures o !in w'.tasks && FilesOf(w', v) == Files(None, None, None, None, None, None)
    ensures OnlyNamedSlotFreed(FilesOf(w, v), w.slot, w'.slot) && w'.programs == w.programs
    ensures forall u :: u != v ==> FilesOf(w', u) == FilesOf(w, u)
    ensures Gets(env, w, w', o, prog, 3)
  {
    var w1 := OneStep(env, w, o, prog);
    var w2 := OneStep(env, w1, o, prog);
    w' := OneStep(env, w2, o, prog);
    GetsThen(env, w, w1, w2, o, prog, 1, 1);
    GetsThen(env, w, w2, w', o, prog, 2, 1);
  }

  lemma LoadAndPinStage(env: Env, w: World, o: OpId, v: VmId, job: Job, prog: ProgId, slot: map<Iface, ProgId>)
    returns (w': World)
    requires At(w, o, v, Applying(AIface, job), NoFiles, slot) && FreshProgram(w, prog)
    ensures At(w', o, v, Configuring(false, Dump(V4), job), Recorded(prog, job.iface, true, false), slot)
    ensures w'.programs == w.programs[prog := Program(v, job.iface, EmptyMaps, None)]
    ensures Gets(env, w, w', o, prog, 4)
  {
    var w1 := LoadStage(env, w, o, v, job, prog, slot);
    w' := PinStage(env, w1, o, v, job, prog, slot);
    GetsThen(env, w, w1, w', o, prog, 2, 2);
  }

  lemma BuildStarts(env: Env, w: World, o: OpId, v: VmId, job: Job, p: ProgId)
    requires o in w.tasks && w.tasks[o] == Op(v, Configuring(false, Dump(V4), job)) && ValidJob(job)
    requires FilesOf(w, v).mapPin == Some(p) && p in w.programs
    ensures Configures(env, w, o, v, false, Dump(V4), job, p)
  {
  }

  lemma BuildStage(env: Env, w0: World, w: World, o: OpId, v: VmId, job: Job, prog: ProgId,
                   slot: map<Iface, ProgId>, k: nat)
    returns (w': World, n: nat)
    requires At(w, o, v, Configuring(false, Dump(V4), job), Recorded(prog, job.iface, true, false), slot)
    requires ValidJob(job)
    requires prog in w.programs && w.programs[prog].vm == v && Gets(env, w0, w, o, prog, k)
    ensures At(w', o, v, Applying(ASchema, job), Recorded(prog, job.iface, true, false), slot)
    ensures prog in w'.programs && w'.programs[prog].vm == v && HoldsJob(env, v, job, w'.programs[prog].maps)
    ensures Gets(env, w0, w', o, prog, n)
  {
    BuildStarts(env, w, o, v, job, prog);
    var steps;
    w', steps := ConfigStage(env, w, o, v, false, Dump(V4), job, prog, prog);
    n := k + steps;
    GetsThen(env, w0, w, w', o, prog, k, steps);
  }

  lemma StillFresh(w: World, v: VmId, w': World, prog: ProgId)
    requires FreshProgram(w, prog) && w'.programs == w.programs && w'.slot == Detached(w, v, true)
    ensures FreshProgram(w', prog)
  {
  }

  lemma UpToBuild(env: Env, w: World, o: OpId, v: VmId, job: Job, prog: ProgId) returns (w': World)
    requires o in w.tasks && w.tasks[o] == Op(v, Applying(ADetach, job)) && FreshProgram(w, prog)
    ensures At(w', o, v, Configuring(false, Dump(V4), job), Recorded(prog, job.iface, true, false),
               Detached(w, v, true))
    ensures prog in w'.programs && w'.programs[prog].vm == v
    ensures Gets(env, w, w', o, prog, 7)
  {
    var w1 := RemovalStage(env, w, o, v, job, prog);
    StillFresh(w, v, w1, prog);
    w' := LoadAndPinStage(env, w1, o, v, job, prog, Detached(w, v, true));
    GetsThen(env, w, w1, w', o, prog, 3, 4);
  }

  // The cleanup that leaves the filter alone because none is attached yet.
  lemma UnpinStage(env: Env, w: World, o: OpId, v: VmId, prog: ProgId) returns (w': World)
    requires o in w.tasks && w.tasks[o] == Op(v, Removing(RRmPins))
    ensures o !in w'.tasks && FilesOf(w', v) == Files(None, None, None, None, None, None)
    ensures w'.slot == w.slot && w'.programs == w.programs
    ensures Gets(env, w, w', o, prog, 2)
  {
    var w1 := OneStep(env, w, o, prog);
    w' := OneStep(env, w1, o, prog);
    GetsThen(env, w, w1, w', o, prog, 1, 1);
  }

  // The steps of an apply after which a failure has something to clean up.
  predicate CleansUp(t: Task) {
    match t
    case Applying(pc, _) => pc.ALoad? || pc.APinMaps? || pc.AProgId? || pc.ASchema? || pc.AAttach?
    case Configuring(live, _, _) => !live
    case _ => false
  }

  // Whichever of them fails, before or after it took effect: the operation then ends by itself
  // with no file left, and with no slot changed but for the filter the records name.
  lemma FailedApplyCleansUp(env: Env, w: World, o: OpId, v: VmId, t: Task, c: Choice, prog: ProgId)
    returns (w1: World, w': World, n: nat)
    requires o in w.tasks && w.tasks[o] == Op(v, t) && CleansUp(t) && Possible(w, o, c) && !c.ok
    ensures w1 == Exec(env, w, o, c) && Gets(env, w1, w', o, prog, n)
    ensures o !in w'.tasks && FilesOf(w', v) == Files(None, None, None, None, None, None)
    ensures if t.Configuring? || t.apc.ASchema? || t.apc.AAttach?
            then OnlyNamedSlotFreed(FilesOf(w1, v), w1.slot, w'.slot) else w'.slot == w1.slot
  {
    w1 := Exec(env, w, o, c);
    if t.Applying? && !t.apc.ASchema? && !t.apc.AAttach? {
      n := 2;
      w' := UnpinStage(env, w1, o, v, prog);
    } else {
      n := 3;
      w' := CleanupStage(env, w1, o, v, prog);
    }
  }

  // So an attach that reports failure leaves no filter behind, even if it took effect.
  lemma FailedAttachLeavesNoFilter(env: Env, w: World, o: OpId, v: VmId, job: Job, p: ProgId, c: Choice, prog: ProgId)
    returns (w': World, n: nat)
    requires o in w.tasks && w.tasks[o] == Op(v, Applying(AAttach, job)) && !c.ok
    requires FilesOf(w, v) == Recorded(p, job.iface, true, true) && job.iface !in w.slot
    ensures Gets(env, Exec(env, w, o, c), w', o, prog, n)
    ensures o !in w'.tasks && FilesOf(w', v) == Files(None, None, None, None, None, None) && w'.slot == w.slot
  {
    var w1;
    w1, w', n := FailedApplyCleansUp(env, w, o, v, Applying(AAttach, job), c, prog);
    assert FilesOf(w1, v) == FilesOf(w, v);
    assert forall i :: i in w'.slot <==> i in w.slot;
    assert forall i :: i in w.slot ==> w'.slot[i] == w.slot[i];
  }

  // From the start of an apply to the attach: the policy is in the maps of a fresh program.
  lemma UpToAttach(env: Env, w: World, o: OpId, v: VmId, job: Job, prog: ProgId) returns (w': World, n: nat)
    requires o in w.tasks && w.tasks[o] == Op(v, Applying(ADetach, job)) && ValidJob(job) && FreshProgram(w, prog)
    ensures At(w', o, v, Applying(ASchema, job), Recorded(prog, job.iface, true, false), Detached(w, v, true))
    ensures prog in w'.programs && w'.programs[prog].vm == v && HoldsJob(env, v, job, w'.programs[prog].maps)
    ensures Gets(env, w, w', o, prog, n)
  {
    var w1 := UpToBuild(env, w, o, v, job, prog);
    w', n := BuildStage(env, w, w1, o, v, job, prog, Detached(w, v, true), 7);
  }

  /* Repair. */

  // Detaching first frees the slot exactly when it was available.
  lemma FreedIffAvailable(w: World, v: VmId, iface: Iface)
    ensures iface in Detached(w, v, true) <==> !SlotAvailable(w, v, iface)
  {
  }

  lemma AttachOrCleanUp(env: Env, w: World, o: OpId, v: VmId, job: Job, prog: ProgId, slot: map<Iface, ProgId>)
    returns (w': World, n: nat)
    requires At(w, o, v, Applying(ASchema, job), Recorded(prog, job.iface, true, false), slot)
    ensures Gets(env, w, w', o, prog, n) && o !in w'.tasks
    ensures job.iface !in slot ==>
              && Healthy(env, w', v, job.base, job.iface) && FilesOf(w', v) == Synced(env, prog, job)
              && w'.slot == slot[job.iface := prog] && w'.programs == w.programs
    ensures job.iface in slot ==> FilesOf(w', v) == NoFiles
  {
    if job.iface in slot {
      n := 5;
      w' := AttachFailsStage(env, w, o, v, job, prog, slot);
    } else {
      n := 3;
      w' := AttachStage(env, w, o, v, job, prog, slot);
    }
  }

  // An undisturbed apply, all the way.
  lemma ApplyHealsIffSlotAvailable(env: Env, w: World, o: OpId, v: VmId, job: Job, prog: ProgId)
    returns (w': World, n: nat)
    requires o !in w.tasks && ValidJob(job) && FreshProgram(w, prog)
    ensures Gets(env, Begin(w, o, v, Applying(ADetach, job)), w', o, prog, n) && o !in w'.tasks
    ensures SlotAvailable(w, v, job.iface) ==>
              && Healthy(env, w', v, job.base, job.iface) && FilesOf(w', v) == Synced(env, prog, job)
              && w'.slot[job.iface] == prog && prog in w'.programs && w'.programs[prog].vm == v
              && HoldsJob(env, v, job, w'.programs[prog].maps)
    ensures !SlotAvailable(w, v, job.iface) ==> FilesOf(w', v) == NoFiles
  {
    var begun := Begin(w, o, v, Applying(ADetach, job));
    FreedIffAvailable(w, v, job.iface);
    assert Detached(begun, v, true) == Detached(w, v, true);
    var ready, steps := UpToAttach(env, begun, o, v, job, prog);
    var rest;
    w', rest := AttachOrCleanUp(env, ready, o, v, job, prog, Detached(w, v, true));
    n := steps + rest;
    GetsThen(env, begun, ready, w', o, prog, steps, rest);
  }

  // From any world whatsoever: one undisturbed ensure comes to an end, and heals the VM if and
  // only if the slot is available. Healed means attached, synced, the wanted policy in the
  // attached maps, and the next ensure does nothing.
  lemma EnsureHealsIffSlotAvailable(env: Env, w: World, o: OpId, v: VmId, job: Job, prog: ProgId) returns (n: nat)
    requires o !in w.tasks && ValidJob(job) && FreshProgram(w, prog)
    ensures var w' := Ensure(env, w, o, v, job, prog, n);
            && o !in w'.tasks
            && (Healthy(env, w', v, job.base, job.iface) <==> SlotAvailable(w, v, job.iface))
            && (SlotAvailable(w, v, job.iface) ==> forall k :: Ensure(env, w', o, v, job, prog, k) == w')
            && (SlotAvailable(w, v, job.iface) ==>
                  var f := FilesOf(w', v);
                  && f.iface == Some(job.iface) && f.schema == Some(3) && f.progPin.Some?
                  && f.fingerprint == Some(env.fingerprint(job.base)) && RecordsNameSlot(f, w'.slot, job.iface))
            && (SlotAvailable(w, v, job.iface) && !Healthy(env, w, v, job.base, job.iface) ==>
                  && w'.slot[job.iface] in w'.programs
                  && HoldsJob(env, v, job, w'.programs[w'.slot[job.iface]].maps))
  {
    n := 0;
    if !Healthy(env, w, v, job.base, job.iface) {
      var w';
      w', n := ApplyHealsIffSlotAvailable(env, w, o, v, job, prog);
      assert Ensure(env, w, o, v, job, prog, n) == w';
    }
  }

  // An undisturbed update of an attached VM comes to its end: the filter stays, the new policy is
  // in its maps, and the VM is healthy for it.
  lemma UpdateEndsHealthy(env: Env, w: World, o: OpId, v: VmId, job: Job, p: ProgId, prog: ProgId)
    returns (w': World, n: nat)
    requires o !in w.tasks && ValidJob(job) && Attached(w, v) && FilesOf(w, v).iface == Some(job.iface)
    requires FilesOf(w, v).mapPin == Some(p) && p in w.programs
    ensures Gets(env, Begin(w, o, v, Updating(UInvalidate, job)), w', o, prog, n) && o !in w'.tasks
    ensures w'.slot == w.slot && Healthy(env, w', v, job.base, job.iface)
    ensures FilesOf(w', v) == FilesOf(w, v).(fingerprint := Some(env.fingerprint(job.base)))
    ensures p in w'.programs && HoldsJob(env, v, job, w'.programs[p].maps)
  {
    var begun := Begin(w, o, v, Updating(UInvalidate, job));
    var w1 := OneStep(env, begun, o, prog);
    assert Configures(env, w1, o, v, true, Deny, job, p);
    var w2, steps := ConfigStage(env, w1, o, v, true, Deny, job, p, prog);
    w' := OneStep(env, w2, o, prog);
    GetsThen(env, begun, w1, w2, o, prog, 1, steps);
    n := 1 + steps + 1;
    GetsThen(env, begun, w2, w', o, prog, 1 + steps, 1);
  }

  predicate Updates(t: Task, job: Job) {
    match t
    case Updating(_, j) => j == job
    case Configuring(live, _, j) => live && j == job
    case _ => false
  }

  // An update of an attached VM that fails, at whatever step and with whatever effect, ends with
  // the filter where it was and no record changed but the fingerprint; one undisturbed ensure
  // repairs it.
  lemma FailedUpdateKeepsTheFilter(env: Env, w: World, o: OpId, v: VmId, t: Task, job: Job, c: Choice, prog: ProgId)
    returns (w1: World, n: nat)
    requires o in w.tasks && w.tasks[o] == Op(v, t) && Updates(t, job) && Possible(w, o, c) && !c.ok
    requires Attached(w, v) && FilesOf(w, v).iface == Some(job.iface) && ValidJob(job) && FreshProgram(w, prog)
    ensures w1 == Exec(env, w, o, c) && o !in w1.tasks && w1.slot == w.slot && Attached(w1, v)
    ensures FilesOf(w1, v) == FilesOf(w, v).(fingerprint := FilesOf(w1, v).fingerprint)
    ensures Healthy(env, Ensure(env, w1, o, v, job, prog, n), v, job.base, job.iface)
  {
    w1 := Exec(env, w, o, c);
    assert w1.programs.Keys == w.programs.Keys;
    n := EnsureHealsIffSlotAvailable(env, w1, o, v, job, prog);
  }

  /* Removal makes room. */

  // Removing an attached VM, with nothing going wrong, lets any VM be attached there.
  lemma RemovalMakesRoom(env: Env, w: World, o: OpId, v: VmId, u: VmId, job: Job, prog: ProgId)
    returns (removed: World, w': World, n: nat)
    requires o !in w.tasks && Attached(w, v) && FilesOf(w, v).iface == Some(job.iface)
    requires ValidJob(job) && FreshProgram(w, prog)
    ensures Gets(env, Begin(w, o, v, Removing(RDetach)), removed, o, prog, 3)
    ensures o !in removed.tasks && job.iface !in removed.slot
    ensures Gets(env, Begin(removed, o, u, Applying(ADetach, job)), w', o, prog, n) && o !in w'.tasks
    ensures Healthy(env, w', u, job.base, job.iface)
    ensures job.iface in w'.slot && w'.slot[job.iface] == prog && prog in w'.programs
    ensures w'.programs[prog].vm == u && HoldsJob(env, u, job, w'.programs[prog].maps)
  {
    var begun := Begin(w, o, v, Removing(RDetach));
    removed := CleanupStage(env, begun, o, v, prog);
    assert FilesOf(begun, v) == FilesOf(w, v);
    RoomForFresh(w, FilesOf(w, v), removed, prog);
    w', n := ApplyHealsIffSlotAvailable(env, removed, o, u, job, prog);
  }

  lemma RoomForFresh(w: World, f: Files, w': World, prog: ProgId)
    requires FreshProgram(w, prog) && w'.programs == w.programs && OnlyNamedSlotFreed(f, w.slot, w'.slot)
    ensures FreshProgram(w', prog)
  {
    forall i | i in w'.slot ensures w'.slot[i] != prog {
      assert !RecordsNameSlot(f, w.slot, i);
    }
  }

  /* The filter that leaks. */

  predicate Names(f: Files, p: ProgId) {
    f.progPin == Some(p) || f.mapPin == Some(p) || f.progId == Some(p)
  }

  // A FluxVM filter sits in the slot, its VM's files no longer name its program, and no
  // operation is about to record it.
  predicate Leaked(w: World, i: Iface) {
    && i in w.slot && w.slot[i] in w.programs
    && !Names(FilesOf(w, w.programs[w.slot[i]].vm), w.slot[i])
    && forall o :: o in w.tasks ==> !Records(w.tasks[o].task, w.slot[i])
  }

  predicate Records(t: Task, p: ProgId) {
    t.Applying? && t.apc == APinMaps(p)
  }

  // No VM can use that interface: by EnsureHealsIffSlotAvailable, ensure fails even undisturbed.
  lemma LeakedSlotIsUnavailable(w: World, i: Iface, v: VmId)
    requires Owned(w) && Leaked(w, i)
    ensures !SlotAvailable(w, v, i)
  {
    assert OwnFiles(w.programs, v, FilesOf(w, v));
  }

  // A step on behalf of v neither deletes the filter of a program its files do not name nor
  // comes to name it.
  lemma ApplyKeepsNameless(env: Env, w: World, v: VmId, pc: ApplyPc, job: Job, c: Choice, p: ProgId)
    requires p in w.programs && !Names(FilesOf(w, v), p) && pc != APinMaps(p) && (pc.ALoad? ==> FreshProgram(w, c.prog))
    ensures var out := ApplyOutcome(env, w, v, pc, job, c);
            && !Names(out.files, p) && (out.next.Some? ==> !Records(out.next.value, p))
            && forall i :: i in w.slot && w.slot[i] == p ==> i in out.slot && out.slot[i] == p
  {
  }

  lemma StepKeepsNameless(env: Env, w: World, v: VmId, t: Task, c: Choice, p: ProgId)
    requires p in w.programs && !Names(FilesOf(w, v), p) && !Records(t, p) && LoadsFresh(w, t, c)
    ensures var out := OutcomeOf(env, w, v, t, c);
            && !Names(out.files, p) && (out.next.Some? ==> !Records(out.next.value, p))
            && forall i :: i in w.slot && w.slot[i] == p ==> i in out.slot && out.slot[i] == p
  {
    match t
    case Applying(pc, job) => ApplyKeepsNameless(env, w, v, pc, job, c, p);
    case Removing(_) =>
    case Updating(_, _) =>
    case Configuring(_, _, _) =>
  }

  lemma NamesAreOwn(w: World, v: VmId, p: ProgId)
    requires Owned(w)
    ensures Names(FilesOf(w, v), p) ==> p in w.programs && w.programs[p].vm == v
  {
    assert OwnFiles(w.programs, v, FilesOf(w, v));
  }

  lemma LeakSurvivesExec(env: Env, w: World, o: OpId, c: Choice, i: Iface)
    requires Owned(w) && Leaked(w, i) && o in w.tasks && Possible(w, o, c)
    ensures Leaked(Exec(env, w, o, c), i) && Exec(env, w, o, c).slot[i] == w.slot[i]
  {
    var u, p := w.tasks[o].vm, w.slot[i];
    assert LoadsFresh(w, w.tasks[o].task, c);
    StepOwned(env, w, o, c);
    NamesAreOwn(w, u, p);
    StepKeepsNameless(env, w, u, w.tasks[o].task, c, p);
  }

  // And no operation on any VM frees it.
  lemma LeakSurvivesOperations(env: Env, w: World, w': World, o: OpId, i: Iface)
    requires Owned(w) && Leaked(w, i) && OpNext(env, w, w', o)
    ensures Leaked(w', i) && w'.slot[i] == w.slot[i]
  {
    if Steps(env, w, w', o) {
      var c :| Possible(w, o, c) && w' == Exec(env, w, o, c);
      LeakSurvivesExec(env, w, o, c, i);
    } else {
      assert w'.slot == w.slot && w'.programs == w.programs && w'.files == w.files;
    }
  }

  // Only from outside does it end: with the interface, or by another party's hand.
  ghost predicate OutsideTouches(w: World, w': World, i: Iface) {
    OtherParty(w, w') && (i !in w'.slot || (i in w.slot && w'.slot[i] != w.slot[i]))
  }

  lemma LeakSurvivesOthers(w: World, w': World, i: Iface)
    requires Leaked(w, i) && OtherParty(w, w') && !OutsideTouches(w, w', i)
    ensures Leaked(w', i) && w'.slot[i] == w.slot[i]
  {
  }

  lemma LeakSurvivesStep(env: Env, w: World, w': World, i: Iface)
    requires Owned(w) && Leaked(w, i) && Next(env, w, w') && !OutsideTouches(w, w', i)
    ensures Leaked(w', i) && w'.slot[i] == w.slot[i]
  {
    if OtherParty(w, w') {
      LeakSurvivesOthers(w, w', i);
    } else {
      var o :| OpNext(env, w, w', o);
      LeakSurvivesOperations(env, w, w', o, i);
    }
  }

  ghost predicate KeepsLeak(w: World, w': World, i: Iface) {
    Leaked(w, i) ==> Leaked(w', i) && w'.slot[i] == w.slot[i]
  }

  lemma {:induction false} KeptLeakLasts(run: seq<World>, a: nat, b: nat, i: Iface)
    requires a <= b < |run| && Leaked(run[a], i)
    requires forall k :: a <= k < b ==> KeepsLeak(run[k], run[k + 1], i)
    ensures Leaked(run[b], i) && run[b].slot[i] == run[a].slot[i]
  {
    if a < b {
      KeptLeakLasts(run, a, b - 1, i);
      assert KeepsLeak(run[b - 1], run[b - 1 + 1], i);
    }
  }

  lemma RunKeepsLeak(env: Env, run: seq<World>, k: nat, i: Iface)
    requires IsRun(env, run) && k + 1 < |run| && !OutsideTouches(run[k], run[k + 1], i)
    ensures KeepsLeak(run[k], run[k + 1], i)
  {
    RunKeepsOwned(env, run, k);
    RunStep(env, run, k);
    if Leaked(run[k], i) {
      LeakSurvivesStep(env, run[k], run[k + 1], i);
    }
  }

  lemma LeakLasts(env: Env, run: seq<World>, a: nat, b: nat, i: Iface)
    requires IsRun(env, run) && a <= b < |run| && Leaked(run[a], i)
    requires forall k :: a <= k < b ==> !OutsideTouches(run[k], run[k + 1], i)
    ensures Leaked(run[b], i) && run[b].slot[i] == run[a].slot[i]
  {
    forall k | a <= k < b ensures KeepsLeak(run[k], run[k + 1], i) {
      RunKeepsLeak(env, run, k, i);
    }
    KeptLeakLasts(run, a, b, i);
  }

  // Every VM, policy and interface has such a run: attach, then remove with `tc filter del`
  // failing. The failure is ignored, and the records that prove ownership are deleted.
  lemma RemoveCanLeak(env: Env, v: VmId, job: Job) returns (w: World)
    requires ValidJob(job)
    ensures Reachable(env, w) && w.tasks == map[] && Leaked(w, job.iface) && w.programs[w.slot[job.iface]].vm == v
  {
    var attached := AttachedWorld(env, v, job);
    w := FailingRemove(env, attached, v, job.iface);
  }

  // A VM attached and synced, and nothing else going on.
  lemma AttachedWorld(env: Env, v: VmId, job: Job) returns (w: World)
    requires ValidJob(job)
    ensures Reachable(env, w) && w.tasks == map[] && w.requested == {(v, job.policy)}
    ensures Healthy(env, w, v, job.base, job.iface) && FilesOf(w, v) == Synced(env, 0, job)
    ensures w.slot[job.iface] == 0 && 0 in w.programs && w.programs[0].vm == v
    ensures HoldsJob(env, v, job, w.programs[0].maps)
  {
    assert IsRun(env, [Init]) && [Init][|[Init]| - 1] == Init;
    var begun := Begin(Init, 0, v, Applying(ADetach, job));
    assert Startable(Init, v, Applying(ADetach, job));
    assert OpNext(env, Init, begun, 0);
    ReachNext(env, Init, begun);
    var n;
    w, n := ApplyHealsIffSlotAvailable(env, Init, 0, v, job, 0);
    SoloReaches(env, begun, 0, 0, n);
    assert begun.tasks - {0} == map[];
    assert w.tasks == w.tasks - {0};
  }

  lemma FailingRemove(env: Env, w: World, v: VmId, i: Iface) returns (w': World)
    requires Reachable(env, w) && w.tasks == map[] && Attached(w, v) && FilesOf(w, v).iface == Some(i)
    requires w.slot[i] in w.programs && w.programs[w.slot[i]].vm == v
    ensures Reachable(env, w') && w'.tasks == map[] && Leaked(w', i)
    ensures w'.slot == w.slot && w'.programs == w.programs
  {
    var ok := Choice(true, true, 0, [], NoFiles);
    var w1 := Begin(w, 0, v, Removing(RDetach));
    assert Startable(w, v, Removing(RDetach));
    assert OpNext(env, w, w1, 0);
    ReachNext(env, w, w1);
    var w2 := Exec(env, w1, 0, ok.(took := false));
    StepReaches(env, w1, 0, ok.(took := false));
    var w3 := Exec(env, w2, 0, ok);
    StepReaches(env, w2, 0, ok);
    w' := Exec(env, w3, 0, ok);
    StepReaches(env, w3, 0, ok);
  }
}
