// The control server of one micro-VM: requests arrive one at a time, each holding the state
// lock until it is answered. What the engine and the file system answer comes with the request.
module Lifecycle {
  import opened Wrappers

  datatype Phase = Created | Running | Paused | Stopped

  datatype Engine = Firecracker | Kvm

  // A path with the extension of its file name split off, as std::path does.
  datatype Path = Path(directory: string, stem: string, extension: Option<string>)

  datatype BootConfig = BootConfig(engine: Engine, seccomp: bool, rootfs: Path, rest: string)

  // `vcpusPaused` is the state of the engine itself; a failed engine call leaves it alone, and
  // the in-tree KVM engine ignores pause and resume.
  datatype Guest = Guest(engine: Engine, vcpusPaused: bool)

  datatype Host = Host(kernelExists: bool, rootfsExists: bool, seccompApplies: bool, engineStarts: bool)

  datatype SnapshotSpec = SnapshotSpec(boot: BootConfig, hasVmstate: bool)

  datatype Request =
    | Ping
    | Boot(cfg: BootConfig, host: Host)
    | Pause(engineOk: bool)
    | Resume(engineOk: bool)
    | Shutdown
    | SnapshotSave(pauseOk: bool, directoryOk: bool, secondPauseOk: bool, restOk: bool, resumeOk: bool)
    | SnapshotRestore(spec: Option<SnapshotSpec>, loads: bool, host: Host)
    | Metrics

  // `with_extension`: an extension already there is replaced.
  function Marker(rootfs: Path): Path {
    rootfs.(extension := Some("fluxvm-running"))
  }

  function WithPaused(g: Guest, paused: bool, ok: bool): Guest {
    if g.engine == Firecracker && ok then g.(vcpusPaused := paused) else g
  }

  // An engine call that succeeds: the KVM engine always does.
  predicate EngineOk(g: Guest, ok: bool) {
    g.engine == Kvm || ok
  }

  predicate Boots(phase: Phase, cfg: BootConfig, host: Host) {
    && (phase == Stopped || phase == Created)
    && host.kernelExists && host.rootfsExists
    && (cfg.seccomp ==> host.seccompApplies)
    && host.engineStarts
  }

  ghost predicate Live(phase: Phase) {
    phase == Running || phase == Paused
  }

  // The lifecycle after a request, and whether the request is answered without an error.
  ghost function Transition(phase: Phase, guest: Option<Guest>, request: Request): (Phase, bool)
    requires guest.Some? <==> Live(phase)
  {
    match request
    case Ping => (phase, true)
    case Metrics => (phase, true)
    case Boot(cfg, host) => if Boots(phase, cfg, host) then (Running, true) else (phase, false)
    case Pause(engineOk) =>
      if phase == Running && (guest.value.engine == Kvm || engineOk) then (Paused, true) else (phase, false)
    case Resume(engineOk) =>
      if phase == Paused && (guest.value.engine == Kvm || engineOk) then (Running, true) else (phase, false)
    case Shutdown => (Stopped, true)
    case SnapshotSave(_, directoryOk, _, restOk, _) =>
      (phase, Live(phase) && guest.value.engine == Firecracker && directoryOk && restOk)
    case SnapshotRestore(None, _, _) => (Stopped, false)
    case SnapshotRestore(Some(s), loads, host) =>
      if (s.hasVmstate && loads) || Boots(Created, s.boot, host) then (Running, true) else (Created, false)
  }

  class VmState {
    var lifecycle: Phase
    var boot: Option<BootConfig>
    var marker: Option<Path>
    var guest: Option<Guest>

    ghost predicate Valid()
      reads this
    {
      && (guest.Some? <==> Live(lifecycle))
      && (marker.Some? ==> guest.Some?)
      && (guest.Some? ==> boot.Some?)
      && (guest.Some? && guest.value.engine == Kvm ==> !guest.value.vcpusPaused)
      && (guest.Some? && guest.value.engine == Firecracker && lifecycle == Paused ==> guest.value.vcpusPaused)
    }

    // The converse of the last conjunct: a guest said to run does run.
    ghost predicate RunningRuns()
      reads this
    {
      guest.Some? && guest.value.vcpusPaused ==> lifecycle == Paused
    }

    constructor ()
      ensures Valid() && RunningRuns() && lifecycle == Created && guest == None
    {
      lifecycle, boot, marker, guest := Created, None, None, None;
    }

    method ShutdownGuest()
      modifies this
      ensures lifecycle == Stopped && guest == None && marker == None && boot == old(boot)
    {
      guest, marker, lifecycle := None, None, Stopped;
    }

    method BootInner(cfg: BootConfig, host: Host) returns (ok: bool)
      requires Valid()
      modifies this
      ensures Valid() && ok == Boots(old(lifecycle), cfg, host)
      ensures ok ==>
                && lifecycle == Running && boot == Some(cfg)
                && marker == Some(cfg.rootfs.(extension := Some("fluxvm-running")))
                && guest == Some(Guest(cfg.engine, false))
      ensures !ok ==> lifecycle == old(lifecycle) && boot == old(boot) && marker == old(marker) && guest == old(guest)
    {
      if lifecycle != Stopped && lifecycle != Created {
        return false;
      }
      if !host.kernelExists || !host.rootfsExists || (cfg.seccomp && !host.seccompApplies) || !host.engineStarts {
        return false;
      }
      guest := Some(Guest(cfg.engine, false));
      boot := Some(cfg);
      lifecycle := Running;
      marker := Some(Marker(cfg.rootfs));
      ok := true;
    }

    // The Pause request: the engine first, then the lifecycle.
    method PauseVm(engineOk: bool) returns (ok: bool)
      requires Valid()
      modifies this
      ensures Valid() && (old(RunningRuns()) ==> RunningRuns())
      ensures ok <==> old(lifecycle) == Running && (old(guest).value.engine == Kvm || engineOk)
      ensures lifecycle == if ok then Paused else old(lifecycle)
      ensures boot == old(boot) && marker == old(marker) && guest.Some? == old(guest).Some?
    {
      if guest.Some? {
        var answered := EngineOk(guest.value, engineOk);
        guest := Some(WithPaused(guest.value, true, engineOk));
        if !answered {
          return false;
        }
      }
      if lifecycle != Running {
        return false;
      }
      lifecycle := Paused;
      ok := true;
    }

    // The Resume request. It restarts a paused engine even where it then reports an error.
    method ResumeVm(engineOk: bool) returns (ok: bool)
      requires Valid()
      modifies this
      ensures Valid() && (old(RunningRuns()) || engineOk ==> RunningRuns())
      ensures ok <==> old(lifecycle) == Paused && (old(guest).value.engine == Kvm || engineOk)
      ensures lifecycle == if ok then Running else old(lifecycle)
      ensures boot == old(boot) && marker == old(marker) && guest.Some? == old(guest).Some?
    {
      if guest.Some? {
        var answered := EngineOk(guest.value, engineOk);
        guest := Some(WithPaused(guest.value, false, engineOk));
        if !answered {
          return false;
        }
      }
      if lifecycle != Paused {
        return false;
      }
      lifecycle := Running;
      ok := true;
    }

    // The SnapshotSave request. The lifecycle does not move; the engine of a running guest is
    // left paused exactly when a pause went through and the resume did not.
    method SaveSnapshot(pauseOk: bool, directoryOk: bool, secondPauseOk: bool, restOk: bool, resumeOk: bool)
      returns (ok: bool)
      requires Valid()
      modifies this`guest
      ensures Valid()
      ensures ok <==> Live(lifecycle) && old(guest).value.engine == Firecracker && directoryOk && restOk
      ensures guest.Some? == old(guest).Some?
      ensures guest.Some? ==> guest.value.engine == old(guest).value.engine
      ensures old(RunningRuns()) ==>
                (RunningRuns() <==> !(lifecycle == Running && guest.value.engine == Firecracker
                                      && (pauseOk || (directoryOk && secondPauseOk)) && !resumeOk))
      ensures resumeOk ==> RunningRuns()
    {
      if guest.Some? {
        guest := Some(WithPaused(guest.value, true, pauseOk));
      }
      ok := boot.Some? && guest.Some? && directoryOk;
      if ok {
        guest := Some(WithPaused(guest.value, true, secondPauseOk));
        ok := guest.value.engine == Firecracker && restOk;
      }
      if lifecycle == Running && guest.Some? {
        guest := Some(WithPaused(guest.value, false, resumeOk));
      }
    }

    // The SnapshotRestore request: whatever ran is gone, and what replaces it never starts
    // paused. `loads` says whether the memory snapshot loads.
    method RestoreSnapshot(spec: Option<SnapshotSpec>, loads: bool, host: Host) returns (ok: bool)
      requires Valid()
      modifies this
      ensures Valid() && RunningRuns() && lifecycle != Paused
      ensures ok <==> spec.Some? && ((spec.value.hasVmstate && loads) || Boots(Created, spec.value.boot, host))
      ensures ok ==> lifecycle == Running && boot == Some(spec.value.boot)
      ensures ok ==> if spec.value.hasVmstate && loads then guest == Some(Guest(Firecracker, false)) && marker == None
                     else guest == Some(Guest(spec.value.boot.engine, false))
                          && marker == Some(spec.value.boot.rootfs.(extension := Some("fluxvm-running")))
      ensures !ok ==>
                && guest == None && marker == None
                && lifecycle == (if spec.Some? then Created else Stopped)
                && boot == if spec.Some? then Some(spec.value.boot) else old(boot)
    {
      ShutdownGuest();
      match spec {
        case None => return false;
        case Some(s) =>
          boot, lifecycle := Some(s.boot), Created;
          if s.hasVmstate && loads {
            guest, boot, lifecycle := Some(Guest(Firecracker, false)), Some(s.boot), Running;
            return true;
          }
          ok := BootInner(s.boot, host);
      }
    }

    method Dispatch(request: Request) returns (ok: bool)
      requires Valid()
      modifies this
      ensures Valid()
      ensures old(RunningRuns()) && (request.SnapshotSave? ==> request.resumeOk) ==> RunningRuns()
      ensures (lifecycle, ok) == Transition(old(lifecycle), old(guest), request)
    {
      match request {
        case Ping => ok := true;
        case Metrics => ok := true;
        case Boot(cfg, host) => ok := BootInner(cfg, host);
        case Pause(engineOk) => ok := PauseVm(engineOk);
        case Resume(engineOk) => ok := ResumeVm(engineOk);
        case Shutdown =>
          ShutdownGuest();
          ok := true;
        case SnapshotSave(pauseOk, directoryOk, secondPauseOk, restOk, resumeOk) =>
          ok := SaveSnapshot(pauseOk, directoryOk, secondPauseOk, restOk, resumeOk);
        case SnapshotRestore(spec, loads, host) => ok := RestoreSnapshot(spec, loads, host);
      }
    }

    // Whatever is asked and however the engine answers, the state stays consistent; and a
    // guest said to run does run, as long as the resume that ends every snapshot succeeds.
    method Serve(requests: seq<Request>)
      requires Valid() && RunningRuns()
      modifies this
      ensures Valid()
      ensures (forall i :: 0 <= i < |requests| && requests[i].SnapshotSave? ==> requests[i].resumeOk) ==> RunningRuns()
    {
      for i := 0 to |requests|
        invariant Valid()
        invariant (forall k :: 0 <= k < i && requests[k].SnapshotSave? ==> requests[k].resumeOk) ==> RunningRuns()
      {
        var _ := Dispatch(requests[i]);
      }
    }
  }

  // Boot and take a snapshot whose closing resume fails: the snapshot is reported as saved, the
  // guest as running, and its engine stands still.
  method SnapshotThatStopsTheGuest(cfg: BootConfig, host: Host) returns (vm: VmState, saved: bool)
    requires cfg.engine == Firecracker && Boots(Created, cfg, host)
    ensures fresh(vm) && vm.Valid() && saved
    ensures vm.lifecycle == Running && vm.guest == Some(Guest(Firecracker, true))
  {
    vm := new VmState();
    var _ := vm.BootInner(cfg, host);
    saved := vm.SaveSnapshot(true, true, true, true, false);
  }
}
