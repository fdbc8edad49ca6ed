/** Runs of the server that end where its promises do not hold. */
module ServerRuns {
  import opened Bytes
  import opened Parser
  import WireProperties
  import Handshake
  import opened Server
  import opened ServerInvariant
  import opened ServerProperties

  // ---------------------------------------------------------------------
  // One worker and its guard, step by step

  lemma {:induction false} RunAppend(m: Machine, s: State, acts: seq<Action>, a: Action)
    requires ValidRun(m, s, acts) && Enabled(m, Run(m, s, acts), a)
    ensures ValidRun(m, s, acts + [a]) && Run(m, s, acts + [a]) == Next(m, Run(m, s, acts), a)
    decreases |acts|
  {
    hide Enabled, Next;
    if acts == [] {
      assert acts + [a] == [a] && [a][1..] == [];
      assert ValidRun(m, Next(m, s, a), []);
    } else {
      assert (acts + [a])[1..] == acts[1..] + [a];
      RunAppend(m, Next(m, s, acts[0]), acts[1..], a);
    }
  }

  lemma Step(m: Machine, s: State, a: Action) returns (s': State)
    requires Reachable(m, s) && Enabled(m, s, a)
    ensures Reachable(m, s') && s' == Next(m, s, a)
  {
    var acts :| ValidRun(m, START, acts) && s == Run(m, START, acts);
    RunAppend(m, START, acts, a);
    s' := Next(m, s, a);
  }

  lemma ShakeOnce(m: Machine, s: State, a: Handshake.Action, t: Task) returns (s': State, t': Task)
    requires Reachable(m, s) && s.tasks == [t] && t.phase.Initialising?
    requires a.ChooseLoop? || a.BindLoop? ==> s.loops == map[]
    requires Handshake.Enabled(t.hs, a)
    requires a.BindLoop? && a.ok ==> t.hs.guard.id as int in s.devices
    requires a.Clone? ==> t.pid.None?
    ensures Reachable(m, s')
    ensures t' == t.(hs := Handshake.Next(t.hs, a), pid := if a.Clone? && a.ok then Some(7) else t.pid)
    ensures s' == State([t'], s.issued,
                        if a.BindLoop? && a.ok then map[t.hs.guard.id as int := 0] else s.loops,
                        if a.ChooseLoop? && a.ok then s.devices + {a.id as int} else s.devices,
                        s.registry, s.reaper)
  {
    s' := Step(m, s, Shake(0, a, 7));
    t' := s'.tasks[0];
    assert s.tasks[0] == t;
  }

  /** The handshake of a run without failures, at five moments. */
  function JobCloned(gid: Option<nat>): Handshake.Job {
    Handshake.NewJob(gid).(master := Handshake.RecvLoop, guard := Handshake.At(Handshake.MakePrivate))
  }

  function JobStaged(gid: Option<nat>): Handshake.Job {
    JobCloned(gid).(
      guard := Handshake.At(Handshake.MountLoop),
      done := [Handshake.MakePrivate, Handshake.SetName, Handshake.MountProc],
      log := [Handshake.Did(Handshake.MakePrivate), Handshake.Did(Handshake.SetName),
              Handshake.Did(Handshake.MountProc)])
  }

  function JobMounted(gid: Option<nat>): Handshake.Job {
    JobStaged(gid).(
      guard := Handshake.At(Handshake.MountOverlay), bound := Some(0), sent := [0],
      done := JobStaged(gid).done + [Handshake.MountLoop],
      log := JobStaged(gid).log + [Handshake.Did(Handshake.MountLoop)])
  }

  function JobRunning(gid: Option<nat>): Handshake.Job {
    JobMounted(gid).(
      guard := Handshake.Running, sent := [0] + [Handshake.SUCCESS],
      done := JobMounted(gid).done + [Handshake.MountOverlay] + [Handshake.UnshareUser],
      log := JobMounted(gid).log + [Handshake.Did(Handshake.MountOverlay)] + [Handshake.Did(Handshake.UnshareUser)])
  }

  lemma Cloned(m: Machine) returns (s: State, t: Task)
    ensures Reachable(m, s) && s == State([t], 1, map[], {}, map[], Idle)
    ensures t.phase.Initialising? && t.pid == Some(7) && !t.reaped && !t.registered
    ensures t.hs.gid.Some? && t.hs == JobCloned(t.hs.gid)
  {
    var datagram := WireProperties.AcceptedDatagram(m);
    assert ValidRun(m, START, []) && Run(m, START, []) == START;
    hide Reachable, Run, ValidRun;
    s := Step(m, START, Arrive(datagram));
    s := Step(m, s, ParseReq(0, true));
    t := s.tasks[0];
    assert s.tasks == [t];
    hide Parse;
    s, t := ShakeOnce(m, s, Handshake.SocketPair(true), t);
    s, t := ShakeOnce(m, s, Handshake.Clone(true), t);
  }

  lemma Staged(m: Machine) returns (s: State, t: Task)
    ensures Reachable(m, s) && s == State([t], 1, map[], {}, map[], Idle)
    ensures t.phase.Initialising? && t.pid == Some(7) && !t.reaped && !t.registered
    ensures t.hs.gid.Some? && t.hs == JobStaged(t.hs.gid)
  {
    hide Reachable;
    s, t := Cloned(m);
    s, t := ShakeOnce(m, s, Handshake.RunStage(true), t);
    s, t := ShakeOnce(m, s, Handshake.RunStage(true), t);
    s, t := ShakeOnce(m, s, Handshake.RunStage(true), t);
  }

  lemma Mounted(m: Machine) returns (s: State, t: Task)
    ensures Reachable(m, s) && s == State([t], 1, map[0 := 0], {0}, map[], Idle)
    ensures t.phase.Initialising? && t.pid == Some(7) && !t.reaped && !t.registered
    ensures t.hs.gid.Some? && t.hs == JobMounted(t.hs.gid)
  {
    hide Reachable;
    s, t := Staged(m);
    s, t := ShakeOnce(m, s, Handshake.ChooseLoop(true, 0), t);
    s, t := ShakeOnce(m, s, Handshake.BindLoop(true), t);
    s, t := ShakeOnce(m, s, Handshake.MountLoopDev(true), t);
    s, t := ShakeOnce(m, s, Handshake.Inform(true), t);
  }

  lemma GuardRuns(m: Machine) returns (s: State, t: Task)
    ensures Reachable(m, s) && s == State([t], 1, map[0 := 0], {0}, map[], Idle)
    ensures t.phase.Initialising? && t.pid == Some(7) && !t.reaped && !t.registered
    ensures t.hs.gid.Some? && t.hs == JobRunning(t.hs.gid)
  {
    hide Reachable;
    s, t := Mounted(m);
    s, t := ShakeOnce(m, s, Handshake.RunStage(true), t);
    s, t := ShakeOnce(m, s, Handshake.RunStage(true), t);
    s, t := ShakeOnce(m, s, Handshake.Inform(true), t);
  }

  lemma InitSucceeds(m: Machine) returns (s: State, t: Task)
    ensures Reachable(m, s) && s == State([t], 1, map[0 := 0], {0}, map[], Idle)
    ensures t.phase.Initialising? && t.pid == Some(7) && !t.reaped
    ensures t.hs.master.Succeeded? && t.hs.guard.Running?
  {
    hide Reachable;
    s, t := GuardRuns(m);
    s, t := ShakeOnce(m, s, Handshake.Recv, t);
    s, t := ShakeOnce(m, s, Handshake.Recv, t);
    s, t := ShakeOnce(m, s, Handshake.WriteUidMap(true), t);
    s, t := ShakeOnce(m, s, Handshake.WriteSetgroups(true), t);
    s, t := ShakeOnce(m, s, Handshake.WriteGidMap(true), t);
  }

  // ---------------------------------------------------------------------
  // A leaked device

  lemma GuardGivesUp(m: Machine) returns (s: State, t: Task)
    ensures Reachable(m, s) && s == State([t], 1, map[0 := 0], {0}, map[], Idle)
    ensures t.phase.Initialising? && t.pid == Some(7) && !t.reaped && !t.registered
    ensures t.hs.guard.Dead? && t.hs.bound == Some(0) && t.hs.master.RecvLoop? && t.hs.read == 0
    ensures t.hs.sent == [0] + [Handshake.EMNT_OVERLAY]
  {
    hide Reachable;
    s, t := Mounted(m);
    s, t := ShakeOnce(m, s, Handshake.RunStage(false), t);
    s, t := ShakeOnce(m, s, Handshake.Inform(true), t);
    s, t := ShakeOnce(m, s, Handshake.Exit, t);
  }

  /** The overlay stage fails after the loop device was bound. */
  lemma OverlayFails(m: Machine) returns (s: State, t: Task)
    ensures Reachable(m, s) && s == State([t], 1, map[0 := 0], {0}, map[], Idle)
    ensures t.phase.Initialising? && t.pid == Some(7) && !t.reaped && !t.registered
    ensures t.hs.guard.Dead? && t.hs.bound == Some(0)
    ensures t.hs.master == Handshake.Failed(Handshake.StageFailed(Handshake.MntOverlay))
  {
    hide Reachable;
    s, t := GuardGivesUp(m);
    s, t := ShakeOnce(m, s, Handshake.Recv, t);
    s, t := ShakeOnce(m, s, Handshake.Recv, t);
  }

  /** The server leaks: `init` fails, the guard is dead and reaped, its worker has answered, and
      the loop device is bound in this and every later state of every run. */
  lemma LeakedDevice(m: Machine) returns (s: State)
    ensures Reachable(m, s) && |s.tasks| == 1 && s.reaper.Idle?
    ensures var t := s.tasks[0]; t.hs.master.Failed? && t.phase.Finished? && t.reaped && !t.registered
    ensures forall acts | ValidRun(m, s, acts) :: StillBound(Run(m, s, acts), 0, 0)
  {
    hide Reachable;
    var t;
    s, t := OverlayFails(m);
    s := Step(m, s, InitReturns(0));
    s := Step(m, s, Refuse(0, true));
    s := Step(m, s, Reap(0));
    hide Enabled, Next;
    LeaksExactly(m, s, 0);
  }

  // ---------------------------------------------------------------------
  // A stale entry

  /** A worker about to register a guard that is already dead and reaped. */
  lemma ReadyToRegister(m: Machine) returns (s: State)
    ensures Reachable(m, s) && |s.tasks| == 1 && s.reaper.Idle? && s.registry == map[]
    ensures s.tasks[0].phase.Registering? && s.tasks[0].pid == Some(7) && s.tasks[0].reaped
  {
    hide Reachable;
    var t;
    s, t := InitSucceeds(m);
    s := Step(m, s, InitReturns(0));
    s := Step(m, s, OpenFds(0, true));
    s := Step(m, s, Shake(0, Handshake.Killed, 0));
    s := Step(m, s, Reap(0));
  }

  /** Without the assumption exactness fails: an early reap is possible, and leaves an entry in
      the map that no later step of any run removes. */
  lemma StaleEntry(m: Machine) returns (s: State)
    ensures Reachable(m, s) && !NoEarlyReap(s)
    ensures 7 in s.registry && !Pending(s, 7)
    ensures forall acts | ValidRun(m, s, acts) :: 7 in Run(m, s, acts).registry
  {
    s := ReadyToRegister(m);
    s := Step(m, s, Register(0));
    EarlyEntry(m, s, 0);
    ReachableInv(m, s);
    hide Inv, Reachable, Enabled, Next;
    forall acts | ValidRun(m, s, acts) ensures 7 in Run(m, s, acts).registry {
      StaleForever(m, s, acts, 0);
    }
  }

  lemma EarlyInRegistry(m: Machine, s: State, j: nat)
    requires Inv(m, s) && j < |s.tasks| && s.tasks[j].early
    ensures s.tasks[j].pid.Some? && s.tasks[j].pid.value in s.registry
  {
    assert TaskInv(m, s.tasks[j]);
    hide TaskInv, LoopInv, ReaperInv, PidsDistinct;
    assert s.tasks[j].registered && s.tasks[j].releases == 0;
  }

  lemma EarlyTask(m: Machine, t: Task)
    requires TaskInv(m, t) && t.early
    ensures !t.phase.Registering? && !t.hs.master.Cloning?
  {
    hide Parse, Handshake.Inv;
  }

  lemma EarlyStays(m: Machine, s: State, a: Action, j: nat)
    requires Inv(m, s) && Enabled(m, s, a) && j < |s.tasks| && s.tasks[j].early
    ensures j < |Next(m, s, a).tasks|
    ensures Next(m, s, a).tasks[j].early && Next(m, s, a).tasks[j].pid == s.tasks[j].pid
  {
    EarlyIn(m, s, j);
    hide Inv, Enabled, Next;
    match a {
      case ParseReq(_, _) => ParseKeepsEarly(m, s, a, j);
      case Shake(_, _, _) => ShakeKeepsEarly(m, s, a, j);
      case _ =>
        if LateStep(a) {
          LateTask(m, s, a, j);
        } else {
          ReaperKeeps(m, s, a, j);
        }
    }
  }

  lemma ParseKeepsEarly(m: Machine, s: State, a: Action, j: nat)
    requires a.ParseReq? && Enabled(m, s, a) && j < |s.tasks| && s.tasks[j].early
    ensures j < |Next(m, s, a).tasks|
    ensures Next(m, s, a).tasks[j].early && Next(m, s, a).tasks[j].pid == s.tasks[j].pid
  {
    hide Parsed, Parse;
    ParsedKeeps(m, s, s.tasks[a.j], a.cfgOk);
  }

  lemma ShakeKeepsEarly(m: Machine, s: State, a: Action, j: nat)
    requires a.Shake? && Enabled(m, s, a) && j < |s.tasks| && s.tasks[j].early && !s.tasks[j].hs.master.Cloning?
    ensures j < |Next(m, s, a).tasks|
    ensures Next(m, s, a).tasks[j].early && Next(m, s, a).tasks[j].pid == s.tasks[j].pid
  {
    hide Shaken, KernelAllows, Handshake.Enabled, ByMaster;
    ShakenKeeps(s, a.j, a.step, a.pid);
  }

  lemma EarlyIn(m: Machine, s: State, j: nat)
    requires Inv(m, s) && j < |s.tasks| && s.tasks[j].early
    ensures !s.tasks[j].phase.Registering? && !s.tasks[j].hs.master.Cloning?
  {
    hide TaskInv, RegistryInv, LoopInv, ReaperInv, PidsDistinct;
    EarlyTask(m, s.tasks[j]);
  }

  lemma {:induction false} StaleForever(m: Machine, s: State, acts: seq<Action>, j: nat)
    requires Inv(m, s) && ValidRun(m, s, acts) && j < |s.tasks| && s.tasks[j].early
    ensures s.tasks[j].pid.Some? && s.tasks[j].pid.value in Run(m, s, acts).registry
    decreases |acts|
  {
    hide Inv, Enabled, Next;
    EarlyInRegistry(m, s, j);
    if acts != [] {
      StepInv(m, s, acts[0]);
      EarlyStays(m, s, acts[0], j);
      StaleForever(m, Next(m, s, acts[0]), acts[1..], j);
    }
  }
}
