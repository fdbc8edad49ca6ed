/** The whole server: any number of workers, their guards, the reaper, the shared registry and the
    kernel's loop devices, interleaved step by step. */
module Server {
  import opened Bytes
  import Parser
  import Encoder
  import GuardName
  import Handshake
  import opened Namespaces

  function Refusal(m: Machine): Reply {
    Reply(-1, GuardName.Raw(m, 0), [])
  }

  /** Where a worker is. */
  datatype Phase = Parsing | Initialising | Opening | Registering | Answering | Closing | Refusing | Finished | Panicked

  /** One datagram, its worker and its guard. `serial` counts the calls of `RockerCfg::new`, and
      `counter` is what the call took from the static counter. `early` says that the guard was reaped before it was
      registered, `releases` counts calls of `release_resource`, `unbound` says that the binding
      the guard made has been cleared, `unbindFailed` that the attempt failed. */
  datatype Task = Task(
    req: seq<byte>,
    phase: Phase,
    cfgOk: bool,
    serial: nat,
    counter: nat,
    hs: Handshake.Job,
    pid: Option<nat>,
    fdsOk: bool,
    registered: bool,
    replies: seq<Reply>,
    sendFailed: bool,
    reaped: bool,
    early: bool,
    releases: nat,
    unbound: bool,
    unbindFailed: bool
  )

  /** `release_resource` runs while the reaper still holds the registry's lock: the guard of the
      mutex is a temporary of the `if let`. */
  datatype Reaper = Idle | Unbinding(task: nat) | Destroying(task: nat)

  /** `loops` maps a bound device to the task whose guard bound it; `devices` are those that
      exist; the registry maps a pid to the task whose configuration was inserted. */
  datatype State = State(
    tasks: seq<Task>,
    issued: nat,
    loops: map<int, nat>,
    devices: set<int>,
    registry: map<nat, nat>,
    reaper: Reaper
  )

  const START: State := State([], 0, map[], {}, map[], Idle)

  function NewTask(req: seq<byte>): Task {
    Task(req, Parsing, true, 0, 0, Handshake.NewJob(None), None, true, false, [], false, false, false, 0, false, false)
  }

  datatype Action =
    | Arrive(datagram: seq<byte>)
    | ParseReq(j: nat, cfgOk: bool)
    | Shake(j: nat, step: Handshake.Action, pid: nat)
    | InitReturns(j: nat)
    | OpenFds(j: nat, ok: bool)
    | Register(j: nat)
    | Answer(j: nat, ok: bool)
    | CloseFds(j: nat)
    | Refuse(j: nat, ok: bool)
    | Reap(j: nat)
    | Unbind(ok: bool)
    | Destroy(ok: bool)

  predicate ByMaster(a: Handshake.Action) {
    a.SocketPair? || a.Clone? || a.Recv? || a.RecvFail? || a.WriteUidMap? || a.WriteSetgroups? || a.WriteGidMap?
  }

  /** The kernel's side: pids are fresh, LOOP_CTL_GET_FREE never returns a bound device, and
      LOOP_SET_FD fails on a device that is bound or gone. */
  predicate KernelAllows(s: State, j: nat, a: Handshake.Action, pid: nat)
    requires j < |s.tasks| && Handshake.Enabled(s.tasks[j].hs, a)
  {
    match a
    case Clone(ok) => ok ==> 0 < pid && forall k | 0 <= k < |s.tasks| :: s.tasks[k].pid != Some(pid)
    case ChooseLoop(ok, id) => ok ==> id as int !in s.loops
    case BindLoop(ok) => ok ==> s.tasks[j].hs.guard.id as int in s.devices && s.tasks[j].hs.guard.id as int !in s.loops
    case _ => true
  }

  predicate Enabled(m: Machine, s: State, a: Action) {
    match a
    case Arrive(_) => true
    case ParseReq(j, _) => j < |s.tasks| && s.tasks[j].phase.Parsing?
    case Shake(j, step, pid) =>
      && j < |s.tasks| && Handshake.Enabled(s.tasks[j].hs, step)
      && (ByMaster(step) ==> s.tasks[j].phase.Initialising?)
      && KernelAllows(s, j, step, pid)
    case InitReturns(j) =>
      && j < |s.tasks| && s.tasks[j].phase.Initialising?
      && var master := s.tasks[j].hs.master; (master.Succeeded? || master.Failed? || master.Died?)
    case OpenFds(j, _) => j < |s.tasks| && s.tasks[j].phase.Opening? && s.tasks[j].pid.Some?
    case Register(j) => j < |s.tasks| && s.tasks[j].phase.Registering? && s.tasks[j].pid.Some? && s.reaper.Idle?
    case Answer(j, _) => j < |s.tasks| && s.tasks[j].phase.Answering? && s.tasks[j].pid.Some?
    case CloseFds(j) => j < |s.tasks| && s.tasks[j].phase.Closing?
    case Refuse(j, _) => j < |s.tasks| && s.tasks[j].phase.Refusing?
    case Reap(j) =>
      && j < |s.tasks| && s.reaper.Idle? && s.tasks[j].pid.Some?
      && s.tasks[j].hs.guard.Dead? && !s.tasks[j].reaped
      && (s.tasks[j].pid.value in s.registry ==> s.registry[s.tasks[j].pid.value] < |s.tasks|)
    case Unbind(ok) =>
      && s.reaper.Unbinding? && s.reaper.task < |s.tasks|
      && (ok ==> && s.tasks[s.reaper.task].hs.loopId.Some?
                 && s.tasks[s.reaper.task].hs.loopId.value in s.loops
                 && s.loops[s.tasks[s.reaper.task].hs.loopId.value] < |s.tasks|)
    case Destroy(ok) =>
      && s.reaper.Destroying? && s.reaper.task < |s.tasks|
      && (ok ==> && s.tasks[s.reaper.task].hs.loopId.Some?
                 && s.tasks[s.reaper.task].hs.loopId.value in s.devices
                 && s.tasks[s.reaper.task].hs.loopId.value !in s.loops)
  }

  function Put(s: State, j: nat, t: Task): State
    requires j < |s.tasks|
  {
    s.(tasks := s.tasks[j := t])
  }

  /** `req_parse`, with the verdict of the checks in `RockerCfg::new` as a parameter. */
  function Parsed(m: Machine, s: State, t: Task, cfgOk: bool): Task {
    match Parser.Parse(m, t.req)
    case Panic => t.(phase := Panicked)
    case Err(_) => t.(phase := Refusing, cfgOk := cfgOk)
    case Ok(request) =>
      t.(phase := if cfgOk then Initialising else Refusing, cfgOk := cfgOk,
         serial := s.issued,
         counter := GuardName.Counter(m.word, s.issued),
         hs := Handshake.NewJob(request.gid))
  }

  function Shaken(s: State, j: nat, a: Handshake.Action, pid: nat): State
    requires j < |s.tasks| && Handshake.Enabled(s.tasks[j].hs, a)
  {
    var t := s.tasks[j];
    var t' := t.(hs := Handshake.Next(t.hs, a), pid := if a.Clone? && a.ok then Some(pid) else t.pid);
    var s' := Put(s, j, t');
    match a
    case ChooseLoop(ok, id) => if ok then s'.(devices := s.devices + {id as int}) else s'
    case BindLoop(ok) => if ok then s'.(loops := s.loops[t.hs.guard.id as int := j]) else s'
    case _ => s'
  }

  function Log(t: Task, e: Handshake.Event): Handshake.Job {
    t.hs.(log := t.hs.log + [e])
  }

  /** `init`'s error, then that of `get_guard_pid`. */
  function InitReturned(t: Task): Task {
    t.(phase := if t.hs.master.Died? then Panicked
                else if t.hs.master.Failed? || t.pid.None? then Refusing
                else Opening)
  }

  /** `get_namespace_fds`; on an error the worker kills the guard. */
  function FdsOpened(t: Task, ok: bool): Task {
    if ok then t.(phase := Registering)
    else
      var guard := if Handshake.Alive(t.hs.guard) then Handshake.Dead else t.hs.guard;
      t.(phase := Refusing, fdsOk := false, hs := t.hs.(guard := guard))
  }

  /** `registe_resource`: meeting an old entry is an error, although that is then replaced. */
  function RegisterTried(t: Task, taken: bool): Task {
    if taken then t.(phase := Refusing)
    else t.(phase := Answering, registered := true, early := t.reaped, hs := Log(t, Handshake.Registered))
  }

  function AnswerSent(m: Machine, t: Task, ok: bool): Task
    requires t.pid.Some?
  {
    if ok then
      var reply := Reply(t.pid.value, GuardName.Raw(m, t.counter), NS);
      t.(phase := Closing, replies := t.replies + [reply], hs := Log(t, Handshake.Answered))
    else t.(phase := Finished, sendFailed := true)
  }

  function RefusalSent(m: Machine, t: Task, ok: bool): Task {
    if ok then t.(phase := Finished, replies := t.replies + [Refusal(m)])
    else t.(phase := Finished, sendFailed := true)
  }

  function Next(m: Machine, s: State, a: Action): State
    requires Enabled(m, s, a)
  {
    match a
    case Arrive(datagram) => s.(tasks := s.tasks + [NewTask(Encoder.Received(datagram))])
    case ParseReq(j, cfgOk) =>
      var t' := Parsed(m, s, s.tasks[j], cfgOk);
      Put(s, j, t').(issued := if Parser.Parse(m, s.tasks[j].req).Ok? then s.issued + 1 else s.issued)
    case Shake(j, step, pid) => Shaken(s, j, step, pid)
    case InitReturns(j) => Put(s, j, InitReturned(s.tasks[j]))
    case OpenFds(j, ok) => Put(s, j, FdsOpened(s.tasks[j], ok))
    case Register(j) =>
      var pid := s.tasks[j].pid.value;
      Put(s, j, RegisterTried(s.tasks[j], pid in s.registry)).(registry := s.registry[pid := j])
    case Answer(j, ok) => Put(s, j, AnswerSent(m, s.tasks[j], ok))
    case CloseFds(j) => Put(s, j, s.tasks[j].(phase := Finished))
    case Refuse(j, ok) => Put(s, j, RefusalSent(m, s.tasks[j], ok))
    case Reap(j) =>
      var s' := Put(s, j, s.tasks[j].(reaped := true));
      var pid := s.tasks[j].pid.value;
      if pid in s.registry then
        var k := s.registry[pid];
        Put(s', k, s'.tasks[k].(releases := s'.tasks[k].releases + 1))
          .(registry := s.registry - {pid}, reaper := Unbinding(k))
      else s'
    case Unbind(ok) =>
      var s' := s.(reaper := Destroying(s.reaper.task));
      if ok then
        var id := s.tasks[s.reaper.task].hs.loopId.value;
        var owner := s.loops[id];
        Put(s', owner, s.tasks[owner].(unbound := true)).(loops := s.loops - {id})
      else Put(s', s.reaper.task, s.tasks[s.reaper.task].(unbindFailed := true))
    case Destroy(ok) =>
      var s' := s.(reaper := Idle);
      if ok then s'.(devices := s.devices - {s.tasks[s.reaper.task].hs.loopId.value}) else s'
  }

  predicate ValidRun(m: Machine, s: State, acts: seq<Action>)
    decreases |acts|
  {
    acts != [] ==> Enabled(m, s, acts[0]) && ValidRun(m, Next(m, s, acts[0]), acts[1..])
  }

  function Run(m: Machine, s: State, acts: seq<Action>): State
    requires ValidRun(m, s, acts)
    decreases |acts|
  {
    if acts == [] then s else Run(m, Next(m, s, acts[0]), acts[1..])
  }

  ghost predicate Reachable(m: Machine, s: State) {
    exists acts :: ValidRun(m, START, acts) && s == Run(m, START, acts)
  }

  // ---------------------------------------------------------------------
  // The invariant

  /** The request fails: parsing, the configuration checks, `init`, or opening the descriptors. */
  predicate Fails(m: Machine, t: Task) {
    !Parser.Parse(m, t.req).Ok? || !t.cfgOk || t.hs.master.Failed? || !t.fdsOk
  }

  /** The request was parsed, so `RockerCfg::new` was called. */
  predicate Accepted(m: Machine, t: Task) {
    !t.phase.Parsing? && Parser.Parse(m, t.req).Ok?
  }

  /** There is no guard, or it is dead, or has only its exit left. */
  predicate Gone(g: Handshake.Guard) {
    g.Absent? || g.Exiting? || g.Dead?
  }

  /** A worker that refuses leaves no guard behind. */
  predicate RefusedInv(m: Machine, t: Task) {
    (t.phase.Refusing? || t.phase.Finished?) && Fails(m, t) ==> Gone(t.hs.guard)
  }

  predicate PhaseInv(m: Machine, t: Task) {
    match t.phase
    case Parsing => t.hs == Handshake.NewJob(None) && t.replies == [] && t.fdsOk && !t.registered && !t.sendFailed
    case Initialising =>
      && t.replies == [] && !t.registered && t.fdsOk && !t.sendFailed && t.cfgOk && Parser.Parse(m, t.req).Ok?
    case Opening => t.replies == [] && !t.registered && !Fails(m, t) && t.hs.master.Succeeded? && !t.sendFailed
    case Registering => t.replies == [] && !t.registered && !Fails(m, t) && t.hs.master.Succeeded? && !t.sendFailed
    case Answering => t.replies == [] && t.registered && !Fails(m, t) && !t.sendFailed
    case Closing => |t.replies| == 1 && t.registered && !Fails(m, t) && !t.sendFailed
    case Refusing => t.replies == [] && !t.registered && Fails(m, t) && !t.sendFailed
    case Finished => (t.registered <==> !Fails(m, t)) && |t.replies| == if t.sendFailed then 0 else 1
    case Panicked => Parser.Parse(m, t.req).Panic? && t.replies == [] && !t.registered && t.hs == Handshake.NewJob(None)
  }

  predicate ReplyInv(m: Machine, t: Task) {
    t.replies != [] ==>
      if Fails(m, t) then t.replies == [Refusal(m)]
      else
        && t.pid.Some? && Handshake.Answered in t.hs.log
        && t.replies == [Reply(t.pid.value, GuardName.Raw(m, t.counter), NS)]
  }

  predicate TaskInv(m: Machine, t: Task) {
    && |t.req| <= Encoder.RECV_BUFFER
    && Handshake.Inv(t.hs)
    && (t.pid.Some? <==> !t.hs.guard.Absent?)
    && PhaseInv(m, t)
    && ReplyInv(m, t)
    && RefusedInv(m, t)
    && (Accepted(m, t) ==> t.counter == GuardName.Counter(m.word, t.serial))
    && (t.registered ==> t.hs.master.Succeeded? && Handshake.Registered in t.hs.log)
    && (t.reaped ==> t.hs.guard.Dead?)
    && (t.early ==> t.registered && t.reaped)
    && t.releases == (if t.registered && t.reaped && !t.early then 1 else 0)
    && (t.unbound ==> t.hs.bound.Some? && t.releases == 1 && !t.unbindFailed)
    && (t.unbindFailed ==> t.releases == 1)
    && (!t.phase.Parsing? && Parser.Parse(m, t.req).Panic? ==> t.phase.Panicked?)
    && (!t.phase.Parsing? && Parser.Parse(m, t.req).Ok? ==> t.hs.gid == Parser.Parse(m, t.req).value.gid)
  }

  predicate PidsDistinct(tasks: seq<Task>) {
    forall i, j | 0 <= i < j < |tasks| && tasks[i].pid.Some? :: tasks[i].pid != tasks[j].pid
  }

  /** An entry is a registration that has not been released, and the other way round. */
  predicate RegistryInv(s: State) {
    && (forall p | p in s.registry ::
          && s.registry[p] < |s.tasks|
          && var t := s.tasks[s.registry[p]]; t.pid == Some(p) && t.registered && t.releases == 0)
    && (forall j | 0 <= j < |s.tasks| && s.tasks[j].registered && s.tasks[j].releases == 0 ::
          s.tasks[j].pid.Some? && s.tasks[j].pid.value in s.registry && s.registry[s.tasks[j].pid.value] == j)
  }

  /** The guard of this task bound device `d`, and nobody has cleared that binding. */
  predicate Holds(t: Task, d: int) {
    t.hs.bound.Some? && t.hs.bound.value == d && !t.unbound
  }

  predicate LoopInv(s: State) {
    && (forall d | d in s.loops :: s.loops[d] < |s.tasks| && Holds(s.tasks[s.loops[d]], d))
    && (forall j | 0 <= j < |s.tasks| && s.tasks[j].hs.bound.Some? && !s.tasks[j].unbound ::
          s.tasks[j].hs.bound.value as int in s.loops && s.loops[s.tasks[j].hs.bound.value as int] == j)
    && s.loops.Keys <= s.devices
  }

  predicate ReaperInv(s: State) {
    && (forall j | 0 <= j < |s.tasks| && s.tasks[j].releases == 1 && s.reaper != Unbinding(j) ::
          s.tasks[j].unbound || s.tasks[j].unbindFailed)
    && match s.reaper
       case Idle => true
       case Unbinding(j) =>
         j < |s.tasks| && s.tasks[j].releases == 1 && !s.tasks[j].unbound && !s.tasks[j].unbindFailed
       case Destroying(j) => j < |s.tasks| && s.tasks[j].releases == 1
  }

  predicate Inv(m: Machine, s: State) {
    && (forall j | 0 <= j < |s.tasks| :: TaskInv(m, s.tasks[j]))
    && PidsDistinct(s.tasks)
    && RegistryInv(s)
    && LoopInv(s)
    && ReaperInv(s)
  }
}
