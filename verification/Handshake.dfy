/** `RockerCfg::init` against the guard it clones: two programs, a datagram pair, failures and
    timeouts at every step. Statements of either side are atomic steps. */
module Handshake {
  import opened Bytes

  // Return codes of the clone(2) callback
  const SUCCESS: int := -10000
  const EMNT_PROC: int := -1
  const EMNT_LOOP: int := -2
  const EMNT_OVERLAY: int := -3
  const EUNSHARE_USER: int := -4
  const ESET_PROCNAME: int := -5
  const EMAKE_PRIVATE: int := -6

  /** The stages of the guard, in order. */
  datatype Stage = MakePrivate | SetName | MountProc | MountLoop | MountOverlay | UnshareUser {
    function Index(): nat {
      match this
      case MakePrivate => 0
      case SetName => 1
      case MountProc => 2
      case MountLoop => 3
      case MountOverlay => 4
      case UnshareUser => 5
    }

    function Code(): int {
      match this
      case MakePrivate => EMAKE_PRIVATE
      case SetName => ESET_PROCNAME
      case MountProc => EMNT_PROC
      case MountLoop => EMNT_LOOP
      case MountOverlay => EMNT_OVERLAY
      case UnshareUser => EUNSHARE_USER
    }

    /** The `ErrorKind` a caller of `init` is meant to see. */
    function Meaning(): Kind {
      match this
      case MakePrivate => Unknown
      case SetName => SetProcName
      case MountProc => MntProc
      case MountLoop => MntLoop
      case MountOverlay => MntOverlay
      case UnshareUser => UnshareUserNs
    }
  }

  const STAGES: seq<Stage> := [MakePrivate, SetName, MountProc, MountLoop, MountOverlay, UnshareUser]

  datatype Kind = Unknown | SetProcName | MntProc | MntLoop | MntOverlay | UnshareUserNs

  /** The `check_err!` macro; `Die` is its default branch, `pdie`. */
  datatype Verdict = Pass | Fail(kind: Kind) | Die

  function CheckErr(errno: int): Verdict {
    if errno == SUCCESS then Pass
    else if errno == EMAKE_PRIVATE then Fail(Unknown)
    else if errno == ESET_PROCNAME then Fail(SetProcName)
    else if errno == EMNT_PROC then Fail(MntProc)
    else if errno == EMNT_LOOP then Fail(MntLoop)
    else if errno == EMNT_OVERLAY then Fail(MntOverlay)
    else if errno == EUNSHARE_USER then Fail(UnshareUserNs)
    else Die
  }

  /** What the guard does once its message is out. A failed send is a `pdie` in any case. */
  datatype After = ThenExit | ThenOverlay | ThenRun

  datatype Guard =
    | Absent
    | At(stage: Stage)
    | LoopChosen(id: nat)
    | LoopBound(id: nat)
    | Informing(msg: int, after: After)
    | Running
    | Exiting
    | Dead

  datatype Cause = SocketFailed | CloneFailed | RecvFailed | StageFailed(kind: Kind) | UidMapFailed | GidMapFailed

  datatype Master =
    | NewSocket
    | Cloning
    | RecvLoop
    | RecvErrno
    | WriteUid
    | WriteDeny
    | WriteGid
    | Succeeded
    | Failed(cause: Cause)
    | Died

  datatype Event = Did(stage: Stage) | UidMap | Deny | GidMap | Registered | Answered

  /** `sent` is everything the guard has sent and `read` how much of it was received: the pair is
      FIFO and loses nothing. `loopId` is `guard_loop_id`; `bound` is the device the guard bound. */
  datatype Job = Job(
    gid: Option<nat>,
    master: Master,
    guard: Guard,
    sent: seq<int>,
    read: nat,
    loopId: Option<int>,
    bound: Option<nat>,
    done: seq<Stage>,
    failed: Option<Stage>,
    log: seq<Event>
  )

  function NewJob(gid: Option<nat>): Job {
    Job(gid, NewSocket, Absent, [], 0, None, None, [], None, [])
  }

  /** The steps, with the outcome of the system call behind each. */
  datatype Action =
    | SocketPair(ok: bool)
    | Clone(ok: bool)
    | Recv
    | RecvFail
    | WriteUidMap(ok: bool)
    | WriteSetgroups(ok: bool)
    | WriteGidMap(ok: bool)
    | RunStage(ok: bool)
    | ChooseLoop(ok: bool, id: nat)
    | BindLoop(ok: bool)
    | MountLoopDev(ok: bool)
    | Inform(ok: bool)
    | Exit
    | Killed

  predicate Alive(g: Guard) { !g.Absent? && !g.Dead? }

  predicate Enabled(h: Job, a: Action) {
    match a
    case SocketPair(_) => h.master.NewSocket?
    case Clone(_) => h.master.Cloning?
    case Recv => (h.master.RecvLoop? || h.master.RecvErrno?) && h.read < |h.sent|
    case RecvFail => h.master.RecvLoop? || h.master.RecvErrno?
    case WriteUidMap(_) => h.master.WriteUid?
    case WriteSetgroups(_) => h.master.WriteDeny?
    case WriteGidMap(_) => h.master.WriteGid?
    case RunStage(_) => h.guard.At? && !h.guard.stage.MountLoop?
    case ChooseLoop(_, _) => h.guard.At? && h.guard.stage.MountLoop?
    case BindLoop(_) => h.guard.LoopChosen?
    case MountLoopDev(_) => h.guard.LoopBound?
    case Inform(_) => h.guard.Informing?
    case Exit => h.guard.Exiting? || h.guard.Running?
    case Killed => Alive(h.guard)
  }

  /** `kill_SIGKILL`, then the error. */
  function KillAndFail(h: Job, cause: Cause): Job {
    h.(guard := if h.guard.Absent? then Absent else Dead, master := Failed(cause))
  }

  function FailStage(h: Job, s: Stage): Job {
    h.(guard := Informing(s.Code(), ThenExit), failed := Some(s))
  }

  function PassStage(h: Job, s: Stage, next: Guard): Job {
    h.(guard := next, done := h.done + [s], log := h.log + [Did(s)])
  }

  function AfterStage(s: Stage): Guard
    requires !s.MountLoop?
  {
    match s
    case MakePrivate => At(SetName)
    case SetName => At(MountProc)
    case MountProc => At(MountLoop)
    case MountOverlay => At(UnshareUser)
    case UnshareUser => Informing(SUCCESS, ThenRun)
  }

  function Received(h: Job, v: int): Job {
    var h' := h.(read := h.read + 1);
    if h.master.RecvLoop? && 0 <= v then h'.(loopId := Some(v), master := RecvErrno)
    else
      match CheckErr(v)
      case Pass => h'.(master := if h.master.RecvLoop? then RecvErrno else WriteUid)
      case Fail(kind) => h'.(master := Failed(StageFailed(kind)))
      case Die => h'.(master := Died)
  }

  function Next(h: Job, a: Action): Job
    requires Enabled(h, a)
  {
    match a
    case SocketPair(ok) => h.(master := if ok then Cloning else Failed(SocketFailed))
    case Clone(ok) =>
      if ok then h.(master := RecvLoop, guard := At(MakePrivate)) else h.(master := Failed(CloneFailed))
    case Recv => Received(h, h.sent[h.read])
    case RecvFail => KillAndFail(h, RecvFailed)
    case WriteUidMap(ok) =>
      if ok then h.(log := h.log + [UidMap], master := if h.gid.None? then Succeeded else WriteDeny)
      else KillAndFail(h, UidMapFailed)
    case WriteSetgroups(ok) =>
      if ok then h.(log := h.log + [Deny], master := WriteGid) else KillAndFail(h, GidMapFailed)
    case WriteGidMap(ok) =>
      if ok then h.(log := h.log + [GidMap], master := Succeeded) else KillAndFail(h, GidMapFailed)
    case RunStage(ok) =>
      if ok then PassStage(h, h.guard.stage, AfterStage(h.guard.stage)) else FailStage(h, h.guard.stage)
    case ChooseLoop(ok, id) => if ok then h.(guard := LoopChosen(id)) else FailStage(h, MountLoop)
    case BindLoop(ok) =>
      if ok then h.(guard := LoopBound(h.guard.id), bound := Some(h.guard.id)) else FailStage(h, MountLoop)
    case MountLoopDev(ok) =>
      if ok then PassStage(h, MountLoop, Informing(h.guard.id, ThenOverlay)) else FailStage(h, MountLoop)
    case Inform(ok) =>
      if !ok then h.(guard := Exiting)
      else
        h.(sent := h.sent + [h.guard.msg],
           guard := match h.guard.after
                    case ThenExit => Exiting
                    case ThenOverlay => At(MountOverlay)
                    case ThenRun => Running)
    case Exit => h.(guard := Dead)
    case Killed => h.(guard := Dead)
  }

  predicate ValidRun(h: Job, acts: seq<Action>)
    decreases |acts|
  {
    acts != [] ==> Enabled(h, acts[0]) && ValidRun(Next(h, acts[0]), acts[1..])
  }

  function Run(h: Job, acts: seq<Action>): Job
    requires ValidRun(h, acts)
    decreases |acts|
  {
    if acts == [] then h else Run(Next(h, acts[0]), acts[1..])
  }

  ghost predicate Reachable(h: Job) {
    exists gid, acts :: ValidRun(NewJob(gid), acts) && h == Run(NewJob(gid), acts)
  }

  // ---------------------------------------------------------------------
  // The invariant

  /** What the guard has sent so far agrees with what it did. */
  predicate SentInv(h: Job) {
    || h.sent == []
    || (h.failed.Some? && h.failed.value.Index() <= 3 && h.sent == [h.failed.value.Code()])
    || (h.bound.Some? && |h.done| >= 4 && h.sent == [h.bound.value as int])
    || (h.bound.Some? && h.failed.Some? && h.failed.value.Index() >= 4
        && h.sent == [h.bound.value as int, h.failed.value.Code()])
    || (h.bound.Some? && |h.done| == 6 && h.sent == [h.bound.value as int, SUCCESS])
  }

  /** What is on its way after `n` stages without a failure. */
  predicate SentAfter(h: Job, n: nat) {
    if n <= 3 then h.sent == [] else h.bound.Some? && h.sent == [h.bound.value as int]
  }

  predicate GuardInv(h: Job) {
    && |h.done| <= 6 && h.done == STAGES[..|h.done|]
    && (h.failed.Some? ==> |h.done| == h.failed.value.Index())
    && SentInv(h)
    && match h.guard
       case Absent => h.done == [] && h.sent == [] && h.failed.None? && h.bound.None?
       case At(s) =>
         h.failed.None? && |h.done| == s.Index() && SentAfter(h, s.Index()) && (s.Index() <= 3 ==> h.bound.None?)
       case LoopChosen(_) => h.failed.None? && |h.done| == 3 && h.sent == [] && h.bound.None?
       case LoopBound(id) => h.failed.None? && |h.done| == 3 && h.sent == [] && h.bound == Some(id)
       case Informing(msg, ThenExit) =>
         h.failed.Some? && msg == h.failed.value.Code() && SentAfter(h, |h.done|)
       case Informing(msg, ThenOverlay) =>
         h.failed.None? && |h.done| == 4 && h.sent == [] && h.bound.Some? && msg == h.bound.value
       case Informing(msg, ThenRun) =>
         h.failed.None? && |h.done| == 6 && msg == SUCCESS && SentAfter(h, 6)
       case Running => h.failed.None? && |h.sent| == 2
       case Exiting => true
       case Dead => true
  }

  /** A failure code that is out belongs to a guard that is on its way out. */
  predicate FailureInv(h: Job) {
    h.failed.Some? ==> h.guard.Exiting? || h.guard.Dead? || (h.guard.Informing? && h.guard.after.ThenExit?)
  }

  predicate Agreed(h: Job) {
    && h.read == 2 && h.bound.Some?
    && h.sent == [h.bound.value as int, SUCCESS]
    && h.loopId == Some(h.bound.value as int)
  }

  predicate MasterInv(h: Job) {
    && h.read <= |h.sent|
    && match h.master
       case NewSocket => h.guard.Absent? && h.loopId.None?
       case Cloning => h.guard.Absent? && h.loopId.None?
       case RecvLoop => !h.guard.Absent? && h.read == 0 && h.loopId.None?
       case RecvErrno =>
         !h.guard.Absent? && h.read == 1 && h.bound.Some?
         && h.sent[0] == h.bound.value && h.loopId == Some(h.bound.value as int)
       case WriteUid => !h.guard.Absent? && Agreed(h)
       case WriteDeny => !h.guard.Absent? && Agreed(h) && h.gid.Some?
       case WriteGid => !h.guard.Absent? && Agreed(h) && h.gid.Some?
       case Succeeded => !h.guard.Absent? && Agreed(h)
       case Failed(cause) =>
         if cause.SocketFailed? || cause.CloneFailed? then h.guard.Absent?
         else
           && (h.guard.Exiting? || h.guard.Dead?)
           && (cause.StageFailed? ==> h.failed.Some? && cause.kind == h.failed.value.Meaning())
       case Died => false
  }

  /** What must have happened before an event. */
  function Prerequisites(gid: Option<nat>, e: Event): set<Event> {
    match e
    case Did(s) => set t | t in STAGES[..s.Index()] :: Did(t)
    case UidMap => {Did(UnshareUser)}
    case Deny => {UidMap}
    case GidMap => {Deny}
    case Registered => if gid.Some? then {GidMap} else {UidMap}
    case Answered => {Registered}
  }

  predicate Ordered(gid: Option<nat>, log: seq<Event>) {
    forall i | 0 <= i < |log| :: forall e | e in Prerequisites(gid, log[i]) :: e in log[..i]
  }

  predicate LogInv(h: Job) {
    && Ordered(h.gid, h.log)
    && (forall s | s in h.done :: Did(s) in h.log)
    && (h.master.WriteDeny? || h.master.WriteGid? || h.master.Succeeded? ==> UidMap in h.log)
    && (h.master.WriteGid? ==> Deny in h.log)
    && (h.master.Succeeded? && h.gid.Some? ==> GidMap in h.log)
  }

  predicate Inv(h: Job) {
    GuardInv(h) && FailureInv(h) && MasterInv(h) && LogInv(h)
  }

  lemma OrderedAppend(gid: Option<nat>, log: seq<Event>, e: Event)
    requires Ordered(gid, log)
    requires forall p | p in Prerequisites(gid, e) :: p in log
    ensures Ordered(gid, log + [e])
  {
    var log' := log + [e];
    forall i | 0 <= i < |log'| ensures forall p | p in Prerequisites(gid, log'[i]) :: p in log'[..i] {
      if i < |log| {
        assert log'[..i] == log[..i];
      } else {
        assert log'[..i] == log;
      }
    }
  }

  lemma PassKeepsOrder(h: Job, s: Stage)
    requires LogInv(h) && h.done == STAGES[..s.Index()]
    ensures Ordered(h.gid, h.log + [Did(s)])
    ensures h.done + [s] == STAGES[..s.Index() + 1]
    ensures forall t | t in h.done + [s] :: Did(t) in h.log + [Did(s)]
  {
    OrderedAppend(h.gid, h.log, Did(s));
  }

  lemma MasterStepInv(h: Job, a: Action)
    requires Inv(h) && Enabled(h, a)
    requires a.SocketPair? || a.Clone?
    ensures Inv(Next(h, a))
  {
  }

  lemma RecvFailStepInv(h: Job)
    requires Inv(h) && Enabled(h, RecvFail)
    ensures Inv(Next(h, RecvFail))
  {
    hide Ordered;
  }

  lemma RecvStepInv(h: Job)
    requires Inv(h) && Enabled(h, Recv)
    ensures Inv(Next(h, Recv))
  {
    RecvMaster(h);
    hide MasterInv, Ordered;
  }

  /** The message `init` reads is the one the guard's progress calls for. */
  lemma RecvMaster(h: Job)
    requires Inv(h) && Enabled(h, Recv)
    ensures MasterInv(Next(h, Recv)) && !Next(h, Recv).master.Succeeded?
    ensures !Next(h, Recv).master.WriteDeny? && !Next(h, Recv).master.WriteGid?
  {
    hide LogInv;
  }

  lemma MapStepInv(h: Job, a: Action)
    requires Inv(h) && Enabled(h, a)
    requires a.WriteUidMap? || a.WriteSetgroups? || a.WriteGidMap?
    ensures Inv(Next(h, a))
  {
    assert h.done == STAGES;
    if a.ok {
      var e := if a.WriteUidMap? then UidMap else if a.WriteSetgroups? then Deny else GidMap;
      assert UnshareUser in h.done;
      OrderedAppend(h.gid, h.log, e);
    }
  }

  lemma GuardStepInv(h: Job, a: Action)
    requires Inv(h) && Enabled(h, a)
    requires a.ChooseLoop? || a.BindLoop? || a.MountLoopDev? || a.Inform? || a.Exit? || a.Killed?
    ensures Inv(Next(h, a))
  {
    if a.MountLoopDev? && a.ok {
      PassKeepsOrder(h, MountLoop);
    }
  }

  lemma StageStepInv(h: Job, a: Action)
    requires Inv(h) && Enabled(h, a) && a.RunStage?
    ensures Inv(Next(h, a))
  {
    if a.ok {
      PassKeepsOrder(h, h.guard.stage);
    }
  }

  lemma StepInv(h: Job, a: Action)
    requires Inv(h) && Enabled(h, a)
    ensures Inv(Next(h, a))
  {
    hide Inv, Next, Enabled;
    match a {
      case SocketPair(_) => MasterStepInv(h, a);
      case Clone(_) => MasterStepInv(h, a);
      case Recv => RecvStepInv(h);
      case RecvFail => RecvFailStepInv(h);
      case WriteUidMap(_) => MapStepInv(h, a);
      case WriteSetgroups(_) => MapStepInv(h, a);
      case WriteGidMap(_) => MapStepInv(h, a);
      case RunStage(_) => StageStepInv(h, a);
      case _ => GuardStepInv(h, a);
    }
  }

  lemma {:induction false} RunInv(h: Job, acts: seq<Action>)
    requires Inv(h) && ValidRun(h, acts)
    ensures Inv(Run(h, acts))
    decreases |acts|
  {
    if acts != [] {
      StepInv(h, acts[0]);
      RunInv(Next(h, acts[0]), acts[1..]);
    }
  }

  lemma ReachableInv(h: Job)
    requires Reachable(h)
    ensures Inv(h)
  {
    var gid, acts :| ValidRun(NewJob(gid), acts) && h == Run(NewJob(gid), acts);
    RunInv(NewJob(gid), acts);
  }

  // ---------------------------------------------------------------------
  // Agreement

  /** `init` returns Ok only if all six stages succeeded; the loop id it recorded is the device
      this guard bound; and the identity maps were written after the guard left the user
      namespace, setgroups before gid_map. */
  lemma SuccessAgrees(h: Job)
    requires Reachable(h) && h.master.Succeeded?
    ensures h.done == STAGES && h.failed.None?
    ensures h.bound.Some? && h.loopId == Some(h.bound.value as int)
    ensures Ordered(h.gid, h.log)
    ensures UidMap in h.log && (h.gid.Some? ==> GidMap in h.log)
  {
    ReachableInv(h);
  }

  /** An error code that `init` receives is that of the one stage that failed, and is reported as
      that stage's error. */
  lemma ErrorAgrees(h: Job)
    requires Reachable(h) && h.master.Failed? && h.master.cause.StageFailed?
    ensures h.failed.Some? && h.done == STAGES[..h.failed.value.Index()]
    ensures h.master.cause.kind == h.failed.value.Meaning()
    ensures h.failed.value.Index() > 3 ==> h.bound.Some? && h.loopId == Some(h.bound.value as int)
  {
    ReachableInv(h);
    ErrorLoopId(h);
  }

  lemma ErrorLoopId(h: Job)
    requires Reachable(h)
    ensures h.loopId.Some? ==> h.bound.Some? && h.loopId == Some(h.bound.value as int)
    ensures h.master.Failed? && h.master.cause.StageFailed? && h.failed.Some? && h.failed.value.Index() > 3 ==>
              h.loopId.Some?
  {
    var gid, acts :| ValidRun(NewJob(gid), acts) && h == Run(NewJob(gid), acts);
    RunLoopId(NewJob(gid), acts);
  }

  predicate LoopIdInv(h: Job) {
    && (h.loopId.Some? ==> h.read >= 1 && h.bound.Some? && h.loopId == Some(h.bound.value as int))
    && (h.read >= 1 && h.read <= |h.sent| && 0 <= h.sent[0] ==> h.loopId.Some?)
    && (h.master.Failed? && h.master.cause.StageFailed? ==> 1 <= h.read <= |h.sent|)
  }

  lemma StepLoopId(h: Job, a: Action)
    requires Inv(h) && LoopIdInv(h) && Enabled(h, a)
    ensures LoopIdInv(Next(h, a))
  {
  }

  lemma {:induction false} RunLoopId(h: Job, acts: seq<Action>)
    requires Inv(h) && LoopIdInv(h) && ValidRun(h, acts)
    ensures LoopIdInv(Run(h, acts)) && Inv(Run(h, acts))
    decreases |acts|
  {
    if acts != [] {
      StepInv(h, acts[0]);
      StepLoopId(h, acts[0]);
      RunLoopId(Next(h, acts[0]), acts[1..]);
    }
  }

  /** A guard dies of its own exit, of a signal, or of an error of `init`, and of nothing else. */
  lemma DeathsAre(h: Job, a: Action)
    requires Enabled(h, a) && Alive(h.guard)
    ensures Next(h, a).guard.Dead? <==>
            a.Exit? || a.Killed? || a.RecvFail? || ((a.WriteUidMap? || a.WriteSetgroups? || a.WriteGidMap?) && !a.ok)
  {
  }

  /** After any error the guard does not exist, is dead, or has only its exit left. */
  lemma NoGuardOutlivesAnError(h: Job)
    requires Reachable(h) && h.master.Failed?
    ensures h.guard.Absent? || h.guard.Exiting? || h.guard.Dead?
    ensures h.guard.Absent? <==> h.master.cause.SocketFailed? || h.master.cause.CloneFailed?
  {
    ReachableInv(h);
  }

  /** The default branch of `check_err!` is unreachable, and so is reading SUCCESS as a loop id. */
  lemma NeverDies(h: Job)
    requires Reachable(h)
    ensures !h.master.Died?
    ensures h.master.RecvErrno? ==> h.loopId.Some?
  {
    ReachableInv(h);
  }

  // ---------------------------------------------------------------------
  // Termination

  function MasterRank(m: Master): nat {
    match m
    case NewSocket => 7
    case Cloning => 6
    case RecvLoop => 5
    case RecvErrno => 4
    case WriteUid => 3
    case WriteDeny => 2
    case WriteGid => 1
    case _ => 0
  }

  function GuardRank(g: Guard): nat {
    match g
    case Absent => 17
    case At(MakePrivate) => 16
    case At(SetName) => 15
    case At(MountProc) => 14
    case At(MountLoop) => 13
    case LoopChosen(_) => 12
    case LoopBound(_) => 11
    case Informing(_, ThenOverlay) => 10
    case At(MountOverlay) => 9
    case At(UnshareUser) => 8
    case Informing(_, ThenRun) => 4
    case Running => 3
    case Informing(_, ThenExit) => 2
    case Exiting => 1
    case Dead => 0
  }

  lemma StepRank(h: Job, a: Action)
    requires Enabled(h, a) && (h.master.Cloning? ==> h.guard.Absent?)
    ensures MasterRank(Next(h, a).master) + GuardRank(Next(h, a).guard) < MasterRank(h.master) + GuardRank(h.guard)
  {
  }

  /** `init` takes at most seven of its own steps, and every run ends: no interleaving, failure or
      timeout can keep it going. */
  lemma {:induction false} RunsAreFinite(h: Job, acts: seq<Action>)
    requires Inv(h) && ValidRun(h, acts)
    ensures |acts| <= MasterRank(h.master) + GuardRank(h.guard)
    decreases |acts|
  {
    if acts != [] {
      var h' := Next(h, acts[0]);
      StepInv(h, acts[0]);
      StepRank(h, acts[0]);
      hide Inv, Next, Enabled, MasterRank, GuardRank;
      RunsAreFinite(h', acts[1..]);
    }
  }

  /** `init` is never stuck: until it returns it has a step, whatever the guard does. */
  lemma MasterNeverStuck(h: Job) returns (a: Action)
    requires Reachable(h) && !h.master.Succeeded? && !h.master.Failed?
    ensures Enabled(h, a) && MasterRank(Next(h, a).master) < MasterRank(h.master)
  {
    ReachableInv(h);
    match h.master {
      case NewSocket => a := SocketPair(true);
      case Cloning => a := Clone(true);
      case RecvLoop => a := RecvFail;
      case RecvErrno => a := RecvFail;
      case WriteUid => a := WriteUidMap(true);
      case WriteDeny => a := WriteSetgroups(true);
      case WriteGid => a := WriteGidMap(true);
    }
  }
}
