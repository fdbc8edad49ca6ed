/** `RockerCfg::init` as the sequential program it is, and its place in the interleaved runs. */
module GuardCreation {
  import opened Bytes
  import opened Handshake

  /** What the calls of `init` return, in the order it makes them; a failed `recv_timed` is None. */
  datatype Script = Script(
    socketOk: bool,
    cloned: Option<nat>,
    first: Option<int>,
    second: Option<int>,
    uidMapOk: bool,
    setgroupsOk: bool,
    gidMapOk: bool
  )

  const NOTHING: Script := Script(false, None, None, None, false, false, false)

  datatype Outcome = Outcome(result: Master, loopId: Option<int>, killed: bool)

  function Maps(gid: Option<nat>, sc: Script, loopId: Option<int>): Outcome {
    if !sc.uidMapOk then Outcome(Failed(UidMapFailed), loopId, true)
    else if gid.Some? && !(sc.setgroupsOk && sc.gidMapOk) then Outcome(Failed(GidMapFailed), loopId, true)
    else Outcome(Succeeded, loopId, false)
  }

  function AfterErrno(gid: Option<nat>, sc: Script, loopId: Option<int>): Outcome {
    if sc.second.None? then Outcome(Failed(RecvFailed), loopId, true)
    else
      match CheckErr(sc.second.value)
      case Pass => Maps(gid, sc, loopId)
      case Fail(kind) => Outcome(Failed(StageFailed(kind)), loopId, false)
      case Die => Outcome(Died, loopId, false)
  }

  function InitOutcome(gid: Option<nat>, sc: Script): Outcome {
    if !sc.socketOk then Outcome(Failed(SocketFailed), None, false)
    else if sc.cloned.None? then Outcome(Failed(CloneFailed), None, false)
    else if sc.first.None? then Outcome(Failed(RecvFailed), None, true)
    else if 0 <= sc.first.value then AfterErrno(gid, sc, sc.first)
    else
      match CheckErr(sc.first.value)
      case Pass => AfterErrno(gid, sc, None)
      case Fail(kind) => Outcome(Failed(StageFailed(kind)), None, false)
      case Die => Outcome(Died, None, false)
  }

  class RockerCfg {
    const gid: Option<nat>
    var guardPid: Option<nat>
    var guardLoopId: Option<int>
    ghost var killed: bool

    constructor (gid: Option<nat>)
      ensures this.gid == gid && guardPid.None? && guardLoopId.None? && !killed
    {
      this.gid := gid;
      guardPid, guardLoopId, killed := None, None, false;
    }

    method WriteGidmap(sc: Script) returns (ok: bool)
      ensures ok <==> gid.Some? ==> sc.setgroupsOk && sc.gidMapOk
    {
      if gid.None? {
        return true;
      }
      if !sc.setgroupsOk {
        return false;
      }
      return sc.gidMapOk;
    }

    method Init(sc: Script) returns (r: Master)
      modifies this
      ensures r == InitOutcome(gid, sc).result
      ensures var recorded := InitOutcome(gid, sc).loopId;
              guardLoopId == if recorded.Some? then recorded else old(guardLoopId)
      ensures killed == (old(killed) || InitOutcome(gid, sc).killed)
      ensures sc.socketOk && sc.cloned.Some? ==> guardPid == sc.cloned
      ensures !(sc.socketOk && sc.cloned.Some?) ==> guardPid == old(guardPid)
    {
      if !sc.socketOk {
        return Failed(SocketFailed);
      }
      if sc.cloned.None? {
        return Failed(CloneFailed);
      }
      guardPid := sc.cloned;

      if sc.first.None? {
        killed := true;
        return Failed(RecvFailed);
      }
      var loopId := sc.first.value;
      if 0 > loopId {
        match CheckErr(loopId) {
          case Pass =>
          case Fail(kind) => return Failed(StageFailed(kind));
          case Die => return Died;
        }
      } else {
        guardLoopId := Some(loopId);
      }

      if sc.second.None? {
        killed := true;
        return Failed(RecvFailed);
      }
      match CheckErr(sc.second.value) {
        case Pass =>
        case Fail(kind) => return Failed(StageFailed(kind));
        case Die => return Died;
      }

      if !sc.uidMapOk {
        killed := true;
        return Failed(UidMapFailed);
      }
      var ok := WriteGidmap(sc);
      if !ok {
        killed := true;
        return Failed(GidMapFailed);
      }
      return Succeeded;
    }
  }

  // ---------------------------------------------------------------------
  // The interleaved runs

  /** The results that the master's calls had in a run, read off its steps. */
  function Observed(sc: Script, h: Job, a: Action): Script
    requires Enabled(h, a)
  {
    match a
    case SocketPair(ok) => sc.(socketOk := ok)
    case Clone(ok) => sc.(cloned := if ok then Some(0) else None)
    case Recv => if h.read == 0 then sc.(first := Some(h.sent[0])) else sc.(second := Some(h.sent[h.read]))
    case WriteUidMap(ok) => sc.(uidMapOk := ok)
    case WriteSetgroups(ok) => sc.(setgroupsOk := ok)
    case WriteGidMap(ok) => sc.(gidMapOk := ok)
    case _ => sc
  }

  function ScriptOf(sc: Script, h: Job, acts: seq<Action>): Script
    requires ValidRun(h, acts)
    decreases |acts|
  {
    if acts == [] then sc else ScriptOf(Observed(sc, h, acts[0]), Next(h, acts[0]), acts[1..])
  }

  function AfterClone(): Script { NOTHING.(socketOk := true, cloned := Some(0)) }

  /** What has been observed by the time the master is where it is. */
  predicate Follows(h: Job, sc: Script) {
    match h.master
    case NewSocket => sc == NOTHING
    case Cloning => sc == NOTHING.(socketOk := true)
    case RecvLoop => sc == AfterClone()
    case RecvErrno => h.sent != [] && sc == AfterClone().(first := Some(h.sent[0]))
    case WriteUid => |h.sent| == 2 && sc == AfterClone().(first := Some(h.sent[0]), second := Some(SUCCESS))
    case WriteDeny =>
      |h.sent| == 2 && sc == AfterClone().(first := Some(h.sent[0]), second := Some(SUCCESS), uidMapOk := true)
    case WriteGid =>
      && |h.sent| == 2
      && sc == AfterClone().(first := Some(h.sent[0]), second := Some(SUCCESS), uidMapOk := true, setgroupsOk := true)
    case Succeeded => InitOutcome(h.gid, sc) == Outcome(Succeeded, h.loopId, false)
    case Failed(cause) =>
      var outcome := InitOutcome(h.gid, sc);
      && outcome.result == Failed(cause) && outcome.loopId == h.loopId
      && (outcome.killed ==> h.guard.Dead?)
    case Died => false
  }

  predicate ByGuard(a: Action) {
    a.RunStage? || a.ChooseLoop? || a.BindLoop? || a.MountLoopDev? || a.Inform? || a.Exit? || a.Killed?
  }

  lemma StepFollows(h: Job, sc: Script, a: Action)
    requires Inv(h) && Follows(h, sc) && Enabled(h, a)
    ensures Follows(Next(h, a), Observed(sc, h, a))
  {
    hide Inv, Follows, Enabled, Next, Observed;
    match a {
      case Recv => RecvFollows(h, sc);
      case RecvFail => MasterFollows(h, sc, a);
      case SocketPair(_) => MasterFollows(h, sc, a);
      case Clone(_) => MasterFollows(h, sc, a);
      case WriteUidMap(_) => MasterFollows(h, sc, a);
      case WriteSetgroups(_) => MasterFollows(h, sc, a);
      case WriteGidMap(_) => MasterFollows(h, sc, a);
      case _ => GuardFollows(h, sc, a);
    }
  }

  lemma RecvFollows(h: Job, sc: Script)
    requires Inv(h) && Follows(h, sc) && Enabled(h, Recv)
    ensures Follows(Next(h, Recv), Observed(sc, h, Recv))
  {
    hide LogInv, InitOutcome;
    ReceivedOutcome(h, sc);
  }

  /** What `init` makes of the message it reads next. */
  lemma ReceivedOutcome(h: Job, sc: Script)
    requires Inv(h) && Follows(h, sc) && Enabled(h, Recv)
    ensures var h', sc' := Next(h, Recv), Observed(sc, h, Recv);
            h'.master.Failed? ==> InitOutcome(h.gid, sc') == Outcome(h'.master, h'.loopId, false)
  {
    hide LogInv, FailureInv, Maps;
  }

  lemma MasterFollows(h: Job, sc: Script, a: Action)
    requires Inv(h) && Follows(h, sc) && Enabled(h, a)
    requires !a.Recv? && !ByGuard(a)
    ensures Follows(Next(h, a), Observed(sc, h, a))
  {
    hide LogInv, FailureInv, GuardInv;
  }

  /** The guard's own steps leave alone what `init` has seen. */
  lemma GuardKeeps(h: Job, a: Action)
    requires Enabled(h, a) && ByGuard(a)
    ensures var h' := Next(h, a);
            && h'.master == h.master && h'.gid == h.gid && h'.loopId == h.loopId && h'.read == h.read
            && h.sent <= h'.sent && (h.guard.Dead? ==> h'.guard.Dead?)
  {
  }

  lemma GuardFollows(h: Job, sc: Script, a: Action)
    requires Inv(h) && Follows(h, sc) && Enabled(h, a) && ByGuard(a)
    ensures Follows(Next(h, a), Observed(sc, h, a))
  {
    hide LogInv, FailureInv, GuardInv, Next, Enabled, InitOutcome;
    GuardKeeps(h, a);
    StepInv(h, a);
  }

  lemma {:induction false} RunFollows(h: Job, sc: Script, acts: seq<Action>)
    requires Inv(h) && Follows(h, sc) && ValidRun(h, acts)
    ensures Follows(Run(h, acts), ScriptOf(sc, h, acts))
    decreases |acts|
  {
    if acts != [] {
      hide Inv, Follows, Next, Enabled, Observed;
      StepInv(h, acts[0]);
      StepFollows(h, sc, acts[0]);
      RunFollows(Next(h, acts[0]), Observed(sc, h, acts[0]), acts[1..]);
    }
  }

  /** In whatever way guard and `init` interleave, `init` ends as the sequential program does on
      the results its calls had, with the same loop id; and a guard it killed is dead. */
  lemma InterleavedInit(gid: Option<nat>, acts: seq<Action>)
    requires ValidRun(NewJob(gid), acts)
    requires var master := Run(NewJob(gid), acts).master; master.Succeeded? || master.Failed?
    ensures var h, outcome := Run(NewJob(gid), acts), InitOutcome(gid, ScriptOf(NOTHING, NewJob(gid), acts));
            && outcome.result == h.master && outcome.loopId == h.loopId
            && (outcome.killed ==> h.guard.Dead?)
  {
    RunFollows(NewJob(gid), NOTHING, acts);
    RunGid(NewJob(gid), acts);
  }

  lemma {:induction false} RunGid(h: Job, acts: seq<Action>)
    requires ValidRun(h, acts)
    ensures Run(h, acts).gid == h.gid
    decreases |acts|
  {
    if acts != [] {
      RunGid(Next(h, acts[0]), acts[1..]);
    }
  }
}
