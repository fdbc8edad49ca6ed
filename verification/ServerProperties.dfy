/** What holds in every run of the server, and what does not. */
module ServerProperties {
  import opened Bytes
  import opened Parser
  import ParserProperties
  import Encoder
  import GuardName
  import Handshake
  import opened Namespaces
  import opened Server
  import opened ServerInvariant

  lemma TaskOf(m: Machine, s: State, j: nat)
    requires Reachable(m, s) && j < |s.tasks|
    ensures TaskInv(m, s.tasks[j])
  {
    hide TaskInv, RegistryInv, LoopInv, ReaperInv, PidsDistinct;
    ReachableInv(m, s);
  }

  // ---------------------------------------------------------------------
  // Loop devices

  /** The kernel's table is exactly the bindings that guards made and nobody cleared; so no two
      guards ever own the same device. */
  lemma LoopOwnership(m: Machine, s: State, i: nat, d: int)
    requires Reachable(m, s) && i < |s.tasks|
    ensures Holds(s.tasks[i], d) <==> d in s.loops && s.loops[d] == i
    ensures forall j: nat | j < |s.tasks| && Holds(s.tasks[i], d) && Holds(s.tasks[j], d) :: i == j
  {
    ReachableInv(m, s);
    hide TaskInv, RegistryInv, ReaperInv, PidsDistinct;
    forall j: nat | j < |s.tasks| && Holds(s.tasks[j], d) ensures d in s.loops && s.loops[d] == j {
      assert s.tasks[j].hs.bound.Some? && !s.tasks[j].unbound;
    }
  }

  /** Every unbind that `release_resource` does clears the binding made by that same guard, which
      is dead and reaped, and no other. */
  lemma UnbindClearsOwn(m: Machine, s: State)
    requires Reachable(m, s) && Enabled(m, s, Unbind(true))
    ensures var j, s' := s.reaper.task, Next(m, s, Unbind(true));
            && s.tasks[j].hs.guard.Dead? && s.tasks[j].reaped
            && s.tasks[j].hs.loopId.Some?
            && var d := s.tasks[j].hs.loopId.value;
            && Holds(s.tasks[j], d) && !Holds(s'.tasks[j], d)
            && s'.loops == s.loops - {d}
            && forall k: nat, e: int | k < |s.tasks| && k != j :: Holds(s'.tasks[k], e) == Holds(s.tasks[k], e)
  {
    ReachableInv(m, s);
    UnbindOwner(m, s);
    var j := s.reaper.task;
    ReapedIsDead(m, s.tasks[j]);
    assert forall k: nat | k < |s.tasks| && k != j :: Next(m, s, Unbind(true)).tasks[k] == s.tasks[k];
  }

  lemma ReapedIsDead(m: Machine, t: Task)
    requires TaskInv(m, t) && t.reaped
    ensures t.hs.guard.Dead?
  {
  }

  /** The later removal never takes a device that a guard has bound in the meantime. */
  lemma DestroySparesBound(m: Machine, s: State)
    requires Reachable(m, s) && Enabled(m, s, Destroy(true))
    ensures var s' := Next(m, s, Destroy(true));
            && s'.loops == s.loops
            && (forall k: nat, d: int | k < |s.tasks| && Holds(s.tasks[k], d) :: d in s'.devices)
            && forall k: nat | k < |s.tasks| :: !Holds(s.tasks[k], s.tasks[s.reaper.task].hs.loopId.value)
  {
    hide TaskInv, RegistryInv, ReaperInv, PidsDistinct, Reachable, Parsed, Shaken, KernelAllows, Handshake.Enabled;
    hide InitReturned, FdsOpened, RegisterTried, AnswerSent, RefusalSent;
    ReachableInv(m, s);
    forall k: nat, d: int | k < |s.tasks| && Holds(s.tasks[k], d) ensures d in s.loops {
      assert s.tasks[k].hs.bound.Some? && !s.tasks[k].unbound;
    }
  }

  function PhaseRank(phase: Phase): nat {
    match phase
    case Parsing => 6
    case Initialising => 5
    case Opening => 4
    case Registering => 3
    case Answering => 2
    case Closing => 1
    case Refusing => 1
    case Finished => 0
    case Panicked => 0
  }

  /** The steps of a worker outside parsing and `init`. */
  predicate LateStep(a: Action) {
    a.InitReturns? || a.OpenFds? || a.Register? || a.Answer? || a.CloseFds? || a.Refuse?
  }

  /** What such a step does to a task: its worker is one phase further, and the reaper has not
      been at it. */
  predicate Ordinary(t: Task, t': Task, mine: bool) {
    && (if mine then PhaseRank(t'.phase) < PhaseRank(t.phase) && !t'.phase.Parsing? && !t'.phase.Initialising?
        else t'.phase == t.phase)
    && t'.hs.master == t.hs.master && t'.hs.bound == t.hs.bound
    && t'.pid == t.pid && (t.early && !t.phase.Registering? ==> t'.early)
    && t'.reaped == t.reaped && t'.releases == t.releases
    && t'.unbound == t.unbound && t'.unbindFailed == t.unbindFailed
    && SameRequest(t, t')
  }

  /** The datagram, and what `RockerCfg::new` made of it. */
  predicate SameRequest(a: Task, b: Task) {
    && a.req == b.req && a.serial == b.serial && a.counter == b.counter
    && (a.phase.Parsing? <==> b.phase.Parsing?)
  }

  lemma OrdinaryInit(t: Task)
    requires t.phase.Initialising?
    ensures Ordinary(t, InitReturned(t), true)
  {
  }

  lemma OrdinaryFds(t: Task, ok: bool)
    requires t.phase.Opening?
    ensures Ordinary(t, FdsOpened(t, ok), true)
  {
  }

  lemma OrdinaryRegister(t: Task, ok: bool)
    requires t.phase.Registering?
    ensures Ordinary(t, RegisterTried(t, ok), true)
  {
  }

  lemma OrdinaryAnswer(m: Machine, t: Task, ok: bool)
    requires t.phase.Answering? && t.pid.Some?
    ensures Ordinary(t, AnswerSent(m, t, ok), true)
  {
    hide Refusal, GuardName.Raw;
  }

  lemma OrdinaryClose(t: Task)
    requires t.phase.Closing?
    ensures Ordinary(t, t.(phase := Finished), true)
  {
  }

  lemma OrdinaryRefuse(m: Machine, t: Task, ok: bool)
    requires t.phase.Refusing?
    ensures Ordinary(t, RefusalSent(m, t, ok), true)
  {
    hide Refusal, GuardName.Raw;
  }

  lemma Untouched(t: Task)
    ensures Ordinary(t, t, false)
  {
  }

  lemma LateTask(m: Machine, s: State, a: Action, j: nat)
    requires Enabled(m, s, a) && LateStep(a) && j < |s.tasks|
    ensures a.j < |s.tasks| == |Next(m, s, a).tasks|
    ensures Ordinary(s.tasks[j], Next(m, s, a).tasks[j], a.j == j)
  {
    hide Parsed, Shaken, KernelAllows, Handshake.Enabled, ByMaster, NewTask, Parse, Ordinary;
    hide InitReturned, FdsOpened, RegisterTried, AnswerSent, RefusalSent;
    var t := s.tasks[j];
    if a.j != j {
      Untouched(t);
    } else {
      match a {
        case InitReturns(_) => OrdinaryInit(t);
        case OpenFds(_, ok) => OrdinaryFds(t, ok);
        case Register(_) => OrdinaryRegister(t, t.pid.value in s.registry);
        case Answer(_, ok) => OrdinaryAnswer(m, t, ok);
        case CloseFds(_) => OrdinaryClose(t);
        case Refuse(_, ok) => OrdinaryRefuse(m, t, ok);
      }
    }
  }

  /** Neither a datagram nor the reaper touches what a worker is doing. */
  lemma ReaperKeeps(m: Machine, s: State, a: Action, j: nat)
    requires Enabled(m, s, a) && j < |s.tasks|
    requires a.Arrive? || a.Reap? || a.Unbind? || a.Destroy?
    ensures j < |Next(m, s, a).tasks|
    ensures var t, t' := s.tasks[j], Next(m, s, a).tasks[j];
            SameRequest(t, t') && t'.early == t.early && t'.pid == t.pid
  {
    hide Parsed, Shaken, KernelAllows, Handshake.Enabled, ByMaster, Parse, NewTask, Encoder.Received;
    hide InitReturned, FdsOpened, RegisterTried, AnswerSent, RefusalSent;
  }

  lemma KeepsTasks(m: Machine, s: State, a: Action, j: nat)
    requires Enabled(m, s, a) && (a.Arrive? || a.Destroy?) && j < |s.tasks|
    ensures j < |Next(m, s, a).tasks| && Next(m, s, a).tasks[j] == s.tasks[j]
  {
    hide NewTask, Encoder.Received;
  }

  lemma OrdinaryLost(t: Task, t': Task, d: int)
    requires Lost(t, d) && exists mine :: Ordinary(t, t', mine)
    ensures Lost(t', d)
  {
  }

  /** What the server has noted of a guard's end. */
  predicate SameRecord(a: Task, b: Task) {
    && a.reaped == b.reaped && a.early == b.early && a.releases == b.releases
    && a.unbound == b.unbound && a.unbindFailed == b.unbindFailed
  }

  /** The device of a reaped guard that no later step gives back. */
  predicate Lost(t: Task, d: int) {
    t.reaped && Holds(t, d) && (t.releases == 0 || t.unbindFailed)
  }

  lemma LostTask(m: Machine, t: Task, d: int)
    requires TaskInv(m, t) && Lost(t, d)
    ensures !t.phase.Parsing? && t.hs.guard.Dead?
  {
    hide Parse;
  }

  lemma ParsedKeeps(m: Machine, s: State, t: Task, cfgOk: bool)
    ensures var t' := Parsed(m, s, t, cfgOk);
            && SameRecord(t, t') && t'.pid == t.pid
  {
    hide Parse, GuardName.Counter, Handshake.NewJob;
    match Parse(m, t.req) {
      case Panic =>
      case Err(_) =>
      case Ok(_) =>
    }
  }

  lemma ShakenKeeps(s: State, k: nat, a: Handshake.Action, pid: nat)
    requires k < |s.tasks| && Handshake.Enabled(s.tasks[k].hs, a)
    ensures var tasks, tasks' := s.tasks, Shaken(s, k, a, pid).tasks;
            && |tasks'| == |tasks| && (forall i | 0 <= i < |tasks| && i != k :: tasks'[i] == tasks[i])
            && SameRecord(tasks[k], tasks'[k]) && SameRequest(tasks[k], tasks'[k])
            && (!tasks[k].hs.master.Cloning? ==> tasks'[k].pid == tasks[k].pid)
            && (tasks[k].hs.guard.Dead? ==> tasks'[k].hs.bound == tasks[k].hs.bound)
  {
    hide Handshake.Next, Handshake.Enabled;
    CloneAndBind(s.tasks[k].hs, a);
  }

  lemma CloneAndBind(h: Handshake.Job, a: Handshake.Action)
    requires Handshake.Enabled(h, a)
    ensures a.Clone? ==> h.master.Cloning?
    ensures a.BindLoop? ==> h.guard.LoopChosen?
    ensures h.guard.Dead? ==> Handshake.Next(h, a).bound == h.bound
  {
  }

  lemma LostStays(m: Machine, s: State, a: Action, j: nat, d: int)
    requires Inv(m, s) && Enabled(m, s, a) && j < |s.tasks| && Lost(s.tasks[j], d)
    ensures j < |Next(m, s, a).tasks| && Lost(Next(m, s, a).tasks[j], d)
  {
    hide *;
    match a {
      case ParseReq(_, _) => ParseSparesLost(m, s, a, j, d);
      case Shake(_, _, _) => ShakeSparesLost(m, s, a, j, d);
      case Reap(_) => ReapSparesLost(m, s, a, j, d);
      case Unbind(_) => UnbindSparesLost(m, s, a, j, d);
      case _ => OthersSpareLost(m, s, a, j, d);
    }
  }

  lemma LostIn(m: Machine, s: State, j: nat, d: int)
    requires Inv(m, s) && j < |s.tasks| && Lost(s.tasks[j], d)
    ensures !s.tasks[j].phase.Parsing? && s.tasks[j].hs.guard.Dead?
  {
    hide TaskInv, RegistryInv, LoopInv, ReaperInv, PidsDistinct, Lost;
    LostTask(m, s.tasks[j], d);
  }

  lemma ParseSparesLost(m: Machine, s: State, a: Action, j: nat, d: int)
    requires Inv(m, s) && a.ParseReq? && Enabled(m, s, a) && j < |s.tasks| && Lost(s.tasks[j], d)
    ensures j < |Next(m, s, a).tasks| && Lost(Next(m, s, a).tasks[j], d)
  {
    hide Inv, Parsed, Lost;
    LostIn(m, s, j, d);
  }

  lemma ShakeSparesLost(m: Machine, s: State, a: Action, j: nat, d: int)
    requires Inv(m, s) && a.Shake? && Enabled(m, s, a) && j < |s.tasks| && Lost(s.tasks[j], d)
    ensures j < |Next(m, s, a).tasks| && Lost(Next(m, s, a).tasks[j], d)
  {
    hide Inv, Shaken, Handshake.Enabled, KernelAllows, ByMaster;
    LostIn(m, s, j, d);
    ShakenKeeps(s, a.j, a.step, a.pid);
  }

  lemma OthersSpareLost(m: Machine, s: State, a: Action, j: nat, d: int)
    requires Enabled(m, s, a) && j < |s.tasks| && Lost(s.tasks[j], d)
    requires !a.ParseReq? && !a.Shake? && !a.Reap? && !a.Unbind?
    ensures j < |Next(m, s, a).tasks| && Lost(Next(m, s, a).tasks[j], d)
  {
    hide Next, Enabled, Lost, Ordinary;
    if LateStep(a) {
      LateTask(m, s, a, j);
      OrdinaryLost(s.tasks[j], Next(m, s, a).tasks[j], d);
    } else {
      KeepsTasks(m, s, a, j);
    }
  }

  lemma ReapSparesLost(m: Machine, s: State, a: Action, j: nat, d: int)
    requires Inv(m, s) && a.Reap? && Enabled(m, s, a) && j < |s.tasks| && Lost(s.tasks[j], d)
    ensures j < |Next(m, s, a).tasks| && Next(m, s, a).tasks[j] == s.tasks[j]
  {
    hide TaskInv, RegistryInv, LoopInv, ReaperInv, PidsDistinct;
    EntryOf(m, s, a.j, s.tasks[a.j].pid.value);
  }

  lemma UnbindSparesLost(m: Machine, s: State, a: Action, j: nat, d: int)
    requires Inv(m, s) && a.Unbind? && Enabled(m, s, a) && j < |s.tasks| && Lost(s.tasks[j], d)
    ensures j < |Next(m, s, a).tasks| && Next(m, s, a).tasks[j] == s.tasks[j]
  {
    hide Inv, TaskInv, Holds;
    UnbindOwner(m, s);
    BeingUnbound(m, s);
  }

  lemma {:induction false} LostForever(m: Machine, s: State, acts: seq<Action>, j: nat, d: int)
    requires Inv(m, s) && ValidRun(m, s, acts) && j < |s.tasks| && Lost(s.tasks[j], d)
    ensures StillBound(Run(m, s, acts), j, d)
    decreases |acts|
  {
    hide Inv, Enabled, Next, Lost, StillBound;
    if acts == [] {
      LostIsBound(m, s, j, d);
    } else {
      StepInv(m, s, acts[0]);
      LostStays(m, s, acts[0], j, d);
      LostForever(m, Next(m, s, acts[0]), acts[1..], j, d);
    }
  }

  /** The kernel has device `d` bound, and the guard of task `j` did that. */
  predicate StillBound(s: State, j: nat, d: int) {
    j < |s.tasks| && Holds(s.tasks[j], d) && d in s.loops && s.loops[d] == j
  }

  lemma LostIsBound(m: Machine, s: State, j: nat, d: int)
    requires Inv(m, s) && j < |s.tasks| && Lost(s.tasks[j], d)
    ensures StillBound(s, j, d)
  {
    hide TaskInv, RegistryInv, ReaperInv, PidsDistinct;
    assert s.tasks[j].hs.bound.Some? && !s.tasks[j].unbound;
  }

  lemma ReleaseCases(m: Machine, s: State, j: nat)
    requires Inv(m, s) && j < |s.tasks| && s.reaper != Unbinding(j)
    requires s.tasks[j].reaped && s.tasks[j].hs.bound.Some?
    ensures var t := s.tasks[j];
            if !t.registered || t.early || t.unbindFailed then Lost(t, t.hs.bound.value)
            else !Holds(t, t.hs.bound.value)
  {
    assert TaskInv(m, s.tasks[j]);
    hide RegistryInv, LoopInv, PidsDistinct, TaskInv;
    TaskReleases(m, s.tasks[j]);
  }

  lemma TaskReleases(m: Machine, t: Task)
    requires TaskInv(m, t)
    ensures t.releases == if t.registered && t.reaped && !t.early then 1 else 0
    ensures t.unbound ==> t.releases == 1 && !t.unbindFailed
  {
    hide Parse, Handshake.Inv;
  }

  /** Once the reaper is done with a guard, its device stays bound, in every later state of every
      run, exactly if the guard was never released or the one attempt to unbind failed; never
      released are those that were not registered and those reaped before they were. */
  lemma LeaksExactly(m: Machine, s: State, j: nat)
    requires Reachable(m, s) && j < |s.tasks| && s.reaper != Unbinding(j)
    requires s.tasks[j].reaped && s.tasks[j].hs.bound.Some?
    ensures var t, d := s.tasks[j], s.tasks[j].hs.bound.value as int;
            && (Holds(t, d) <==> !t.registered || t.early || t.unbindFailed)
            && ((forall acts | ValidRun(m, s, acts) :: StillBound(Run(m, s, acts), j, d))
                <==> !t.registered || t.early || t.unbindFailed)
  {
    ReachableInv(m, s);
    ReleaseCases(m, s, j);
    var t, d := s.tasks[j], s.tasks[j].hs.bound.value as int;
    hide Inv, Reachable, Enabled, Next;
    if Lost(t, d) {
      forall acts | ValidRun(m, s, acts) ensures StillBound(Run(m, s, acts), j, d) {
        LostForever(m, s, acts, j, d);
      }
    }
    assert ValidRun(m, s, []) && Run(m, s, []) == s;
    if !Lost(t, d) {
      assert !StillBound(Run(m, s, []), j, d);
    }
  }

  // ---------------------------------------------------------------------
  // The registry

  /** No registration is released twice, and none before its guard is dead and reaped. */
  lemma ReleasedAtMostOnce(m: Machine, s: State, j: nat)
    requires Reachable(m, s) && j < |s.tasks|
    ensures s.tasks[j].releases <= 1
    ensures s.tasks[j].releases == 1 ==> s.tasks[j].registered && s.tasks[j].reaped && s.tasks[j].hs.guard.Dead?
  {
    ReachableInv(m, s);
    hide RegistryInv, LoopInv, PidsDistinct, ReaperInv;
    assert TaskInv(m, s.tasks[j]);
  }

  /** The registered guards the reaper has not processed yet. */
  ghost predicate Pending(s: State, p: nat) {
    exists j: nat :: j < |s.tasks| && s.tasks[j].pid == Some(p) && s.tasks[j].registered && !s.tasks[j].reaped
  }

  ghost predicate NoEarlyReap(s: State) {
    forall j: nat | j < |s.tasks| :: !s.tasks[j].early
  }

  /** The keys of the map are the registered guards not yet released. */
  lemma RegistryKeys(m: Machine, s: State, p: nat)
    requires Reachable(m, s)
    ensures p in s.registry <==>
            exists j: nat :: j < |s.tasks| && s.tasks[j].pid == Some(p) && s.tasks[j].registered
                             && (!s.tasks[j].reaped || s.tasks[j].early)
  {
    ReachableInv(m, s);
    forall j: nat | j < |s.tasks|
      ensures s.tasks[j].registered ==> (s.tasks[j].releases == 0 <==> !s.tasks[j].reaped || s.tasks[j].early)
    {
      hide RegistryInv, LoopInv, PidsDistinct, ReaperInv;
      assert TaskInv(m, s.tasks[j]);
    }
    hide TaskInv, LoopInv, ReaperInv, PidsDistinct;
    if p in s.registry {
      var j := s.registry[p];
      assert s.tasks[j].pid == Some(p) && s.tasks[j].registered && s.tasks[j].releases == 0;
    }
    if j: nat :| j < |s.tasks| && s.tasks[j].pid == Some(p) && s.tasks[j].registered
                 && (!s.tasks[j].reaped || s.tasks[j].early) {
      assert s.tasks[j].releases == 0;
    }
  }

  /** They are exactly the registered guards the reaper has still to process if and only if no
      guard has been reaped before its worker registered it. */
  lemma RegistryExactly(m: Machine, s: State)
    requires Reachable(m, s)
    ensures (forall p: nat :: p in s.registry <==> Pending(s, p)) <==> NoEarlyReap(s)
  {
    if NoEarlyReap(s) {
      forall p: nat ensures p in s.registry <==> Pending(s, p) {
        RegistryKeys(m, s, p);
        if p in s.registry {
          var j: nat :| j < |s.tasks| && s.tasks[j].pid == Some(p) && s.tasks[j].registered
                        && (!s.tasks[j].reaped || s.tasks[j].early);
          assert !s.tasks[j].early;
        }
      }
    } else {
      var j: nat :| j < |s.tasks| && s.tasks[j].early;
      EarlyEntry(m, s, j);
    }
  }

  lemma EarlyEntry(m: Machine, s: State, j: nat)
    requires Reachable(m, s) && j < |s.tasks| && s.tasks[j].early
    ensures s.tasks[j].pid.Some? && s.tasks[j].pid.value in s.registry && !Pending(s, s.tasks[j].pid.value)
    ensures s.tasks[j].registered && s.tasks[j].reaped && s.tasks[j].releases == 0
  {
    ReachableInv(m, s);
    assert TaskInv(m, s.tasks[j]);
    hide TaskInv, LoopInv, ReaperInv;
    var p := s.tasks[j].pid.value;
    RegistryKeys(m, s, p);
    EntryOf(m, s, j, p);
  }

  /** Once every registered guard is reaped, and none was early, the map is empty and each of
      them has been released exactly once. */
  lemma AllReleased(m: Machine, s: State)
    requires Reachable(m, s) && NoEarlyReap(s)
    requires forall j: nat | j < |s.tasks| && s.tasks[j].registered :: s.tasks[j].reaped
    ensures s.registry == map[]
    ensures forall j: nat | j < |s.tasks| :: s.tasks[j].releases == if s.tasks[j].registered then 1 else 0
  {
    RegistryExactly(m, s);
    forall p | p in s.registry ensures false {
      var pending := Pending(s, p);
    }
    ReachableInv(m, s);
    hide RegistryInv, LoopInv, PidsDistinct, ReaperInv;
    forall j: nat | j < |s.tasks| ensures s.tasks[j].releases == if s.tasks[j].registered then 1 else 0 {
      assert TaskInv(m, s.tasks[j]);
    }
  }

  // ---------------------------------------------------------------------
  // Replies

  /** A worker answers at most once, and has answered exactly once when it ends, unless sendmsg
      failed. If parsing, the configuration, `init` or opening the descriptors failed the answer is
      a refusal: pid -1, a name of zeros and no descriptors. Otherwise it carries the guard's pid,
      the counter's bytes as its name, and the descriptors of mnt, pid and user in that order.
      Registration never fails. */
  lemma OneReply(m: Machine, s: State, j: nat)
    requires Reachable(m, s) && j < |s.tasks|
    ensures var t := s.tasks[j];
            && |t.replies| <= 1
            && (t.phase.Finished? ==> |t.replies| == if t.sendFailed then 0 else 1)
            && (t.replies != [] && Fails(m, t) ==> t.replies == [Reply(-1, seq(16, _ => 0), [])])
            && (t.replies != [] && !Fails(m, t) ==>
                  && t.registered && t.pid.Some? && t.hs.master.Succeeded?
                  && t.replies == [Reply(t.pid.value, NativeBytes(m.endian, t.counter, 16), [Mnt, Pid, User])])
            && (t.phase.Registering? && t.pid.Some? ==> t.pid.value !in s.registry)
  {
    ReachableInv(m, s);
    assert TaskInv(m, s.tasks[j]);
    RefusalIs(m);
    hide RegistryInv, LoopInv, PidsDistinct, ReaperInv, Parse;
    if s.tasks[j].phase.Registering? && s.tasks[j].pid.Some? {
      NoOldEntry(m, s, j);
    }
  }

  lemma RefusalIs(m: Machine)
    ensures Refusal(m) == Reply(-1, seq(16, _ => 0), [])
  {
    ZeroBytes(GuardName.NAME_SIZE);
  }

  lemma {:induction false} ZeroBytes(n: nat)
    ensures LittleBytes(0, n) == seq(n, _ => 0)
    ensures Reverse(LittleBytes(0, n)) == seq(n, _ => 0)
  {
    if n > 0 {
      ZeroBytes(n - 1);
    }
  }

  /** A worker that refuses, whatever for, leaves no guard behind: there is none, or it is dead, or
      has only its exit left. */
  lemma NoGuardOutlivesARefusal(m: Machine, s: State, j: nat)
    requires Reachable(m, s) && j < |s.tasks|
    requires s.tasks[j].phase.Refusing? || s.tasks[j].phase.Finished?
    ensures Fails(m, s.tasks[j]) ==> Gone(s.tasks[j].hs.guard)
    ensures !Gone(s.tasks[j].hs.guard) ==> s.tasks[j].registered
  {
    TaskOf(m, s, j);
    hide Reachable, Parse, Handshake.Inv;
  }

  /** A worker dies without an answer exactly on the requests that make the parser panic, so
      never with a 64-bit `usize`. */
  lemma SilentDeathExactly(m: Machine, s: State, j: nat)
    requires Reachable(m, s) && j < |s.tasks| && !s.tasks[j].phase.Parsing?
    ensures s.tasks[j].phase.Panicked? <==> Parse(m, s.tasks[j].req).Panic?
    ensures m.word.Word64? ==> !s.tasks[j].phase.Panicked?
  {
    TaskOf(m, s, j);
    if m.word.Word64? {
      ParserProperties.NoPanicOn64(m, s.tasks[j].req);
    }
  }

  // ---------------------------------------------------------------------
  // Order across the processes

  /** If a client ever runs its app on a reply of the server, then before that reply, in this
      order, the guard had left the user namespace, uid_map was written, setgroups denied, gid_map
      written, and the guard registered. */
  lemma AppRunsOnlyWhenReady(m: Machine, s: State, j: nat, env: Environment)
    returns (unshared: nat, uidMap: nat, denied: nat, gidMap: nat, registered: nat, answered: nat)
    requires Reachable(m, s) && j < |s.tasks|
    requires env.Valid() && env.received.Some? && env.received.value in s.tasks[j].replies
    requires AppRuns(env)
    ensures unshared < uidMap < denied < gidMap < registered < answered < |s.tasks[j].hs.log|
    ensures var log := s.tasks[j].hs.log;
            && log[unshared] == Handshake.Did(Handshake.UnshareUser) && log[uidMap] == Handshake.UidMap
            && log[denied] == Handshake.Deny && log[gidMap] == Handshake.GidMap
            && log[registered] == Handshake.Registered && log[answered] == Handshake.Answered
    ensures s.tasks[j].hs.done == Handshake.STAGES && s.tasks[j].hs.loopId.Some?
  {
    hide Reachable, TaskInv, AppRuns, Handshake.Ordered, Handshake.Prerequisites;
    var t := s.tasks[j];
    TaskOf(m, s, j);
    RunNeedsPid(env);
    ReadyTask(m, t, env.received.value);
    var log := t.hs.log;
    LastEvents(t.hs.gid);
    answered :| 0 <= answered < |log| && log[answered] == Handshake.Answered;
    registered := Before(t.hs.gid, log, answered, Handshake.Registered);
    gidMap := Before(t.hs.gid, log, registered, Handshake.GidMap);
    denied := Before(t.hs.gid, log, gidMap, Handshake.Deny);
    uidMap := Before(t.hs.gid, log, denied, Handshake.UidMap);
    unshared := Before(t.hs.gid, log, uidMap, Handshake.Did(Handshake.UnshareUser));
  }

  lemma RunNeedsPid(env: Environment)
    requires env.Valid() && AppRuns(env)
    ensures env.received.Some? && env.received.value.guardPid >= 0
  {
  }

  lemma ReadyTask(m: Machine, t: Task, reply: Reply)
    requires TaskInv(m, t) && reply in t.replies && reply.guardPid >= 0
    ensures Handshake.Answered in t.hs.log && Handshake.Ordered(t.hs.gid, t.hs.log) && t.hs.gid.Some?
    ensures t.hs.done == Handshake.STAGES && t.hs.loopId.Some?
  {
    if !Fails(m, t) {
      assert t.registered && t.hs.master.Succeeded?;
      ParserProperties.GidAlwaysPresent(m, t.req);
    }
  }

  lemma LastEvents(gid: Option<nat>)
    requires gid.Some?
    ensures Handshake.Registered in Handshake.Prerequisites(gid, Handshake.Answered)
    ensures Handshake.GidMap in Handshake.Prerequisites(gid, Handshake.Registered)
    ensures Handshake.Deny in Handshake.Prerequisites(gid, Handshake.GidMap)
    ensures Handshake.UidMap in Handshake.Prerequisites(gid, Handshake.Deny)
    ensures Handshake.Did(Handshake.UnshareUser) in Handshake.Prerequisites(gid, Handshake.UidMap)
  {
  }

  lemma Before(gid: Option<nat>, log: seq<Handshake.Event>, i: nat, e: Handshake.Event) returns (k: nat)
    requires Handshake.Ordered(gid, log) && i < |log|
    requires e in Handshake.Prerequisites(gid, log[i])
    ensures k < i && log[k] == e
  {
    assert e in log[..i];
    k :| 0 <= k < i && log[..i][k] == e;
  }

  /** And the descriptors of such a reply come in an order in which all of them can be entered. */
  lemma RepliesCanBeEntered(m: Machine, s: State, j: nat, reply: Reply)
    requires Reachable(m, s) && j < |s.tasks| && reply in s.tasks[j].replies
    ensures reply.fds == [] || UserOnlyLast(reply.fds)
    ensures reply.fds == [] <==> reply.guardPid == -1
  {
    OneReply(m, s, j);
    hide Reachable, Fails;
    assert reply == s.tasks[j].replies[0];
    assert [Mnt, Pid, User] == NS;
    ServerOrder();
  }

  /** What a client makes of the answer: a refusal is reported as `ROCKER_ERR_build_rocker_failed`
      and as nothing else, and a guard that was built never is. */
  lemma RefusalReported(m: Machine, s: State, j: nat, env: Environment, e: ClientError)
    requires Reachable(m, s) && j < |s.tasks|
    requires env.Valid() && Replied(env) && env.received.value in s.tasks[j].replies
    requires Reports(env, e)
    ensures e == BuildRockerFailed <==> Fails(m, s.tasks[j])
    ensures e == BuildRockerFailed || e == EnterRockerFailed || e == AppExecFailed || e == Success
    ensures !Fails(m, s.tasks[j]) && true !in env.broken && env.cloneOk ==> e == Success
  {
    var reply := env.received.value;
    RepliesCanBeEntered(m, s, j, reply);
    OneReply(m, s, j);
    hide Reachable, Fails, Answers, UserOnlyLast;
    assert reply == s.tasks[j].replies[0];
    if reply.fds != [] && true !in env.broken {
      EnteredExactly(reply.fds, env.broken);
    }
  }

  // ---------------------------------------------------------------------
  // Progress

  /** The steps of worker `j`. */
  predicate ByWorker(a: Action, j: nat) {
    match a
    case ParseReq(k, _) => k == j
    case Shake(k, step, _) => k == j && ByMaster(step)
    case InitReturns(k) => k == j
    case OpenFds(k, _) => k == j
    case Register(k) => k == j
    case Answer(k, _) => k == j
    case CloseFds(k) => k == j
    case Refuse(k, _) => k == j
    case _ => false
  }

  function WorkerSteps(acts: seq<Action>, j: nat): nat {
    if acts == [] then 0 else (if ByWorker(acts[0], j) then 1 else 0) + WorkerSteps(acts[1..], j)
  }

  const MAX_WORKER_STEPS: nat := 13

  function TaskRank(t: Task): nat {
    PhaseRank(t.phase) + if t.phase.Parsing? || t.phase.Initialising? then Handshake.MasterRank(t.hs.master) else 0
  }

  /** How many steps worker `j` can still take; all of them, if its datagram has yet to arrive. */
  function WorkerRank(s: State, j: nat): nat {
    if j < |s.tasks| then TaskRank(s.tasks[j]) else MAX_WORKER_STEPS
  }

  lemma ShakeRank(h: Handshake.Job, a: Handshake.Action)
    requires Handshake.Enabled(h, a)
    ensures var before, after := Handshake.MasterRank(h.master), Handshake.MasterRank(Handshake.Next(h, a).master);
            after + (if ByMaster(a) then 1 else 0) <= before || (!ByMaster(a) && after == before)
  {
  }

  lemma ParsedRank(m: Machine, s: State, t: Task, cfgOk: bool)
    requires TaskInv(m, t) && t.phase.Parsing?
    ensures TaskRank(Parsed(m, s, t, cfgOk)) < TaskRank(t)
  {
    hide Parse, GuardName.Counter, Handshake.Inv, ReplyInv;
    match Parse(m, t.req) {
      case Panic =>
      case Err(_) =>
      case Ok(_) =>
    }
  }

  lemma NewRank(req: seq<byte>)
    ensures TaskRank(NewTask(req)) == MAX_WORKER_STEPS
  {
  }

  /** Its own steps use up the rank of a worker, and no step of anything else adds to it. */
  lemma RankStep(m: Machine, s: State, a: Action, j: nat)
    requires Inv(m, s) && Enabled(m, s, a)
    ensures WorkerRank(Next(m, s, a), j) + (if ByWorker(a, j) then 1 else 0) <= WorkerRank(s, j)
  {
    hide Inv, Next, Enabled, WorkerRank, ByWorker;
    if |s.tasks| <= j {
      AbsentRank(m, s, a, j);
      return;
    }
    match a {
      case ParseReq(_, _) => ParseRank(m, s, a, j);
      case Shake(_, _, _) => ShakenRank(m, s, a, j);
      case Arrive(_) => ArriveRank(m, s, a, j);
      case Reap(_) => ReaperRank(m, s, a, j);
      case Unbind(_) => ReaperRank(m, s, a, j);
      case Destroy(_) => ReaperRank(m, s, a, j);
      case _ => LateRank(m, s, a, j);
    }
  }

  lemma ParseRank(m: Machine, s: State, a: Action, j: nat)
    requires Inv(m, s) && a.ParseReq? && Enabled(m, s, a)
    ensures WorkerRank(Next(m, s, a), j) + (if ByWorker(a, j) then 1 else 0) <= WorkerRank(s, j)
  {
    hide TaskInv, RegistryInv, LoopInv, ReaperInv, PidsDistinct, Parsed, TaskRank;
    ParsedRank(m, s, s.tasks[a.j], a.cfgOk);
  }

  lemma ShakenRank(m: Machine, s: State, a: Action, j: nat)
    requires a.Shake? && Enabled(m, s, a)
    ensures WorkerRank(Next(m, s, a), j) + (if ByWorker(a, j) then 1 else 0) <= WorkerRank(s, j)
  {
    hide Handshake.Next, Handshake.MasterRank, Handshake.Enabled, KernelAllows, ByMaster;
    ShakeRank(s.tasks[a.j].hs, a.step);
  }

  lemma ArriveRank(m: Machine, s: State, a: Action, j: nat)
    requires a.Arrive? && j < |s.tasks|
    ensures WorkerRank(Next(m, s, a), j) == WorkerRank(s, j) && !ByWorker(a, j)
  {
    hide TaskRank, NewTask, Encoder.Received;
  }

  lemma LateRank(m: Machine, s: State, a: Action, j: nat)
    requires Enabled(m, s, a) && LateStep(a) && j < |s.tasks|
    ensures WorkerRank(Next(m, s, a), j) + (if ByWorker(a, j) then 1 else 0) <= WorkerRank(s, j)
  {
    hide Next, Enabled, PhaseRank, Handshake.MasterRank;
    LateTask(m, s, a, j);
  }

  /** A worker that is not there yet takes no step. */
  lemma AbsentRank(m: Machine, s: State, a: Action, j: nat)
    requires Enabled(m, s, a) && |s.tasks| <= j
    ensures WorkerRank(Next(m, s, a), j) + (if ByWorker(a, j) then 1 else 0) <= WorkerRank(s, j)
  {
    hide Parsed, Handshake.Next, Handshake.Enabled, KernelAllows, NewTask, Parse, TaskRank;
    hide InitReturned, FdsOpened, RegisterTried, AnswerSent, RefusalSent, Encoder.Received;
    if a.Arrive? {
      NewRank(Encoder.Received(a.datagram));
    }
  }

  /** The reaper leaves the phase of every worker alone. */
  lemma ReaperRank(m: Machine, s: State, a: Action, j: nat)
    requires Enabled(m, s, a) && (a.Reap? || a.Unbind? || a.Destroy?)
    ensures WorkerRank(Next(m, s, a), j) == WorkerRank(s, j) && !ByWorker(a, j)
  {
    hide Parsed, Shaken, KernelAllows, Handshake.Enabled, ByMaster, NewTask, Parse, PhaseRank, Handshake.MasterRank;
    hide InitReturned, FdsOpened, RegisterTried, AnswerSent, RefusalSent;
  }

  /** No run holds more than thirteen steps of one worker: with `NeverStuck`, every worker that is
      let run ends, and with `OneReply` it has then answered once. */
  lemma {:induction false} WorkerEnds(m: Machine, s: State, acts: seq<Action>, j: nat)
    requires Inv(m, s) && ValidRun(m, s, acts)
    ensures WorkerSteps(acts, j) + WorkerRank(Run(m, s, acts), j) <= WorkerRank(s, j) <= MAX_WORKER_STEPS
    decreases |acts|
  {
    RankBound(m, s, j);
    if acts != [] {
      hide Inv, Enabled, Next, WorkerRank, ByWorker;
      StepInv(m, s, acts[0]);
      RankStep(m, s, acts[0], j);
      WorkerEnds(m, Next(m, s, acts[0]), acts[1..], j);
    }
  }

  lemma RankBound(m: Machine, s: State, j: nat)
    requires Inv(m, s)
    ensures WorkerRank(s, j) <= MAX_WORKER_STEPS
  {
  }

  /** A worker that has not ended has a step of its own, except that a registration may have to
      wait for the reaper, which then has one. */
  lemma NeverStuck(m: Machine, s: State, j: nat) returns (a: Action)
    requires Reachable(m, s) && j < |s.tasks|
    requires !s.tasks[j].phase.Finished? && !s.tasks[j].phase.Panicked?
    ensures Enabled(m, s, a)
    ensures if s.tasks[j].phase.Registering? && !s.reaper.Idle? then a.Unbind? || a.Destroy? else ByWorker(a, j)
  {
    hide Reachable, TaskInv;
    var t := s.tasks[j];
    TaskOf(m, s, j);
    PhaseFacts(m, t);
    ReaperFacts(m, s);
    match t.phase {
      case Parsing => a := ParseReq(j, true);
      case Initialising =>
        if t.hs.master.Succeeded? || t.hs.master.Failed? {
          a := InitReturns(j);
        } else {
          a := MasterStep(m, s, j);
        }
      case Opening => a := OpenFds(j, true);
      case Registering =>
        if s.reaper.Idle? {
          a := Register(j);
        } else if s.reaper.Unbinding? {
          a := Unbind(false);
        } else {
          a := Destroy(false);
        }
      case Answering => a := Answer(j, true);
      case Closing => a := CloseFds(j);
      case Refusing => a := Refuse(j, true);
    }
  }

  /** So wherever a run leaves a worker that can do nothing more, and an idle reaper, that worker
      has sent its one reply, unless sendmsg failed or the parser panicked. */
  lemma QuietIsAnswered(m: Machine, s: State, j: nat)
    requires Reachable(m, s) && j < |s.tasks| && s.reaper.Idle?
    requires forall a | Enabled(m, s, a) :: !ByWorker(a, j)
    ensures var t := s.tasks[j];
            if t.phase.Panicked? then Parse(m, t.req).Panic?
            else t.phase.Finished? && |t.replies| == if t.sendFailed then 0 else 1
  {
    hide Reachable, Enabled, ByWorker, Parse, TaskInv;
    if !s.tasks[j].phase.Finished? && !s.tasks[j].phase.Panicked? {
      var a := NeverStuck(m, s, j);
    }
    OneReply(m, s, j);
    if s.tasks[j].phase.Panicked? {
      SilentDeathExactly(m, s, j);
    }
  }

  lemma PhaseFacts(m: Machine, t: Task)
    requires TaskInv(m, t)
    ensures !t.hs.master.Died?
    ensures t.phase.Opening? || t.phase.Registering? || t.phase.Answering? ==> t.pid.Some?
  {
    hide Parse, Handshake.LogInv, Handshake.GuardInv, Handshake.FailureInv;
  }

  lemma ReaperFacts(m: Machine, s: State)
    requires Reachable(m, s)
    ensures !s.reaper.Idle? ==> s.reaper.task < |s.tasks|
  {
    hide TaskInv, RegistryInv, LoopInv, PidsDistinct;
    ReachableInv(m, s);
  }

  lemma MasterStep(m: Machine, s: State, j: nat) returns (a: Action)
    requires j < |s.tasks| && s.tasks[j].phase.Initialising?
    requires var master := s.tasks[j].hs.master; !master.Succeeded? && !master.Failed? && !master.Died?
    ensures Enabled(m, s, a) && ByWorker(a, j)
  {
    var h := s.tasks[j].hs;
    var step;
    match h.master {
      case NewSocket => step := Handshake.SocketPair(false);
      case Cloning => step := Handshake.Clone(false);
      case RecvLoop => step := Handshake.RecvFail;
      case RecvErrno => step := Handshake.RecvFail;
      case WriteUid => step := Handshake.WriteUidMap(false);
      case WriteDeny => step := Handshake.WriteSetgroups(false);
      case WriteGid => step := Handshake.WriteGidMap(false);
    }
    assert Handshake.Enabled(h, step);
    a := Shake(j, step, 0);
  }
}
