/** Every step of the server keeps the invariant. */
module ServerInvariant {
  import opened Bytes
  import Parser
  import Encoder
  import GuardName
  import Handshake
  import opened Server

  // ---------------------------------------------------------------------
  // What a step of one task leaves alone, part by part

  predicate OnlyTask(s: State, s': State, j: nat) {
    j < |s.tasks| == |s'.tasks| && s'.tasks == s.tasks[j := s'.tasks[j]]
  }

  lemma TasksKept(m: Machine, s: State, s': State, j: nat)
    requires Inv(m, s) && OnlyTask(s, s', j) && TaskInv(m, s'.tasks[j])
    ensures forall k | 0 <= k < |s'.tasks| :: TaskInv(m, s'.tasks[k])
  {
    hide TaskInv, RegistryInv, LoopInv, ReaperInv, PidsDistinct;
    forall k | 0 <= k < |s'.tasks| ensures TaskInv(m, s'.tasks[k]) {
      assert k != j ==> s'.tasks[k] == s.tasks[k];
    }
  }

  lemma PidsKept(s: State, s': State, j: nat)
    requires PidsDistinct(s.tasks) && OnlyTask(s, s', j)
    requires s'.tasks[j].pid == s.tasks[j].pid
    ensures PidsDistinct(s'.tasks)
  {
    assert forall k | 0 <= k < |s.tasks| :: s'.tasks[k].pid == s.tasks[k].pid;
  }

  lemma RegistryKept(s: State, s': State, j: nat)
    requires RegistryInv(s) && OnlyTask(s, s', j) && s'.registry == s.registry
    requires var t, t' := s.tasks[j], s'.tasks[j];
             && t'.registered == t.registered && t'.releases == t.releases
             && (t'.pid == t.pid || !t.registered)
    ensures RegistryInv(s')
  {
    forall k | 0 <= k < |s.tasks|
      ensures s'.tasks[k].registered == s.tasks[k].registered && s'.tasks[k].releases == s.tasks[k].releases
      ensures s.tasks[k].registered ==> s'.tasks[k].pid == s.tasks[k].pid
    {
    }
  }

  lemma LoopsKept(s: State, s': State, j: nat)
    requires LoopInv(s) && OnlyTask(s, s', j) && s'.loops == s.loops && s.devices <= s'.devices
    requires s'.tasks[j].hs.bound == s.tasks[j].hs.bound && s'.tasks[j].unbound == s.tasks[j].unbound
    ensures LoopInv(s')
  {
    forall k | 0 <= k < |s.tasks|
      ensures s'.tasks[k].hs.bound == s.tasks[k].hs.bound && s'.tasks[k].unbound == s.tasks[k].unbound
    {
    }
  }

  lemma ReaperKept(s: State, s': State, j: nat)
    requires ReaperInv(s) && OnlyTask(s, s', j) && s'.reaper == s.reaper
    requires s'.tasks[j].releases == s.tasks[j].releases
    requires s'.tasks[j].unbound == s.tasks[j].unbound && s'.tasks[j].unbindFailed == s.tasks[j].unbindFailed
    ensures ReaperInv(s')
  {
    forall k | 0 <= k < |s.tasks|
      ensures s'.tasks[k].releases == s.tasks[k].releases
      ensures s'.tasks[k].unbound == s.tasks[k].unbound && s'.tasks[k].unbindFailed == s.tasks[k].unbindFailed
    {
    }
  }

  /** What the global parts of the invariant see of a task. */
  predicate SameFace(a: Task, b: Task) {
    && a.pid == b.pid && a.registered == b.registered && a.releases == b.releases
    && a.hs.bound == b.hs.bound && a.unbound == b.unbound && a.unbindFailed == b.unbindFailed
  }

  /** A step of one task that the rest of the server cannot see. */
  lemma LocalStep(m: Machine, s: State, s': State, j: nat)
    requires Inv(m, s) && OnlyTask(s, s', j)
    requires TaskInv(m, s'.tasks[j]) && SameFace(s.tasks[j], s'.tasks[j])
    requires s'.loops == s.loops && s.devices <= s'.devices && s'.registry == s.registry && s'.reaper == s.reaper
    ensures Inv(m, s')
  {
    TasksKept(m, s, s', j);
    hide TaskInv, RegistryInv, LoopInv, ReaperInv, PidsDistinct;
    PidsKept(s, s', j);
    RegistryKept(s, s', j);
    LoopsKept(s, s', j);
    ReaperKept(s, s', j);
  }

  // ---------------------------------------------------------------------
  // The steps

  lemma NewTaskInv(m: Machine, req: seq<byte>)
    requires |req| <= Encoder.RECV_BUFFER
    ensures TaskInv(m, NewTask(req))
  {
  }

  /** A task that nothing in the server refers to yet. */
  lemma TaskAppended(s: State, t: Task)
    requires PidsDistinct(s.tasks) && RegistryInv(s) && LoopInv(s) && ReaperInv(s)
    requires t.pid.None? && !t.registered && t.releases == 0 && t.hs.bound.None?
    ensures var s' := s.(tasks := s.tasks + [t]);
            PidsDistinct(s'.tasks) && RegistryInv(s') && LoopInv(s') && ReaperInv(s')
  {
  }

  lemma ArriveStep(m: Machine, s: State, datagram: seq<byte>)
    requires Inv(m, s)
    ensures Inv(m, Next(m, s, Arrive(datagram)))
  {
    var t := NewTask(Encoder.Received(datagram));
    assert t.pid.None? && !t.registered && t.releases == 0 && t.hs.bound.None?;
    hide TaskInv, RegistryInv, LoopInv, ReaperInv, PidsDistinct, NewTask, Encoder.Received;
    NewTaskInv(m, Encoder.Received(datagram));
    TaskAppended(s, t);
  }

  lemma ParseStep(m: Machine, s: State, a: Action)
    requires Inv(m, s) && a.ParseReq? && Enabled(m, s, a)
    ensures Inv(m, Next(m, s, a))
  {
    hide Parser.Parse;
    var t := s.tasks[a.j];
    assert TaskInv(m, t);
    var s' := Next(m, s, a);
    assert TaskInv(m, s'.tasks[a.j]);
    LocalStep(m, s, s', a.j);
  }

  /** The handshake's own invariant survives; what the server sees of it changes in two steps only. */
  lemma ShakenTask(m: Machine, s: State, a: Action)
    requires Inv(m, s) && a.Shake? && Enabled(m, s, a)
    ensures var t, t' := s.tasks[a.j], Next(m, s, a).tasks[a.j];
            && TaskInv(m, t')
            && Next(m, s, a).tasks == s.tasks[a.j := t']
            && t'.registered == t.registered && t'.releases == t.releases && t'.unbound == t.unbound
            && t'.unbindFailed == t.unbindFailed
            && (!(a.step.Clone? && a.step.ok) ==> t'.pid == t.pid)
            && (!(a.step.BindLoop? && a.step.ok) ==> t'.hs.bound == t.hs.bound)
            && (a.step.Clone? && a.step.ok ==> t.pid.None? && t'.pid == Some(a.pid) && !t.registered)
            && (a.step.BindLoop? && a.step.ok ==>
                  t.hs.bound.None? && t'.hs.bound == Some(t.hs.guard.id) && !t'.unbound)
  {
    hide TaskInv, RegistryInv, LoopInv, ReaperInv, PidsDistinct, Handshake.Next, Handshake.Enabled;
    var t := s.tasks[a.j];
    ShakenTaskInv(m, t, a.step, if a.step.Clone? && a.step.ok then Some(a.pid) else t.pid);
    ShakenFacts(m, t, a.step);
  }

  lemma ShakenFacts(m: Machine, t: Task, a: Handshake.Action)
    requires TaskInv(m, t) && Handshake.Enabled(t.hs, a)
    ensures var h' := Handshake.Next(t.hs, a);
            && (!(a.BindLoop? && a.ok) ==> h'.bound == t.hs.bound)
            && (a.BindLoop? && a.ok ==> t.hs.bound.None? && h'.bound == Some(t.hs.guard.id) && !t.unbound)
            && (a.Clone? && a.ok ==> t.pid.None? && !t.registered)
  {
    hide Parser.Parse, Handshake.Inv, Handshake.Next, PhaseInv, ReplyInv;
    ShakeFacts(t.hs, a);
  }

  lemma ShakenTaskInv(m: Machine, t: Task, a: Handshake.Action, pid: Option<nat>)
    requires TaskInv(m, t) && Handshake.Enabled(t.hs, a) && (ByMaster(a) ==> t.phase.Initialising?)
    requires if a.Clone? && a.ok then pid.Some? else pid == t.pid
    ensures TaskInv(m, t.(hs := Handshake.Next(t.hs, a), pid := pid))
  {
    hide Parser.Parse, Handshake.Inv, Handshake.Next, Handshake.Enabled;
    ShakeFacts(t.hs, a);
    var t' := t.(hs := Handshake.Next(t.hs, a), pid := pid);
    assert Fails(m, t') <==> Fails(m, t) || t'.hs.master.Failed?;
  }

  /** What the server needs to know of a step of the handshake. */
  lemma ShakeFacts(h: Handshake.Job, a: Handshake.Action)
    requires Handshake.Inv(h) && Handshake.Enabled(h, a)
    ensures var h' := Handshake.Next(h, a);
            && Handshake.Inv(h')
            && h' != Handshake.NewJob(None)
            && (!ByMaster(a) ==> h'.master == h.master)
            && (ByMaster(a) ==> !h.master.Failed? && !h.master.Succeeded?)
            && (h.guard.Absent? && !(a.Clone? && a.ok) <==> h'.guard.Absent?)
            && (a.Clone? && a.ok ==> h.guard.Absent? && !h.master.Succeeded?)
            && (h.guard.Dead? ==> h'.guard.Dead?)
            && (Gone(h.guard) && !ByMaster(a) ==> Gone(h'.guard))
            && (!(a.BindLoop? && a.ok) ==> h'.bound == h.bound)
            && (a.BindLoop? && a.ok ==> h.bound.None? && h'.bound == Some(h.guard.id))
            && h.log <= h'.log
            && h.gid == h'.gid
            && (h.guard.Absent? || h.master.Succeeded? || h.master.Failed? ==> ByMaster(a) == h.guard.Absent?)
  {
    hide Handshake.Ordered, Handshake.LogInv, Handshake.FailureInv, Handshake.SentInv, Handshake.SentAfter;
    Handshake.StepInv(h, a);
    StepFrame(h, a);
  }

  lemma StepFrame(h: Handshake.Job, a: Handshake.Action)
    requires Handshake.Enabled(h, a)
    ensures var h' := Handshake.Next(h, a);
            && (!ByMaster(a) ==> h'.master == h.master)
            && (ByMaster(a) ==> !h.master.Failed? && !h.master.Succeeded?)
            && (h.guard.Dead? ==> h'.guard.Dead? || a.Clone?)
            && (Gone(h.guard) && !ByMaster(a) ==> Gone(h'.guard))
            && (!(a.BindLoop? && a.ok) ==> h'.bound == h.bound)
            && h.log <= h'.log && h.gid == h'.gid
  {
  }

  lemma CloneStep(m: Machine, s: State, a: Action)
    requires Inv(m, s) && a.Shake? && Enabled(m, s, a)
    requires a.step.Clone? && a.step.ok
    ensures Inv(m, Next(m, s, a))
  {
    var s' := Next(m, s, a);
    ShakenTask(m, s, a);
    FreshPid(s, s', a.j, a.pid);
    hide TaskInv, RegistryInv, LoopInv, ReaperInv, PidsDistinct;
    TasksKept(m, s, s', a.j);
    RegistryKept(s, s', a.j);
    LoopsKept(s, s', a.j);
    ReaperKept(s, s', a.j);
  }

  lemma FreshPid(s: State, s': State, j: nat, pid: nat)
    requires PidsDistinct(s.tasks) && OnlyTask(s, s', j) && s'.tasks[j].pid == Some(pid)
    requires forall k | 0 <= k < |s.tasks| :: s.tasks[k].pid != Some(pid)
    ensures PidsDistinct(s'.tasks)
  {
    assert forall k | 0 <= k < |s.tasks| && k != j :: s'.tasks[k].pid == s.tasks[k].pid;
  }

  lemma BindStep(m: Machine, s: State, a: Action)
    requires Inv(m, s) && a.Shake? && Enabled(m, s, a)
    requires a.step.BindLoop? && a.step.ok
    ensures Inv(m, Next(m, s, a))
  {
    var s' := Next(m, s, a);
    ShakenTask(m, s, a);
    NewBinding(s, s', a.j, s.tasks[a.j].hs.guard.id);
    hide TaskInv, RegistryInv, LoopInv, ReaperInv, PidsDistinct;
    TasksKept(m, s, s', a.j);
    PidsKept(s, s', a.j);
    RegistryKept(s, s', a.j);
    ReaperKept(s, s', a.j);
  }

  lemma NewBinding(s: State, s': State, j: nat, id: nat)
    requires LoopInv(s) && OnlyTask(s, s', j)
    requires s.tasks[j].hs.bound.None? && Holds(s'.tasks[j], id)
    requires id as int in s.devices && id as int !in s.loops
    requires s'.loops == s.loops[id as int := j] && s'.devices == s.devices
    ensures LoopInv(s')
  {
    assert forall k | 0 <= k < |s.tasks| && k != j :: s'.tasks[k] == s.tasks[k];
  }

  lemma ShakeStep(m: Machine, s: State, a: Action)
    requires Inv(m, s) && a.Shake? && Enabled(m, s, a)
    ensures Inv(m, Next(m, s, a))
  {
    if a.step.Clone? && a.step.ok {
      CloneStep(m, s, a);
    } else if a.step.BindLoop? && a.step.ok {
      BindStep(m, s, a);
    } else {
      hide TaskInv, Inv, Next, Enabled;
      ShakenTask(m, s, a);
      QuietShake(m, s, a);
      LocalStep(m, s, Next(m, s, a), a.j);
    }
  }

  lemma QuietShake(m: Machine, s: State, a: Action)
    requires a.Shake? && Enabled(m, s, a) && !(a.step.BindLoop? && a.step.ok)
    ensures var s' := Next(m, s, a);
            && a.j < |s.tasks| && s'.loops == s.loops && s.devices <= s'.devices
            && s'.registry == s.registry && s'.reaper == s.reaper
  {
    hide Handshake.Next, Handshake.Enabled, KernelAllows;
  }

  lemma InitReturnsStep(m: Machine, s: State, a: Action)
    requires Inv(m, s) && a.InitReturns? && Enabled(m, s, a)
    ensures Inv(m, Next(m, s, a))
  {
    hide TaskInv, RegistryInv, LoopInv, ReaperInv, PidsDistinct, InitReturned;
    hide Parsed, Shaken, KernelAllows, Handshake.Enabled, ByMaster;
    InitTask(m, s.tasks[a.j]);
    LocalStep(m, s, Next(m, s, a), a.j);
  }

  lemma InitTask(m: Machine, t: Task)
    requires TaskInv(m, t) && t.phase.Initialising?
    requires t.hs.master.Succeeded? || t.hs.master.Failed? || t.hs.master.Died?
    ensures TaskInv(m, InitReturned(t)) && SameFace(t, InitReturned(t))
  {
    hide Parser.Parse, Handshake.GuardInv, Handshake.LogInv, Handshake.FailureInv;
  }

  lemma OpenFdsTask(m: Machine, t: Task, ok: bool)
    requires TaskInv(m, t) && t.phase.Opening?
    ensures TaskInv(m, FdsOpened(t, ok)) && SameFace(t, FdsOpened(t, ok))
  {
    hide Parser.Parse, Handshake.Inv;
    InvFacts(t.hs);
    if Handshake.Alive(t.hs.guard) {
      Handshake.StepInv(t.hs, Handshake.Killed);
    }
  }

  lemma InvFacts(h: Handshake.Job)
    requires Handshake.Inv(h) && h.master.Succeeded?
    ensures !h.guard.Absent?
  {
  }

  lemma OpenFdsStep(m: Machine, s: State, a: Action)
    requires Inv(m, s) && a.OpenFds? && Enabled(m, s, a)
    ensures Inv(m, Next(m, s, a))
  {
    hide TaskInv, RegistryInv, LoopInv, ReaperInv, PidsDistinct, FdsOpened;
    hide Parsed, Shaken, KernelAllows, Handshake.Enabled, ByMaster;
    OpenFdsTask(m, s.tasks[a.j], a.ok);
    LocalStep(m, s, Next(m, s, a), a.j);
  }

  lemma LogStep(t: Task, e: Handshake.Event)
    requires Handshake.Inv(t.hs) && t.hs.master.Succeeded?
    requires e == Handshake.Registered || (e == Handshake.Answered && Handshake.Registered in t.hs.log)
    ensures Handshake.Inv(Log(t, e))
  {
    Handshake.OrderedAppend(t.hs.gid, t.hs.log, e);
  }

  /** The pid is fresh, so registration never meets an old entry. */
  lemma NoOldEntry(m: Machine, s: State, j: nat)
    requires Inv(m, s) && j < |s.tasks| && s.tasks[j].pid.Some? && !s.tasks[j].registered
    ensures s.tasks[j].pid.value !in s.registry
  {
    EntryOf(m, s, j, s.tasks[j].pid.value);
  }

  lemma RegisteredTask(m: Machine, t: Task)
    requires TaskInv(m, t) && t.phase.Registering?
    ensures TaskInv(m, t.(phase := Answering, registered := true, early := t.reaped,
                          hs := Log(t, Handshake.Registered)))
    ensures t.releases == 0 && !t.registered
  {
    hide Parser.Parse, Handshake.Inv;
    LogStep(t, Handshake.Registered);
  }

  lemma NewEntry(s: State, s': State, j: nat, p: nat)
    requires RegistryInv(s) && OnlyTask(s, s', j) && s'.registry == s.registry[p := j]
    requires p !in s.registry && s'.tasks[j].pid == Some(p)
    requires !s.tasks[j].registered && s'.tasks[j].registered && s'.tasks[j].releases == 0
    ensures RegistryInv(s')
  {
    assert forall k | 0 <= k < |s.tasks| && k != j :: s'.tasks[k] == s.tasks[k];
  }

  lemma RegisterStep(m: Machine, s: State, a: Action)
    requires Inv(m, s) && a.Register? && Enabled(m, s, a)
    ensures Inv(m, Next(m, s, a))
  {
    var t, s' := s.tasks[a.j], Next(m, s, a);
    RegisteredTask(m, t);
    NoOldEntry(m, s, a.j);
    NewEntry(s, s', a.j, t.pid.value);
    hide TaskInv, RegistryInv, LoopInv, ReaperInv, PidsDistinct;
    TasksKept(m, s, s', a.j);
    PidsKept(s, s', a.j);
    LoopsKept(s, s', a.j);
    ReaperKept(s, s', a.j);
  }

  lemma AnswerTask(m: Machine, t: Task, ok: bool)
    requires TaskInv(m, t) && t.phase.Answering? && t.pid.Some?
    ensures TaskInv(m, AnswerSent(m, t, ok)) && SameFace(t, AnswerSent(m, t, ok))
  {
    hide Parser.Parse, Handshake.Inv, GuardName.Raw;
    LogStep(t, Handshake.Answered);
  }

  lemma AnswerStep(m: Machine, s: State, a: Action)
    requires Inv(m, s) && a.Answer? && Enabled(m, s, a)
    ensures Inv(m, Next(m, s, a))
  {
    hide TaskInv, RegistryInv, LoopInv, ReaperInv, PidsDistinct, AnswerSent;
    hide Parsed, Shaken, KernelAllows, Handshake.Enabled, ByMaster;
    AnswerTask(m, s.tasks[a.j], a.ok);
    LocalStep(m, s, Next(m, s, a), a.j);
  }

  lemma EndTask(m: Machine, t: Task, ok: bool)
    requires TaskInv(m, t)
    ensures t.phase.Closing? ==> TaskInv(m, t.(phase := Finished))
    ensures t.phase.Refusing? ==> TaskInv(m, RefusalSent(m, t, ok)) && SameFace(t, RefusalSent(m, t, ok))
  {
    hide Parser.Parse, Handshake.Inv, Refusal;
  }

  lemma EndStep(m: Machine, s: State, a: Action)
    requires Inv(m, s) && (a.CloseFds? || a.Refuse?) && Enabled(m, s, a)
    ensures Inv(m, Next(m, s, a))
  {
    hide TaskInv, RegistryInv, LoopInv, ReaperInv, PidsDistinct, RefusalSent;
    hide Parsed, Shaken, KernelAllows, Handshake.Enabled, ByMaster;
    EndTask(m, s.tasks[a.j], a.Refuse? && a.ok);
    LocalStep(m, s, Next(m, s, a), a.j);
  }

  lemma ReapedTask(m: Machine, t: Task, release: bool)
    requires TaskInv(m, t) && t.hs.guard.Dead? && !t.reaped
    requires release == t.registered
    ensures t.releases == 0 && !t.unbound && !t.unbindFailed
    ensures TaskInv(m, t.(reaped := true, releases := if release then t.releases + 1 else t.releases))
  {
    hide Parser.Parse, Handshake.Inv;
  }

  lemma EntryRemoved(s: State, s': State, j: nat, p: nat)
    requires RegistryInv(s) && OnlyTask(s, s', j) && s'.registry == s.registry - {p}
    requires p in s.registry && s.registry[p] == j && s'.tasks[j].releases == 1
    requires forall k | 0 <= k < |s.tasks| && k != j :: s.tasks[k].pid != Some(p)
    ensures RegistryInv(s')
  {
    assert forall k | 0 <= k < |s.tasks| && k != j :: s'.tasks[k] == s.tasks[k];
  }

  lemma EntryOf(m: Machine, s: State, j: nat, p: nat)
    requires Inv(m, s) && j < |s.tasks| && s.tasks[j].pid == Some(p)
    ensures forall k | 0 <= k < |s.tasks| && k != j :: s.tasks[k].pid != Some(p)
    ensures p in s.registry ==> s.registry[p] == j && s.tasks[j].registered && s.tasks[j].releases == 0
    ensures p !in s.registry ==> !s.tasks[j].registered || s.tasks[j].releases != 0
  {
    hide TaskInv, LoopInv, ReaperInv;
    forall k | 0 <= k < |s.tasks| && k != j ensures s.tasks[k].pid != Some(p) {
      assert k < j || j < k;
    }
  }

  lemma ReleaseStarts(s: State, s': State, j: nat)
    requires ReaperInv(s) && s.reaper.Idle? && OnlyTask(s, s', j) && s'.reaper == Unbinding(j)
    requires s'.tasks[j].releases == 1 && !s'.tasks[j].unbound && !s'.tasks[j].unbindFailed
    ensures ReaperInv(s')
  {
    assert forall k | 0 <= k < |s.tasks| && k != j :: s'.tasks[k] == s.tasks[k];
  }

  lemma ReapEntry(m: Machine, s: State, s': State, j: nat, p: nat)
    requires Inv(m, s) && j < |s.tasks| && s.reaper.Idle?
    requires s.tasks[j].pid == Some(p) && s.tasks[j].hs.guard.Dead? && !s.tasks[j].reaped
    requires p in s.registry && s.registry[p] == j
    requires s' == Put(s, j, s.tasks[j].(reaped := true, releases := s.tasks[j].releases + 1))
                     .(registry := s.registry - {p}, reaper := Unbinding(j))
    ensures Inv(m, s')
  {
    hide TaskInv, RegistryInv, LoopInv, ReaperInv, PidsDistinct;
    EntryOf(m, s, j, p);
    ReapedTask(m, s.tasks[j], true);
    TasksKept(m, s, s', j);
    PidsKept(s, s', j);
    EntryRemoved(s, s', j, p);
    LoopsKept(s, s', j);
    ReleaseStarts(s, s', j);
  }

  lemma ReapStep(m: Machine, s: State, a: Action)
    requires Inv(m, s) && a.Reap? && Enabled(m, s, a)
    ensures Inv(m, Next(m, s, a))
  {
    hide TaskInv, RegistryInv, LoopInv, ReaperInv, PidsDistinct;
    var t, s' := s.tasks[a.j], Next(m, s, a);
    var p := t.pid.value;
    EntryOf(m, s, a.j, p);
    if p in s.registry {
      assert s'.tasks == s.tasks[a.j := t.(reaped := true, releases := t.releases + 1)];
      ReapEntry(m, s, s', a.j, p);
    } else {
      Unreleased(m, t);
      ReapedTask(m, t, false);
      LocalStep(m, s, s', a.j);
    }
  }

  lemma Unreleased(m: Machine, t: Task)
    requires TaskInv(m, t) && !t.reaped
    ensures t.releases == 0
  {
  }

  lemma BindingCleared(s: State, s': State, j: nat, d: int)
    requires LoopInv(s) && OnlyTask(s, s', j) && d in s.loops && s.loops[d] == j
    requires s'.loops == s.loops - {d} && s'.devices == s.devices
    requires s'.tasks[j].unbound && s'.tasks[j].hs.bound == s.tasks[j].hs.bound
    ensures LoopInv(s')
  {
    assert forall k | 0 <= k < |s.tasks| && k != j :: s'.tasks[k] == s.tasks[k];
    assert Holds(s.tasks[j], d);
    forall e | e in s'.loops ensures s'.loops[e] != j {
      assert Holds(s.tasks[s.loops[e]], e);
    }
  }

  lemma UnbindDone(s: State, s': State, j: nat)
    requires ReaperInv(s) && s.reaper == Unbinding(j) && OnlyTask(s, s', j) && s'.reaper == Destroying(j)
    requires s'.tasks[j].releases == s.tasks[j].releases && (s'.tasks[j].unbound || s'.tasks[j].unbindFailed)
    ensures ReaperInv(s')
  {
    assert forall k | 0 <= k < |s.tasks| && k != j :: s'.tasks[k] == s.tasks[k];
  }

  /** The reaper only ever clears the binding that the guard it has just reaped made. */
  lemma UnbindOwner(m: Machine, s: State)
    requires Inv(m, s) && s.reaper.Unbinding?
    ensures var j := s.reaper.task;
            && j < |s.tasks| && TaskInv(m, s.tasks[j]) && s.tasks[j].registered && s.tasks[j].reaped
            && s.tasks[j].hs.loopId.Some?
            && var d := s.tasks[j].hs.loopId.value;
            && Holds(s.tasks[j], d) && d in s.loops && s.loops[d] == j
  {
    var t := s.tasks[s.reaper.task];
    assert TaskInv(m, t) && t.registered && t.reaped;
    RegisteredLoop(m, t);
  }

  lemma BeingUnbound(m: Machine, s: State)
    requires Inv(m, s) && s.reaper.Unbinding?
    ensures var t := s.tasks[s.reaper.task]; t.releases == 1 && !t.unbound && !t.unbindFailed
  {
    hide TaskInv, RegistryInv, LoopInv, PidsDistinct;
  }

  lemma UnbindStep(m: Machine, s: State, a: Action)
    requires Inv(m, s) && a.Unbind? && Enabled(m, s, a)
    ensures Inv(m, Next(m, s, a))
  {
    hide TaskInv, RegistryInv, LoopInv, ReaperInv, PidsDistinct, Holds;
    hide Parsed, Shaken, KernelAllows, Handshake.Enabled, ByMaster;
    hide InitReturned, FdsOpened, RegisterTried, AnswerSent, RefusalSent;
    var j, s' := s.reaper.task, Next(m, s, a);
    UnbindOwner(m, s);
    HolderBound(s.tasks[j], s.tasks[j].hs.loopId.value);
    BeingUnbound(m, s);
    UnboundTask(m, s.tasks[j], a.ok);
    TasksKept(m, s, s', j);
    PidsKept(s, s', j);
    RegistryKept(s, s', j);
    UnbindDone(s, s', j);
    if a.ok {
      BindingCleared(s, s', j, s.tasks[j].hs.loopId.value);
    } else {
      LoopsKept(s, s', j);
    }
  }

  lemma HolderBound(t: Task, d: int)
    requires Holds(t, d)
    ensures t.hs.bound.Some? && t.hs.bound.value == d
  {
  }

  lemma UnboundTask(m: Machine, t: Task, ok: bool)
    requires TaskInv(m, t) && t.releases == 1 && t.hs.bound.Some? && !t.unbound && !t.unbindFailed
    ensures TaskInv(m, if ok then t.(unbound := true) else t.(unbindFailed := true))
  {
    hide Parser.Parse, Handshake.Inv;
  }

  lemma RegisteredLoop(m: Machine, t: Task)
    requires TaskInv(m, t) && t.registered
    ensures t.hs.bound.Some? && t.hs.loopId == Some(t.hs.bound.value as int)
  {
  }

  lemma StepInv(m: Machine, s: State, a: Action)
    requires Inv(m, s) && Enabled(m, s, a)
    ensures Inv(m, Next(m, s, a))
  {
    hide Inv, Enabled, Next;
    match a {
      case Arrive(datagram) => ArriveStep(m, s, datagram);
      case ParseReq(_, _) => ParseStep(m, s, a);
      case Shake(_, _, _) => ShakeStep(m, s, a);
      case InitReturns(_) => InitReturnsStep(m, s, a);
      case OpenFds(_, _) => OpenFdsStep(m, s, a);
      case Register(_) => RegisterStep(m, s, a);
      case Answer(_, _) => AnswerStep(m, s, a);
      case CloseFds(_) => EndStep(m, s, a);
      case Refuse(_, _) => EndStep(m, s, a);
      case Reap(_) => ReapStep(m, s, a);
      case Unbind(_) => UnbindStep(m, s, a);
      case Destroy(_) => DestroyStep(m, s, a);
    }
  }

  lemma DestroyStep(m: Machine, s: State, a: Action)
    requires Inv(m, s) && a.Destroy? && Enabled(m, s, a)
    ensures Inv(m, Next(m, s, a))
  {
    hide TaskInv;
  }

  lemma {:induction false} RunInv(m: Machine, s: State, acts: seq<Action>)
    requires Inv(m, s) && ValidRun(m, s, acts)
    ensures Inv(m, Run(m, s, acts))
    decreases |acts|
  {
    if acts != [] {
      hide Inv, Enabled, Next;
      StepInv(m, s, acts[0]);
      RunInv(m, Next(m, s, acts[0]), acts[1..]);
    }
  }

  /** Everything the invariant says holds in every state the server can reach. */
  lemma ReachableInv(m: Machine, s: State)
    requires Reachable(m, s)
    ensures Inv(m, s)
  {
    var acts :| ValidRun(m, START, acts) && s == Run(m, START, acts);
    RunInv(m, START, acts);
  }
}
