/** What the reaper does for a dead guard, in every run. */
module ServerReaper {
  import opened Bytes
  import opened Parser
  import Encoder
  import Handshake
  import opened Server
  import opened ServerInvariant
  import opened ServerProperties

  // ---------------------------------------------------------------------
  // Destroyed devices

  /** A step that makes the kernel create device `d`. */
  predicate Creates(a: Action, d: int) {
    a.Shake? && a.step.ChooseLoop? && a.step.ok && a.step.id == d
  }

  lemma StaysGone(m: Machine, s: State, a: Action, d: int)
    requires Enabled(m, s, a) && d !in s.devices && !Creates(a, d)
    ensures d !in Next(m, s, a).devices
  {
    hide KernelAllows, Handshake.Enabled, Handshake.Next, ByMaster, Parse, Parsed, NewTask, Encoder.Received;
    hide InitReturned, FdsOpened, RegisterTried, AnswerSent, RefusalSent;
  }

  lemma {:induction false} GoneUntilCreated(m: Machine, s: State, acts: seq<Action>, d: int)
    requires ValidRun(m, s, acts) && d !in s.devices && forall a | a in acts :: !Creates(a, d)
    ensures d !in Run(m, s, acts).devices
    decreases |acts|
  {
    if acts != [] {
      hide Enabled, Next, Creates;
      assert acts[0] in acts && forall a | a in acts[1..] :: a in acts;
      StaysGone(m, s, acts[0], d);
      GoneUntilCreated(m, Next(m, s, acts[0]), acts[1..], d);
    }
  }

  /** A successful removal takes the dead guard's device and no other, and ends the release. */
  lemma DestroyRemoves(m: Machine, s: State)
    requires Reachable(m, s) && Enabled(m, s, Destroy(true))
    ensures var t, s' := s.tasks[s.reaper.task], Next(m, s, Destroy(true));
            && t.reaped && t.hs.guard.Dead? && t.hs.bound.Some?
            && var d := t.hs.bound.value as int;
            && t.hs.loopId == Some(d) && d in s.devices
            && s' == s.(devices := s.devices - {d}, reaper := Idle)
  {
    ReachableInv(m, s);
    hide Reachable, RegistryInv, LoopInv, PidsDistinct;
    var t := s.tasks[s.reaper.task];
    assert TaskInv(m, t);
    ReapedIsDead(m, t);
    ReleasedIsRegistered(m, t);
    RegisteredLoop(m, t);
  }

  lemma ReleasedIsRegistered(m: Machine, t: Task)
    requires TaskInv(m, t) && t.releases == 1
    ensures t.registered && t.reaped
  {
    hide Parse, Handshake.Inv;
  }

  /** After that no guard can bind the device, in any run, until the kernel creates it again. */
  lemma NoBindUntilCreated(m: Machine, s: State, acts: seq<Action>, j: nat, pid: nat)
    requires Reachable(m, s) && Enabled(m, s, Destroy(true))
    requires ValidRun(m, Next(m, s, Destroy(true)), acts)
    requires var d := s.tasks[s.reaper.task].hs.loopId.value; forall a | a in acts :: !Creates(a, d)
    ensures var end, d := Run(m, Next(m, s, Destroy(true)), acts), s.tasks[s.reaper.task].hs.loopId.value;
            && d !in end.devices
            && (j < |end.tasks| && end.tasks[j].hs.guard.LoopChosen? && end.tasks[j].hs.guard.id == d ==>
                  !Enabled(m, end, Shake(j, Handshake.BindLoop(true), pid)))
  {
    DestroyRemoves(m, s);
    var s', d := Next(m, s, Destroy(true)), s.tasks[s.reaper.task].hs.loopId.value;
    hide Reachable, Next;
    GoneUntilCreated(m, s', acts, d);
  }

  // ---------------------------------------------------------------------
  // Every release is carried through

  function Releases(tasks: seq<Task>): nat {
    if tasks == [] then 0 else tasks[0].releases + Releases(tasks[1..])
  }

  function Unbinds(acts: seq<Action>): nat {
    if acts == [] then 0 else (if acts[0].Unbind? then 1 else 0) + Unbinds(acts[1..])
  }

  function Destroys(acts: seq<Action>): nat {
    if acts == [] then 0 else (if acts[0].Destroy? then 1 else 0) + Destroys(acts[1..])
  }

  lemma {:induction false} ReleasesSame(a: seq<Task>, b: seq<Task>)
    requires |a| == |b| && forall j | 0 <= j < |a| :: a[j].releases == b[j].releases
    ensures Releases(a) == Releases(b)
  {
    if a != [] {
      assert forall j | 0 <= j < |a[1..]| :: a[1..][j] == a[j + 1] && b[1..][j] == b[j + 1];
      ReleasesSame(a[1..], b[1..]);
    }
  }

  lemma {:induction false} ReleasesPlus(a: seq<Task>, b: seq<Task>, i: nat)
    requires i < |a| == |b| && b[i].releases == a[i].releases + 1
    requires forall j | 0 <= j < |a| && j != i :: a[j].releases == b[j].releases
    ensures Releases(b) == Releases(a) + 1
  {
    assert forall j | 0 <= j < |a[1..]| :: a[1..][j] == a[j + 1] && b[1..][j] == b[j + 1];
    if i == 0 {
      ReleasesSame(a[1..], b[1..]);
    } else {
      ReleasesPlus(a[1..], b[1..], i - 1);
    }
  }

  lemma {:induction false} ReleasesAppend(a: seq<Task>, t: Task)
    ensures Releases(a + [t]) == Releases(a) + t.releases
  {
    if a == [] {
      assert a + [t] == [t] && [t][1..] == [];
    } else {
      assert (a + [t])[1..] == a[1..] + [t];
      ReleasesAppend(a[1..], t);
    }
  }

  /** Unbinds, and removals, that a release under way still owes. */
  function OwedUnbinds(s: State): nat { if s.reaper.Unbinding? then 1 else 0 }

  function OwedDestroys(s: State): nat { if s.reaper.Idle? then 0 else 1 }

  predicate Balanced(s: State, a: Action, s': State) {
    && (if a.Unbind? then 1 else 0) + OwedUnbinds(s') + Releases(s.tasks) == OwedUnbinds(s) + Releases(s'.tasks)
    && (if a.Destroy? then 1 else 0) + OwedDestroys(s') + Releases(s.tasks) == OwedDestroys(s) + Releases(s'.tasks)
  }

  lemma ReapBalance(m: Machine, s: State, a: Action)
    requires Inv(m, s) && Enabled(m, s, a) && a.Reap?
    ensures Balanced(s, a, Next(m, s, a))
  {
    hide TaskInv, RegistryInv, LoopInv, ReaperInv, PidsDistinct, Releases;
    var s' := Next(m, s, a);
    var p := s.tasks[a.j].pid.value;
    EntryOf(m, s, a.j, p);
    if p in s.registry {
      ReleasesPlus(s.tasks, s'.tasks, a.j);
    } else {
      ReleasesSame(s.tasks, s'.tasks);
    }
  }

  lemma ReaperBalance(m: Machine, s: State, a: Action)
    requires Enabled(m, s, a) && (a.Unbind? || a.Destroy?)
    ensures Balanced(s, a, Next(m, s, a))
  {
    hide Releases, KernelAllows, Handshake.Enabled, Parsed, Shaken, NewTask;
    hide InitReturned, FdsOpened, RegisterTried, AnswerSent, RefusalSent;
    ReleasesSame(s.tasks, Next(m, s, a).tasks);
  }

  lemma ArriveBalance(m: Machine, s: State, a: Action)
    requires a.Arrive?
    ensures Balanced(s, a, Next(m, s, a))
  {
    hide Releases, Encoder.Received;
    ReleasesAppend(s.tasks, NewTask(Encoder.Received(a.datagram)));
  }

  /** The steps of workers and guards release nothing and leave the reaper alone. */
  lemma OthersBalance(m: Machine, s: State, a: Action)
    requires Enabled(m, s, a) && (a.ParseReq? || a.Shake? || LateStep(a))
    ensures Balanced(s, a, Next(m, s, a))
  {
    hide Releases, Enabled, Next;
    ReaperUntouched(m, s, a);
    forall j | 0 <= j < |s.tasks| ensures Next(m, s, a).tasks[j].releases == s.tasks[j].releases {
      if a.ParseReq? {
        ParseReleases(m, s, a, j);
      } else if a.Shake? {
        ShakeReleases(m, s, a, j);
      } else {
        LateTask(m, s, a, j);
      }
    }
    ReleasesSame(s.tasks, Next(m, s, a).tasks);
  }

  lemma ReaperUntouched(m: Machine, s: State, a: Action)
    requires Enabled(m, s, a) && (a.ParseReq? || a.Shake? || LateStep(a))
    ensures Next(m, s, a).reaper == s.reaper && |Next(m, s, a).tasks| == |s.tasks|
  {
    hide KernelAllows, Handshake.Enabled, Handshake.Next, ByMaster, Parse, Parsed, NewTask;
    hide InitReturned, FdsOpened, RegisterTried, AnswerSent, RefusalSent;
  }

  lemma ParseReleases(m: Machine, s: State, a: Action, j: nat)
    requires Enabled(m, s, a) && a.ParseReq? && j < |s.tasks|
    ensures j < |Next(m, s, a).tasks| && Next(m, s, a).tasks[j].releases == s.tasks[j].releases
  {
    hide Parsed, Parse;
    ParsedKeeps(m, s, s.tasks[a.j], a.cfgOk);
  }

  lemma ShakeReleases(m: Machine, s: State, a: Action, j: nat)
    requires Enabled(m, s, a) && a.Shake? && j < |s.tasks|
    ensures j < |Next(m, s, a).tasks| && Next(m, s, a).tasks[j].releases == s.tasks[j].releases
  {
    hide Shaken, KernelAllows, Handshake.Enabled, ByMaster;
    ShakenKeeps(s, a.j, a.step, a.pid);
  }

  lemma StepBalance(m: Machine, s: State, a: Action)
    requires Inv(m, s) && Enabled(m, s, a)
    ensures Balanced(s, a, Next(m, s, a))
  {
    hide Inv, Enabled, Next, Balanced;
    match a {
      case Reap(_) => ReapBalance(m, s, a);
      case Unbind(_) => ReaperBalance(m, s, a);
      case Destroy(_) => ReaperBalance(m, s, a);
      case Arrive(_) => ArriveBalance(m, s, a);
      case _ => OthersBalance(m, s, a);
    }
  }

  lemma {:induction false} RunBalance(m: Machine, s: State, acts: seq<Action>)
    requires Inv(m, s) && ValidRun(m, s, acts)
    ensures var end := Run(m, s, acts);
            && Unbinds(acts) + OwedUnbinds(end) + Releases(s.tasks) == OwedUnbinds(s) + Releases(end.tasks)
            && Destroys(acts) + OwedDestroys(end) + Releases(s.tasks) == OwedDestroys(s) + Releases(end.tasks)
    decreases |acts|
  {
    if acts != [] {
      hide Inv, Enabled, Next, Releases, OwedUnbinds, OwedDestroys;
      StepInv(m, s, acts[0]);
      StepBalance(m, s, acts[0]);
      RunBalance(m, Next(m, s, acts[0]), acts[1..]);
    }
  }

  /** Every release attempts one unbind and one removal, neither more nor less: whenever the reaper
      is idle, all three counts of a run are equal. */
  lemma ReleasesCarriedThrough(m: Machine, acts: seq<Action>)
    requires ValidRun(m, START, acts)
    ensures var s := Run(m, START, acts);
            && Unbinds(acts) + (if s.reaper.Unbinding? then 1 else 0) == Releases(s.tasks)
            && Destroys(acts) + (if s.reaper.Idle? then 0 else 1) == Releases(s.tasks)
  {
    RunBalance(m, START, acts);
  }
}
