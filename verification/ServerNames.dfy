/** The names of the guards across the whole server. */
module ServerNames {
  import opened Bytes
  import opened Parser
  import Encoder
  import GuardName
  import Handshake
  import opened Namespaces
  import opened Server
  import opened ServerInvariant
  import opened ServerProperties

  /** Which call of `RockerCfg::new` the request of a task led to, if any. */
  function Tag(m: Machine, t: Task): Option<nat> {
    if Accepted(m, t) then Some(t.serial) else None
  }

  function Tags(m: Machine, tasks: seq<Task>): (tags: seq<Option<nat>>)
    ensures |tags| == |tasks|
    ensures forall j | 0 <= j < |tasks| :: tags[j] == Tag(m, tasks[j])
  {
    seq(|tasks|, j requires 0 <= j < |tasks| => Tag(m, tasks[j]))
  }

  /** The numbers below `n` are each used once, and no others. */
  predicate Numbering(tags: seq<Option<nat>>, n: nat) {
    && (forall j | 0 <= j < |tags| && tags[j].Some? :: tags[j].value < n)
    && (forall i, j | 0 <= i < j < |tags| && tags[i].Some? :: tags[i] != tags[j])
    && (forall k: nat | k < n :: Some(k) in tags)
  }

  /** The calls made so far and the accepted requests correspond one to one. */
  predicate TagInv(m: Machine, s: State) {
    Numbering(Tags(m, s.tasks), s.issued)
  }

  lemma NumberingAppend(tags: seq<Option<nat>>, n: nat)
    requires Numbering(tags, n)
    ensures Numbering(tags + [None], n)
  {
  }

  lemma NumberingNext(tags: seq<Option<nat>>, n: nat, i: nat)
    requires Numbering(tags, n) && i < |tags| && tags[i] == None
    ensures Numbering(tags[i := Some(n)], n + 1)
  {
    var tags' := tags[i := Some(n)];
    assert tags'[i] == Some(n);
    forall k: nat | k < n ensures Some(k) in tags' {
      assert Some(k) in tags;
      var j :| 0 <= j < |tags| && tags[j] == Some(k);
      assert tags'[j] == Some(k);
    }
  }

  lemma SameTag(m: Machine, a: Task, b: Task)
    requires SameRequest(a, b)
    ensures Tag(m, a) == Tag(m, b)
  {
    hide Parse;
  }

  lemma ParsedTag(m: Machine, s: State, t: Task, cfgOk: bool)
    requires t.phase.Parsing?
    ensures Tag(m, t) == None
    ensures Tag(m, Parsed(m, s, t, cfgOk)) == if Parse(m, t.req).Ok? then Some(s.issued) else None
  {
    hide Parse, GuardName.Counter, Handshake.NewJob;
    match Parse(m, t.req) {
      case Panic =>
      case Err(_) =>
      case Ok(_) =>
    }
  }

  lemma ParseTags(m: Machine, s: State, a: Action)
    requires TagInv(m, s) && a.ParseReq? && Enabled(m, s, a)
    ensures TagInv(m, Next(m, s, a))
  {
    hide Numbering, Tag, Parsed, Parse, Tags;
    var s' := Next(m, s, a);
    var tags, tags' := Tags(m, s.tasks), Tags(m, s'.tasks);
    ParsedTag(m, s, s.tasks[a.j], a.cfgOk);
    if Parse(m, s.tasks[a.j].req).Ok? {
      assert tags' == tags[a.j := Some(s.issued)];
      NumberingNext(tags, s.issued, a.j);
    } else {
      assert tags' == tags;
    }
  }

  lemma ArriveTags(m: Machine, s: State, a: Action)
    requires TagInv(m, s) && a.Arrive?
    ensures TagInv(m, Next(m, s, a))
  {
    var t := NewTask(Encoder.Received(a.datagram));
    assert Tag(m, t) == None;
    hide Numbering, Tag, NewTask, Encoder.Received, Tags;
    NumberingAppend(Tags(m, s.tasks), s.issued);
    assert Tags(m, s.tasks + [t]) == Tags(m, s.tasks) + [None];
  }

  lemma KeepsRequest(m: Machine, s: State, a: Action, j: nat)
    requires Enabled(m, s, a) && j < |s.tasks| && !a.ParseReq? && !a.Arrive?
    ensures j < |Next(m, s, a).tasks| && SameRequest(s.tasks[j], Next(m, s, a).tasks[j])
  {
    hide Enabled, Next, SameRequest;
    if a.Shake? {
      ShakeKeepsRequest(m, s, a, j);
    } else if LateStep(a) {
      LateTask(m, s, a, j);
    } else {
      ReaperKeeps(m, s, a, j);
    }
  }

  lemma ShakeKeepsRequest(m: Machine, s: State, a: Action, j: nat)
    requires Enabled(m, s, a) && j < |s.tasks| && a.Shake?
    ensures j < |Next(m, s, a).tasks| && SameRequest(s.tasks[j], Next(m, s, a).tasks[j])
  {
    hide Shaken, KernelAllows, Handshake.Enabled, ByMaster;
    ShakenKeeps(s, a.j, a.step, a.pid);
  }

  lemma KeepsCount(m: Machine, s: State, a: Action)
    requires Enabled(m, s, a) && !a.ParseReq? && !a.Arrive?
    ensures Next(m, s, a).issued == s.issued && |Next(m, s, a).tasks| == |s.tasks|
  {
    hide KernelAllows, Handshake.Enabled, Handshake.Next, ByMaster, Parse, Parsed, NewTask;
    hide InitReturned, FdsOpened, RegisterTried, AnswerSent, RefusalSent;
  }

  lemma StepTags(m: Machine, s: State, a: Action)
    requires TagInv(m, s) && Enabled(m, s, a)
    ensures TagInv(m, Next(m, s, a))
  {
    hide Enabled, Next, TagInv, Tag, Tags;
    if a.ParseReq? {
      ParseTags(m, s, a);
    } else if a.Arrive? {
      ArriveTags(m, s, a);
    } else {
      KeepsCount(m, s, a);
      forall j | 0 <= j < |s.tasks| ensures Tag(m, Next(m, s, a).tasks[j]) == Tag(m, s.tasks[j]) {
        KeepsRequest(m, s, a, j);
        SameTag(m, s.tasks[j], Next(m, s, a).tasks[j]);
      }
      assert Tags(m, Next(m, s, a).tasks) == Tags(m, s.tasks);
      SameTags(m, s, Next(m, s, a));
    }
  }

  lemma SameTags(m: Machine, s: State, s': State)
    requires TagInv(m, s) && Tags(m, s'.tasks) == Tags(m, s.tasks) && s'.issued == s.issued
    ensures TagInv(m, s')
  {
  }

  lemma {:induction false} RunTags(m: Machine, s: State, acts: seq<Action>)
    requires TagInv(m, s) && ValidRun(m, s, acts)
    ensures TagInv(m, Run(m, s, acts))
    decreases |acts|
  {
    hide TagInv, Enabled, Next;
    if acts != [] {
      StepTags(m, s, acts[0]);
      RunTags(m, Next(m, s, acts[0]), acts[1..]);
    }
  }

  lemma ReachableTags(m: Machine, s: State)
    requires Reachable(m, s)
    ensures TagInv(m, s)
  {
    var acts :| ValidRun(m, START, acts) && s == Run(m, START, acts);
    RunTags(m, START, acts);
  }

  // ---------------------------------------------------------------------

  /** The accepted requests are numbered from 0 without gap or repetition, and each took the
      counter's value of its number; within the range of `usize` no two took the same. */
  lemma CountersIssued(m: Machine, s: State)
    requires Reachable(m, s)
    ensures Numbering(Tags(m, s.tasks), s.issued)
    ensures forall j | 0 <= j < |s.tasks| && Accepted(m, s.tasks[j]) ::
              s.tasks[j].counter == GuardName.Counter(m.word, s.tasks[j].serial)
    ensures s.issued <= m.word.Modulus() ==>
              forall i, j | 0 <= i < j < |s.tasks| && Accepted(m, s.tasks[i]) && Accepted(m, s.tasks[j]) ::
                s.tasks[i].counter != s.tasks[j].counter
  {
    ReachableTags(m, s);
    hide Reachable, Accepted, Numbering, Tags, GuardName.Counter;
    forall j | 0 <= j < |s.tasks| && Accepted(m, s.tasks[j])
      ensures s.tasks[j].counter == GuardName.Counter(m.word, s.tasks[j].serial)
    {
      CounterOf(m, s, j);
    }
    if s.issued <= m.word.Modulus() {
      forall i, j | 0 <= i < j < |s.tasks| && Accepted(m, s.tasks[i]) && Accepted(m, s.tasks[j])
        ensures s.tasks[i].counter != s.tasks[j].counter
      {
        SerialsDiffer(m, s, i, j);
        var a, b := s.tasks[i].serial, s.tasks[j].serial;
        GuardName.CountersDiffer(m.word, if a < b then a else b, if a < b then b else a);
      }
    }
  }

  lemma SerialsDiffer(m: Machine, s: State, i: nat, j: nat)
    requires TagInv(m, s) && i < j < |s.tasks| && Accepted(m, s.tasks[i]) && Accepted(m, s.tasks[j])
    ensures s.tasks[i].serial != s.tasks[j].serial && s.tasks[i].serial < s.issued && s.tasks[j].serial < s.issued
  {
    hide Accepted;
    var tags := Tags(m, s.tasks);
    assert tags[i] == Some(s.tasks[i].serial) && tags[j] == Some(s.tasks[j].serial);
  }

  lemma CounterOf(m: Machine, s: State, j: nat)
    requires Reachable(m, s) && j < |s.tasks| && Accepted(m, s.tasks[j])
    ensures s.tasks[j].counter == GuardName.Counter(m.word, s.tasks[j].serial)
  {
    TaskOf(m, s, j);
    hide Reachable, Accepted, PhaseInv, ReplyInv, Handshake.Inv, GuardName.Counter;
  }

  lemma CounterInRange(w: Word, k: nat)
    ensures GuardName.Counter(w, k) < w.Modulus()
  {
  }

  /** A reply that hands out a guard comes from an accepted request and carries its counter. */
  lemma ReplyOf(m: Machine, s: State, j: nat, reply: Reply)
    requires Reachable(m, s) && j < |s.tasks| && reply in s.tasks[j].replies && reply.fds != []
    ensures Accepted(m, s.tasks[j]) && reply.guardPname == GuardName.Raw(m, s.tasks[j].counter)
  {
    OneReply(m, s, j);
    TaskOf(m, s, j);
    hide Reachable, Parse, Handshake.Inv, ReplyInv, RefusedInv;
    assert reply == s.tasks[j].replies[0];
  }

  predicate FirstCollision(k: nat, l: nat) {
    (k == 254 && l == 255) || (k == 255 && l == 254)
  }

  lemma InstalledNames(m: Machine, k: nat, l: nat)
    requires m.endian.Little? && k != l
    ensures var a, b := GuardName.Counter(m.word, k), GuardName.Counter(m.word, l);
            && (k < 255 && l < 255 ==> GuardName.Installed(m, a) != GuardName.Installed(m, b))
            && (FirstCollision(k, l) ==> GuardName.Installed(m, a) == GuardName.Installed(m, b))
  {
    hide GuardName.Counter, GuardName.Installed;
    if k < 255 && l < 255 {
      if k < l {
        GuardName.FirstNamesDistinct(m, k, l);
      } else {
        GuardName.FirstNamesDistinct(m, l, k);
      }
    }
    if FirstCollision(k, l) {
      GuardName.NamesCollide(m);
    }
  }

  /** No two guards handed out share the name in the reply, until `usize` wraps. The names they
      install are distinct among the first 255 accepted requests on a little-endian machine; those
      of the 255th and the 256th are equal. */
  lemma NamesHandedOut(m: Machine, s: State, i: nat, j: nat, a: Reply, b: Reply)
    requires Reachable(m, s) && i < j < |s.tasks|
    requires a in s.tasks[i].replies && a.fds != [] && b in s.tasks[j].replies && b.fds != []
    ensures s.issued <= m.word.Modulus() ==> a.guardPname != b.guardPname
    ensures var t, u := s.tasks[i], s.tasks[j];
            m.endian.Little? ==>
              && (t.serial < 255 && u.serial < 255 ==>
                    GuardName.Installed(m, t.counter) != GuardName.Installed(m, u.counter))
              && (FirstCollision(t.serial, u.serial) ==>
                    GuardName.Installed(m, t.counter) == GuardName.Installed(m, u.counter))
  {
    hide Reachable, Accepted, Numbering, Tags, GuardName.Counter, GuardName.Installed, GuardName.Raw, FirstCollision;
    ReplyOf(m, s, i, a);
    ReplyOf(m, s, j, b);
    CountersIssued(m, s);
    SerialsOf(m, s, i, j);
    var t, u := s.tasks[i], s.tasks[j];
    if s.issued <= m.word.Modulus() {
      CounterInRange(m.word, t.serial);
      CounterInRange(m.word, u.serial);
      RawDiffers(m, t.counter, u.counter);
    }
    if m.endian.Little? {
      InstalledNames(m, t.serial, u.serial);
    }
  }

  lemma SerialsOf(m: Machine, s: State, i: nat, j: nat)
    requires Reachable(m, s) && i < j < |s.tasks| && Accepted(m, s.tasks[i]) && Accepted(m, s.tasks[j])
    ensures s.tasks[i].serial != s.tasks[j].serial
  {
    hide Accepted, TagInv;
    ReachableTags(m, s);
    SerialsDiffer(m, s, i, j);
  }

  lemma RawDiffers(m: Machine, a: nat, b: nat)
    requires a < m.word.Modulus() && b < m.word.Modulus() && a != b
    ensures GuardName.Raw(m, a) != GuardName.Raw(m, b)
  {
    GuardName.CounterFits(m.word, a);
    GuardName.CounterFits(m.word, b);
    NativeRoundTrip(m.endian, a, GuardName.NAME_SIZE);
    NativeRoundTrip(m.endian, b, GuardName.NAME_SIZE);
  }

  /** The comparison that is to protect the kill fails for every guard ever handed out: what a
      client gets as its name is not what it reads from /proc. */
  lemma CleanupNeverKills(m: Machine, s: State, j: nat, reply: Reply, rest: seq<byte>)
    requires Reachable(m, s) && j < |s.tasks| && reply in s.tasks[j].replies && reply.fds != []
    ensures var name := GuardName.UpToNul(GuardName.Installed(m, s.tasks[j].counter));
            GuardName.ProcessName(name + [41, 32] + rest) != Some(GuardName.UpToNul(reply.guardPname))
  {
    ReplyOf(m, s, j, reply);
    CounterOf(m, s, j);
    CounterInRange(m.word, s.tasks[j].serial);
    GuardName.ReportedNeverMatches(m, s.tasks[j].counter, rest);
  }
}
