/** The client's log: the counter, the rotation of files, and the records that are not counted. */
module ClientLog {
  import opened Bytes

  /** A record of `do_info`, or the output of `display_errchain`. */
  datatype Record = Info(msg: string) | Chain(msg: string)

  /** What LogFd names. */
  datatype Target = Stderr | File

  /** `closed` are the files left behind, `current` the open one. */
  datatype Log = Log(
    target: Target,
    counter: nat,
    closed: seq<seq<Record>>,
    current: seq<Record>,
    stderr: seq<Record>
  )

  function Opened(target: Target): Log {
    Log(target, 1, [], [], [])
  }

  function Write(log: Log, r: Record): Log {
    if log.target.Stderr? then log.(stderr := log.stderr + [r]) else log.(current := log.current + [r])
  }

  /** `logrotate`; `reopened` is what `logfd_init` finds. */
  function Rotated(log: Log, max: nat, reopened: Target): Log
    requires max > 0
  {
    if log.counter % max == 0 then
      log.(closed := log.closed + [log.current], current := [], counter := 1, target := reopened)
    else log
  }

  function Logged(log: Log, max: nat, msg: string, reopened: Target): Log
    requires max > 0
  {
    var ready := if log.target.Stderr? then log else Rotated(log, max, reopened);
    Write(ready, Info(msg)).(counter := (ready.counter + 1) % TWO_32)
  }

  /** The statics of log.c. */
  class Logger {
    var target: Target
    var counter: nat
    var closed: seq<seq<Record>>
    var current: seq<Record>
    var stderr: seq<Record>

    function State(): Log
      reads this
    {
      Log(target, counter, closed, current, stderr)
    }

    constructor (target: Target)
      ensures State() == Opened(target)
    {
      this.target := target;
      counter := 1;
      closed, current, stderr := [], [], [];
    }

    method LogRotate(max: nat, reopened: Target)
      requires max > 0
      modifies this
      ensures State() == Rotated(old(State()), max, reopened)
    {
      if 0 == counter % max {
        closed := closed + [current];
        current := [];
        target := reopened;
        counter := 1;
      }
    }

    method DoInfo(max: nat, msg: string, reopened: Target)
      requires max > 0
      modifies this
      ensures State() == Logged(old(State()), max, msg, reopened)
    {
      if target != Stderr {
        LogRotate(max, reopened);
      }
      if target == Stderr {
        stderr := stderr + [Info(msg)];
      } else {
        current := current + [Info(msg)];
      }
      counter := (counter + 1) % TWO_32;
    }

    method DisplayErrchain(msg: string)
      modifies this
      ensures State() == Write(old(State()), Chain(msg))
    {
      if target == Stderr {
        stderr := stderr + [Chain(msg)];
      } else {
        current := current + [Chain(msg)];
      }
    }
  }

  // ---------------------------------------------------------------------
  // Runs

  datatype Call = DoInfo(msg: string, reopened: Target) | DisplayErrchain(msg: string)

  function Step(log: Log, max: nat, c: Call): Log
    requires max > 0
  {
    match c
    case DoInfo(msg, reopened) => Logged(log, max, msg, reopened)
    case DisplayErrchain(msg) => Write(log, Chain(msg))
  }

  function Run(log: Log, max: nat, calls: seq<Call>): Log
    requires max > 0
    decreases |calls|
  {
    if calls == [] then log else Run(Step(log, max, calls[0]), max, calls[1..])
  }

  /** The record that a call is to leave behind. */
  function RecordOf(c: Call): Record {
    match c
    case DoInfo(msg, _) => Info(msg)
    case DisplayErrchain(msg) => Chain(msg)
  }

  function Recorded(calls: seq<Call>): seq<Record> {
    seq(|calls|, i requires 0 <= i < |calls| => RecordOf(calls[i]))
  }

  function Joined(files: seq<seq<Record>>): seq<Record> {
    if files == [] then [] else Joined(files[..|files| - 1]) + files[|files| - 1]
  }

  /** Everything ever written: the files in order, then stderr. */
  function AllRecords(log: Log): seq<Record> {
    Joined(log.closed) + log.current + log.stderr
  }

  function Infos(records: seq<Record>): nat {
    if records == [] then 0
    else Infos(records[..|records| - 1]) + if records[|records| - 1].Info? then 1 else 0
  }

  function Chains(records: seq<Record>): nat {
    if records == [] then 0
    else Chains(records[..|records| - 1]) + if records[|records| - 1].Chain? then 1 else 0
  }

  predicate Inv(log: Log, max: nat) {
    && (forall f | f in log.closed :: Infos(f) == max - 1)
    && (log.target.File? ==> 1 <= log.counter <= max && Infos(log.current) == log.counter - 1 && log.stderr == [])
    && (log.target.Stderr? ==> log.current == [])
  }

  lemma AppendInfo(records: seq<Record>, r: Record)
    ensures Infos(records + [r]) == Infos(records) + if r.Info? then 1 else 0
  {
    assert (records + [r])[..|records|] == records;
  }

  /** Rotation closes a full file and loses nothing. */
  lemma RotatedInv(log: Log, max: nat, reopened: Target)
    requires 2 <= max && Inv(log, max) && log.target.File?
    ensures var after := Rotated(log, max, reopened);
            && Inv(after, max)
            && (after.target.File? ==> after.counter < max)
            && AllRecords(after) == AllRecords(log)
  {
    var after := Rotated(log, max, reopened);
    if log.counter % max == 0 {
      assert log.counter == max by { SmallMultiple(log.counter, max); }
      assert after.closed[..|log.closed|] == log.closed;
    } else {
      assert max % max == 0;
    }
  }

  lemma SmallMultiple(n: nat, max: nat)
    requires 1 <= n <= max && n % max == 0
    ensures n == max
  {
  }

  /** Writing appends at the end of everything written: stderr, once in use, is the last. */
  lemma WriteAppends(log: Log, max: nat, r: Record)
    requires Inv(log, max)
    ensures AllRecords(Write(log, r)) == AllRecords(log) + [r]
  {
    hide Infos, Joined;
    if log.target.Stderr? {
      assert AllRecords(log) + [r] == Joined(log.closed) + log.current + (log.stderr + [r]);
    } else {
      assert AllRecords(log) + [r] == Joined(log.closed) + (log.current + [r]) + log.stderr;
    }
  }

  lemma CountedInv(log: Log, max: nat, msg: string)
    requires 2 <= max < TWO_32 && Inv(log, max)
    requires log.target.File? ==> log.counter < max
    ensures Inv(Write(log, Info(msg)).(counter := (log.counter + 1) % TWO_32), max)
  {
    hide Infos;
    AppendInfo(log.current, Info(msg));
  }

  lemma StepInv(log: Log, max: nat, c: Call)
    requires 2 <= max < TWO_32 && Inv(log, max)
    ensures Inv(Step(log, max, c), max)
    ensures AllRecords(Step(log, max, c)) == AllRecords(log) + [RecordOf(c)]
  {
    hide Infos, Joined, Rotated;
    match c {
      case DisplayErrchain(msg) =>
        AppendInfo(log.current, Chain(msg));
        WriteAppends(log, max, Chain(msg));
      case DoInfo(msg, reopened) =>
        var ready := if log.target.Stderr? then log else Rotated(log, max, reopened);
        if log.target.File? {
          RotatedInv(log, max, reopened);
        }
        WriteAppends(ready, max, Info(msg));
        CountedInv(ready, max, msg);
    }
  }

  lemma {:induction false} RunInv(log: Log, max: nat, calls: seq<Call>)
    requires 2 <= max < TWO_32 && Inv(log, max)
    ensures Inv(Run(log, max, calls), max)
    ensures AllRecords(Run(log, max, calls)) == AllRecords(log) + Recorded(calls)
    decreases |calls|
  {
    if calls != [] {
      hide Inv, AllRecords, Step;
      StepInv(log, max, calls[0]);
      RunInv(Step(log, max, calls[0]), max, calls[1..]);
      assert Recorded(calls) == [RecordOf(calls[0])] + Recorded(calls[1..]);
    }
  }

  /** Over any sequence of calls: the files and then stderr hold one record for every call and
      nothing else, in the order of the calls. While there is a file the counter stays in 1..max,
      never wraps, and is one more than the records of `do_info` in it; every closed file holds
      exactly max - 1 of those. */
  lemma RotationExact(start: Target, max: nat, calls: seq<Call>)
    requires 2 <= max < TWO_32
    ensures var log := Run(Opened(start), max, calls);
            && AllRecords(log) == Recorded(calls)
            && (log.target.File? ==> 1 <= log.counter <= max && Infos(log.current) == log.counter - 1)
            && (forall f | f in log.closed :: Infos(f) == max - 1)
  {
    RunInv(Opened(start), max, calls);
    assert AllRecords(Opened(start)) == [];
  }

  /** A call of `do_info` leaves the open file exactly when that holds max - 1 counted records; it
      then writes its record as the first of what is opened next, a file or stderr. Once stderr is
      in use there is no way back. */
  lemma RotatesExactly(start: Target, max: nat, calls: seq<Call>, msg: string, reopened: Target)
    requires 2 <= max < TWO_32
    ensures var log := Run(Opened(start), max, calls);
            var log' := Step(log, max, DoInfo(msg, reopened));
            if log.target.File? && Infos(log.current) == max - 1 then
              && log'.closed == log.closed + [log.current] && log'.target == reopened
              && log'.current + log'.stderr == [Info(msg)]
            else
              && log'.closed == log.closed && log'.target == log.target
              && (log.target.Stderr? ==> log'.stderr == log.stderr + [Info(msg)] && log'.current == [])
  {
    RunInv(Opened(start), max, calls);
    var log := Run(Opened(start), max, calls);
    if log.target.File? && log.counter % max == 0 {
      SmallMultiple(log.counter, max);
    }
    if log.counter == max {
      assert max % max == 0;
    }
  }

  /** The messages given to `do_info`, in order. */
  function Messages(calls: seq<Call>): seq<string> {
    if calls == [] then []
    else
      var last := calls[|calls| - 1];
      var rest := Messages(calls[..|calls| - 1]);
      if last.DoInfo? then rest + [last.msg] else rest
  }

  /** The messages of the counted records. */
  function InfoMessages(records: seq<Record>): seq<string> {
    if records == [] then []
    else
      var last := records[|records| - 1];
      var rest := InfoMessages(records[..|records| - 1]);
      if last.Info? then rest + [last.msg] else rest
  }

  lemma {:induction false} RecordedMessages(calls: seq<Call>)
    ensures InfoMessages(Recorded(calls)) == Messages(calls)
  {
    if calls != [] {
      var n := |calls| - 1;
      assert Recorded(calls)[..n] == Recorded(calls[..n]);
      RecordedMessages(calls[..n]);
    }
  }

  /** In particular the counted records across files and stderr are the messages in order. */
  lemma MessagesInOrder(start: Target, max: nat, calls: seq<Call>)
    requires 2 <= max < TWO_32
    ensures InfoMessages(AllRecords(Run(Opened(start), max, calls))) == Messages(calls)
  {
    RotationExact(start, max, calls);
    RecordedMessages(calls);
  }

  // ---------------------------------------------------------------------
  // The promised limit

  lemma {:induction false} RecordsSplit(records: seq<Record>)
    ensures |records| == Infos(records) + Chains(records)
  {
    if records != [] {
      RecordsSplit(records[..|records| - 1]);
    }
  }

  /** The comment on `logrotate` promises at most `max` records per file, but error chains are not
      counted. A closed file keeps the promise exactly if it holds at most one of them; the open
      one, which holds counter - 1 counted records, exactly if they leave room for its chains. */
  lemma FileLimitExactly(start: Target, max: nat, calls: seq<Call>)
    requires 2 <= max < TWO_32
    ensures var log := Run(Opened(start), max, calls);
            && (forall f | f in log.closed :: |f| <= max <==> Chains(f) <= 1)
            && (log.target.File? ==> (|log.current| <= max <==> Chains(log.current) <= max + 1 - log.counter))
  {
    var log := Run(Opened(start), max, calls);
    RotationExact(start, max, calls);
    forall f | f in log.closed ensures |f| <= max <==> Chains(f) <= 1 {
      RecordsSplit(f);
    }
    RecordsSplit(log.current);
  }

  /** The promise fails for the open file: with enough error chains it outgrows any limit. */
  lemma FileLimitBroken(max: nat) returns (calls: seq<Call>)
    requires 2 <= max
    ensures var log := Run(Opened(File), max, calls);
            log.target.File? && |log.current| > max && Chains(log.current) > max + 1 - log.counter
  {
    calls := seq(max + 1, _ => DisplayErrchain(""));
    RunChains(Opened(File), max, calls);
  }

  /** And for a file that was closed: two error chains in it are enough. */
  lemma ClosedLimitBroken(max: nat) returns (calls: seq<Call>, f: seq<Record>)
    requires 2 <= max < TWO_32
    ensures f in Run(Opened(File), max, calls).closed && |f| > max && Chains(f) == 2
  {
    var chains: seq<Call> := [DisplayErrchain(""), DisplayErrchain("")];
    var infos: seq<Call> := seq(max - 1, _ => DoInfo("", File));
    var last: seq<Call> := [DoInfo("", File)];
    calls := chains + infos + last;
    var start := Opened(File);
    RunConcat(start, max, chains + infos, last);
    RunConcat(start, max, chains, infos);
    RunChains(start, max, chains);
    var one := Run(start, max, chains);
    RunInfos(one, max, infos);
    var full := Run(one, max, infos);
    assert full.counter == max && max % max == 0;
    f := full.current;
    var end := Step(full, max, last[0]);
    assert Run(full, max, last) == Run(end, max, []) == end;
    assert end.closed == [f];
    FileLimitExactly(File, max, calls);
    RotationExact(File, max, calls);
    RecordsSplit(f);
  }

  lemma {:induction false} RunConcat(log: Log, max: nat, a: seq<Call>, b: seq<Call>)
    requires max > 0
    ensures Run(log, max, a + b) == Run(Run(log, max, a), max, b)
    decreases |a|
  {
    if a == [] {
      assert a + b == b;
    } else {
      hide Step;
      assert (a + b)[1..] == a[1..] + b;
      RunConcat(Step(log, max, a[0]), max, a[1..], b);
    }
  }

  /** Error chains alone fill the open file, and the counter stays. */
  lemma {:induction false} RunChains(log: Log, max: nat, calls: seq<Call>)
    requires max > 0 && log.target.File? && forall c | c in calls :: c.DisplayErrchain?
    ensures var log' := Run(log, max, calls);
            && log'.target.File? && log'.counter == log.counter && log'.closed == log.closed
            && |log'.current| == |log.current| + |calls|
            && Chains(log'.current) == Chains(log.current) + |calls|
    decreases |calls|
  {
    if calls != [] {
      assert calls[0] in calls && forall c | c in calls[1..] :: c in calls;
      var next := Step(log, max, calls[0]);
      assert next.current[..|log.current|] == log.current;
      RunChains(next, max, calls[1..]);
    }
  }

  /** Short of the limit, `do_info` fills the open file and the counter with it. */
  lemma {:induction false} RunInfos(log: Log, max: nat, calls: seq<Call>)
    requires max < TWO_32 && log.target.File? && 0 < log.counter && log.counter + |calls| <= max
    requires forall c | c in calls :: c.DoInfo?
    ensures var log' := Run(log, max, calls);
            && log'.target.File? && log'.counter == log.counter + |calls| && log'.closed == log.closed
            && |log'.current| == |log.current| + |calls|
            && Chains(log'.current) == Chains(log.current)
    decreases |calls|
  {
    if calls != [] {
      assert calls[0] in calls && forall c | c in calls[1..] :: c in calls;
      InfoStep(log, max, calls[0]);
      hide Step, Chains;
      RunInfos(Step(log, max, calls[0]), max, calls[1..]);
    }
  }

  lemma InfoStep(log: Log, max: nat, c: Call)
    requires max < TWO_32 && log.target.File? && 0 < log.counter < max && c.DoInfo?
    ensures var next := Step(log, max, c);
            && next.target.File? && next.counter == log.counter + 1 && next.closed == log.closed
            && |next.current| == |log.current| + 1 && Chains(next.current) == Chains(log.current)
  {
    if log.counter % max == 0 {
      SmallMultiple(log.counter, max);
    }
    assert (log.current + [Info(c.msg)])[..|log.current|] == log.current;
  }
}
