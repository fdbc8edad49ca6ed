/** The client's way into a rocker: `enter_ns` and `ROCKER_enter_rocker_inner`. */
module Namespaces {
  import opened Bytes

  datatype Namespace = Mnt | Pid | User

  /** The server's constant `NS`: the order in which descriptors are opened and sent. */
  const NS: seq<Namespace> := [Mnt, Pid, User]

  datatype Entry = NilParam | Entered | SetnsFailed

  /** The index of the first call of setns that the kernel refuses, or `n`. */
  function FirstRefused(ok: seq<bool>, n: nat): (k: nat)
    requires n <= |ok|
    ensures k <= n
    ensures forall i | 0 <= i < k :: ok[i]
    ensures k < n ==> !ok[k]
  {
    if n == 0 then 0
    else
      var k := FirstRefused(ok, n - 1);
      if k < n - 1 || !ok[k] then k else n
  }

  /** `enter_ns`, with the kernel's answer to the i-th call as `ok[i]`. A negative size passes
      the check and enters nothing. */
  method EnterNs(fdset: array?<int>, setSiz: int, ok: seq<bool>) returns (r: Entry)
    requires fdset != null ==> setSiz <= fdset.Length && setSiz <= |ok|
    modifies fdset
    ensures r.NilParam? <==> fdset == null || setSiz == 0
    ensures fdset != null && setSiz <= 0 ==> fdset[..] == old(fdset[..])
    ensures fdset != null && setSiz < 0 ==> r.Entered?
    ensures fdset != null && setSiz > 0 ==>
              var k := FirstRefused(ok, setSiz);
              && (r.Entered? <==> k == setSiz)
              && fdset[..] == AllEntered(k) + old(fdset[k..])
              && (k < setSiz ==> (FirstRemaining(fdset[..]) == k <==> old(fdset[k]) != -1))
  {
    ghost var before := if fdset == null then [] else fdset[..];
    if fdset == null || setSiz == 0 {
      return NilParam;
    }
    var i := 0;
    while i < setSiz
      invariant 0 <= i && if setSiz < 0 then i == 0 else i <= setSiz
      invariant i <= fdset.Length && i <= |ok|
      invariant forall k | 0 <= k < i :: ok[k] && fdset[k] == -1
      invariant fdset[i..] == old(fdset[i..])
    {
      if !ok[i] {
        assert fdset[..] == AllEntered(i) + before[i..];
        FailedDescriptorFound(before, i);
        return SetnsFailed;
      }
      fdset[i] := -1;
      i := i + 1;
    }
    assert fdset[..] == AllEntered(i) + fdset[i..];
    if setSiz < 0 {
      assert fdset[..] == fdset[0..];
    }
    return Entered;
  }

  function AllEntered(k: nat): (s: seq<int>)
    ensures |s| == k
  {
    seq(k, _ => -1)
  }

  function FirstRemaining(fds: seq<int>): (k: nat)
    ensures k <= |fds|
    ensures forall i | 0 <= i < k :: fds[i] == -1
    ensures k < |fds| ==> fds[k] != -1
  {
    if fds == [] || fds[0] != -1 then 0 else 1 + FirstRemaining(fds[1..])
  }

  /** The header promises that after an error the first value other than -1 is the descriptor
      that failed. That holds exactly if that descriptor was not -1 itself. */
  lemma FailedDescriptorFound(before: seq<int>, k: nat)
    requires k < |before|
    ensures FirstRemaining(AllEntered(k) + before[k..]) == k <==> before[k] != -1
  {
    var after := AllEntered(k) + before[k..];
    assert after[k] == before[k];
    forall i | 0 <= i < k ensures after[i] == -1 {}
  }

  /** It does not hold here: the first call fails on a -1, and the second descriptor is found. */
  lemma WrongDescriptorFound()
    ensures FirstRefused([false, true], 2) == 0
    ensures FirstRemaining(AllEntered(0) + [-1, 5][0..]) == 1
  {
    assert FirstRefused([false, true], 1) == 0;
    assert [-1, 5][1..] == [5] && AllEntered(0) + [-1, 5][0..] == [-1, 5];
  }

  // ---------------------------------------------------------------------
  // Privilege

  /** The kernel's answers when privilege is lost on entering `user` and `broken` lists the calls
      that fail for another reason. */
  function Answers(kinds: seq<Namespace>, broken: seq<bool>): (ok: seq<bool>)
    requires |broken| == |kinds|
    ensures |ok| == |kinds|
  {
    seq(|kinds|, i requires 0 <= i < |kinds| => User !in kinds[..i] && !broken[i])
  }

  predicate UserOnlyLast(kinds: seq<Namespace>) {
    forall i | 0 <= i < |kinds| - 1 :: kinds[i] != User
  }

  /** Nothing else failing, a list is entered to the end exactly when `user` comes only last. */
  lemma EnteredExactly(kinds: seq<Namespace>, broken: seq<bool>)
    requires |broken| == |kinds| && true !in broken
    ensures FirstRefused(Answers(kinds, broken), |kinds|) == |kinds| <==> UserOnlyLast(kinds)
  {
    var ok := Answers(kinds, broken);
    if UserOnlyLast(kinds) {
      forall i | 0 <= i < |kinds| ensures ok[i] {
        assert User !in kinds[..i];
        assert broken[i] in broken;
      }
    }
    if FirstRefused(ok, |kinds|) == |kinds| {
      forall i | 0 <= i < |kinds| - 1 ensures kinds[i] != User {
        assert ok[i + 1];
        assert kinds[..i + 1][i] == kinds[i];
      }
    }
  }

  /** The server's order has every namespace once and can be entered; the ones named in the comment of `Resp` and in the
      README cannot. */
  lemma ServerOrder()
    ensures UserOnlyLast(NS) && multiset(NS) == multiset{Mnt, Pid, User}
    ensures !UserOnlyLast([Mnt, User, Pid]) && !UserOnlyLast([User, Mnt, Pid])
  {
    assert [Mnt, User, Pid][1] == User && [User, Mnt, Pid][0] == User;
  }

  // ---------------------------------------------------------------------
  // The client

  datatype Reply = Reply(guardPid: int, guardPname: seq<byte>, fds: seq<Namespace>)

  datatype ClientError =
    | Success
    | ServerUnaddrInvalid
    | GenLocalAddrFailed
    | SendReqFailed
    | RecvRespFailed
    | BuildRockerFailed
    | EnterRockerFailed
    | AppExecFailed

  const FD_LIMIT: nat := 8

  /** The outcome of the system calls around the request. A reply without descriptors carries no
      control message, and `recv_fd` then clears the descriptor set. */
  datatype Environment = Environment(
    addrOk: bool,
    bindOk: bool,
    sendOk: bool,
    received: Option<Reply>,
    broken: seq<bool>,
    cloneOk: bool
  ) {
    predicate Valid() {
      received.Some? ==> (|received.value.fds| == |NS| || received.value.fds == []) && |broken| == |received.value.fds|
    }
  }

  /** The result structure, without the application's pid. */
  datatype RockerResult = RockerResult(errNo: ClientError, guardPid: int, guardPname: seq<byte>)

  /** A reply has arrived: every call up to there succeeded. */
  predicate Replied(env: Environment) {
    env.addrOk && env.bindOk && env.sendOk && env.received.Some?
  }

  /** It has a guard's pid, and descriptors. */
  predicate Built(env: Environment) {
    Replied(env) && env.received.value.guardPid >= 0 && env.received.value.fds != []
  }

  predicate AllEnter(env: Environment)
    requires env.Valid() && Built(env)
  {
    FirstRefused(Answers(env.received.value.fds, env.broken), |NS|) == |NS|
  }

  predicate AppRuns(env: Environment)
    requires env.Valid()
  {
    Built(env) && AllEnter(env) && env.cloneOk
  }

  /** When each error is reported: the first thing that fails decides. */
  predicate Reports(env: Environment, e: ClientError)
    requires env.Valid()
  {
    && (e.ServerUnaddrInvalid? <==> !env.addrOk)
    && (e.GenLocalAddrFailed? <==> env.addrOk && !env.bindOk)
    && (e.SendReqFailed? <==> env.addrOk && env.bindOk && !env.sendOk)
    && (e.RecvRespFailed? <==> env.addrOk && env.bindOk && env.sendOk && env.received.None?)
    && (e.BuildRockerFailed? <==> Replied(env) && !Built(env))
    && (e.EnterRockerFailed? <==> Built(env) && !AllEnter(env))
    && (e.AppExecFailed? <==> Built(env) && AllEnter(env) && !env.cloneOk)
    && (e.Success? <==> AppRuns(env))
  }

  /** `ROCKER_enter_rocker_inner`; `numbers` are the descriptors as they arrive in the client. */
  method EnterRockerInner(env: Environment, numbers: seq<int>) returns (jr: RockerResult, ran: bool)
    requires env.Valid()
    requires env.received.Some? ==> |numbers| == |env.received.value.fds|
    ensures ran <==> AppRuns(env)
    ensures Reports(env, jr.errNo)
    ensures if Replied(env) then
              jr.guardPid == env.received.value.guardPid && jr.guardPname == env.received.value.guardPname
            else
              jr.guardPid == -1 && jr.guardPname == seq(16, _ => 0)
  {
    jr := RockerResult(Success, -1, seq(16, _ => 0));
    ran := false;
    if !env.addrOk {
      return jr.(errNo := ServerUnaddrInvalid), false;
    }
    if !env.bindOk {
      return jr.(errNo := GenLocalAddrFailed), false;
    }
    if !env.sendOk {
      return jr.(errNo := SendReqFailed), false;
    }
    if env.received.None? {
      return jr.(errNo := RecvRespFailed), false;
    }
    var reply := env.received.value;
    jr := jr.(guardPid := reply.guardPid, guardPname := reply.guardPname);
    var fdset: array?<int> := null;
    if reply.fds != [] {
      fdset := new int[FD_LIMIT](_ => 0);
      for i := 0 to |numbers| {
        fdset[i] := numbers[i];
      }
    }
    if 0 > jr.guardPid || fdset == null {
      return jr.(errNo := BuildRockerFailed), false;
    }
    var entry := EnterNs(fdset, |NS|, Answers(reply.fds, env.broken));
    if !entry.Entered? {
      return jr.(errNo := EnterRockerFailed), false;
    }
    if !env.cloneOk {
      return jr.(errNo := AppExecFailed), false;
    }
    return jr, true;
  }
}
