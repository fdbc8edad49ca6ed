# Rocker: a verified model

Rocker launches an application in a sandbox. A server (RockerMaster) takes a datagram request, clones a guard
process that builds namespaces, a loop mount and overlays, and answers with namespace descriptors; a client
library encodes the request and enters the namespaces. This project models the parts whose behaviour the code
decides, in Dafny 4.11, and proves what they keep in every run.

| file | what it models |
|---|---|
| `Bytes.dfy` | bytes, the width of `usize`, overflow checks, native-endian integers |
| `Parser.dfy`, `ParserProperties.dfy` | `req_parse`: as a program, as a function, and what it accepts, ignores and panics on |
| `Utf8.dfy` | the strings the parser accepts are the encodings of Unicode scalar values |
| `Encoder.dfy`, `WireProperties.dfy`, `Reencoding.dfy` | the C encoder, `sendmsg`, the 512-byte buffer, and encoder against parser in both directions |
| `Wrapper.dfy` | the Rust wrapper in front of the C encoder, and the whole path to `RockerCfg::new` |
| `GuardName.dfy` | the name counter, the name a guard installs, the name a client is told |
| `Handshake.dfy` | `RockerCfg::init` against the guard's closure, as two interleaved programs |
| `GuardCreation.dfy` | `RockerCfg::init` as the sequential program it is, and that the interleaved runs follow it |
| `Server.dfy`, `ServerInvariant.dfy`, `ServerProperties.dfy` | any number of workers and guards, the reaper, the registry and the loop devices |
| `ServerNames.dfy`, `ServerReaper.dfy` | the names handed out and installed across the server; what the reaper does for a dead guard |
| `ServerRuns.dfy` | runs of the server that leave a loop device bound, or an entry in the registry, for ever |
| `Namespaces.dfy` | `enter_ns` and the client's reaction to a reply |
| `ClientLog.dfy`, `ErrorChain.dfy` | log rotation; the heap-allocated error chains |

Requests, strings and names are byte sequences. The width of `usize`, the byte order and whether arithmetic is
checked are parameters (`Machine`), so the statements cover the 32-bit targets of the Makefile, and its default
`dev` build with overflow checks as well as the release build without. The two protocols are step
relations: an action carries the outcome of the system call behind it, and a run is any sequence of enabled
actions.

## What the kernel is assumed to do

- The datagram pair of the handshake is FIFO and loses nothing; SIGKILL on one's own child succeeds.
- LOOP_CTL_GET_FREE never returns a bound device; binding a bound or missing device fails; removing a bound one
  fails; clearing the binding of a dead guard takes effect at once.
- Process ids are fresh within a run.
- `sendmsg` refuses an `iov_len` above SSIZE_MAX and a datagram above the send buffer, whose size is an `int`.
- /proc/PID/stat shows a process name byte for byte between parentheses, and the client runs in the C locale.
- Entering a user namespace gives up the privilege `setns` needs, as the comment on `NS` says.

## Where the code does not keep what is promised

Each of these is a theorem, with the exact condition beside it.

- A 32-bit server panics, and never answers, on a request whose lengths add up to 2^32. With overflow checks every
  sum from there on does that; without, the exact condition is longer (`PanicOn32`, `PanicExactly`,
  `ChecksOnlyPanic`, `SilentDeathExactly`).
- On 64-bit machines an overlay path of 2^32 - 1 bytes disappears from a request that is then accepted
  (`OverlayCanVanish`, `DifferentRequestExactly`).
- `gid: None`, the wrapper's default, is always refused: -1 is clamped to 0 before it is looked at
  (`GidAlwaysPresent`, `WrapperExact`).
- Guard names are said to be random and without repetition. They are a counter, and on a little-endian machine
  the 255th and the 256th are equal (`NamesCollide`, `SameNameExactly`, `NamesHandedOut`).
- The README's "more robust cleanup" compares the name in the reply with the one read from /proc; they are never
  equal (`ReportedNeverMatches`, `CleanupNeverKills`).
- A guard reaped before its worker registers it leaves an entry that stays for ever (`StaleEntry`,
  `RegistryExactly`), and its loop device stays bound for ever, as does that of every guard whose `init` failed
  after binding (`LeaksExactly`, `LeakedDevice`).
- "The first descriptor that is not -1 is the one that failed" does not hold for a -1 in the list
  (`FailedDescriptorFound`, `WrongDescriptorFound`).
- "At most MaxLogPerFile records per file" fails for the open file (`FileLimitBroken`) and for closed ones
  (`ClosedLimitBroken`), because error chains are not counted; `FileLimitExactly` says when each keeps it.
- The orders MNT|USER|PID and USER|MNT|PID, named in a comment and in the README, could not be entered; the code
  sends mnt, pid, user (`ServerOrder`).

## Model

| member | source | states |
|---|---|---|
| Parser.ReqParse | rocker_server/src/main.rs:135-206 | the program with its array and index loop returns what the parser function says, for every byte string, including where a slice would panic |
| Parser.ReadMetas | rocker_server/src/main.rs:142-154 | the 22 header words, decoded in native order and clamped at zero |
| Bytes.IntLayout | rocker_server/src/main.rs:142-149 | the four bytes of an int are its digits to the base 256 in two's complement, least significant first on little-endian machines and last on big-endian ones |
| Parser.TotalLength | rocker_server/src/main.rs:156-160 | the sum of the 19 lengths, modulo 2^32 or 2^64, or a panic where overflow is checked and the true sum is that large |
| Parser.CutPaths | rocker_server/src/main.rs:172-188 | the loop over l_idx and u_idx cuts the payload as the recursive definition does, first error or panic first |
| ParserProperties.CutTextsIsCut | rocker_server/src/main.rs:172-188 | the index loop with its wrapping additions is the cutting of the payload from its front: no offset wraps before a panic |
| ParserProperties.ParseExact | rocker_server/src/main.rs:135-206 | the parser accepts exactly the byte strings that denote a request, as that request: ids positive, strings NUL-free UTF-8 that tile the payload |
| Utf8.ValidExactly | rocker_server/src/main.rs:181-187 | to_str accepts a byte string if and only if it encodes some sequence of Unicode scalar values, of one to four bytes each |
| ParserProperties.RefusedEarly | rocker_server/src/main.rs:138-166 | too short, size invalid, zero field: each exactly when, in that order |
| ParserProperties.RefusedString | rocker_server/src/main.rs:172-188 | after those, the first slot that is not a string decides, by its NULs before its UTF-8 |
| ParserProperties.Partition | rocker_server/src/main.rs:172-192 | the strings of an accepted request, each with its NUL, are the bytes from 88 to 88 plus the sum, without gap or overlap |
| ParserProperties.TrailingBytesIgnored | rocker_server/src/main.rs:156-160 | bytes after the announced payload do not change an accepted request |
| ParserProperties.OnlyPositiveLengthsMatter | rocker_server/src/main.rs:150-180 | negative lengths equal zero ones and empty overlay slots may be anywhere: the outcome, error or panic included, is the same |
| ParserProperties.GidAlwaysPresent | rocker_server/src/main.rs:150-170 | an accepted request carries its positive gid, never None |
| ParserProperties.PanicExactly | rocker_server/src/main.rs:156-188 | with overflow checks a panic happens if and only if no usize holds the sum; without them, if and only if the true sum exceeds the payload, the wrapped one does not, no required field is zero and every slot before the end is a string |
| ParserProperties.ChecksOnlyPanic | rocker_server/src/main.rs:156-160 | on every request the checked and the unchecked build agree, except that the checked one panics on every sum that wraps |
| ParserProperties.NoPanicOn64 | rocker_server/src/main.rs:135-206 | with a 64-bit usize no byte string panics the parser |
| Reencoding.PanicOn32 | rocker_server/src/main.rs:156-188 | an 88-byte request that panics a 32-bit server, built either way |
| Reencoding.ReencodeCanonical | librocker_client/src/lib.c:59-86 | for an accepted request in the encoder's own form, encoding the result gives back the consumed prefix byte for byte |
| Encoder.FillRequired | librocker_client/src/lib.c:61-76 | the designated initialisers set the first six words and three vectors |
| Encoder.FillOverlays | librocker_client/src/lib.c:78-83 | the loop sets the sixteen overlay words and vectors and leaves the rest alone |
| Encoder.ParseRequest | librocker_client/src/lib.c:59-86 | the filled arrays are the header and the gather list of the request |
| Encoder.VectorsInBounds | librocker_client/src/lib.c:70-83 | no vector that sendmsg accepts reads past its string, even when a length has wrapped |
| WireProperties.WireExact | librocker_client/src/lib.c:39-86 | of the requests that are sent, the server parses exactly the deliverable ones, as delivered, and refuses all others without a panic, after the cut to 512 bytes |
| WireProperties.CutDatagram | rocker_server/src/main.rs:49-57 | a datagram longer than the buffer is refused as too short for its lengths |
| WireProperties.DeliverableIsSent | librocker_client/src/io.c:488-508 | a deliverable request is never too large to send, and its size is 88 plus its strings |
| WireProperties.DifferentRequestExactly | librocker_client/src/lib.c:59-83 | the delivered request differs from the intended one exactly if an overlay's size with its NUL is a multiple of 2^32; never on 32-bit machines |
| WireProperties.OverlayCanVanish | librocker_client/src/lib.c:59-83 | such a request, accepted with its overlay missing |
| Wrapper.Convert | librocker_client_wrapper/src/client_ffi/mod.rs:91-109 | a NUL in any string, overlays past the sixteenth included, is an error; otherwise the C request has the cast ids and the first sixteen overlays in its slots |
| Wrapper.ConversionFields | librocker_client_wrapper/src/client_ffi/mod.rs:91-109 | each field of the C request: ids modulo 2^32, -1 for no gid, the first sixteen overlays in order and NULL after them |
| Wrapper.WrapperExact | librocker_client_wrapper/src/client_ffi/mod.rs:80-115 | a wrapper request reaches RockerCfg::new if and only if it is accepted in the caller's terms, and then with exactly that configuration |
| GuardName.CounterSteps | core/src/master.rs:97-110 | the counter starts at usize::MAX, falls by one with each call and wraps after 0 |
| GuardName.CountersDiffer | core/src/master.rs:97-110 | no value is repeated within as many calls as usize has values |
| GuardName.GuardCopy.SetSelfName | core/src/master.rs:462-476 | the in-place rewriting installs the name and updates the guard's own field, and neither if prctl fails |
| GuardName.InstalledIsFullString | core/src/master.rs:463-465 | every installed name is a C string of exactly fifteen bytes |
| GuardName.SameNameExactly | core/src/master.rs:463-465 | two counters share a name exactly if the digits that reach it differ at most by 0 for 1 |
| GuardName.ZeroFreeNamesDistinct | core/src/master.rs:463-465 | zero-free counters have distinct names on little-endian machines |
| GuardName.NamesCollide | librocker_client/src/lib.h:16-16 | the promise of distinct names fails at requests 254 and 255 |
| GuardName.FirstNamesDistinct | core/src/master.rs:97-110 | up to there all names are distinct |
| GuardName.NamesCollideBigEndian | core/src/master.rs:463-465 | on big-endian machines the first two names are equal |
| GuardName.ReportedZeroFree | librocker_client_wrapper/src/client_ffi/mod.rs:120-131 | for a zero-free counter the client reads the first usize-many bytes of the installed name |
| GuardName.ReportedNeverMatches | README.md:110-114 | the name in the reply never equals the installed one, nor what get_process_name makes of it in /proc/PID/stat, with blanks, the 15-byte limit and a closing parenthesis |
| GuardName.ProcessNameExactly | librocker_client/src/utils.c:47-66 | what is read of a name in /proc/PID/stat: up to the first blank, at most fifteen bytes, less a closing parenthesis, and nothing of one byte or none |
| GuardName.LeadingSpaceSkipped | librocker_client/src/utils.c:47-66 | blanks in front of the name are passed over |
| Handshake.StepInv | core/src/master.rs:126-260 | every step of either program, with any outcome, keeps the agreement between stages, messages, loop id and event order |
| Handshake.SuccessAgrees | core/src/master.rs:161-198 | init returns Ok only after all six stages, with the loop id that this guard bound, and with the identity maps written in order |
| Handshake.ErrorAgrees | core/src/master.rs:132-159 | an error code that init receives is that of the one stage that failed and is reported as that stage's error |
| Handshake.NoGuardOutlivesAnError | core/src/master.rs:124-196 | after any error the guard was never cloned, is dead, or has only its exit left |
| Handshake.DeathsAre | core/src/utils/mod.rs:125-130 | a guard dies of its exit, of a signal, or of a failed receive or map write of init, and of nothing else |
| Handshake.NeverDies | core/src/master.rs:154-156 | the pdie branch is unreachable, and SUCCESS is never taken for a loop id |
| Handshake.RunsAreFinite | core/src/master.rs:161-184 | every run of init and a guard ends, within a bound that falls with each step |
| Handshake.MasterNeverStuck | core/src/utils/mod.rs:250-266 | until init returns it has a step, whatever the guard does |
| GuardCreation.RockerCfg.Init | core/src/master.rs:126-199 | which result each combination of call outcomes gives, what becomes of the pid, loop id and guard |
| GuardCreation.RockerCfg.WriteGidmap | core/src/master.rs:346-370 | succeeds without a gid, and otherwise exactly if both writes do |
| GuardCreation.InterleavedInit | core/src/master.rs:126-260 | however init and the guard interleave, init ends with the result and loop id of the sequential program on what its calls returned, and a guard it killed is dead |
| ServerInvariant.StepInv | rocker_server/src/main.rs:66-129 | every step of the server keeps the invariant over tasks, pids, registry, loop devices and reaper |
| ServerInvariant.NoOldEntry | core/src/master.rs:479-489 | with fresh pids registration never meets an old entry |
| ServerInvariant.UnbindOwner | core/src/master.rs:373-392 | the device the reaper is about to unbind is bound, by the guard just reaped |
| ServerProperties.LoopOwnership | core/src/master.rs:405-426 | the kernel's table is exactly the uncleared bindings of guards; no two guards own one device |
| ServerProperties.UnbindClearsOwn | core/src/master.rs:373-392 | an unbind clears the binding of that same dead guard and leaves every other |
| ServerProperties.DestroySparesBound | core/src/master.rs:492-496 | the removal two seconds later never takes a device that is bound again |
| ServerProperties.LeaksExactly | core/src/master.rs:387-392 | once the reaper is done with a guard, its device is bound in every later state of every run exactly if it was not registered, was reaped early, or its unbind failed |
| ServerRuns.LeakedDevice | core/src/master.rs:414-425 | a run in which init fails after the binding; the device is bound in every later state of every run |
| ServerProperties.ReleasedAtMostOnce | rocker_server/src/main.rs:107-115 | no registration is released twice, and only after its guard is dead and reaped |
| ServerProperties.RegistryKeys | rocker_server/src/main.rs:104-115 | the keys of the map are the registered guards not reaped since |
| ServerProperties.RegistryExactly | rocker_server/src/main.rs:88-115 | the keys are the registered guards still to be processed if and only if no guard was reaped before its registration |
| ServerProperties.AllReleased | rocker_server/src/main.rs:104-115 | when all registered guards are reaped and none early, the map is empty and each was released exactly once |
| ServerRuns.StaleEntry | rocker_server/src/main.rs:88-115 | a run with an early reap, after which the entry is in the map in every later state |
| ServerProperties.OneReply | rocker_server/src/main.rs:66-101 | at most one reply, exactly one at the end unless sendmsg fails; pid -1, a name of zeros and no descriptors exactly if parsing, checks, init or descriptors failed, and otherwise the guard's pid, the bytes of its counter and the descriptors of mnt, pid, user |
| ServerProperties.NoGuardOutlivesARefusal | core/src/master.rs:512-527 | a worker that refuses, for whatever reason, leaves a guard that was never cloned, is dead, or has only its exit left; one that ends with its guard running had registered it |
| ServerProperties.RefusalReported | librocker_client/src/lib.c:124-136 | a client reports ROCKER_ERR_build_rocker_failed for a refusal and for no other reply |
| ServerNames.CountersIssued | core/src/master.rs:97-110 | accepted requests are numbered without gap or repetition, each holds the counter of its number, and within the range of usize no two the same |
| ServerNames.NamesHandedOut | core/src/master.rs:462-476 | no two replies name a guard alike until usize wraps; installed names are distinct among the first 255 accepted requests on little-endian machines, and equal for the next pair |
| ServerNames.CleanupNeverKills | README.md:110-114 | for every reply the server ever sends, the name in it differs from what the client reads of that guard's name in /proc |
| ServerReaper.DestroyRemoves | core/src/master.rs:479-496 | a successful removal takes the device that the dead, reaped guard had bound, and nothing else |
| ServerReaper.NoBindUntilCreated | core/src/loop/mod.rs:13-32 | after it no guard can bind that device, in any run, until the kernel creates it again |
| ServerReaper.ReleasesCarriedThrough | core/src/master.rs:479-496 | over every run, releases, attempts to unbind and attempts to remove are equal in number whenever the reaper is idle |
| ServerProperties.SilentDeathExactly | rocker_server/src/main.rs:66-101 | a worker ends without trying to answer exactly on the requests that panic the parser in its build, never with a 64-bit usize |
| ServerProperties.AppRunsOnlyWhenReady | librocker_client/src/lib.c:124-136 | an app runs only on a reply before which, in order, the guard left the user namespace, uid_map, setgroups, gid_map were written and the guard was registered |
| ServerProperties.RepliesCanBeEntered | core/src/master.rs:512-527 | descriptors come with a pid, none with -1, and in an enterable order |
| ServerProperties.NeverStuck | rocker_server/src/main.rs:66-129 | an unfinished worker always has a step, or waits at registration for a reaper that has one |
| ServerProperties.WorkerEnds | rocker_server/src/main.rs:66-101 | a worker takes at most thirteen steps in any run, each of which uses up its rank, and no other step adds to it |
| ServerProperties.QuietIsAnswered | rocker_server/src/main.rs:66-101 | wherever a worker can do no more and the reaper is idle, it has sent exactly one reply, unless sendmsg failed or the parser panicked |
| Namespaces.EnterNs | librocker_client/src/namespace.c:26-38 | on return -1 stands on exactly the prefix before the first refused call and the rest is unchanged; the first other value is then the failed descriptor exactly if that was not -1; nil and zero size are errors, a negative size is not |
| Namespaces.FailedDescriptorFound | librocker_client/src/namespace.c:20-21 | the first value other than -1 is the failed descriptor exactly if that was not -1 |
| Namespaces.WrongDescriptorFound | librocker_client/src/namespace.c:20-21 | a list on which it is another one |
| Namespaces.EnteredExactly | librocker_client/src/namespace.c:26-38 | nothing else failing, a list is entered to the end exactly if user comes only last |
| Namespaces.ServerOrder | core/src/master.rs:38-41 | the server's order has each namespace once and qualifies, the two documented ones do not |
| Namespaces.EnterRockerInner | librocker_client/src/lib.c:95-140 | each of the eight results exactly when, the first failing call deciding; the app runs exactly on success; pid and name are those of the reply once there is one |
| ClientLog.Logger.LogRotate | librocker_client/src/log.c:86-92 | rotation on the object is the rotation function |
| ClientLog.Logger.DoInfo | librocker_client/src/log.c:113-133 | one call on the object is one step of the log function |
| ClientLog.Logger.DisplayErrchain | librocker_client/src/log.c:153-199 | writes one uncounted record |
| ClientLog.RotationExact | librocker_client/src/log.c:85-133 | over all call sequences: counter in 1..max, open file holds counter - 1 counted records, closed files max - 1, and the files and then stderr hold one record for each call, error chains included, in the order of the calls |
| ClientLog.RotatesExactly | librocker_client/src/log.c:85-133 | a call leaves the open file exactly when that holds max - 1 counted records, and writes first into what is opened next; stderr is never left |
| ClientLog.MessagesInOrder | librocker_client/src/log.c:113-133 | in particular the counted records are the messages passed to do_info, in order |
| ClientLog.FileLimitExactly | librocker_client/src/log.c:84-84 | a closed file keeps the promised limit exactly if it holds at most one error chain, the open file exactly if it holds at most max + 1 - counter |
| ClientLog.FileLimitBroken | librocker_client/src/log.c:84-84 | for every limit, a call sequence whose open file exceeds it |
| ClientLog.ClosedLimitBroken | librocker_client/src/log.c:84-84 | for every limit, a call sequence with a closed file that exceeds it, with two error chains in it |
| ErrorChain.ErrNew | librocker_client/src/log.h:38-50 | the new node heads a chain that owns its nodes and descriptions; what is allocated is the node and its copy |
| ErrorChain.CleanErrchain | librocker_client/src/log.c:203-211 | terminates on every owned chain, frees each node and description once, and nothing else |
| ErrorChain.DisplayErrchain | librocker_client/src/log.c:180-196 | prints description and code of each node from the outermost to the root cause and keeps the links; afterwards the chain can be cleaned exactly if no description was nil |
| ErrorChain.DisplayCleanErrchain | librocker_client/src/log.h:60-63 | on chains without nil descriptions, displaying and cleaning frees exactly the chain |

## Left out

- Handshake.Next: two processes interleave, so `init` and the guard's closure are steps of a relation on values here; the update in place of `init` is in GuardCreation, that of the guard's closure is not captured. A timed receive may fail at any moment, not only after two seconds.
- Server.Next: the same for `worker`, `resource_worker` and the shared map; the limit of four threads in the pool is not modelled, any number of workers may interleave.
- ServerProperties.NeverStuck: no scheduler is modelled, so it says that a step exists, not that it is taken; that those taken come to an end is ServerProperties.WorkerEnds.
- WireProperties.WireExact: 32-bit strings are bounded by PTRDIFF_MAX; pointer lifetimes and the order of the C initialisers are not modelled.
- ClientLog.RotationExact: a file that cannot be reopened ends the process and is no step; time stamps and the text around a record are not modelled.
- ErrorChain.ErrNew: a failed malloc ends the process and is no step; the macros' double evaluation of an argument is not modelled.
- GuardName.ReportedNeverMatches: kernels that escape bytes of the name in /proc/PID/stat are not covered by its second half.
- The file-system checks of `RockerCfg::new` are one parameter, `cfgOk`.
- The place (file, line, function) in an error node and the wrapper's translation of error numbers into kinds.
- The overlay loop of `guard_mnt_overlay` and the bit macros of global_def.h would only add easy members.
- `copy_file`, `read_file`, `remove_all`, address binding and other I/O plumbing.
- The handshake's socket pair and, on error paths, the namespace descriptors: the code does not close them.
- Processes inside a rocker, and the guard's polling of /proc for them: a running guard may exit at any time.
