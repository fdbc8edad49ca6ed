/** The names of guard processes: the counter in `RockerCfg::new`, `guard_set_self_name`, and the
    name a client reads out of the reply. */
module GuardName {
  import opened Bytes

  const NAME_SIZE: nat := 16

  /** The value of `GUARD_PROCNAME` handed to the k-th request: it starts at `usize::MAX` and
      `fetch_sub` wraps. */
  function Counter(w: Word, k: nat): nat {
    w.Modulus() - 1 - k % w.Modulus()
  }

  /** Each call of `fetch_sub` takes one off, and after 0 comes `usize::MAX` again; so there is no
      repetition within the range of `usize`. */
  lemma CounterSteps(w: Word, k: nat)
    ensures Counter(w, 0) == w.Modulus() - 1
    ensures Counter(w, k + 1) == if Counter(w, k) == 0 then w.Modulus() - 1 else Counter(w, k) - 1
  {
    if w.Word32? {
    } else {
    }
  }

  lemma CountersDiffer(w: Word, j: nat, k: nat)
    requires j < k < j + w.Modulus()
    ensures Counter(w, j) != Counter(w, k)
  {
    var n := w.Modulus();
    match w {
      case Word32 => assert k % n == (j % n + (k - j)) % n;
      case Word64 => assert k % n == (j % n + (k - j)) % n;
    }
  }

  /** `guard_pname.to_ne_bytes()`: the counter as a `u128`. */
  function Raw(m: Machine, counter: nat): (s: seq<byte>)
    ensures |s| == NAME_SIZE
  {
    NativeBytes(m.endian, counter, NAME_SIZE)
  }

  function NotZero(b: byte): byte { if b == 0 then 1 else b }

  /** What ends up as the process name. */
  function Installed(m: Machine, counter: nat): (s: seq<byte>)
    ensures |s| == NAME_SIZE
  {
    seq(NAME_SIZE, i requires 0 <= i < NAME_SIZE => if i == 15 then 0 else NotZero(Raw(m, counter)[i]))
  }

  /** `guard_set_self_name`, with the outcome of prctl as a parameter. The guard is a copy of the
      server without shared memory, so the field it updates is its own. */
  class GuardCopy {
    var guardPname: nat
    var processName: seq<byte>

    method SetSelfName(m: Machine, prctlOk: bool) returns (ok: bool)
      modifies this
      ensures ok == prctlOk
      ensures ok ==> processName == Installed(m, old(guardPname))
      ensures ok ==> Raw(m, guardPname) == processName
      ensures !ok ==> guardPname == old(guardPname) && processName == old(processName)
    {
      var name := new byte[NAME_SIZE];
      var raw := Raw(m, guardPname);
      forall i | 0 <= i < NAME_SIZE { name[i] := raw[i]; }
      for i := 0 to NAME_SIZE
        invariant unchanged(this)
        invariant forall k | 0 <= k < NAME_SIZE :: name[k] == if k < i then NotZero(raw[k]) else raw[k]
      {
        if 0 == name[i] {
          name[i] := 1;
        }
      }
      name[15] := 0;
      assert name[..] == Installed(m, guardPname);
      if !prctlOk {
        return false;
      }
      processName := name[..];
      NativeBytesOf(m.endian, name[..]);
      guardPname := FromNative(m.endian, name[..]);
      return true;
    }
  }

  // ---------------------------------------------------------------------

  /** The bytes up to the first zero, as C and the wrapper read a name. */
  function UpToNul(s: seq<byte>): seq<byte> {
    if s == [] || s[0] == 0 then [] else [s[0]] + UpToNul(s[1..])
  }

  lemma {:induction false} UpToNulStops(s: seq<byte>, n: nat)
    requires n <= |s| && (n < |s| ==> s[n] == 0)
    requires forall i | 0 <= i < n :: s[i] != 0
    ensures UpToNul(s) == s[..n]
  {
    if n > 0 {
      UpToNulStops(s[1..], n - 1);
      assert s[..n] == [s[0]] + s[1..][..n - 1];
    }
  }

  lemma {:induction false} UpToNulShort(s: seq<byte>, n: nat)
    requires n < |s| && s[n] == 0
    ensures |UpToNul(s)| <= n
  {
    if n > 0 {
      UpToNulShort(s[1..], n - 1);
    }
  }

  /** Every installed name is a C string of exactly fifteen bytes. */
  lemma InstalledIsFullString(m: Machine, counter: nat)
    ensures UpToNul(Installed(m, counter)) == Installed(m, counter)[..15]
    ensures 0 !in Installed(m, counter)[..15] && Installed(m, counter)[15] == 0
  {
    UpToNulStops(Installed(m, counter), 15);
  }

  // ---------------------------------------------------------------------
  // Which counters share a name

  /** Byte `i` of the counter, from the least significant. */
  function Digit(counter: nat, i: nat): byte {
    LittleBytes(counter, NAME_SIZE)[if i < NAME_SIZE then i else 0]
  }

  predicate ZeroFree(w: Word, counter: nat) {
    forall i | 0 <= i < w.Size() :: Digit(counter, i) != 0
  }

  /** The digits that reach the name: a big-endian machine puts the last one in byte 15, which
      is overwritten. */
  function FirstDigit(e: Endian): nat { if e.Little? then 0 else 1 }

  lemma {:induction false} HighBytesZero(v: nat, n: nat, i: nat)
    requires i < n && v < Power256(i)
    ensures LittleBytes(v, n)[i] == 0
  {
    if i > 0 {
      HighBytesZero(v / 256, n - 1, i - 1);
    }
  }

  lemma {:induction false} Power256Monotone(a: nat, b: nat)
    requires a <= b
    ensures Power256(a) <= Power256(b)
  {
    if a < b {
      Power256Monotone(a, b - 1);
    }
  }

  lemma HighDigitsZero(w: Word, counter: nat, i: nat)
    requires counter < w.Modulus() && w.Size() <= i < NAME_SIZE
    ensures Digit(counter, i) == 0
  {
    Power256Of4();
    assert Power256(8) == TWO_32 * TWO_32 by {
      assert Power256(5) == 256 * Power256(4);
      assert Power256(6) == 256 * Power256(5);
      assert Power256(7) == 256 * Power256(6);
    }
    Power256Monotone(w.Size(), i);
    HighBytesZero(counter, NAME_SIZE, i);
  }

  lemma InstalledDigit(m: Machine, counter: nat, i: nat)
    requires i < NAME_SIZE
    ensures m.endian.Little? && i < 15 ==> Installed(m, counter)[i] == NotZero(Digit(counter, i))
    ensures m.endian.Big? && i > 0 ==> Installed(m, counter)[15 - i] == NotZero(Digit(counter, i))
  {
  }

  /** Two counters share a name exactly when the digits that reach it differ at most by 0 for 1. */
  lemma SameNameExactly(m: Machine, a: nat, b: nat)
    requires a < m.word.Modulus() && b < m.word.Modulus()
    ensures Installed(m, a) == Installed(m, b) <==>
            forall i | FirstDigit(m.endian) <= i < m.word.Size() :: NotZero(Digit(a, i)) == NotZero(Digit(b, i))
  {
    hide Digit, Installed, NotZero;
    if forall i | FirstDigit(m.endian) <= i < m.word.Size() :: NotZero(Digit(a, i)) == NotZero(Digit(b, i)) {
      forall j: nat | j < NAME_SIZE ensures Installed(m, a)[j] == Installed(m, b)[j] {
        if j == 15 {
          InstalledIsFullString(m, a);
          InstalledIsFullString(m, b);
        } else {
          var i := if m.endian.Little? then j else 15 - j;
          InstalledDigit(m, a, i);
          InstalledDigit(m, b, i);
          if i >= m.word.Size() {
            HighDigitsZero(m.word, a, i);
            HighDigitsZero(m.word, b, i);
          }
        }
      }
    }
    if Installed(m, a) == Installed(m, b) {
      forall i | FirstDigit(m.endian) <= i < m.word.Size()
        ensures NotZero(Digit(a, i)) == NotZero(Digit(b, i))
      {
        InstalledDigit(m, a, i);
        InstalledDigit(m, b, i);
      }
    }
  }

  lemma {:induction false} SameDigits(a: nat, b: nat, n: nat)
    requires LittleBytes(a, n) == LittleBytes(b, n) && a < Power256(n) && b < Power256(n)
    ensures a == b
  {
    FromLittleBytes(a, n);
    FromLittleBytes(b, n);
  }

  lemma CounterFits(w: Word, counter: nat)
    requires counter < w.Modulus()
    ensures counter < Power256(NAME_SIZE)
  {
    Power256Of4();
    assert Power256(5) == 256 * Power256(4);
    assert Power256(6) == 256 * Power256(5);
    assert Power256(7) == 256 * Power256(6);
    assert Power256(8) == 256 * Power256(7);
    Power256Monotone(8, NAME_SIZE);
  }

  /** On a little-endian machine zero-free counters have distinct names. */
  lemma ZeroFreeNamesDistinct(m: Machine, a: nat, b: nat)
    requires m.endian.Little? && a < m.word.Modulus() && b < m.word.Modulus() && a != b
    requires ZeroFree(m.word, a) && ZeroFree(m.word, b)
    ensures Installed(m, a) != Installed(m, b)
  {
    if Installed(m, a) == Installed(m, b) {
      SameNameExactly(m, a, b);
      forall i: nat | i < NAME_SIZE ensures LittleBytes(a, NAME_SIZE)[i] == LittleBytes(b, NAME_SIZE)[i] {
        if i < m.word.Size() {
          assert NotZero(Digit(a, i)) == NotZero(Digit(b, i));
        } else {
          HighDigitsZero(m.word, a, i);
          HighDigitsZero(m.word, b, i);
        }
      }
      CounterFits(m.word, a);
      CounterFits(m.word, b);
      SameDigits(a, b, NAME_SIZE);
    }
  }

  lemma FirstCounters(w: Word, k: nat)
    requires k < 256
    ensures Counter(w, k) % 256 == 255 - k && Counter(w, k) / 256 == w.Modulus() / 256 - 1
    ensures Digit(Counter(w, k), 0) == 255 - k
  {
  }

  lemma FirstCountersAgree(m: Machine, j: nat, k: nat)
    requires j < 256 && k < 256
    requires m.endian.Big? || NotZero(255 - j) == NotZero(255 - k)
    ensures Installed(m, Counter(m.word, j)) == Installed(m, Counter(m.word, k))
  {
    FirstCounters(m.word, j);
    FirstCounters(m.word, k);
    hide Counter, Installed, NotZero;
    var a, b := Counter(m.word, j), Counter(m.word, k);
    assert LittleBytes(a, NAME_SIZE)[1..] == LittleBytes(b, NAME_SIZE)[1..];
    forall i | FirstDigit(m.endian) <= i < m.word.Size() ensures NotZero(Digit(a, i)) == NotZero(Digit(b, i)) {
      if i > 0 {
        assert LittleBytes(a, NAME_SIZE)[1..][i - 1] == LittleBytes(b, NAME_SIZE)[1..][i - 1];
      }
    }
    SameNameExactly(m, a, b);
  }

  /** The server promises distinct names, but on a little-endian machine requests 254 and 255,
      counted from 0, share one: their counters end in the digits 1 and 0. */
  lemma NamesCollide(m: Machine)
    requires m.endian.Little?
    ensures Counter(m.word, 254) != Counter(m.word, 255)
    ensures Installed(m, Counter(m.word, 254)) == Installed(m, Counter(m.word, 255))
  {
    FirstCountersAgree(m, 254, 255);
  }

  /** That is the first collision: the names of the requests before are all distinct. */
  lemma FirstNamesDistinct(m: Machine, j: nat, k: nat)
    requires m.endian.Little? && j < k < 255
    ensures Installed(m, Counter(m.word, j)) != Installed(m, Counter(m.word, k))
  {
    var a, b := Counter(m.word, j), Counter(m.word, k);
    FirstCounters(m.word, j);
    FirstCounters(m.word, k);
    assert NotZero(Digit(a, 0)) != NotZero(Digit(b, 0));
    SameNameExactly(m, a, b);
  }

  /** On a big-endian machine the first two names are already equal. */
  lemma NamesCollideBigEndian(m: Machine)
    requires m.endian.Big?
    ensures Installed(m, Counter(m.word, 0)) == Installed(m, Counter(m.word, 1))
  {
    FirstCountersAgree(m, 0, 1);
  }

  // ---------------------------------------------------------------------
  // The name in the reply

  /** The reply carries the server's own copy of the field, which still holds the counter. */
  function Reported(m: Machine, counter: nat): seq<byte> {
    UpToNul(Raw(m, counter))
  }

  lemma ReportedZeroFree(m: Machine, counter: nat)
    requires m.endian.Little? && counter < m.word.Modulus() && ZeroFree(m.word, counter)
    ensures Reported(m, counter) == Installed(m, counter)[..m.word.Size()]
  {
    HighDigitsZero(m.word, counter, m.word.Size());
    forall i | 0 <= i < m.word.Size() ensures Raw(m, counter)[i] != 0 {
      assert Digit(counter, i) != 0;
    }
    UpToNulStops(Raw(m, counter), m.word.Size());
  }

  // ---------------------------------------------------------------------
  // The name a client reads from /proc

  /** `isspace` in the C locale. */
  predicate Space(b: byte) { b == 32 || 9 <= b <= 13 }

  function SkipSpace(s: seq<byte>): (r: seq<byte>)
    ensures |r| <= |s| && r == s[|s| - |r|..]
    ensures r != [] ==> !Space(r[0])
    ensures s != [] && Space(s[0]) ==> |r| < |s|
    ensures s != [] && !Space(s[0]) ==> r == s
  {
    if s == [] || !Space(s[0]) then s else SkipSpace(s[1..])
  }

  /** At most `width` bytes, up to the first space. */
  function ScanWord(s: seq<byte>, width: nat): (r: seq<byte>)
    ensures r <= s && |r| <= width
    ensures forall i | 0 <= i < |r| :: !Space(r[i])
    ensures |r| < width && |r| < |s| ==> Space(s[|r|])
  {
    if width == 0 || s == [] || Space(s[0]) then [] else [s[0]] + ScanWord(s[1..], width - 1)
  }

  /** `get_process_name` on what follows the first parenthesis of /proc/PID/stat: `%15s`, then a
      parenthesis at the end is taken off. Nothing is read of an empty word, and a word of one byte
      ends the process. */
  function ProcessName(stat: seq<byte>): Option<seq<byte>> {
    Stripped(ScanWord(SkipSpace(stat), 15))
  }

  function Stripped(name: seq<byte>): Option<seq<byte>> {
    if |name| <= 1 then None
    else if name[|name| - 1] == 41 then Some(name[..|name| - 1])
    else Some(name)
  }

  /** What `get_process_name` reads of a process's name without a leading space: the part up to the
      first space, at most fifteen bytes, less a parenthesis at its end. */
  lemma ProcessNameExactly(comm: seq<byte>, rest: seq<byte>, k: nat)
    requires k <= |comm| <= 15 && (comm == [] || !(comm[0] == 32 || 9 <= comm[0] <= 13))
    requires forall i | 0 <= i < k :: !(comm[i] == 32 || 9 <= comm[i] <= 13)
    requires k < |comm| ==> comm[k] == 32 || 9 <= comm[k] <= 13
    ensures ProcessName(comm + [41, 32] + rest) ==
            if k == |comm| < 15 then (if k == 0 then None else Some(comm))
            else if k <= 1 then None
            else Some(if comm[k - 1] == 41 then comm[..k - 1] else comm[..k])
  {
    hide Stripped, ProcessName;
    WordRead(comm, rest, k);
    if k == |comm| < 15 {
      StrippedEnd(comm);
    } else {
      StrippedCut(comm, k);
    }
  }

  /** Leading spaces are skipped. */
  lemma LeadingSpaceSkipped(b: byte, stat: seq<byte>)
    requires b == 32 || 9 <= b <= 13
    ensures ProcessName([b] + stat) == ProcessName(stat)
  {
    assert ([b] + stat)[1..] == stat;
  }

  lemma StrippedEnd(comm: seq<byte>)
    ensures Stripped(comm + [41]) == if comm == [] then None else Some(comm)
  {
    assert (comm + [41])[..|comm|] == comm;
  }

  lemma StrippedCut(comm: seq<byte>, k: nat)
    requires k <= |comm|
    ensures Stripped(comm[..k]) ==
            if k <= 1 then None else Some(if comm[k - 1] == 41 then comm[..k - 1] else comm[..k])
  {
    assert k > 1 ==> comm[..k][..k - 1] == comm[..k - 1];
  }

  lemma WordRead(comm: seq<byte>, rest: seq<byte>, k: nat)
    requires k <= |comm| <= 15 && (comm == [] || !Space(comm[0]))
    requires (forall i | 0 <= i < k :: !Space(comm[i])) && (k < |comm| ==> Space(comm[k]))
    ensures ProcessName(comm + [41, 32] + rest) == Stripped(if k == |comm| < 15 then comm + [41] else comm[..k])
  {
    hide SkipSpace, ScanWord, Stripped, Space;
    StatWord(comm, rest, k);
  }

  lemma StatWord(comm: seq<byte>, rest: seq<byte>, k: nat)
    requires k <= |comm| <= 15 && (comm == [] || !Space(comm[0]))
    requires (forall i | 0 <= i < k :: !Space(comm[i])) && (k < |comm| ==> Space(comm[k]))
    ensures ScanWord(SkipSpace(comm + [41, 32] + rest), 15) == if k == |comm| < 15 then comm + [41] else comm[..k]
  {
    hide SkipSpace, ScanWord;
    var stat := comm + [41, 32] + rest;
    var word := if k == |comm| < 15 then comm + [41] else comm[..k];
    assert !Space(41) && Space(32);
    hide Space;
    assert stat == word + stat[|word|..];
    assert forall i | 0 <= i < |word| :: stat[i] == word[i];
    assert |word| < 15 ==> stat[|word|] == if k < |comm| then comm[k] else 32;
    ScanIs(stat, 15, |word|);
    assert stat[0] == if comm == [] then 41 else comm[0];
    assert SkipSpace(stat) == stat;
  }

  lemma {:induction false} ScanIs(s: seq<byte>, width: nat, n: nat)
    requires n <= width && n <= |s| && forall i | 0 <= i < n :: !Space(s[i])
    requires n < width ==> n < |s| && Space(s[n])
    ensures ScanWord(s, width) == s[..n]
  {
    if n > 0 {
      ScanIs(s[1..], width - 1, n - 1);
      assert s[..n] == [s[0]] + s[1..][..n - 1];
    }
  }

  /** How the bytes of the installed name relate to those reported. */
  lemma ReportedPrefix(m: Machine, counter: nat)
    requires counter < m.word.Modulus()
    ensures var name, reported := Installed(m, counter), Reported(m, counter);
            && |reported| <= m.word.Size()
            && (forall i | 0 <= i < |reported| :: name[i] == reported[i])
            && name[|reported|] == 1
  {
    var raw := Raw(m, counter);
    var zero := if m.endian.Little? then m.word.Size() else 0;
    HighDigitsZero(m.word, counter, if m.endian.Little? then zero else 15);
    UpToNulShort(raw, zero);
    UpToNulEnds(raw, zero);
  }

  lemma {:induction false} UpToNulEnds(s: seq<byte>, n: nat)
    requires n < |s| && s[n] == 0
    ensures var r := UpToNul(s);
            |r| <= n && r <= s && s[|r|] == 0 && forall i | 0 <= i < |r| :: s[i] != 0
  {
    if s[0] != 0 {
      UpToNulEnds(s[1..], n - 1);
    }
  }

  /** The README's cleanup compares the name from the reply with the one read from /proc before it
      kills the guard. They are never equal: the installed name goes on with a byte 1 where the
      reported one ends, and a word ends before the first space. */
  lemma ReportedNeverMatches(m: Machine, counter: nat, rest: seq<byte>)
    requires counter < m.word.Modulus()
    ensures Reported(m, counter) != UpToNul(Installed(m, counter))
    ensures ProcessName(UpToNul(Installed(m, counter)) + [41, 32] + rest) != Some(Reported(m, counter))
  {
    hide Installed, Raw, Reported;
    InstalledIsFullString(m, counter);
    ReportedPrefix(m, counter);
    var name, reported := Installed(m, counter)[..15], Reported(m, counter);
    assert UpToNul(Installed(m, counter)) == name;
    NeverRead(name, reported, rest);
  }

  lemma NeverRead(name: seq<byte>, reported: seq<byte>, rest: seq<byte>)
    requires |name| == 15 && |reported| <= 8 && reported <= name && name[|reported|] == 1
    ensures ProcessName(name + [41, 32] + rest) != Some(reported)
  {
    hide SkipSpace, ScanWord, Stripped, Space;
    var stat := name + [41, 32] + rest;
    assert forall i | 0 <= i < 15 :: stat[i] == name[i];
    var word := ScanWord(SkipSpace(stat), 15);
    if reported != [] && Space(reported[0]) {
      NotStripped(word, reported, 0);
    } else {
      assert !Space(stat[0]) by { OneIsNoSpace(); }
      LongerWord(stat, reported);
      NotStripped(word, reported, |word|);
    }
  }

  lemma OneIsNoSpace()
    ensures !Space(1)
  {
  }

  /** A word without spaces is not the reported name if that has one, or is shorter and followed
      by a 1. */
  lemma NotStripped(word: seq<byte>, reported: seq<byte>, k: nat)
    requires forall i | 0 <= i < |word| :: !Space(word[i])
    requires if |word| <= |reported| || k == 0 then k < |reported| && Space(reported[k]) else word[|reported|] == 1
    ensures Stripped(word) != Some(reported)
  {
  }

  /** The word contains the reported name and the byte after it, or ends at a space in it. */
  lemma LongerWord(stat: seq<byte>, reported: seq<byte>)
    requires |reported| <= 8 && 15 <= |stat| && stat[|reported|] == 1 && !Space(stat[0])
    requires forall i | 0 <= i < |reported| :: stat[i] == reported[i]
    ensures var word := ScanWord(SkipSpace(stat), 15);
            && word != []
            && if |word| <= |reported| then |word| < |reported| && Space(reported[|word|])
               else word[|reported|] == 1
  {
    hide SkipSpace, ScanWord;
    assert SkipSpace(stat) == stat;
    var word := ScanWord(stat, 15);
    assert |word| <= |reported| ==> Space(stat[|word|]);
  }
}
