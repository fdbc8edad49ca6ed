/** The server's request parser, `req_parse`. */
module Parser {
  import opened Bytes

  /** A byte string without its terminating NUL. */
  type Text = seq<byte>

  const META_COUNT: nat := 22
  const META_SIZE: nat := 4 * META_COUNT
  const OVERLAY_SLOTS: nat := 16

  /** The arguments of `RockerCfg::new`. */
  datatype Request = Request(
    appId: nat,
    uid: nat,
    gid: Option<nat>,
    pkgPath: Text,
    execDir: Text,
    dataDir: Text,
    overlayDirs: seq<Text>
  ) {
    function Texts(): seq<Text> { [pkgPath, execDir, dataDir] + overlayDirs }
  }

  datatype ParseError = ShortRequest | SizeInvalid | ZeroField | NotCString | NotUtf8

  /** `Panic` is a slice index out of range, or an overflow where it is checked: the worker dies
      without answering. */
  datatype Outcome<+T> = Ok(value: T) | Err(error: ParseError) | Panic

  // ---------------------------------------------------------------------
  // Strings

  predicate Continuation(b: byte) { 0x80 <= b < 0xC0 }

  /** Well-formed UTF-8 from index `i` on (table 3-7 of the Unicode standard). */
  predicate Utf8From(s: Text, i: nat)
    requires i <= |s|
    decreases |s| - i
  {
    if i == |s| then true
    else if s[i] < 0x80 then Utf8From(s, i + 1)
    else if 0xC2 <= s[i] < 0xE0 then
      i + 2 <= |s| && Continuation(s[i + 1]) && Utf8From(s, i + 2)
    else if 0xE0 <= s[i] < 0xF0 then
      && i + 3 <= |s| && Continuation(s[i + 1]) && Continuation(s[i + 2])
      && (s[i] == 0xE0 ==> 0xA0 <= s[i + 1])
      && (s[i] == 0xED ==> s[i + 1] < 0xA0)
      && Utf8From(s, i + 3)
    else if 0xF0 <= s[i] < 0xF5 then
      && i + 4 <= |s| && Continuation(s[i + 1]) && Continuation(s[i + 2]) && Continuation(s[i + 3])
      && (s[i] == 0xF0 ==> 0x90 <= s[i + 1])
      && (s[i] == 0xF4 ==> s[i + 1] < 0x90)
      && Utf8From(s, i + 4)
    else false
  }

  predicate ValidUtf8(s: Text) { Utf8From(s, 0) }

  /** What `CStr::from_bytes_with_nul` accepts: one NUL, in the last place. */
  predicate IsCString(s: seq<byte>) {
    |s| > 0 && s[|s| - 1] == 0 && 0 !in s[..|s| - 1]
  }

  predicate GoodText(t: Text) { 0 !in t && ValidUtf8(t) }

  // ---------------------------------------------------------------------
  // Lists of lengths

  function Sum(lens: seq<nat>): nat {
    if lens == [] then 0 else lens[0] + Sum(lens[1..])
  }

  function NonZero(lens: seq<nat>): seq<nat> {
    if lens == [] then []
    else if lens[0] == 0 then NonZero(lens[1..])
    else [lens[0]] + NonZero(lens[1..])
  }

  /** The space a list of texts takes on the wire, each with its NUL. */
  function Sizes(texts: seq<Text>): seq<nat> {
    if texts == [] then [] else [|texts[0]| + 1] + Sizes(texts[1..])
  }

  function Join(texts: seq<Text>): seq<byte> {
    if texts == [] then [] else texts[0] + [0] + Join(texts[1..])
  }

  lemma {:induction false} SumConcat(a: seq<nat>, b: seq<nat>)
    ensures Sum(a + b) == Sum(a) + Sum(b)
  {
    if a == [] {
      assert a + b == b;
    } else {
      assert (a + b)[1..] == a[1..] + b;
      SumConcat(a[1..], b);
    }
  }

  lemma {:induction false} SumNonZero(lens: seq<nat>)
    ensures Sum(NonZero(lens)) == Sum(lens)
  {
    if lens != [] {
      SumNonZero(lens[1..]);
      if lens[0] != 0 {
        assert NonZero(lens)[1..] == NonZero(lens[1..]);
      }
    }
  }

  lemma {:induction false} SumBound(lens: seq<nat>, bound: nat)
    requires forall n | n in lens :: n < bound
    ensures Sum(lens) <= |lens| * bound
  {
    if lens != [] {
      assert lens[0] in lens;
      forall n | n in lens[1..] ensures n < bound { assert n in lens; }
      SumBound(lens[1..], bound);
      assert |lens| * bound == bound + |lens[1..]| * bound;
    }
  }

  lemma {:induction false} JoinLength(texts: seq<Text>)
    ensures |Join(texts)| == Sum(Sizes(texts))
    ensures |Sizes(texts)| == |texts|
  {
    if texts != [] {
      JoinLength(texts[1..]);
      assert Sizes(texts)[1..] == Sizes(texts[1..]);
    }
  }

  // ---------------------------------------------------------------------
  // The parser as a function

  function Clamp(i: int): nat { if i < 0 then 0 else i }

  function RawMeta(m: Machine, req: seq<byte>, i: nat): int32
    requires META_SIZE <= |req| && i < META_COUNT
  {
    DecodeInt(m.endian, req[4 * i..4 * i + 4])
  }

  function Metas(m: Machine, req: seq<byte>): (metas: seq<nat>)
    requires META_SIZE <= |req|
    ensures |metas| == META_COUNT
  {
    seq(META_COUNT, i requires 0 <= i < META_COUNT => Clamp(RawMeta(m, req, i)))
  }

  /** `CStr::from_bytes_with_nul(..)?.to_str()?` on one slice. */
  function ReadText(slot: seq<byte>): (r: Outcome<Text>)
    ensures !r.Panic?
  {
    if !IsCString(slot) then Err(NotCString)
    else if !ValidUtf8(slot[..|slot| - 1]) then Err(NotUtf8)
    else Ok(slot[..|slot| - 1])
  }

  /** The loop that cuts the payload into strings, from offset `at` on. */
  function CutTexts(m: Machine, req: seq<byte>, at: nat, lens: seq<nat>): Outcome<seq<Text>>
    decreases |lens|
  {
    if lens == [] then Ok([])
    else
      var end := (at + lens[0]) % m.word.Modulus();
      if m.Overflows(at + lens[0]) then Panic
      else if lens[0] == 0 then CutTexts(m, req, end, lens[1..])
      else if !(at <= end <= |req|) then Panic
      else
        var text := ReadText(req[at..end]);
        if text.Ok? then Prepend([text.value], CutTexts(m, req, end, lens[1..])) else Err(text.error)
  }

  function Prepend(texts: seq<Text>, o: Outcome<seq<Text>>): Outcome<seq<Text>> {
    if o.Ok? then Ok(texts + o.value) else o
  }

  function Assemble(metas: seq<nat>, o: Outcome<seq<Text>>): Outcome<Request>
    requires |metas| == META_COUNT
    requires o.Ok? ==> |o.value| >= 3
  {
    match o
    case Err(e) => Err(e)
    case Panic => Panic
    case Ok(texts) =>
      Ok(Request(metas[0], metas[1], Some(metas[2]), texts[0], texts[1], texts[2], texts[3..]))
  }

  function Parse(m: Machine, req: seq<byte>): Outcome<Request> {
    if |req| < META_SIZE then Err(ShortRequest)
    else
      var metas := Metas(m, req);
      if m.Overflows(Sum(metas[3..])) then Panic
      else if |req| - META_SIZE < Sum(metas[3..]) % m.word.Modulus() then Err(SizeInvalid)
      else if 0 in metas[..6] then Err(ZeroField)
      else
        CutCount(m, req, META_SIZE, metas[3..]);
        ThreeTexts(metas);
        Assemble(metas, CutTexts(m, req, META_SIZE, metas[3..]))
  }

  lemma {:induction false} CutCount(m: Machine, req: seq<byte>, at: nat, lens: seq<nat>)
    ensures CutTexts(m, req, at, lens).Ok? ==> |CutTexts(m, req, at, lens).value| == |NonZero(lens)|
    decreases |lens|
  {
    if lens != [] {
      CutCount(m, req, (at + lens[0]) % m.word.Modulus(), lens[1..]);
    }
  }

  lemma ThreeTexts(metas: seq<nat>)
    requires |metas| == META_COUNT && 0 !in metas[..6]
    ensures |NonZero(metas[3..])| >= 3
  {
    assert metas[..6][3] == metas[3] && metas[..6][4] == metas[4] && metas[..6][5] == metas[5];
    assert metas[3..][1..] == metas[4..] && metas[4..][1..] == metas[5..];
    assert NonZero(metas[4..]) == [metas[4]] + NonZero(metas[5..]);
    assert NonZero(metas[3..]) == [metas[3]] + NonZero(metas[4..]);
  }

  // ---------------------------------------------------------------------
  // The parser as the server runs it

  lemma SumMod(w: Word, a: nat, b: nat)
    ensures (a % w.Modulus() + b) % w.Modulus() == (a + b) % w.Modulus()
  {
    if w.Word32? {
    } else {
    }
  }

  lemma SumStep(lens: seq<nat>, k: nat)
    requires k < |lens|
    ensures Sum(lens[..k + 1]) == Sum(lens[..k]) + lens[k]
  {
    assert lens[..k + 1] == lens[..k] + [lens[k]];
    SumConcat(lens[..k], [lens[k]]);
  }

  lemma PrependTwice(a: seq<Text>, b: seq<Text>, o: Outcome<seq<Text>>)
    ensures Prepend(a, Prepend(b, o)) == Prepend(a + b, o)
  {
    if o.Ok? {
      assert a + (b + o.value) == a + b + o.value;
    }
  }

  method ReadMetas(m: Machine, req: seq<byte>) returns (metas: array<int>)
    requires META_SIZE <= |req|
    ensures fresh(metas)
    ensures metas[..] == Metas(m, req)
  {
    metas := new int[META_COUNT];
    var bytes := new byte[4];
    for i := 0 to META_COUNT
      invariant forall k | 0 <= k < i :: metas[k] == Metas(m, req)[k]
    {
      for idx := 0 to 4
        invariant forall k | 0 <= k < idx :: bytes[k] == req[i * 4 + k]
        invariant forall k | 0 <= k < i :: metas[k] == Metas(m, req)[k]
      {
        bytes[idx] := req[i * 4 + idx];
      }
      assert bytes[..] == req[4 * i..4 * i + 4];
      metas[i] := DecodeInt(m.endian, bytes[..]);
      if 0 > metas[i] {
        metas[i] := 0;
      }
    }
  }

  lemma SumPrefix(lens: seq<nat>, k: nat)
    requires k <= |lens|
    ensures Sum(lens[..k]) <= Sum(lens)
  {
    assert lens == lens[..k] + lens[k..];
    SumConcat(lens[..k], lens[k..]);
  }

  /** `sum::<usize>()` over the nineteen lengths: it wraps, or panics (`None`) if checked. */
  method TotalLength(m: Machine, metas: array<int>, ghost lens: seq<nat>) returns (total: Option<nat>)
    requires metas.Length == META_COUNT && metas[3..] == lens
    ensures total == if m.Overflows(Sum(lens)) then None else Some(Sum(lens) % m.word.Modulus())
  {
    var sum: nat := 0;
    for i := 3 to META_COUNT
      invariant sum == Sum(lens[..i - 3]) % m.word.Modulus()
      invariant m.checked ==> sum == Sum(lens[..i - 3])
    {
      SumStep(lens, i - 3);
      SumMod(m.word, Sum(lens[..i - 3]), lens[i - 3]);
      assert lens[..i - 3 + 1] == lens[..i + 1 - 3];
      assert metas[i] == metas[3..][i - 3];
      if m.Overflows(sum + metas[i]) {
        SumPrefix(lens, i + 1 - 3);
        return None;
      }
      sum := (sum + metas[i]) % m.word.Modulus();
    }
    assert lens[..META_COUNT - 3] == lens;
    return Some(sum);
  }

  method HasZero(metas: array<int>) returns (zero: bool)
    requires metas.Length == META_COUNT
    ensures zero == (0 in metas[..6])
  {
    for i := 0 to 6
      invariant 0 !in metas[..i]
    {
      if 0 == metas[i] {
        assert metas[..6][i] == 0;
        return true;
      }
    }
    return false;
  }

  /** The loop that moves `l_idx` and `u_idx` over the payload. */
  method CutPaths(m: Machine, req: seq<byte>, metas: array<int>, ghost lens: seq<nat>)
    returns (r: Outcome<seq<Text>>)
    requires metas.Length == META_COUNT && metas[3..] == lens
    ensures r == CutTexts(m, req, META_SIZE, lens)
  {
    var paths: seq<Text> := [];
    var lower: nat;
    var upper: nat := META_SIZE;
    ghost var whole := CutTexts(m, req, META_SIZE, lens);
    assert lens[0..] == lens && (whole.Ok? ==> paths + whole.value == whole.value);
    for i := 3 to META_COUNT
      invariant whole == Prepend(paths, CutTexts(m, req, upper, lens[i - 3..]))
    {
      assert lens[i - 3..][1..] == lens[i + 1 - 3..];
      assert metas[i] == metas[3..][i - 3];
      lower := upper;
      if m.Overflows(upper + metas[i]) {
        return Panic;
      }
      upper := (upper + metas[i]) % m.word.Modulus();
      if 0 == metas[i] {
        continue;
      }
      if !(lower <= upper <= |req|) {
        return Panic;
      }
      var text := ReadText(req[lower..upper]);
      if text.Err? {
        return Err(text.error);
      }
      PrependTwice(paths, [text.value], CutTexts(m, req, upper, lens[i + 1 - 3..]));
      paths := paths + [text.value];
    }
    assert lens[META_COUNT - 3..] == [] && paths + [] == paths;
    r := Ok(paths);
  }

  method ReqParse(m: Machine, req: seq<byte>) returns (r: Outcome<Request>)
    ensures r == Parse(m, req)
  {
    if |req| < META_SIZE {
      return Err(ShortRequest);
    }
    var metas := ReadMetas(m, req);
    ghost var all: seq<nat> := Metas(m, req);
    assert metas[..6] == all[..6] && metas[3..] == all[3..];

    var total := TotalLength(m, metas, all[3..]);
    if total.None? {
      return Panic;
    }
    if |req| - META_SIZE < total.value {
      return Err(SizeInvalid);
    }
    var zero := HasZero(metas);
    if zero {
      return Err(ZeroField);
    }
    CutCount(m, req, META_SIZE, all[3..]);
    ThreeTexts(all);
    var cut := CutPaths(m, req, metas, all[3..]);
    if !cut.Ok? {
      return if cut.Panic? then Panic else Err(cut.error);
    }
    // split_off(3), then three pops
    var paths := cut.value;
    var overlayDirs := paths[3..];
    paths := paths[..3];
    var dataDir := paths[2];
    var execDir := paths[1];
    var pkgPath := paths[0];
    var gid := if 0 > metas[2] then None else Some(metas[2] as nat);
    assert metas[0] == all[0] && metas[1] == all[1] && metas[2] == all[2];
    r := Ok(Request(metas[0], metas[1], gid, pkgPath, execDir, dataDir, overlayDirs));
  }
}
