/** What `req_parse` accepts, what it ignores, and when it panics. */
module ParserProperties {
  import opened Bytes
  import opened Parser

  /** Every length the parser works with is a non-negative `i32`. */
  predicate Lengths(lens: seq<nat>) {
    forall n | n in lens :: n < 0x8000_0000
  }

  /** A request `r` and the bytes that say it, without reference to the parser. */
  ghost predicate Denotes(m: Machine, req: seq<byte>, r: Request) {
    && META_SIZE <= |req|
    && var metas := Metas(m, req);
    && 0 < metas[0] == r.appId
    && 0 < metas[1] == r.uid
    && 0 < metas[2] && r.gid == Some(metas[2])
    && 0 < metas[3] && 0 < metas[4] && 0 < metas[5]
    && Fits(req[META_SIZE..], metas[3..], r.Texts())
  }

  lemma MetasAreLengths(m: Machine, req: seq<byte>)
    requires META_SIZE <= |req|
    ensures Lengths(Metas(m, req)) && Lengths(Metas(m, req)[3..])
    ensures Sum(Metas(m, req)[3..]) < 19 * 0x8000_0000
  {
    forall n | n in Metas(m, req)[3..] ensures n in Metas(m, req) {}
    var lens := Metas(m, req)[3..];
    SumBound(lens, 0x8000_0000);
    if Sum(lens) == 19 * 0x8000_0000 {
      SumStrict(lens, 0x8000_0000);
    }
  }

  lemma {:induction false} SumStrict(lens: seq<nat>, bound: nat)
    requires |lens| > 0 && forall n | n in lens :: n < bound
    ensures Sum(lens) < |lens| * bound
  {
    assert lens[0] in lens;
    forall n | n in lens[1..] ensures n < bound { assert n in lens; }
    SumBound(lens[1..], bound);
    assert |lens| * bound == bound + |lens[1..]| * bound;
  }

  // ---------------------------------------------------------------------
  // The loop without indices: cutting a payload from its front

  function Cut(body: seq<byte>, lens: seq<nat>): Outcome<seq<Text>> {
    if lens == [] then Ok([])
    else if lens[0] == 0 then Cut(body, lens[1..])
    else if |body| < lens[0] then Panic
    else
      var text := ReadText(body[..lens[0]]);
      if text.Ok? then Prepend([text.value], Cut(body[lens[0]..], lens[1..])) else Err(text.error)
  }

  lemma CutFront(slot: seq<byte>, rest: seq<byte>, lens: seq<nat>)
    requires lens != [] && |slot| == lens[0]
    ensures Cut(slot + rest, lens) ==
            if slot == [] then Cut(rest, lens[1..])
            else if ReadText(slot).Ok? then Prepend([ReadText(slot).value], Cut(rest, lens[1..]))
            else Err(ReadText(slot).error)
  {
    assert (slot + rest)[..|slot|] == slot && (slot + rest)[|slot|..] == rest;
    if slot == [] {
      assert slot + rest == rest;
    }
  }

  lemma TailLengths(lens: seq<nat>)
    requires lens != [] && Lengths(lens)
    ensures lens[0] < 0x8000_0000 && Lengths(lens[1..])
  {
    assert lens[0] in lens;
    forall n | n in lens[1..] ensures n < 0x8000_0000 { assert n in lens; }
  }

  /** Offsets inside the request never wrap. */
  lemma InWord(w: Word, at: nat, len: nat)
    requires at <= w.MaxLength() && len < 0x8000_0000
    ensures (at + len) % w.Modulus() == at + len < w.Modulus()
  {
    if w.Word32? {
    } else {
    }
  }

  /** The index loop refines the cut from the front. */
  lemma {:induction false} CutTextsIsCut(m: Machine, req: seq<byte>, at: nat, lens: seq<nat>)
    requires at <= |req| <= m.word.MaxLength() && Lengths(lens)
    ensures CutTexts(m, req, at, lens) == Cut(req[at..], lens)
    decreases |lens|
  {
    if lens != [] {
      TailLengths(lens);
      InWord(m.word, at, lens[0]);
      var end := at + lens[0];
      if lens[0] == 0 {
        CutTextsIsCut(m, req, at, lens[1..]);
      } else if end <= |req| {
        assert req[at..end] == req[at..][..lens[0]];
        assert req[end..] == req[at..][lens[0]..];
        CutTextsIsCut(m, req, end, lens[1..]);
      }
    }
  }

  // ---------------------------------------------------------------------
  // Exact acceptance

  predicate Fits(body: seq<byte>, lens: seq<nat>, texts: seq<Text>) {
    && NonZero(lens) == Sizes(texts)
    && (forall t | t in texts :: GoodText(t))
    && Join(texts) <= body
  }

  lemma ReadTextExact(slot: seq<byte>, t: Text)
    ensures ReadText(slot) == Ok(t) <==> slot == t + [0] && GoodText(t)
  {
    if slot == t + [0] {
      assert slot[..|slot| - 1] == t;
    }
  }

  lemma PrefixSplit(a: seq<byte>, b: seq<byte>, x: seq<byte>, y: seq<byte>)
    requires |a| == |x|
    ensures a + b <= x + y <==> a == x && b <= y
  {
    if a + b <= x + y {
      assert a == (a + b)[..|a|] == (x + y)[..|a|] == x;
      assert b == (a + b)[|a|..] <= (x + y)[|a|..] == y;
    }
  }

  lemma SizesHead(lens: seq<nat>, texts: seq<Text>)
    requires lens != [] && lens[0] > 0 && texts != []
    ensures NonZero(lens) == Sizes(texts) <==>
            lens[0] == |texts[0]| + 1 && NonZero(lens[1..]) == Sizes(texts[1..])
  {
    assert NonZero(lens) == [lens[0]] + NonZero(lens[1..]);
    assert NonZero(lens)[1..] == NonZero(lens[1..]);
    assert Sizes(texts)[1..] == Sizes(texts[1..]);
  }

  lemma GoodHead(texts: seq<Text>)
    requires texts != []
    ensures (forall t | t in texts :: GoodText(t)) <==> GoodText(texts[0]) && forall t | t in texts[1..] :: GoodText(t)
  {
    assert texts[0] in texts && forall t | t in texts[1..] :: t in texts;
    assert forall t | t in texts :: t == texts[0] || t in texts[1..];
  }

  lemma FitsHead(slot: seq<byte>, body: seq<byte>, lens: seq<nat>, texts: seq<Text>)
    requires lens != [] && |slot| == lens[0] > 0 && texts != []
    ensures Fits(slot + body, lens, texts) <==>
            ReadText(slot) == Ok(texts[0]) && Fits(body, lens[1..], texts[1..])
  {
    hide ReadText, GoodText, NonZero, Sizes;
    ReadTextExact(slot, texts[0]);
    SizesHead(lens, texts);
    GoodHead(texts);
    if lens[0] == |texts[0]| + 1 {
      PrefixSplit(texts[0] + [0], Join(texts[1..]), slot, body);
    }
  }

  lemma {:induction false} CutExact(body: seq<byte>, lens: seq<nat>, texts: seq<Text>)
    ensures Cut(body, lens) == Ok(texts) <==> Fits(body, lens, texts)
  {
    if lens == [] {
    } else if lens[0] == 0 {
      CutExact(body, lens[1..], texts);
    } else if texts == [] {
    } else if lens[0] <= |body| {
      assert body == body[..lens[0]] + body[lens[0]..];
      FitsHead(body[..lens[0]], body[lens[0]..], lens, texts);
      CutExact(body[lens[0]..], lens[1..], texts[1..]);
      assert texts == [texts[0]] + texts[1..];
    } else if NonZero(lens) == Sizes(texts) {
      assert NonZero(lens)[0] == lens[0] == |texts[0]| + 1;
      assert |Join(texts)| >= lens[0];
    }
  }

  lemma SmallMod(w: Word, n: nat)
    requires n < w.Modulus()
    ensures n % w.Modulus() == n
  {
    if w.Word32? {
    } else {
    }
  }

  /** The parser in terms of the cut: what is left once the lengths fit and no field is zero. */
  lemma ParseIsCut(m: Machine, req: seq<byte>)
    requires META_SIZE <= |req| <= m.word.MaxLength()
    ensures var metas, cut := Metas(m, req), Cut(req[META_SIZE..], Metas(m, req)[3..]);
            if |req| - META_SIZE < Sum(metas[3..]) then Parse(m, req).Err? || Parse(m, req).Panic?
            else if 0 in metas[..6] then Parse(m, req) == Err(ZeroField)
            else
              && !cut.Panic? && (cut.Ok? ==> |cut.value| >= 3)
              && Parse(m, req) == Assemble(metas, cut)
  {
    var metas := Metas(m, req);
    MetasAreLengths(m, req);
    CutTextsIsCut(m, req, META_SIZE, metas[3..]);
    CutCount(m, req, META_SIZE, metas[3..]);
    if Parse(m, req).Ok? {
      OkDenotes(m, req);
      JoinLength(Parse(m, req).value.Texts());
      SumNonZero(metas[3..]);
    } else if Sum(metas[3..]) <= |req| - META_SIZE {
      SmallMod(m.word, Sum(metas[3..]));
      CutPanics(req[META_SIZE..], metas[3..]);
    }
    if 0 !in metas[..6] {
      ThreeTexts(metas);
    }
  }

  lemma OkDenotes(m: Machine, req: seq<byte>)
    requires |req| <= m.word.MaxLength()
    requires Parse(m, req).Ok?
    ensures Denotes(m, req, Parse(m, req).value)
  {
    var metas := Metas(m, req);
    var cut := CutTexts(m, req, META_SIZE, metas[3..]);
    MetasAreLengths(m, req);
    CutCount(m, req, META_SIZE, metas[3..]);
    ThreeTexts(metas);
    CutTextsIsCut(m, req, META_SIZE, metas[3..]);
    CutExact(req[META_SIZE..], metas[3..], cut.value);
    assert Parse(m, req).value.Texts() == cut.value;
    assert forall i | 0 <= i < 6 :: metas[..6][i] == metas[i] != 0;
  }

  lemma DenotesOk(m: Machine, req: seq<byte>, r: Request)
    requires |req| <= m.word.MaxLength()
    requires Denotes(m, req, r)
    ensures Parse(m, req) == Ok(r)
  {
    hide Parse, Metas, Cut, Sum, Join, NonZero, Sizes;
    var lens, texts := Metas(m, req)[3..], r.Texts();
    CutExact(req[META_SIZE..], lens, texts);
    DenotedFits(req[META_SIZE..], lens, texts);
    NoZeroField(Metas(m, req));
    ParseIsCut(m, req);
    assert texts[3..] == r.overlayDirs;
  }

  lemma DenotedFits(body: seq<byte>, lens: seq<nat>, texts: seq<Text>)
    requires Fits(body, lens, texts)
    ensures Sum(lens) <= |body|
  {
    JoinLength(texts);
    SumNonZero(lens);
  }

  lemma NoZeroField(metas: seq<nat>)
    requires |metas| == META_COUNT && forall i | 0 <= i < 6 :: metas[i] > 0
    ensures 0 !in metas[..6]
  {
  }

  /** The parser accepts exactly the byte strings that denote a request, as that request. */
  lemma ParseExact(m: Machine, req: seq<byte>, r: Request)
    requires |req| <= m.word.MaxLength()
    ensures Parse(m, req) == Ok(r) <==> Denotes(m, req, r)
  {
    if Parse(m, req) == Ok(r) {
      OkDenotes(m, req);
    }
    if Denotes(m, req, r) {
      DenotesOk(m, req, r);
    }
  }

  /** The strings of an accepted request tile the payload: they are the bytes from 88 on, in
      order, each followed by its NUL, with no gap, and as many bytes as the lengths add up to. */
  lemma Partition(m: Machine, req: seq<byte>)
    requires |req| <= m.word.MaxLength()
    requires Parse(m, req).Ok?
    ensures META_SIZE + Sum(Metas(m, req)[3..]) <= |req|
    ensures var texts := Parse(m, req).value.Texts();
            && req[META_SIZE..META_SIZE + Sum(Metas(m, req)[3..])] == Join(texts)
            && NonZero(Metas(m, req)[3..]) == Sizes(texts)
  {
    var r := Parse(m, req).value;
    ParseExact(m, req, r);
    JoinLength(r.Texts());
    SumNonZero(Metas(m, req)[3..]);
    var body := req[META_SIZE..];
    assert body[..|Join(r.Texts())|] == Join(r.Texts());
  }

  /** The clamp to zero comes first, so `None` never leaves the parser and 0 is refused. */
  lemma GidAlwaysPresent(m: Machine, req: seq<byte>)
    requires |req| <= m.word.MaxLength()
    requires Parse(m, req).Ok?
    ensures Parse(m, req).value.gid.Some?
    ensures 0 < Parse(m, req).value.gid.value == RawMeta(m, req, 2)
  {
    ParseExact(m, req, Parse(m, req).value);
  }

  // ---------------------------------------------------------------------
  // What does not matter

  lemma TrailingBytesIgnored(m: Machine, req: seq<byte>, tail: seq<byte>)
    requires |req + tail| <= m.word.MaxLength()
    requires Parse(m, req).Ok?
    ensures Parse(m, req + tail) == Parse(m, req)
  {
    var r := Parse(m, req).value;
    ParseExact(m, req, r);
    forall i: nat | i < META_COUNT
      ensures RawMeta(m, req + tail, i) == RawMeta(m, req, i)
    {
      assert (req + tail)[4 * i..4 * i + 4] == req[4 * i..4 * i + 4];
    }
    assert Metas(m, req + tail) == Metas(m, req);
    assert (req + tail)[META_SIZE..] == req[META_SIZE..] + tail;
    ParseExact(m, req + tail, r);
  }

  lemma {:induction false} CutSkipsZero(body: seq<byte>, lens: seq<nat>)
    ensures Cut(body, lens) == Cut(body, NonZero(lens))
  {
    if lens == [] {
    } else if lens[0] == 0 {
      CutSkipsZero(body, lens[1..]);
    } else {
      assert NonZero(lens)[1..] == NonZero(lens[1..]);
      if lens[0] <= |body| {
        CutSkipsZero(body[lens[0]..], lens[1..]);
      }
    }
  }

  /** Negative lengths count as zero and empty overlay slots may be anywhere: two requests with
      the same required fields, the same positive overlay lengths in order and the same payload
      have the same outcome, whatever it is. */
  lemma OnlyPositiveLengthsMatter(m: Machine, a: seq<byte>, b: seq<byte>)
    requires META_SIZE <= |a| <= m.word.MaxLength() && META_SIZE <= |b|
    requires Metas(m, a)[..6] == Metas(m, b)[..6]
    requires NonZero(Metas(m, a)[6..]) == NonZero(Metas(m, b)[6..])
    requires a[META_SIZE..] == b[META_SIZE..]
    ensures Parse(m, a) == Parse(m, b)
  {
    var ma, mb := Metas(m, a), Metas(m, b);
    MetasAreLengths(m, a);
    MetasAreLengths(m, b);
    NonZeroConcat(ma[..6][3..], ma[6..]);
    NonZeroConcat(mb[..6][3..], mb[6..]);
    assert ma[3..] == ma[..6][3..] + ma[6..] && mb[3..] == mb[..6][3..] + mb[6..];
    SumNonZero(ma[3..]);
    SumNonZero(mb[3..]);
    CutTextsIsCut(m, a, META_SIZE, ma[3..]);
    CutTextsIsCut(m, b, META_SIZE, mb[3..]);
    CutSkipsZero(a[META_SIZE..], ma[3..]);
    CutSkipsZero(b[META_SIZE..], mb[3..]);
    assert forall i | 0 <= i < 3 :: ma[i] == ma[..6][i] == mb[..6][i] == mb[i];
  }

  lemma {:induction false} NonZeroConcat(a: seq<nat>, b: seq<nat>)
    ensures NonZero(a + b) == NonZero(a) + NonZero(b)
  {
    if a == [] {
      assert a + b == b;
    } else {
      assert (a + b)[1..] == a[1..] + b;
      NonZeroConcat(a[1..], b);
    }
  }

  // ---------------------------------------------------------------------
  // Panics

  /** Slot `i`, if it is not empty and lies inside the payload, is a string. */
  predicate GoodSlot(body: seq<byte>, lens: seq<nat>, i: nat)
    requires i < |lens|
  {
    SumStep(lens, i);
    lens[i] > 0 && Sum(lens[..i + 1]) <= |body| ==>
      ReadText(body[Sum(lens[..i])..Sum(lens[..i + 1])]).Ok?
  }

  predicate GoodPrefix(body: seq<byte>, lens: seq<nat>) {
    forall i: nat | i < |lens| :: GoodSlot(body, lens, i)
  }

  lemma SumShift(lens: seq<nat>, k: nat)
    requires lens != [] && k <= |lens[1..]|
    ensures Sum(lens[..k + 1]) == lens[0] + Sum(lens[1..][..k])
  {
    assert lens[..k + 1] == [lens[0]] + lens[1..][..k];
    assert lens[..k + 1][1..] == lens[1..][..k];
  }

  lemma GoodSlotShift(body: seq<byte>, lens: seq<nat>, i: nat)
    requires lens != [] && lens[0] <= |body| && i < |lens[1..]|
    ensures GoodSlot(body, lens, i + 1) <==> GoodSlot(body[lens[0]..], lens[1..], i)
  {
    var rest, tail := body[lens[0]..], lens[1..];
    SumStep(lens, i + 1);
    SumStep(tail, i);
    SumShift(lens, i);
    SumShift(lens, i + 1);
    var from, to := Sum(tail[..i]), Sum(tail[..i + 1]);
    assert from <= to && lens[i + 1] == tail[i];
    if to <= |rest| {
      assert lens[0] + to <= |body|;
      assert body[lens[0] + from..lens[0] + to] == rest[from..to];
    }
  }

  lemma GoodPrefixStep(body: seq<byte>, lens: seq<nat>)
    requires lens != [] && lens[0] <= |body|
    ensures GoodPrefix(body, lens) <==>
            && (lens[0] > 0 ==> ReadText(body[..lens[0]]).Ok?)
            && GoodPrefix(body[lens[0]..], lens[1..])
  {
    SumStep(lens, 0);
    assert lens[..0] == [] && Sum(lens[..0 + 1]) == lens[0];
    assert body[Sum(lens[..0])..Sum(lens[..0 + 1])] == body[..lens[0]];
    assert GoodSlot(body, lens, 0) <==> (lens[0] > 0 ==> ReadText(body[..lens[0]]).Ok?);
    forall i: nat | i < |lens[1..]|
      ensures GoodSlot(body, lens, i + 1) <==> GoodSlot(body[lens[0]..], lens[1..], i)
    {
      GoodSlotShift(body, lens, i);
    }
    if (lens[0] > 0 ==> ReadText(body[..lens[0]]).Ok?) && GoodPrefix(body[lens[0]..], lens[1..]) {
      forall i: nat | i < |lens| ensures GoodSlot(body, lens, i) {
        if i > 0 {
          assert GoodSlot(body[lens[0]..], lens[1..], i - 1);
        }
      }
    }
  }

  lemma {:induction false} CutPanics(body: seq<byte>, lens: seq<nat>)
    ensures Cut(body, lens).Panic? <==> Sum(lens) > |body| && GoodPrefix(body, lens)
  {
    if lens == [] {
    } else if lens[0] <= |body| {
      GoodPrefixStep(body, lens);
      CutPanics(body[lens[0]..], lens[1..]);
    } else {
      forall i: nat | i < |lens| ensures GoodSlot(body, lens, i) {
        assert lens[..i + 1][1..] == lens[1..][..i];
      }
    }
  }

  /** The slot that the length of index `i` cuts out of the payload. */
  function Slot(body: seq<byte>, lens: seq<nat>, i: nat): seq<byte>
    requires i < |lens| && Sum(lens) <= |body|
  {
    SumPrefix(lens, i + 1);
    SumStep(lens, i);
    body[Sum(lens[..i])..Sum(lens[..i + 1])]
  }

  lemma SlotShift(body: seq<byte>, lens: seq<nat>, i: nat)
    requires lens != [] && i < |lens[1..]| && Sum(lens) <= |body|
    ensures Slot(body, lens, i + 1) == Slot(body[lens[0]..], lens[1..], i)
  {
    var tail := lens[1..];
    SumShift(lens, i);
    SumShift(lens, i + 1);
    SumPrefix(tail, i + 1);
    SumStep(tail, i);
    hide Sum;
    var from, to := Sum(tail[..i]), Sum(tail[..i + 1]);
    assert from <= to && lens[0] + to <= |body| && |body[lens[0]..]| == |body| - lens[0];
    assert body[lens[0] + from..lens[0] + to] == body[lens[0]..][from..to];
  }

  /** The first slot that is not a string decides the error. */
  lemma {:induction false} CutFirstBad(body: seq<byte>, lens: seq<nat>, i: nat)
    requires i < |lens| && Sum(lens) <= |body| && lens[i] > 0
    requires forall k: nat | k < i && lens[k] > 0 :: ReadText(Slot(body, lens, k)).Ok?
    requires ReadText(Slot(body, lens, i)).Err?
    ensures Cut(body, lens) == Err(ReadText(Slot(body, lens, i)).error)
  {
    hide ReadText;
    assert lens[..0] == [] && lens[..1] == [lens[0]] && Sum([lens[0]]) == lens[0];
    assert Slot(body, lens, 0) == body[..lens[0]];
    if i > 0 {
      var rest, tail := body[lens[0]..], lens[1..];
      forall k: nat | k < i - 1 && tail[k] > 0 ensures ReadText(Slot(rest, tail, k)).Ok? {
        assert lens[k + 1] > 0;
        SlotShift(body, lens, k);
      }
      SlotShift(body, lens, i - 1);
      CutFirstBad(rest, tail, i - 1);
    }
  }

  /** Refusals before the strings are looked at. */
  lemma RefusedEarly(m: Machine, req: seq<byte>)
    requires |req| <= m.word.MaxLength()
    ensures Parse(m, req) == Err(ShortRequest) <==> |req| < 88
    ensures Parse(m, req) == Err(SizeInvalid) <==>
            88 <= |req| && var sum := Sum(Metas(m, req)[3..]);
            && (m.checked ==> sum < m.word.Modulus()) && |req| - 88 < sum % m.word.Modulus()
    ensures Parse(m, req) == Err(ZeroField) <==>
            88 <= |req| && var metas := Metas(m, req);
            && (m.checked ==> Sum(metas[3..]) < m.word.Modulus())
            && Sum(metas[3..]) % m.word.Modulus() <= |req| - 88
            && exists i | 0 <= i < 6 :: metas[i] == 0
  {
    if META_SIZE <= |req| {
      var metas := Metas(m, req);
      MetasAreLengths(m, req);
      CutTextsIsCut(m, req, META_SIZE, metas[3..]);
      CutErrors(req[META_SIZE..], metas[3..]);
      assert forall i | 0 <= i < 6 :: metas[..6][i] == metas[i];
    }
  }

  lemma {:induction false} CutErrors(body: seq<byte>, lens: seq<nat>)
    ensures Cut(body, lens).Err? ==> Cut(body, lens).error.NotCString? || Cut(body, lens).error.NotUtf8?
  {
    if lens != [] && lens[0] <= |body| {
      CutErrors(body[lens[0]..], lens[1..]);
      assert lens[0] == 0 ==> body[0..] == body;
    }
  }

  /** Of a request that passes those, the first slot decides that is not a string: it holds a NUL
      too early or none at its end, or its bytes are not UTF-8. */
  lemma RefusedString(m: Machine, req: seq<byte>, i: nat)
    requires META_SIZE <= |req| <= m.word.MaxLength() && i < 19
    requires Sum(Metas(m, req)[3..]) <= |req| - META_SIZE && 0 !in Metas(m, req)[..6]
    requires forall k: nat | k < i && Metas(m, req)[3..][k] > 0 ::
               ReadText(Slot(req[META_SIZE..], Metas(m, req)[3..], k)).Ok?
    requires Metas(m, req)[3..][i] > 0
    ensures var slot := Slot(req[META_SIZE..], Metas(m, req)[3..], i);
            && slot != []
            && var text, last := slot[..|slot| - 1], slot[|slot| - 1];
            && (last != 0 || 0 in text ==> Parse(m, req) == Err(NotCString))
            && (last == 0 && 0 !in text && !ValidUtf8(text) ==> Parse(m, req) == Err(NotUtf8))
  {
    hide ValidUtf8, Parse, Metas, Sum;
    var lens := Metas(m, req)[3..];
    SumStep(lens, i);
    SumPrefix(lens, i + 1);
    if ReadText(Slot(req[META_SIZE..], lens, i)).Err? {
      BadSlotRefused(m, req, i);
    }
  }

  lemma BadSlotRefused(m: Machine, req: seq<byte>, i: nat)
    requires META_SIZE <= |req| <= m.word.MaxLength() && i < 19
    requires Sum(Metas(m, req)[3..]) <= |req| - META_SIZE && 0 !in Metas(m, req)[..6]
    requires forall k: nat | k < i && Metas(m, req)[3..][k] > 0 ::
               ReadText(Slot(req[META_SIZE..], Metas(m, req)[3..], k)).Ok?
    requires Metas(m, req)[3..][i] > 0
    requires ReadText(Slot(req[META_SIZE..], Metas(m, req)[3..], i)).Err?
    ensures Parse(m, req) == Err(ReadText(Slot(req[META_SIZE..], Metas(m, req)[3..], i)).error)
  {
    hide ReadText, Parse, Metas, Slot, Cut, Sum;
    ParseIsCut(m, req);
    CutFirstBad(req[META_SIZE..], Metas(m, req)[3..], i);
  }

  /** The one way to a panic. With overflow checks: lengths whose sum no `usize` holds. Without:
      a sum above the payload whose wrapped value is not, no required field zero, and nothing
      refused before the first slot past the end. */
  lemma PanicExactly(m: Machine, req: seq<byte>)
    requires |req| <= m.word.MaxLength()
    ensures Parse(m, req).Panic? <==>
            && META_SIZE <= |req|
            && var lens := Metas(m, req)[3..];
            if m.checked then m.word.Modulus() <= Sum(lens)
            else
              && Sum(lens) % m.word.Modulus() <= |req| - META_SIZE < Sum(lens)
              && 0 !in Metas(m, req)[..6]
              && GoodPrefix(req[META_SIZE..], lens)
  {
    if META_SIZE <= |req| {
      var lens := Metas(m, req)[3..];
      MetasAreLengths(m, req);
      CutTextsIsCut(m, req, META_SIZE, lens);
      CutPanics(req[META_SIZE..], lens);
      if Sum(lens) < m.word.Modulus() {
        SmallMod(m.word, Sum(lens));
      }
    }
  }

  /** Overflow checks change nothing but this: they turn every request with such a sum, refused or
      not without them, into a panic. */
  lemma ChecksOnlyPanic(w: Word, e: Endian, req: seq<byte>)
    requires |req| <= w.MaxLength()
    ensures var unchecked := Machine(w, e, false);
            Parse(Machine(w, e, true), req) ==
            if META_SIZE <= |req| && w.Modulus() <= Sum(Metas(unchecked, req)[3..]) then Panic
            else Parse(unchecked, req)
  {
    if META_SIZE <= |req| {
      var checked, unchecked := Machine(w, e, true), Machine(w, e, false);
      assert Metas(checked, req) == Metas(unchecked, req);
      MetasAreLengths(unchecked, req);
      CutTextsIsCut(checked, req, META_SIZE, Metas(checked, req)[3..]);
      CutTextsIsCut(unchecked, req, META_SIZE, Metas(unchecked, req)[3..]);
    }
  }

  /** With a 64-bit `usize` the sum cannot wrap, and the parser never panics. */
  lemma NoPanicOn64(m: Machine, req: seq<byte>)
    requires m.word.Word64? && |req| <= m.word.MaxLength()
    ensures !Parse(m, req).Panic?
  {
    PanicExactly(m, req);
    if META_SIZE <= |req| {
      MetasAreLengths(m, req);
      SmallMod(m.word, Sum(Metas(m, req)[3..]));
    }
  }
}
