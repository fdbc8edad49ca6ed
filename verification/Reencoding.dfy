/** Decoding, then encoding again; and a request that panics the parser of a 32-bit server. */
module Reencoding {
  import opened Bytes
  import opened Parser
  import opened ParserProperties
  import opened Encoder
  import opened WireProperties

  /** The request as a C client would hold it, in the given number of overlay slots. */
  function AsPointers(texts: seq<Text>, slots: nat): (ps: seq<Option<Text>>)
    requires |texts| <= slots
    ensures |ps| == slots
  {
    seq(slots, i requires 0 <= i < slots => if i < |texts| then Some(texts[i]) else None)
  }

  predicate NoGaps(lens: seq<nat>) {
    forall i, j | 0 <= i < j < |lens| && lens[j] > 0 :: lens[i] > 0
  }

  /** The form the encoder writes: no negative length, no length of 1 (a lone NUL), and the
      overlay slots filled from the first one on. */
  ghost predicate Canonical(m: Machine, req: seq<byte>)
    requires META_SIZE <= |req|
  {
    && (forall i: nat | i < META_COUNT :: RawMeta(m, req, i) >= 0)
    && NoGaps(Metas(m, req)[3..])
    && 1 !in Metas(m, req)[3..]
  }

  lemma {:induction false} NoGapsSizes(lens: seq<nat>, texts: seq<Text>)
    requires NoGaps(lens) && NonZero(lens) == Sizes(texts)
    ensures |texts| <= |lens|
    ensures forall i | 0 <= i < |lens| :: lens[i] == if i < |texts| then |texts[i]| + 1 else 0
  {
    if lens == [] {
    } else if lens[0] == 0 {
      AllZero(lens);
    } else {
      assert NonZero(lens) == [lens[0]] + NonZero(lens[1..]);
      assert NonZero(lens)[1..] == NonZero(lens[1..]);
      assert Sizes(texts)[1..] == Sizes(texts[1..]);
      NoGapsSizes(lens[1..], texts[1..]);
      assert forall i | 0 < i < |lens| :: lens[i] == lens[1..][i - 1];
    }
  }

  lemma {:induction false} AllZero(lens: seq<nat>)
    requires forall i | 0 <= i < |lens| :: lens[i] == 0
    ensures NonZero(lens) == []
  {
    if lens != [] {
      AllZero(lens[1..]);
    }
  }

  predicate Sendables(texts: seq<Text>) {
    forall t | t in texts :: t != [] && 0 !in t && |t| < 0x7fff_ffff
  }

  lemma TextPointer(w: Word, t: Text)
    requires t != [] && 0 !in t && |t| < 0x7fff_ffff
    ensures ValidPointer(w, Some(t)) && WireLength(w, Some(t)) == |t| + 1
    ensures Chunk(w, Some(t)) == t + [0]
  {
    WireLengthCases(w, Some(t));
  }

  lemma PointerLengths(w: Word, texts: seq<Text>, slots: nat)
    requires |texts| <= slots && Sendables(texts)
    ensures var ps := AsPointers(texts, slots);
            && (forall p | p in ps :: ValidPointer(w, p) && WireLength(w, p) >= 0)
            && (forall i | 0 <= i < slots :: WireLength(w, ps[i]) == if i < |texts| then |texts[i]| + 1 else 0)
  {
    hide WireLength, ToInt32;
    WireLengthCases(w, None);
    forall t | t in texts ensures ValidPointer(w, Some(t)) && WireLength(w, Some(t)) == |t| + 1 {
      TextPointer(w, t);
    }
  }

  lemma AsPointersSplit(texts: seq<Text>, slots: nat)
    requires |texts| <= slots && slots > 0
    ensures var rest := if texts == [] then [] else texts[1..];
            && AsPointers(texts, slots)[0] == (if texts == [] then None else Some(texts[0]))
            && AsPointers(texts, slots)[1..] == AsPointers(rest, slots - 1)
  {
  }

  /** What one text adds to the payload. */
  lemma ChunkOf(w: Word, texts: seq<Text>)
    requires Sendables(texts)
    ensures var p := if texts == [] then None else Some(texts[0]);
            && ValidPointer(w, p) && WireLength(w, p) >= 0
            && Chunk(w, p) == if texts == [] then [] else texts[0] + [0]
  {
    if texts == [] {
      WireLengthCases(w, None);
    } else {
      assert texts[0] in texts;
      TextPointer(w, texts[0]);
    }
  }

  lemma {:induction false} ChunksJoin(w: Word, texts: seq<Text>, slots: nat)
    requires |texts| <= slots && Sendables(texts)
    requires forall p | p in AsPointers(texts, slots) :: ValidPointer(w, p) && WireLength(w, p) >= 0
    ensures Chunks(w, AsPointers(texts, slots)) == Join(texts)
  {
    if slots > 0 {
      var ps := AsPointers(texts, slots);
      var rest := if texts == [] then [] else texts[1..];
      assert Sendables(rest) by {
        assert forall t | t in rest :: t in texts;
      }
      hide WireLength, Chunk, ValidPointer, AsPointers, Sendables;
      AsPointersSplit(texts, slots);
      ChunkOf(w, texts);
      assert forall p | p in ps[1..] :: p in ps;
      ChunksJoin(w, rest, slots - 1);
    }
  }

  lemma WordShift(req: seq<byte>, i: nat)
    requires 4 * i + 8 <= |req|
    ensures req[4..][4 * i..4 * i + 4] == req[4 * (i + 1)..4 * (i + 1) + 4]
  {
    var a, b := req[4..][4 * i..4 * i + 4], req[4 * (i + 1)..4 * (i + 1) + 4];
    forall k | 0 <= k < 4 ensures a[k] == b[k] {}
  }

  lemma {:induction false} HeaderOf(m: Machine, words: seq<int32>, req: seq<byte>)
    requires |req| == 4 * |words|
    requires forall i: nat | i < |words| :: DecodeInt(m.endian, req[4 * i..4 * i + 4]) == words[i]
    ensures Header(m.endian, words) == req
  {
    if words != [] {
      hide DecodeInt, EncodeInt;
      var rest := req[4..];
      forall i: nat | i < |words[1..]|
        ensures DecodeInt(m.endian, rest[4 * i..4 * i + 4]) == words[1..][i]
      {
        WordShift(req, i);
      }
      HeaderOf(m, words[1..], rest);
      assert DecodeInt(m.endian, req[4 * 0..4 * 0 + 4]) == words[0];
      EncodeDecodeInt(m.endian, req[..4]);
      assert req == req[..4] + rest;
    }
  }

  lemma AcceptedTexts(m: Machine, req: seq<byte>)
    requires META_SIZE <= |req| <= m.word.MaxLength() && Parse(m, req).Ok?
    requires Canonical(m, req)
    ensures var r := Parse(m, req).value;
            && |r.Texts()| <= META_COUNT - 3
            && (forall i | 0 <= i < META_COUNT - 3 ::
                  Metas(m, req)[3..][i] == if i < |r.Texts()| then |r.Texts()[i]| + 1 else 0)
            && Sendables(r.Texts())
  {
    hide Utf8From, RawMeta, Parse;
    var r := Parse(m, req).value;
    var texts, lens := r.Texts(), Metas(m, req)[3..];
    OkDenotes(m, req);
    MetasAreLengths(m, req);
    NoGapsSizes(lens, texts);
    forall t | t in texts ensures t != [] && 0 !in t && |t| < 0x7fff_ffff {
      var i :| 0 <= i < |texts| && texts[i] == t;
      assert lens[i] in lens;
    }
  }

  lemma ReencodeHeader(m: Machine, req: seq<byte>, c: CRequest)
    requires META_SIZE <= |req| && |c.overlayDirs| == OVERLAY_SLOTS
    requires forall i: nat | i < META_COUNT :: RawMeta(m, req, i) >= 0
    requires var metas := Metas(m, req);
             && c.appId == metas[0] && c.uid == metas[1] && c.gid == metas[2]
             && forall i | 0 <= i < META_COUNT - 3 :: WireLength(m.word, c.Pointers()[i]) == metas[3..][i]
    ensures Header(m.endian, MetaWords(m.word, c)) == req[..META_SIZE]
  {
    hide WireLength, ToInt32;
    var words, metas := MetaWords(m.word, c), Metas(m, req);
    forall i: nat | i < META_COUNT
      ensures DecodeInt(m.endian, req[..META_SIZE][4 * i..4 * i + 4]) == words[i]
    {
      assert req[..META_SIZE][4 * i..4 * i + 4] == req[4 * i..4 * i + 4];
      assert metas[i] == RawMeta(m, req, i);
      if i >= 3 {
        assert metas[3..][i - 3] == metas[i];
      }
    }
    HeaderOf(m, words, req[..META_SIZE]);
  }

  function AsClient(r: Request): (c: CRequest)
    requires r.appId < 0x8000_0000 && r.uid < 0x8000_0000
    requires r.gid.Some? && r.gid.value < 0x8000_0000
    requires |r.overlayDirs| <= OVERLAY_SLOTS
  {
    CRequest(r.appId, r.uid, r.gid.value, Some(r.pkgPath), Some(r.execDir), Some(r.dataDir),
             AsPointers(r.overlayDirs, OVERLAY_SLOTS))
  }

  lemma ClientRequest(m: Machine, req: seq<byte>) returns (r: Request, c: CRequest)
    requires META_SIZE <= |req| <= m.word.MaxLength() && Parse(m, req).Ok?
    requires Canonical(m, req)
    ensures r == Parse(m, req).value
    ensures r.appId < 0x8000_0000 && r.uid < 0x8000_0000
    ensures r.gid.Some? && r.gid.value < 0x8000_0000
    ensures |r.overlayDirs| <= OVERLAY_SLOTS && c == AsClient(r)
    ensures c.Valid(m.word) && forall p | p in c.Pointers() :: WireLength(m.word, p) >= 0
    ensures Header(m.endian, MetaWords(m.word, c)) == req[..META_SIZE]
    ensures Chunks(m.word, c.Pointers()) == Join(r.Texts())
  {
    hide Utf8From, ToInt32, WireLength, Parse, Chunks, Fits, RawMeta, Chunk, Header, MetaWords, NonZero, Sum;
    r := Parse(m, req).value;
    OkDenotes(m, req);
    AcceptedTexts(m, req);
    MetasAreLengths(m, req);
    var texts, metas := r.Texts(), Metas(m, req);
    assert metas[0] in metas && metas[1] in metas && metas[2] in metas;
    c := AsClient(r);
    assert c.Pointers() == AsPointers(texts, META_COUNT - 3);
    PointerLengths(m.word, texts, META_COUNT - 3);
    ChunksJoin(m.word, texts, META_COUNT - 3);
    ReencodeHeader(m, req, c);
  }

  /** Encoding what was decoded gives back, byte for byte, the prefix the parser consumed. */
  lemma ReencodeCanonical(m: Machine, req: seq<byte>)
    requires META_SIZE <= |req| <= m.word.MaxLength() && Parse(m, req).Ok?
    requires Canonical(m, req)
    ensures var r := Parse(m, req).value;
            && r.appId < 0x8000_0000 && r.uid < 0x8000_0000
            && r.gid.Some? && r.gid.value < 0x8000_0000
            && |r.overlayDirs| <= OVERLAY_SLOTS
            && AsClient(r).Valid(m.word)
            && var consumed := META_SIZE + Sum(Metas(m, req)[3..]);
            && consumed <= |req|
            && Send(m, consumed, AsClient(r)) == Sent(req[..consumed])
  {
    hide Parse, Utf8From, ToInt32, WireLength, Chunks, Send, Metas, Header, MetaWords, Canonical;
    hide Join, Sum, Sizes, NonZero;
    var r, c := ClientRequest(m, req);
    Partition(m, req);
    JoinLength(r.Texts());
    var consumed := META_SIZE + Sum(Metas(m, req)[3..]);
    SendExact(m, consumed, c);
    assert req[..META_SIZE] + req[META_SIZE..consumed] == req[..consumed];
  }

  /** Three lengths that add up to 2^32, and no payload at all. A 32-bit server panics in the sum
      if that is checked; if not, the request passes the size check, and the first slice is out of
      range. */
  lemma PanicOn32(m: Machine) returns (req: seq<byte>)
    requires m.word.Word32?
    ensures |req| == META_SIZE
    ensures Parse(m, req).Panic?
  {
    hide Parse, Header, RawMeta, ReadText;
    var big: int32 := 0x7fff_ffff;
    var zeros: seq<int32> := seq(OVERLAY_SLOTS, _ => 0);
    var words: seq<int32> := [1, 1, 1, big, big, 2] + zeros;
    req := Header(m.endian, words);
    assert req + [] == req;
    HeaderMetas(m, words, []);
    var metas := Metas(m, req);
    assert forall i: nat | i < META_COUNT :: metas[i] == words[i];
    var lens := metas[3..];
    assert lens == [big as nat, big as nat, 2] + lens[3..];
    SumConcat([big as nat, big as nat, 2], lens[3..]);
    SumZeros(lens[3..]);
    assert Sum([big as nat, big as nat, 2]) == TWO_32 by {
      assert [big as nat, big as nat, 2][1..] == [big as nat, 2];
      assert [big as nat, 2][1..] == [2] && Sum([2]) == 2;
    }
    forall i: nat | i < |lens| ensures GoodSlot(req[META_SIZE..], lens, i) {
      assert lens[..i + 1][0] == big;
    }
    PanicExactly(m, req);
  }

  lemma {:induction false} SumZeros(lens: seq<nat>)
    requires forall i | 0 <= i < |lens| :: lens[i] == 0
    ensures Sum(lens) == 0
  {
    if lens != [] {
      SumZeros(lens[1..]);
    }
  }
}
