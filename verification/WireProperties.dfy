/** From a client's request to the server's: encoding, the 512-byte receive buffer, parsing. */
module WireProperties {
  import opened Bytes
  import opened Parser
  import opened ParserProperties
  import opened Encoder

  /** A string whose size with its NUL is a multiple of 2^32: its `int32_t` length is 0. */
  predicate Vanishes(p: Option<Text>) {
    p.Some? && p.value != [] && (|p.value| + 1) % TWO_32 == 0
  }

  predicate Kept(p: Option<Text>) {
    p.Some? && p.value != [] && (|p.value| + 1) % TWO_32 != 0
  }

  function KeptTexts(ps: seq<Option<Text>>): seq<Text> {
    if ps == [] then []
    else if Kept(ps[0]) then [ps[0].value] + KeptTexts(ps[1..])
    else KeptTexts(ps[1..])
  }

  function NonEmpty(ps: seq<Option<Text>>): seq<Text> {
    if ps == [] then []
    else if ps[0].Some? && ps[0].value != [] then [ps[0].value] + NonEmpty(ps[1..])
    else NonEmpty(ps[1..])
  }

  /** What the caller asked for. */
  function Intended(r: CRequest): Request
    requires r.appId > 0 && r.uid > 0 && r.pkgPath.Some? && r.execDir.Some? && r.dataDir.Some?
  {
    Request(r.appId, r.uid, if r.gid < 0 then None else Some(r.gid as nat),
            r.pkgPath.value, r.execDir.value, r.dataDir.value, NonEmpty(r.overlayDirs))
  }

  /** The requests that get through, in the client's terms. */
  predicate Deliverable(r: CRequest) {
    && r.appId > 0 && r.uid > 0 && r.gid > 0
    && Kept(r.pkgPath) && Kept(r.execDir) && Kept(r.dataDir)
    && (forall t | t in KeptTexts(r.Pointers()) :: ValidUtf8(t))
    && 88 + Sum(Sizes(KeptTexts(r.Pointers()))) <= 512
  }

  function Delivered(r: CRequest): Request
    requires Deliverable(r)
  {
    Request(r.appId, r.uid, Some(r.gid as nat),
            r.pkgPath.value, r.execDir.value, r.dataDir.value, KeptTexts(r.overlayDirs))
  }

  // ---------------------------------------------------------------------
  // The header

  lemma {:induction false} HeaderAt(e: Endian, words: seq<int32>, rest: seq<byte>, i: nat)
    requires i < |words|
    ensures (Header(e, words) + rest)[4 * i..4 * i + 4] == EncodeInt(e, words[i])
  {
    hide EncodeInt;
    var tail := Header(e, words[1..]) + rest;
    assert Header(e, words) + rest == EncodeInt(e, words[0]) + tail;
    if i > 0 {
      HeaderAt(e, words[1..], rest, i - 1);
      assert (EncodeInt(e, words[0]) + tail)[4 * i..4 * i + 4] == tail[4 * (i - 1)..4 * (i - 1) + 4];
    }
  }

  lemma HeaderMetas(m: Machine, words: seq<int32>, rest: seq<byte>)
    requires |words| == META_COUNT
    ensures forall i: nat | i < META_COUNT :: RawMeta(m, Header(m.endian, words) + rest, i) == words[i]
  {
    forall i: nat | i < META_COUNT
      ensures RawMeta(m, Header(m.endian, words) + rest, i) == words[i]
    {
      HeaderAt(m.endian, words, rest, i);
      DecodeEncodeInt(m.endian, words[i]);
    }
  }

  // ---------------------------------------------------------------------
  // The strings

  /** What one pointer adds to the payload. */
  function Chunk(w: Word, p: Option<Text>): (c: seq<byte>)
    requires ValidPointer(w, p) && WireLength(w, p) >= 0
    ensures |c| == WireLength(w, p) && c <= Memory(p)
  {
    WireLengthCases(w, p);
    Memory(p)[..WireLength(w, p)]
  }

  function Chunks(w: Word, ps: seq<Option<Text>>): (c: seq<byte>)
    requires forall p | p in ps :: ValidPointer(w, p) && WireLength(w, p) >= 0
  {
    if ps == [] then [] else Chunk(w, ps[0]) + Chunks(w, ps[1..])
  }

  function Lens(w: Word, ps: seq<Option<Text>>): (lens: seq<nat>)
    requires forall p | p in ps :: WireLength(w, p) >= 0
    ensures |lens| == |ps|
    ensures forall i | 0 <= i < |ps| :: lens[i] == WireLength(w, ps[i])
  {
    if ps == [] then [] else [WireLength(w, ps[0]) as nat] + Lens(w, ps[1..])
  }

  lemma {:induction false} ChunksLength(w: Word, ps: seq<Option<Text>>)
    requires forall p | p in ps :: ValidPointer(w, p) && WireLength(w, p) >= 0
    ensures |Chunks(w, ps)| == Sum(Lens(w, ps))
  {
    if ps != [] {
      ChunksLength(w, ps[1..]);
      assert Lens(w, ps)[1..] == Lens(w, ps[1..]);
    }
  }

  /** A wrapped length cuts its string short, and then its NUL is missing. */
  lemma ChunkReads(w: Word, p: Option<Text>)
    requires ValidPointer(w, p) && WireLength(w, p) > 0
    ensures Kept(p)
    ensures ReadText(Chunk(w, p)).Ok? <==> WireLength(w, p) == |p.value| + 1 && ValidUtf8(p.value)
    ensures ReadText(Chunk(w, p)).Ok? ==> ReadText(Chunk(w, p)) == Ok(p.value)
  {
    WireLengthCases(w, p);
    var len := WireLength(w, p);
    if len == |p.value| + 1 {
      assert Chunk(w, p) == p.value + [0];
      ReadTextExact(Chunk(w, p), p.value);
      if ReadText(Chunk(w, p)).Ok? {
        ReadTextExact(Chunk(w, p), ReadText(Chunk(w, p)).value);
      }
    } else {
      assert Chunk(w, p) == p.value[..len];
      assert Chunk(w, p)[len - 1] == p.value[len - 1] && p.value[len - 1] in p.value;
    }
  }

  lemma KeptExactly(w: Word, p: Option<Text>)
    requires ValidPointer(w, p)
    ensures WireLength(w, p) != 0 <==> Kept(p)
  {
    WireLengthCases(w, p);
  }

  /** Every string arrives whole. */
  predicate Whole(w: Word, ps: seq<Option<Text>>) {
    forall p | p in ps && Kept(p) :: WireLength(w, p) == |p.value| + 1 && ValidUtf8(p.value)
  }

  lemma WholeHead(w: Word, ps: seq<Option<Text>>)
    requires ps != []
    ensures Whole(w, ps) <==>
            && (Kept(ps[0]) ==> WireLength(w, ps[0]) == |ps[0].value| + 1 && ValidUtf8(ps[0].value))
            && Whole(w, ps[1..])
  {
    assert ps[0] in ps && forall q | q in ps[1..] :: q in ps;
    assert forall q | q in ps :: q == ps[0] || q in ps[1..];
  }

  lemma {:induction false} CutChunks(w: Word, ps: seq<Option<Text>>)
    requires forall p | p in ps :: ValidPointer(w, p) && WireLength(w, p) >= 0
    ensures Cut(Chunks(w, ps), Lens(w, ps)).Ok? <==> Whole(w, ps)
    ensures Whole(w, ps) ==> Cut(Chunks(w, ps), Lens(w, ps)) == Ok(KeptTexts(ps))
  {
    if ps != [] {
      hide ToInt32, ValidUtf8, Whole, ReadText, WireLength, Chunk, Kept;
      var p, tail := ps[0], ps[1..];
      assert p in ps && forall q | q in tail :: q in ps;
      CutChunks(w, tail);
      WholeHead(w, ps);
      assert Lens(w, ps)[1..] == Lens(w, tail);
      CutFront(Chunk(w, p), Chunks(w, tail), Lens(w, ps));
      KeptExactly(w, p);
      if Kept(p) {
        ChunkReads(w, p);
      }
    }
  }

  lemma {:induction false} WholeLens(w: Word, ps: seq<Option<Text>>)
    requires forall p | p in ps :: ValidPointer(w, p) && WireLength(w, p) >= 0
    requires Whole(w, ps)
    ensures NonZero(Lens(w, ps)) == Sizes(KeptTexts(ps))
  {
    if ps != [] {
      var p, tail := ps[0], ps[1..];
      assert p in ps && forall q | q in tail :: q in ps;
      WholeLens(w, tail);
      WireLengthCases(w, p);
      assert Lens(w, ps)[1..] == Lens(w, tail);
      if Kept(p) {
        assert KeptTexts(ps)[1..] == KeptTexts(tail);
      }
    }
  }

  lemma {:induction false} KeptMembers(ps: seq<Option<Text>>)
    ensures forall p | p in ps && Kept(p) :: p.value in KeptTexts(ps) && |p.value| + 1 <= Sum(Sizes(KeptTexts(ps)))
    ensures forall t | t in KeptTexts(ps) :: Some(t) in ps && Kept(Some(t))
  {
    if ps != [] {
      var tail := ps[1..];
      KeptMembers(tail);
      if Kept(ps[0]) {
        assert Sizes(KeptTexts(ps))[1..] == Sizes(KeptTexts(tail));
        assert KeptTexts(ps)[0] == ps[0].value;
      }
      forall p | p in ps && Kept(p)
        ensures p.value in KeptTexts(ps) && |p.value| + 1 <= Sum(Sizes(KeptTexts(ps)))
      {
        if p != ps[0] {
          assert p in tail;
        }
      }
      forall t | t in KeptTexts(ps) ensures Some(t) in ps && Kept(Some(t)) {
        if !(Kept(ps[0]) && t == ps[0].value) {
          assert t in KeptTexts(tail);
          assert Some(t) in tail;
        }
      }
    }
  }

  // ---------------------------------------------------------------------
  // The datagram

  lemma StringVecChunk(w: Word, p: Option<Text>)
    requires ValidPointer(w, p) && WireLength(w, p) >= 0
    ensures var v := StringVec(w, p);
            v.len <= |v.memory| && v.len <= w.MaxLength() && v.memory[..v.len] == Chunk(w, p)
  {
    WireLengthCases(w, p);
  }

  lemma {:induction false} GatherStrings(w: Word, ps: seq<Option<Text>>)
    requires forall p | p in ps :: ValidPointer(w, p) && WireLength(w, p) >= 0
    ensures forall v | v in StringVecs(w, ps) :: v.len <= |v.memory| && v.len <= w.MaxLength()
    ensures Gather(StringVecs(w, ps)) == Chunks(w, ps)
  {
    hide ToInt32, ValidUtf8;
    if ps != [] {
      var vec := StringVecs(w, ps);
      assert ps[0] in ps && forall q | q in ps[1..] :: q in ps;
      GatherStrings(w, ps[1..]);
      StringVecChunk(w, ps[0]);
      assert vec[1..] == StringVecs(w, ps[1..]);
      forall v | v in vec ensures v.len <= |v.memory| && v.len <= w.MaxLength() {
        assert v == vec[0] || v in vec[1..];
      }
    }
  }

  /** A length that is negative as an `int32_t` makes sendmsg fail. */
  lemma SendNegative(m: Machine, sendBuffer: nat, r: CRequest)
    requires r.Valid(m.word)
    requires exists p | p in r.Pointers() :: WireLength(m.word, p) < 0
    ensures Send(m, sendBuffer, r) == SendFailed
  {
    var ps := r.Pointers();
    var i :| 0 <= i < |ps| && WireLength(m.word, ps[i]) < 0;
    var vec := StringVecs(m.word, ps);
    assert vec[i] == StringVec(m.word, ps[i]) && vec[i] in vec;
    assert vec[i] in Vectors(m, r) && vec[i].len > m.word.MaxLength();
    VectorsInBounds(m, r);
  }

  /** Otherwise what is sent is the header, then the chunks, if they fit the send buffer. */
  lemma SendExact(m: Machine, sendBuffer: nat, r: CRequest)
    requires r.Valid(m.word)
    requires forall p | p in r.Pointers() :: WireLength(m.word, p) >= 0
    ensures var datagram := Header(m.endian, MetaWords(m.word, r)) + Chunks(m.word, r.Pointers());
            Send(m, sendBuffer, r) == if |datagram| > sendBuffer then SendFailed else Sent(datagram)
  {
    hide WireLength, Chunk, Chunks, StringVec;
    var ps := r.Pointers();
    var header := Header(m.endian, MetaWords(m.word, r));
    var vec, strings := Vectors(m, r), StringVecs(m.word, ps);
    forall p | p in ps ensures ValidPointer(m.word, p) {}
    GatherStrings(m.word, ps);
    VectorsInBounds(m, r);
    assert vec[1..] == strings;
    forall v | v in vec ensures v.len <= m.word.MaxLength() {
      assert v == vec[0] || v in strings;
    }
    assert header[..META_SIZE] == header;
  }

  lemma MetaWordsSplit(m: Machine, r: CRequest)
    requires r.Valid(m.word)
    requires forall p | p in r.Pointers() :: WireLength(m.word, p) >= 0
    ensures var datagram := Header(m.endian, MetaWords(m.word, r)) + Chunks(m.word, r.Pointers());
            var metas := Metas(m, datagram);
            && metas[0] == Clamp(r.appId) && metas[1] == Clamp(r.uid) && metas[2] == Clamp(r.gid)
            && metas[3..] == Lens(m.word, r.Pointers())
            && datagram[META_SIZE..] == Chunks(m.word, r.Pointers())
  {
    hide WireLength, Chunks, Header, RawMeta, EncodeInt, DecodeInt, ToInt32;
    var words := MetaWords(m.word, r);
    var datagram := Header(m.endian, words) + Chunks(m.word, r.Pointers());
    HeaderMetas(m, words, Chunks(m.word, r.Pointers()));
    var metas := Metas(m, datagram);
    assert forall i | 0 <= i < META_COUNT :: metas[i] == Clamp(words[i]);
    assert forall i | 0 <= i < META_COUNT - 3 :: metas[3..][i] == words[i + 3];
  }

  lemma FullParse(m: Machine, r: CRequest)
    requires r.Valid(m.word)
    requires forall p | p in r.Pointers() :: WireLength(m.word, p) >= 0
    requires META_SIZE + |Chunks(m.word, r.Pointers())| <= RECV_BUFFER
    ensures var datagram := Header(m.endian, MetaWords(m.word, r)) + Chunks(m.word, r.Pointers());
            var cut := Cut(Chunks(m.word, r.Pointers()), Lens(m.word, r.Pointers()));
            var accepted := && r.appId > 0 && r.uid > 0 && r.gid > 0
                            && Kept(r.pkgPath) && Kept(r.execDir) && Kept(r.dataDir) && cut.Ok?;
            && !Parse(m, datagram).Panic?
            && (Parse(m, datagram).Ok? <==> accepted)
            && (accepted ==> |cut.value| >= 3)
            && (accepted ==> Parse(m, datagram) == Ok(
                  Request(r.appId, r.uid, Some(r.gid as nat),
                          cut.value[0], cut.value[1], cut.value[2], cut.value[3..])))
  {
    hide Parse, Metas, Cut, CutTexts, ReadText, Header, Chunks, Lens, WireLength, ToInt32, Kept;
    var w, ps := m.word, r.Pointers();
    var datagram := Header(m.endian, MetaWords(w, r)) + Chunks(w, ps);
    var metas, lens := Metas(m, datagram), Lens(w, ps);
    MetaWordsSplit(m, r);
    ChunksLength(w, ps);
    ParseIsCut(m, datagram);
    RequiredKept(m, r);
    assert metas[3] == lens[0] && metas[4] == lens[1] && metas[5] == lens[2];
    assert metas[..6] == [metas[0], metas[1], metas[2], metas[3], metas[4], metas[5]];
    assert 0 in metas[..6] <==>
           metas[0] == 0 || metas[1] == 0 || metas[2] == 0 || metas[3] == 0 || metas[4] == 0 || metas[5] == 0;
  }

  /** A datagram that fits the buffer is read as sent. */
  lemma FullDatagram(m: Machine, r: CRequest)
    requires r.Valid(m.word)
    requires forall p | p in r.Pointers() :: WireLength(m.word, p) >= 0
    requires META_SIZE + |Chunks(m.word, r.Pointers())| <= RECV_BUFFER
    ensures var datagram := Header(m.endian, MetaWords(m.word, r)) + Chunks(m.word, r.Pointers());
            && !Parse(m, datagram).Panic?
            && (Parse(m, datagram).Ok? <==> Deliverable(r))
            && (Deliverable(r) ==> Parse(m, datagram) == Ok(Delivered(r)))
  {
    var w, ps := m.word, r.Pointers();
    FullParse(m, r);
    CutChunks(w, ps);
    if Whole(w, ps) {
      WholeLens(w, ps);
      SumNonZero(Lens(w, ps));
      ChunksLength(w, ps);
      KeptMembers(ps);
    }
    if Deliverable(r) {
      DeliverableWhole(w, r);
      KeptPrefix(r);
    }
  }

  lemma RequiredKept(m: Machine, r: CRequest)
    requires r.Valid(m.word)
    requires forall p | p in r.Pointers() :: WireLength(m.word, p) >= 0
    ensures var lens := Lens(m.word, r.Pointers());
            && (lens[0] != 0 <==> Kept(r.pkgPath))
            && (lens[1] != 0 <==> Kept(r.execDir))
            && (lens[2] != 0 <==> Kept(r.dataDir))
  {
    assert r.Pointers()[0] == r.pkgPath && r.Pointers()[1] == r.execDir && r.Pointers()[2] == r.dataDir;
    WireLengthCases(m.word, r.pkgPath);
    WireLengthCases(m.word, r.execDir);
    WireLengthCases(m.word, r.dataDir);
  }

  lemma ShortLength(w: Word, p: Option<Text>)
    requires ValidPointer(w, p)
    ensures Kept(p) && |p.value| < 0x7fff_ffff ==> WireLength(w, p) == |p.value| + 1
    ensures !Kept(p) ==> WireLength(w, p) == 0
  {
    WireLengthCases(w, p);
  }

  lemma DeliverableWhole(w: Word, r: CRequest)
    requires r.Valid(w) && Deliverable(r)
    ensures Whole(w, r.Pointers())
    ensures forall p | p in r.Pointers() :: WireLength(w, p) >= 0
  {
    hide ToInt32, ValidUtf8;
    KeptMembers(r.Pointers());
    forall p | p in r.Pointers()
      ensures WireLength(w, p) >= 0
      ensures Kept(p) ==> WireLength(w, p) == |p.value| + 1
    {
      ShortLength(w, p);
    }
  }

  lemma KeptPrefix(r: CRequest)
    requires Kept(r.pkgPath) && Kept(r.execDir) && Kept(r.dataDir)
    ensures KeptTexts(r.Pointers()) ==
            [r.pkgPath.value, r.execDir.value, r.dataDir.value] + KeptTexts(r.overlayDirs)
  {
    var ps := r.Pointers();
    assert ps[1..] == [r.execDir, r.dataDir] + r.overlayDirs;
    assert ps[1..][1..] == [r.dataDir] + r.overlayDirs;
    assert ps[1..][1..][1..] == r.overlayDirs;
    assert KeptTexts(ps[1..][1..]) == [r.dataDir.value] + KeptTexts(r.overlayDirs);
    assert KeptTexts(ps[1..]) == [r.execDir.value] + KeptTexts(ps[1..][1..]);
  }

  /** A datagram cut to the buffer is refused. */
  lemma CutDatagram(m: Machine, r: CRequest)
    requires r.Valid(m.word)
    requires forall p | p in r.Pointers() :: WireLength(m.word, p) >= 0
    requires RECV_BUFFER < META_SIZE + |Chunks(m.word, r.Pointers())| < m.word.Modulus()
    ensures var datagram := Header(m.endian, MetaWords(m.word, r)) + Chunks(m.word, r.Pointers());
            Parse(m, datagram[..RECV_BUFFER]) == Err(SizeInvalid)
    ensures !Deliverable(r)
  {
    var w, ps := m.word, r.Pointers();
    var datagram := Header(m.endian, MetaWords(w, r)) + Chunks(w, ps);
    var cut := datagram[..RECV_BUFFER];
    MetaWordsSplit(m, r);
    forall i: nat | i < META_COUNT ensures RawMeta(m, cut, i) == RawMeta(m, datagram, i) {
      assert cut[4 * i..4 * i + 4] == datagram[4 * i..4 * i + 4];
    }
    assert Metas(m, cut) == Metas(m, datagram);
    ChunksLength(w, ps);
    SmallMod(w, Sum(Lens(w, ps)));
    if Deliverable(r) {
      DeliverableWhole(w, r);
      WholeLens(w, ps);
      SumNonZero(Lens(w, ps));
    }
  }

  /** The wire, exactly: of the requests that sendmsg takes, the server parses those that are
      deliverable, as delivered, and refuses every other one without a panic. Linux keeps the send
      buffer size in an `int`. */
  lemma WireExact(m: Machine, sendBuffer: nat, r: CRequest)
    requires r.Valid(m.word) && sendBuffer < 0x8000_0000
    requires Send(m, sendBuffer, r).Sent?
    ensures var result := Parse(m, Received(Send(m, sendBuffer, r).datagram));
            && !result.Panic?
            && (result.Ok? <==> Deliverable(r))
            && (Deliverable(r) ==> result == Ok(Delivered(r)))
  {
    if exists p | p in r.Pointers() :: WireLength(m.word, p) < 0 {
      SendNegative(m, sendBuffer, r);
    }
    SendExact(m, sendBuffer, r);
    if META_SIZE + |Chunks(m.word, r.Pointers())| <= RECV_BUFFER {
      FullDatagram(m, r);
    } else {
      CutDatagram(m, r);
    }
  }

  /** A deliverable request is never too large to send. */
  lemma DeliverableIsSent(m: Machine, sendBuffer: nat, r: CRequest)
    requires r.Valid(m.word) && RECV_BUFFER <= sendBuffer
    requires Deliverable(r)
    ensures Send(m, sendBuffer, r).Sent?
    ensures |Send(m, sendBuffer, r).datagram| == META_SIZE + Sum(Sizes(KeptTexts(r.Pointers())))
  {
    DeliverableWhole(m.word, r);
    SendExact(m, sendBuffer, r);
    ChunksLength(m.word, r.Pointers());
    WholeLens(m.word, r.Pointers());
    SumNonZero(Lens(m.word, r.Pointers()));
  }

  lemma {:induction false} KeptIsNonEmpty(ps: seq<Option<Text>>)
    ensures KeptTexts(ps) == NonEmpty(ps) <==> forall p | p in ps :: !Vanishes(p)
    ensures |KeptTexts(ps)| <= |NonEmpty(ps)|
    ensures |KeptTexts(ps)| == |NonEmpty(ps)| <==> forall p | p in ps :: !Vanishes(p)
  {
    hide Vanishes, Kept;
    if ps != [] {
      KeptIsNonEmpty(ps[1..]);
      KeptOrVanishes(ps[0]);
      NoneVanishes(ps);
      if Kept(ps[0]) {
        assert KeptTexts(ps)[1..] == KeptTexts(ps[1..]) && NonEmpty(ps)[1..] == NonEmpty(ps[1..]);
      }
    }
  }

  lemma KeptOrVanishes(p: Option<Text>)
    ensures Kept(p) <==> p.Some? && p.value != [] && !Vanishes(p)
    ensures Vanishes(p) ==> p.Some? && p.value != []
  {
  }

  lemma NoneVanishes(ps: seq<Option<Text>>)
    requires ps != []
    ensures (forall p | p in ps :: !Vanishes(p)) <==> !Vanishes(ps[0]) && forall p | p in ps[1..] :: !Vanishes(p)
  {
    assert forall p | p in ps :: p == ps[0] || p in ps[1..];
    assert ps[0] in ps && forall p | p in ps[1..] :: p in ps;
  }

  /** The server gets a different request from the one intended exactly when some overlay path
      vanishes. On 32-bit machines no string is that long. */
  lemma DifferentRequestExactly(m: Machine, r: CRequest)
    requires r.Valid(m.word) && Deliverable(r)
    ensures Delivered(r) == Intended(r) <==> forall p | p in r.overlayDirs :: !Vanishes(p)
    ensures m.word.Word32? ==> Delivered(r) == Intended(r)
  {
    KeptIsNonEmpty(r.overlayDirs);
    forall p | p in r.overlayDirs && m.word.Word32? ensures !Vanishes(p) {
      assert p in r.Pointers();
    }
  }

  /** A request with three one-letter paths gets through on every machine. */
  lemma TinyRequest(w: Word, overlays: seq<Option<Text>>) returns (r: CRequest)
    requires |overlays| == OVERLAY_SLOTS && KeptTexts(overlays) == []
    requires forall p | p in overlays :: ValidPointer(w, p)
    ensures r.Valid(w) && Deliverable(r) && r.overlayDirs == overlays
  {
    hide Vanishes, WireLength;
    var a: Text := [97];
    r := CRequest(1, 1, 1, Some(a), Some(a), Some(a), overlays);
    KeptPrefix(r);
    assert KeptTexts(r.Pointers()) == [a, a, a];
    assert Utf8From(a, 1);
    assert Sizes([a, a, a]) == [2, 2, 2] by {
      assert [a, a, a][1..] == [a, a] && [a, a][1..] == [a] && [a][1..] == [];
      assert Sizes([a]) == [2];
      assert Sizes([a, a]) == [2, 2];
    }
    assert Sum([2, 2, 2]) == 6 by {
      assert [2, 2, 2][1..] == [2, 2] && [2, 2][1..] == [2] && [2][1..] == [];
      assert Sum([2]) == 2;
      assert Sum([2, 2]) == 4;
    }
    forall p | p in r.Pointers() ensures ValidPointer(w, p) {
      assert p == Some(a) || p in overlays;
    }
  }

  /** So some datagram is parsed as a request. */
  lemma AcceptedDatagram(m: Machine) returns (datagram: seq<byte>)
    ensures Parse(m, Received(datagram)).Ok?
  {
    var nulls: seq<Option<Text>> := seq(OVERLAY_SLOTS, _ => None);
    NullsGiveNothing(nulls);
    var r := TinyRequest(m.word, nulls);
    hide Deliverable, Send, Parse, Delivered;
    DeliverableIsSent(m, RECV_BUFFER, r);
    WireExact(m, RECV_BUFFER, r);
    datagram := Send(m, RECV_BUFFER, r).datagram;
  }

  /** On 64-bit machines such a request exists: an overlay path of 2^32 - 1 bytes is dropped. */
  lemma OverlayCanVanish(m: Machine) returns (r: CRequest)
    requires m.word.Word64?
    ensures r.Valid(m.word) && Deliverable(r)
    ensures Send(m, RECV_BUFFER, r).Sent?
    ensures Parse(m, Received(Send(m, RECV_BUFFER, r).datagram)) == Ok(Delivered(r))
    ensures Delivered(r).overlayDirs == [] && Intended(r).overlayDirs != []
  {
    var long: Text := seq(TWO_32 - 1, _ => 97);
    var nulls: seq<Option<Text>> := seq(OVERLAY_SLOTS - 1, _ => None);
    NullsGiveNothing(nulls);
    var overlays := [Some(long)] + nulls;
    assert overlays[1..] == nulls;
    r := TinyRequest(Word64, overlays);
    hide Send, Parse;
    DeliverableIsSent(m, RECV_BUFFER, r);
    WireExact(m, RECV_BUFFER, r);
  }

  lemma {:induction false} NullsGiveNothing(ps: seq<Option<Text>>)
    requires forall p | p in ps :: p == None
    ensures KeptTexts(ps) == [] && NonEmpty(ps) == []
  {
    if ps != [] {
      assert ps[0] in ps && forall p | p in ps[1..] :: p in ps;
      NullsGiveNothing(ps[1..]);
    }
  }
}
