/** The client's request encoder, `ROCKER_parse_request___`, and the datagram it sends. */
module Encoder {
  import opened Bytes
  import opened Parser

  const VEC_COUNT: nat := 20

  /** The C `RockerRequest`; a NULL pointer is `None`. */
  datatype CRequest = CRequest(
    appId: int32,
    uid: int32,
    gid: int32,
    pkgPath: Option<Text>,
    execDir: Option<Text>,
    dataDir: Option<Text>,
    overlayDirs: seq<Option<Text>>
  ) {
    function Pointers(): seq<Option<Text>> { [pkgPath, execDir, dataDir] + overlayDirs }

    predicate Valid(w: Word) {
      && |overlayDirs| == OVERLAY_SLOTS
      && forall p | p in Pointers() :: ValidPointer(w, p)
    }
  }

  /** A C string holds no NUL before its end, and no object is larger than `PTRDIFF_MAX`. */
  predicate ValidPointer(w: Word, p: Option<Text>) {
    p.Some? ==> 0 !in p.value && |p.value| < w.MaxLength()
  }

  // ---------------------------------------------------------------------
  // Lengths, as C computes them

  /** `Utils.strlen`: NULL gives `(size_t)-1`. */
  function Strlen(w: Word, p: Option<Text>): nat {
    match p
    case None => w.Modulus() - 1
    case Some(s) => |s|
  }

  /** `strlen___`, stored into an `int32_t`. */
  function WireLength(w: Word, p: Option<Text>): int32 {
    var len := Strlen(w, p);
    ToInt32(if 0 < len then w.Succ(len) else 0)
  }

  function MetaWords(w: Word, r: CRequest): seq<int32>
    requires |r.overlayDirs| == OVERLAY_SLOTS
  {
    [r.appId, r.uid, r.gid]
    + seq(META_COUNT - 3, i requires 0 <= i < META_COUNT - 3 => WireLength(w, r.Pointers()[i]))
  }

  function Header(e: Endian, words: seq<int32>): (s: seq<byte>)
    ensures |s| == 4 * |words|
  {
    if words == [] then [] else EncodeInt(e, words[0]) + Header(e, words[1..])
  }

  // ---------------------------------------------------------------------
  // struct iovec and sendmsg

  /** `memory` is the object `iov_base` points to; NULL points to nothing. */
  datatype IoVec = IoVec(memory: seq<byte>, len: nat)

  function Memory(p: Option<Text>): seq<byte> {
    match p
    case None => []
    case Some(s) => s + [0]
  }

  /** Assigning an `int32_t` to `iov_len` sign-extends it to a `size_t`. */
  function StringVec(w: Word, p: Option<Text>): IoVec {
    IoVec(Memory(p), w.FromInt32(WireLength(w, p)))
  }

  function StringVecs(w: Word, ps: seq<Option<Text>>): (v: seq<IoVec>)
    ensures |v| == |ps|
    ensures forall i | 0 <= i < |ps| :: v[i] == StringVec(w, ps[i])
  {
    if ps == [] then [] else [StringVec(w, ps[0])] + StringVecs(w, ps[1..])
  }

  function Vectors(m: Machine, r: CRequest): seq<IoVec>
    requires |r.overlayDirs| == OVERLAY_SLOTS
  {
    [IoVec(Header(m.endian, MetaWords(m.word, r)), META_SIZE)] + StringVecs(m.word, r.Pointers())
  }

  lemma VectorAt(m: Machine, r: CRequest, k: nat)
    requires |r.overlayDirs| == OVERLAY_SLOTS && k < META_COUNT - 3
    ensures MetaWords(m.word, r)[k + 3] == WireLength(m.word, r.Pointers()[k])
    ensures Vectors(m, r)[k + 1] ==
            IoVec(Memory(r.Pointers()[k]), m.word.FromInt32(MetaWords(m.word, r)[k + 3]))
  {
  }

  lemma FirstWords(m: Machine, r: CRequest)
    requires |r.overlayDirs| == OVERLAY_SLOTS
    ensures var words := MetaWords(m.word, r);
            && |words| == META_COUNT && words[0] == r.appId && words[1] == r.uid && words[2] == r.gid
            && words[3] == WireLength(m.word, r.pkgPath)
            && words[4] == WireLength(m.word, r.execDir)
            && words[5] == WireLength(m.word, r.dataDir)
    ensures var words, vectors := MetaWords(m.word, r), Vectors(m, r);
            && |vectors| == VEC_COUNT
            && vectors[1] == IoVec(Memory(r.pkgPath), m.word.FromInt32(words[3]))
            && vectors[2] == IoVec(Memory(r.execDir), m.word.FromInt32(words[4]))
            && vectors[3] == IoVec(Memory(r.dataDir), m.word.FromInt32(words[5]))
  {
    hide WireLength, Memory;
    VectorAt(m, r, 0);
    VectorAt(m, r, 1);
    VectorAt(m, r, 2);
  }

  method FillWords(m: Machine, r: CRequest, meta: array<int32>)
    requires |r.overlayDirs| == OVERLAY_SLOTS && meta.Length == META_COUNT
    modifies meta
    ensures meta[..6] == MetaWords(m.word, r)[..6]
  {
    FirstWords(m, r);
    hide *;
    meta[0], meta[1], meta[2] := r.appId, r.uid, r.gid;
    meta[3] := WireLength(m.word, r.pkgPath);
    meta[4] := WireLength(m.word, r.execDir);
    meta[5] := WireLength(m.word, r.dataDir);
  }

  method FillVectors(m: Machine, r: CRequest, meta: array<int32>, vec: array<IoVec>)
    requires |r.overlayDirs| == OVERLAY_SLOTS && meta.Length == META_COUNT && vec.Length == VEC_COUNT
    requires meta[..6] == MetaWords(m.word, r)[..6]
    modifies vec
    ensures vec[1..4] == Vectors(m, r)[1..4]
  {
    FirstWords(m, r);
    ghost var words := MetaWords(m.word, r);
    assert meta[3] == words[..6][3] && meta[4] == words[..6][4] && meta[5] == words[..6][5];
    hide *;
    vec[1] := IoVec(Memory(r.pkgPath), m.word.FromInt32(meta[3]));
    vec[2] := IoVec(Memory(r.execDir), m.word.FromInt32(meta[4]));
    vec[3] := IoVec(Memory(r.dataDir), m.word.FromInt32(meta[5]));
  }

  /** The designated initialisers. */
  method FillRequired(m: Machine, r: CRequest, meta: array<int32>, vec: array<IoVec>)
    requires |r.overlayDirs| == OVERLAY_SLOTS
    requires meta.Length == META_COUNT && vec.Length == VEC_COUNT
    modifies meta, vec
    ensures meta[..6] == MetaWords(m.word, r)[..6]
    ensures vec[1..4] == Vectors(m, r)[1..4]
  {
    hide *;
    FillWords(m, r, meta);
    FillVectors(m, r, meta, vec);
  }

  /** The loop over the sixteen overlay slots. */
  method FillOverlays(m: Machine, r: CRequest, meta: array<int32>, vec: array<IoVec>)
    requires |r.overlayDirs| == OVERLAY_SLOTS
    requires meta.Length == META_COUNT && vec.Length == VEC_COUNT
    modifies meta, vec
    ensures meta[..6] == old(meta[..6]) && meta[6..] == MetaWords(m.word, r)[6..]
    ensures vec[..4] == old(vec[..4]) && vec[4..] == Vectors(m, r)[4..]
  {
    hide WireLength;
    ghost var words, vectors := MetaWords(m.word, r), Vectors(m, r);
    for i := 0 to OVERLAY_SLOTS
      invariant meta[..6] == old(meta[..6]) && vec[..4] == old(vec[..4])
      invariant forall k | 6 <= k < i + 6 :: meta[k] == words[k]
      invariant forall k | 4 <= k < i + 4 :: vec[k] == vectors[k]
    {
      VectorAt(m, r, i + 3);
      meta[i + 6] := WireLength(m.word, r.overlayDirs[i]);
      vec[i + 4] := IoVec(Memory(r.overlayDirs[i]), m.word.FromInt32(meta[i + 6]));
    }
  }

  method ParseRequest(m: Machine, r: CRequest) returns (meta: array<int32>, vec: array<IoVec>)
    requires |r.overlayDirs| == OVERLAY_SLOTS
    ensures fresh(meta) && meta[..] == MetaWords(m.word, r)
    ensures fresh(vec) && vec[..] == Vectors(m, r)
  {
    meta := new int32[META_COUNT](_ => 0);
    vec := new IoVec[VEC_COUNT](_ => IoVec([], 0));
    FillRequired(m, r, meta, vec);
    FillOverlays(m, r, meta, vec);
    // vec[0] points at meta, so what is sent is its final content
    ghost var words, vectors := MetaWords(m.word, r), Vectors(m, r);
    assert meta[..] == meta[..6] + meta[6..] == words[..6] + words[6..] == words;
    assert vec[1..] == vec[..4][1..] + vec[4..];
    assert vec[..4][1..] == vec[1..4];
    vec[0] := IoVec(Header(m.endian, meta[..]), META_SIZE);
    assert vec[..] == [vec[0]] + vec[1..];
  }

  datatype SendResult = SendFailed | Sent(datagram: seq<byte>)

  function Gather(vec: seq<IoVec>): seq<byte>
    requires forall v | v in vec :: v.len <= |v.memory|
  {
    if vec == [] then [] else vec[0].memory[..vec[0].len] + Gather(vec[1..])
  }

  /** `sendmsg`: a length above `SSIZE_MAX` or a datagram above the socket's send buffer is
      refused, otherwise the vectors are gathered. */
  function SendMsg(w: Word, sendBuffer: nat, vec: seq<IoVec>): SendResult
    requires forall v | v in vec :: v.len <= w.MaxLength() ==> v.len <= |v.memory|
  {
    if exists v | v in vec :: v.len > w.MaxLength() then SendFailed
    else
      var datagram := Gather(vec);
      if |datagram| > sendBuffer then SendFailed else Sent(datagram)
  }

  /** `recvfrom` into a buffer of 512 bytes. */
  const RECV_BUFFER: nat := 512

  function Received(datagram: seq<byte>): seq<byte> {
    if |datagram| <= RECV_BUFFER then datagram else datagram[..RECV_BUFFER]
  }

  // ---------------------------------------------------------------------

  lemma WireLengthCases(w: Word, p: Option<Text>)
    requires ValidPointer(w, p)
    ensures p.None? || p.value == [] ==> WireLength(w, p) == 0
    ensures p.Some? && p.value != [] ==> WireLength(w, p) == ToInt32(|p.value| + 1)
  {
  }

  lemma StringVecInBounds(w: Word, p: Option<Text>)
    requires ValidPointer(w, p)
    ensures var v := StringVec(w, p); v.len <= w.MaxLength() ==> v.len <= |v.memory|
  {
    WireLengthCases(w, p);
  }

  /** No vector reads past the object it points to, unless sendmsg refuses it unread. */
  lemma VectorsInBounds(m: Machine, r: CRequest)
    requires r.Valid(m.word)
    ensures forall v | v in Vectors(m, r) :: v.len <= m.word.MaxLength() ==> v.len <= |v.memory|
  {
    hide StringVec;
    forall v | v in Vectors(m, r)
      ensures v.len <= m.word.MaxLength() ==> v.len <= |v.memory|
    {
      var i :| 0 <= i < |Vectors(m, r)| && Vectors(m, r)[i] == v;
      if i > 0 {
        StringVecInBounds(m.word, r.Pointers()[i - 1]);
      }
    }
  }

  function Send(m: Machine, sendBuffer: nat, r: CRequest): SendResult
    requires r.Valid(m.word)
  {
    VectorsInBounds(m, r);
    SendMsg(m.word, sendBuffer, Vectors(m, r))
  }
}
