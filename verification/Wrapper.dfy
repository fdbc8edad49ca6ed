/** The Rust wrapper of the client library: `RockerRequest::enter_rocker` up to the C call. */
module Wrapper {
  import opened Bytes
  import opened Parser
  import opened ParserProperties
  import opened Encoder
  import opened WireProperties

  /** Rust's `RockerRequest`; every `&str` is UTF-8 and may contain NUL. */
  datatype RustRequest = RustRequest(
    appId: nat,
    uid: nat,
    gid: Option<nat>,
    pkgPath: Text,
    execDir: Text,
    dataDir: Text,
    overlayDirs: seq<Text>
  ) {
    function Texts(): seq<Text> { [pkgPath, execDir, dataDir] + overlayDirs }

    /** The types' own bounds: `u32` and `&str`. `CString::new` needs room for the NUL. */
    predicate Valid(w: Word) {
      && appId < TWO_32 && uid < TWO_32 && (gid.Some? ==> gid.value < TWO_32)
      && forall t | t in Texts() :: ValidUtf8(t) && |t| < w.MaxLength()
    }
  }

  /** `NulError` is returned before anything is sent. */
  datatype Conversion = NulError | Converted(request: CRequest)

  /** Slot `i` of the C array: the overlay of that index, or NULL. */
  function SlotOf(overlays: seq<Text>, i: nat): Option<Text> {
    if i < |overlays| then Some(overlays[i]) else None
  }

  function ToC(rq: RustRequest): CRequest {
    CRequest(ToInt32(rq.appId), ToInt32(rq.uid), if rq.gid.Some? then ToInt32(rq.gid.value) else -1,
             Some(rq.pkgPath), Some(rq.execDir), Some(rq.dataDir),
             seq(OVERLAY_SLOTS, i requires 0 <= i < OVERLAY_SLOTS => SlotOf(rq.overlayDirs, i)))
  }

  /** The conversion field by field: casts keep a number modulo 2^32, no gid is -1, and of the
      overlays the first sixteen are taken. */
  lemma ConversionFields(rq: RustRequest)
    ensures var c := ToC(rq);
            && (c.appId - rq.appId) % TWO_32 == 0 && (c.uid - rq.uid) % TWO_32 == 0
            && (if rq.gid.None? then c.gid == -1 else (c.gid - rq.gid.value) % TWO_32 == 0)
            && c.pkgPath == Some(rq.pkgPath) && c.execDir == Some(rq.execDir) && c.dataDir == Some(rq.dataDir)
            && |c.overlayDirs| == 16
            && forall i: nat | i < 16 ::
                 c.overlayDirs[i] == if i < |rq.overlayDirs| then Some(rq.overlayDirs[i]) else None
  {
    CastMod(rq.appId);
    CastMod(rq.uid);
    CastMod(if rq.gid.Some? then rq.gid.value else 0);
  }

  lemma CastMod(n: nat)
    ensures (ToInt32(n) - n) % TWO_32 == 0
  {
  }

  method Convert(rq: RustRequest) returns (c: Conversion)
    ensures c == if exists t | t in rq.Texts() :: 0 in t then NulError else Converted(ToC(rq))
  {
    var texts := rq.Texts();
    assert texts[0] in texts && texts[1] in texts && texts[2] in texts;
    if 0 in rq.pkgPath {
      return NulError;
    }
    if 0 in rq.execDir {
      return NulError;
    }
    if 0 in rq.dataDir {
      return NulError;
    }
    var overlaydirs: seq<Text> := [];
    for i := 0 to |rq.overlayDirs|
      invariant overlaydirs == rq.overlayDirs[..i]
      invariant forall t | t in rq.overlayDirs[..i] :: 0 !in t
    {
      var d := rq.overlayDirs[i];
      if 0 in d {
        assert texts[i + 3] == d;
        return NulError;
      }
      assert rq.overlayDirs[..i + 1] == rq.overlayDirs[..i] + [d];
      overlaydirs := overlaydirs + [d];
    }
    assert rq.overlayDirs[..|rq.overlayDirs|] == rq.overlayDirs;
    // iter_mut().zip(..) stops at the shorter of the two
    var slots := new Option<Text>[OVERLAY_SLOTS](_ => None);
    var n := if |overlaydirs| < OVERLAY_SLOTS then |overlaydirs| else OVERLAY_SLOTS;
    for i := 0 to n
      invariant forall k | 0 <= k < OVERLAY_SLOTS ::
          slots[k] == if k < i then Some(overlaydirs[k]) else None
    {
      slots[i] := Some(overlaydirs[i]);
    }
    var request := CRequest(ToInt32(rq.appId), ToInt32(rq.uid),
                            if rq.gid.Some? then ToInt32(rq.gid.value) else -1,
                            Some(rq.pkgPath), Some(rq.execDir), Some(rq.dataDir), slots[..]);
    assert slots[..] == ToC(rq).overlayDirs;
    forall t | t in texts ensures 0 !in t {
      if t in rq.overlayDirs {
      } else {
        assert t == rq.pkgPath || t == rq.execDir || t == rq.dataDir;
      }
    }
    c := Converted(request);
  }

  // ---------------------------------------------------------------------

  /** The overlays that get through: of the first sixteen, those that are neither empty nor of a
      size that is a multiple of 2^32. */
  function Surviving(overlays: seq<Text>): seq<Text> {
    if overlays == [] then []
    else if Kept(Some(overlays[0])) then [overlays[0]] + Surviving(overlays[1..])
    else Surviving(overlays[1..])
  }

  function FirstSixteen(overlays: seq<Text>): seq<Text> {
    if |overlays| <= 16 then overlays else overlays[..16]
  }

  /** Which wrapper requests reach `RockerCfg::new`, in the caller's terms. */
  predicate Accepted(rq: RustRequest) {
    && 0 < rq.appId < 0x8000_0000 && 0 < rq.uid < 0x8000_0000
    && rq.gid.Some? && 0 < rq.gid.value < 0x8000_0000
    && (forall t | t in rq.Texts() :: 0 !in t)
    && Kept(Some(rq.pkgPath)) && Kept(Some(rq.execDir)) && Kept(Some(rq.dataDir))
    && 88 + Sum(Sizes(Configured(rq).Texts())) <= 512
  }

  function Configured(rq: RustRequest): Request {
    Request(rq.appId, rq.uid, rq.gid, rq.pkgPath, rq.execDir, rq.dataDir,
            Surviving(FirstSixteen(rq.overlayDirs)))
  }

  lemma {:induction false} KeptSlots(overlays: seq<Text>, ps: seq<Option<Text>>)
    requires |overlays| <= |ps|
    requires forall i | 0 <= i < |ps| :: ps[i] == SlotOf(overlays, i)
    ensures KeptTexts(ps) == Surviving(overlays)
  {
    if ps != [] {
      hide Kept;
      var rest := if overlays == [] then [] else overlays[1..];
      forall i | 0 <= i < |ps[1..]| ensures ps[1..][i] == SlotOf(rest, i) {
        assert ps[1..][i] == ps[i + 1];
      }
      KeptSlots(rest, ps[1..]);
      if overlays == [] {
        assert !Kept(None) by { NoneNotKept(); }
      }
    }
  }

  lemma NoneNotKept()
    ensures !Kept(None)
  {
  }

  lemma SlotsAreFirstSixteen(rq: RustRequest)
    ensures KeptTexts(ToC(rq).overlayDirs) == Surviving(FirstSixteen(rq.overlayDirs))
  {
    hide Kept;
    var slots := ToC(rq).overlayDirs;
    forall i | 0 <= i < |slots| ensures slots[i] == SlotOf(FirstSixteen(rq.overlayDirs), i) {}
    KeptSlots(FirstSixteen(rq.overlayDirs), slots);
  }

  lemma ConvertedValid(w: Word, rq: RustRequest)
    requires rq.Valid(w) && forall t | t in rq.Texts() :: 0 !in t
    ensures ToC(rq).Valid(w)
    ensures forall p | p in ToC(rq).Pointers() && p.Some? :: ValidUtf8(p.value)
  {
    hide ValidUtf8, ToInt32;
    var ps := ToC(rq).Pointers();
    forall p | p in ps && p.Some? ensures p.value in rq.Texts() {
      var i :| 0 <= i < |ps| && ps[i] == p;
      if i >= 3 {
        assert p == SlotOf(rq.overlayDirs, i - 3);
        assert p.value == rq.Texts()[i];
      } else {
        assert p.value == rq.Texts()[i];
      }
    }
  }

  lemma CastPositive(n: nat)
    requires n < TWO_32
    ensures ToInt32(n) > 0 <==> 0 < n < 0x8000_0000
    ensures n < 0x8000_0000 ==> ToInt32(n) == n
  {
  }

  /** Among the requests without a NUL the C side delivers exactly the accepted ones. */
  lemma DeliverableExactly(w: Word, rq: RustRequest)
    requires rq.Valid(w) && forall t | t in rq.Texts() :: 0 !in t
    ensures Deliverable(ToC(rq)) <==> Accepted(rq)
    ensures Accepted(rq) ==> Delivered(ToC(rq)) == Configured(rq)
  {
    hide ToInt32, ValidUtf8, Kept, Sum, Sizes;
    var c := ToC(rq);
    ConvertedValid(w, rq);
    CastPositive(rq.appId);
    CastPositive(rq.uid);
    if rq.gid.Some? {
      CastPositive(rq.gid.value);
    }
    SlotsAreFirstSixteen(rq);
    KeptMembers(c.Pointers());
    if Kept(c.pkgPath) && Kept(c.execDir) && Kept(c.dataDir) {
      KeptPrefix(c);
      assert KeptTexts(c.Pointers()) == Configured(rq).Texts();
    }
  }

  /** What becomes of a request made through the wrapper: `None` where nothing reaches
      `RockerCfg::new`. */
  ghost function EndToEnd(m: Machine, sendBuffer: nat, rq: RustRequest): Option<Request>
    requires rq.Valid(m.word)
  {
    if exists t | t in rq.Texts() :: 0 in t then None
    else
      ConvertedValid(m.word, rq);
      match Send(m, sendBuffer, ToC(rq))
      case SendFailed => None
      case Sent(datagram) =>
        var result := Parse(m, Received(datagram));
        if result.Ok? then Some(result.value) else None
  }

  /** Exact acceptance through the wrapper. In particular the default `gid: None` is always
      refused. */
  lemma WrapperExact(m: Machine, sendBuffer: nat, rq: RustRequest)
    requires rq.Valid(m.word) && RECV_BUFFER <= sendBuffer < 0x8000_0000
    ensures EndToEnd(m, sendBuffer, rq) == if Accepted(rq) then Some(Configured(rq)) else None
  {
    hide Parse, Send, Deliverable, Delivered, Kept, Sum, Sizes, ToC;
    if forall t | t in rq.Texts() :: 0 !in t {
      ConvertedValid(m.word, rq);
      DeliverableExactly(m.word, rq);
      if Accepted(rq) {
        DeliverableIsSent(m, sendBuffer, ToC(rq));
      }
      if Send(m, sendBuffer, ToC(rq)).Sent? {
        WireExact(m, sendBuffer, ToC(rq));
      }
    }
  }
}
