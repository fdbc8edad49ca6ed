/** Bytes, machine words and the integer encodings both ends of the socket rely on. */
module Bytes {

  type byte = b: int | 0 <= b < 256

  type int32 = i: int | -0x8000_0000 <= i < 0x8000_0000

  const TWO_32: nat := 0x1_0000_0000

  datatype Option<+T> = None | Some(value: T)

  datatype Endian = Little | Big

  /** The width of `usize`/`size_t`. */
  datatype Word = Word32 | Word64 {
    function Size(): nat { if Word32? then 4 else 8 }

    function Modulus(): nat { if Word32? then TWO_32 else TWO_32 * TWO_32 }

    /** `isize::MAX`: the largest size of any object, slice or C string. */
    function MaxLength(): nat { Modulus() / 2 - 1 }

    /** `1 + n` in `size_t`. */
    function Succ(n: nat): nat { if n + 1 == Modulus() then 0 else n + 1 }

    /** Conversion of an `int32_t` to `size_t`. */
    function FromInt32(i: int32): nat { if i < 0 then Modulus() + i else i }
  }

  /** `checked` says that the server is built with overflow checks, as the dev profile is and the
      release profile is not. */
  datatype Machine = Machine(word: Word, endian: Endian, checked: bool) {
    /** A `usize` sum whose true value is `n` panics. */
    predicate Overflows(n: nat) { checked && word.Modulus() <= n }
  }

  function Power256(n: nat): nat {
    if n == 0 then 1 else 256 * Power256(n - 1)
  }

  function LittleBytes(v: nat, n: nat): (s: seq<byte>)
    ensures |s| == n
  {
    if n == 0 then [] else [v % 256] + LittleBytes(v / 256, n - 1)
  }

  function FromLittle(s: seq<byte>): nat {
    if s == [] then 0 else s[0] + 256 * FromLittle(s[1..])
  }

  function Reverse<T>(s: seq<T>): (r: seq<T>)
    ensures |r| == |s|
    ensures forall i | 0 <= i < |s| :: r[i] == s[|s| - 1 - i]
  {
    seq(|s|, i requires 0 <= i < |s| => s[|s| - 1 - i])
  }

  /** `to_ne_bytes` of an `n`-byte unsigned value. */
  function NativeBytes(e: Endian, v: nat, n: nat): (s: seq<byte>)
    ensures |s| == n
  {
    match e
    case Little => LittleBytes(v, n)
    case Big => Reverse(LittleBytes(v, n))
  }

  /** `from_ne_bytes`. */
  function FromNative(e: Endian, s: seq<byte>): nat {
    match e
    case Little => FromLittle(s)
    case Big => FromLittle(Reverse(s))
  }

  lemma {:induction false} FromLittleBytes(v: nat, n: nat)
    requires v < Power256(n)
    ensures FromLittle(LittleBytes(v, n)) == v
  {
    if n > 0 {
      FromLittleBytes(v / 256, n - 1);
      assert LittleBytes(v, n)[1..] == LittleBytes(v / 256, n - 1);
    }
  }

  lemma {:induction false} LittleBytesOf(s: seq<byte>)
    ensures FromLittle(s) < Power256(|s|)
    ensures LittleBytes(FromLittle(s), |s|) == s
  {
    if s != [] {
      LittleBytesOf(s[1..]);
      assert FromLittle(s) % 256 == s[0] && FromLittle(s) / 256 == FromLittle(s[1..]);
    }
  }

  lemma NativeRoundTrip(e: Endian, v: nat, n: nat)
    requires v < Power256(n)
    ensures FromNative(e, NativeBytes(e, v, n)) == v
  {
    FromLittleBytes(v, n);
    assert Reverse(Reverse(LittleBytes(v, n))) == LittleBytes(v, n);
  }

  lemma NativeBytesOf(e: Endian, s: seq<byte>)
    ensures FromNative(e, s) < Power256(|s|)
    ensures NativeBytes(e, FromNative(e, s), |s|) == s
  {
    LittleBytesOf(s);
    LittleBytesOf(Reverse(s));
    assert Reverse(Reverse(s)) == s;
  }

  lemma Power256Of4()
    ensures Power256(4) == TWO_32
  {
    assert Power256(2) == 65536;
    assert Power256(3) == 256 * Power256(2);
  }

  /** Conversion of any integer value to a two's complement 32-bit one, as C and Rust casts do. */
  function ToInt32(n: int): int32 {
    var u := n % TWO_32;
    if u < 0x8000_0000 then u else u - TWO_32
  }

  function EncodeInt(e: Endian, i: int32): (s: seq<byte>)
    ensures |s| == 4
  {
    NativeBytes(e, i % TWO_32, 4)
  }

  function DecodeInt(e: Endian, s: seq<byte>): int32
    requires |s| == 4
  {
    ToInt32(FromNative(e, s))
  }

  /** The layout of an `int` in memory: four digits, the least significant first on a little-endian
      machine and last on a big-endian one, in two's complement. */
  lemma IntLayout(a: byte, b: byte, c: byte, d: byte)
    ensures var v := a + 0x100 * b + 0x1_0000 * c + 0x100_0000 * d;
            && DecodeInt(Little, [a, b, c, d]) == (if d < 0x80 then v else v - TWO_32)
            && DecodeInt(Big, [d, c, b, a]) == DecodeInt(Little, [a, b, c, d])
  {
    FromLittleCons(d, []);
    FromLittleCons(c, [d]);
    FromLittleCons(b, [c, d]);
    FromLittleCons(a, [b, c, d]);
    hide FromLittle;
    assert [d] + [] == [d] && [c] + [d] == [c, d] && [b] + [c, d] == [b, c, d] && [a] + [b, c, d] == [a, b, c, d];
    assert Reverse([d, c, b, a]) == [a, b, c, d];
  }

  lemma FromLittleCons(b: byte, s: seq<byte>)
    ensures FromLittle([b] + s) == b + 0x100 * FromLittle(s)
    ensures FromLittle([]) == 0
  {
    assert ([b] + s)[1..] == s;
  }

  lemma DecodeEncodeInt(e: Endian, i: int32)
    ensures DecodeInt(e, EncodeInt(e, i)) == i
  {
    Power256Of4();
    NativeRoundTrip(e, i % TWO_32, 4);
  }

  lemma EncodeDecodeInt(e: Endian, s: seq<byte>)
    requires |s| == 4
    ensures EncodeInt(e, DecodeInt(e, s)) == s
  {
    Power256Of4();
    NativeBytesOf(e, s);
    assert DecodeInt(e, s) % TWO_32 == FromNative(e, s);
  }
}
