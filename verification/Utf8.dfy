/** The strings the parser accepts, against the encoding form UTF-8 of the Unicode standard. */
module Utf8 {
  import opened Bytes
  import opened Parser

  /** A Unicode scalar value: any code point but the surrogates. */
  type Scalar = c: int | 0 <= c < 0xD800 || 0xE000 <= c < 0x11_0000

  function Encode(c: Scalar): (s: Text)
    ensures 1 <= |s| <= 4
  {
    if c < 0x80 then [c]
    else if c < 0x800 then [0xC0 + c / 0x40, 0x80 + c % 0x40]
    else if c < 0x1_0000 then [0xE0 + c / 0x1000, 0x80 + c / 0x40 % 0x40, 0x80 + c % 0x40]
    else [0xF0 + c / 0x4_0000, 0x80 + c / 0x1000 % 0x40, 0x80 + c / 0x40 % 0x40, 0x80 + c % 0x40]
  }

  function EncodeAll(cs: seq<Scalar>): Text {
    if cs == [] then [] else Encode(cs[0]) + EncodeAll(cs[1..])
  }

  /** One character is stepped over whole. */
  lemma EncodedStep(s: Text, i: nat, c: Scalar)
    requires i + |Encode(c)| <= |s| && s[i..i + |Encode(c)|] == Encode(c)
    ensures Utf8From(s, i) == Utf8From(s, i + |Encode(c)|)
  {
    hide Utf8From;
    var e := Encode(c);
    assert forall k | 0 <= k < |e| :: s[i + k] == s[i..i + |e|][k] == e[k];
    if c < 0x80 {
      StepOne(s, i);
    } else if c < 0x800 {
      StepTwo(s, i);
    } else if c < 0x1_0000 {
      ThreeBounds(c);
      StepThree(s, i);
    } else {
      FourBounds(c);
      StepFour(s, i);
    }
  }

  lemma ThreeBounds(c: Scalar)
    requires 0x800 <= c < 0x1_0000
    ensures c / 0x1000 < 0x10
    ensures (c / 0x1000 == 0 ==> 0x20 <= c / 0x40 % 0x40) && (c / 0x1000 == 0xD ==> c / 0x40 % 0x40 < 0x20)
  {
    var q := c / 0x40;
    assert c / 0x1000 == q / 0x40;
    assert q == 0x40 * (q / 0x40) + q % 0x40;
    assert 0x20 <= q && (c < 0xD800 ==> q < 0x360) && (0xE000 <= c ==> 0x380 <= q);
  }

  lemma FourBounds(c: Scalar)
    requires 0x1_0000 <= c
    ensures c / 0x4_0000 < 5
    ensures (c / 0x4_0000 == 0 ==> 0x10 <= c / 0x1000 % 0x40) && (c / 0x4_0000 == 4 ==> c / 0x1000 % 0x40 < 0x10)
  {
    var q := c / 0x1000;
    assert c / 0x4_0000 == q / 0x40;
    assert q == 0x40 * (q / 0x40) + q % 0x40;
    assert 0x10 <= q < 0x110;
  }

  lemma StepOne(s: Text, i: nat)
    requires i + 1 <= |s| && s[i] < 0x80
    ensures Utf8From(s, i) == Utf8From(s, i + 1)
  {
  }

  lemma StepTwo(s: Text, i: nat)
    requires i + 2 <= |s| && 0xC2 <= s[i] < 0xE0 && Continuation(s[i + 1])
    ensures Utf8From(s, i) == Utf8From(s, i + 2)
  {
  }

  lemma StepThree(s: Text, i: nat)
    requires i + 3 <= |s| && 0xE0 <= s[i] < 0xF0 && Continuation(s[i + 1]) && Continuation(s[i + 2])
    requires (s[i] == 0xE0 ==> 0xA0 <= s[i + 1]) && (s[i] == 0xED ==> s[i + 1] < 0xA0)
    ensures Utf8From(s, i) == Utf8From(s, i + 3)
  {
  }

  lemma StepFour(s: Text, i: nat)
    requires i + 4 <= |s| && 0xF0 <= s[i] < 0xF5
    requires Continuation(s[i + 1]) && Continuation(s[i + 2]) && Continuation(s[i + 3])
    requires (s[i] == 0xF0 ==> 0x90 <= s[i + 1]) && (s[i] == 0xF4 ==> s[i + 1] < 0x90)
    ensures Utf8From(s, i) == Utf8From(s, i + 4)
  {
  }

  lemma Front(s: Text, i: nat, e: Text, rest: Text)
    requires i <= |s| && s[i..] == e + rest
    ensures i + |e| <= |s| && s[i..i + |e|] == e && s[i + |e|..] == rest
  {
    assert s[i..i + |e|] == s[i..][..|e|];
    assert s[i + |e|..] == s[i..][|e|..];
  }

  lemma {:induction false} EncodedIsValid(s: Text, i: nat, cs: seq<Scalar>)
    requires i <= |s| && s[i..] == EncodeAll(cs)
    ensures Utf8From(s, i)
    decreases |cs|
  {
    if cs != [] {
      hide Utf8From, Encode;
      var e := Encode(cs[0]);
      Front(s, i, e, EncodeAll(cs[1..]));
      EncodedStep(s, i, cs[0]);
      EncodedIsValid(s, i + |e|, cs[1..]);
    }
  }

  /** The character that starts at `i`. */
  function Decoded(s: Text, i: nat): (c: Scalar)
    requires i < |s| && Utf8From(s, i)
    ensures i + |Encode(c)| <= |s| && s[i..i + |Encode(c)|] == Encode(c)
  {
    if s[i] < 0x80 then s[i]
    else if s[i] < 0xE0 then Two(s[i], s[i + 1])
    else if s[i] < 0xF0 then Three(s[i], s[i + 1], s[i + 2])
    else Four(s[i], s[i + 1], s[i + 2], s[i + 3])
  }

  lemma Shifts(a: nat, b: nat, d: nat, e: nat)
    requires b < 0x40 && d < 0x40 && e < 0x40
    ensures var c := a * 0x4_0000 + b * 0x1000 + d * 0x40 + e;
            c / 0x4_0000 == a && c / 0x1000 % 0x40 == b && c / 0x40 % 0x40 == d && c % 0x40 == e
  {
    var c := a * 0x4_0000 + b * 0x1000 + d * 0x40 + e;
    assert c / 0x40 == a * 0x1000 + b * 0x40 + d;
    assert c / 0x1000 == a * 0x40 + b;
  }

  function Two(a: byte, b: byte): (c: Scalar)
    requires 0xC2 <= a < 0xE0 && Continuation(b)
    ensures Encode(c) == [a, b]
  {
    (a - 0xC0) * 0x40 + (b - 0x80)
  }

  function Three(a: byte, b: byte, d: byte): (c: Scalar)
    requires 0xE0 <= a < 0xF0 && Continuation(b) && Continuation(d)
    requires (a == 0xE0 ==> 0xA0 <= b) && (a == 0xED ==> b < 0xA0)
    ensures Encode(c) == [a, b, d]
  {
    Shifts(0, a - 0xE0, b - 0x80, d - 0x80);
    (a - 0xE0) * 0x1000 + (b - 0x80) * 0x40 + (d - 0x80)
  }

  function Four(a: byte, b: byte, d: byte, e: byte): (c: Scalar)
    requires 0xF0 <= a < 0xF5 && Continuation(b) && Continuation(d) && Continuation(e)
    requires (a == 0xF0 ==> 0x90 <= b) && (a == 0xF4 ==> b < 0x90)
    ensures Encode(c) == [a, b, d, e]
  {
    Shifts(a - 0xF0, b - 0x80, d - 0x80, e - 0x80);
    (a - 0xF0) * 0x4_0000 + (b - 0x80) * 0x1000 + (d - 0x80) * 0x40 + (e - 0x80)
  }

  lemma {:induction false} ValidIsEncoded(s: Text, i: nat) returns (cs: seq<Scalar>)
    requires i <= |s| && Utf8From(s, i)
    ensures s[i..] == EncodeAll(cs)
    decreases |s| - i
  {
    cs := [];
    if i < |s| {
      var c := Decoded(s, i);
      EncodedStep(s, i, c);
      var rest := ValidIsEncoded(s, i + |Encode(c)|);
      cs := [c] + rest;
      assert s[i..] == s[i..i + |Encode(c)|] + s[i + |Encode(c)|..];
    }
  }

  /** A string is accepted if and only if it encodes some sequence of scalar values. */
  lemma ValidExactly(s: Text)
    ensures ValidUtf8(s) <==> exists cs: seq<Scalar> :: s == EncodeAll(cs)
  {
    assert s[0..] == s;
    if ValidUtf8(s) {
      var cs := ValidIsEncoded(s, 0);
    }
    if cs: seq<Scalar> :| s == EncodeAll(cs) {
      EncodedIsValid(s, 0, cs);
    }
  }
}
