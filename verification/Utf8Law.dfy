/** The byte test for UTF-8 against what UTF-8 is: strings of Unicode scalar values, encoded one by one. */
module Utf8Law {
  import opened Bytes
  import opened Postcard

  predicate IsScalar(c: nat) {
    c < 0xD800 || 0xE000 <= c < 0x11_0000
  }

  type Scalar = c: nat | IsScalar(c)

  /** Six bits in a continuation byte. */
  function Tail(x: nat): (b: Byte)
    ensures Continuation(b)
  {
    0x80 + x % 64
  }

  /** The scalar without its low six bits. */
  function Up(x: nat): nat {
    x / 64
  }

  lemma UpBounds(c: Scalar)
    ensures Up(c) < 0x4400 && Up(Up(c)) < 0x110 && Up(Up(Up(c))) < 5
    ensures c < 0x800 ==> Up(c) < 0x20
    ensures c >= 0x80 ==> Up(c) >= 2
    ensures c < 0x1_0000 ==> Up(c) < 0x400 && Up(Up(c)) < 0x10
    ensures c >= 0x800 ==> Up(c) >= 0x20
    ensures c >= 0x1_0000 ==> Up(Up(c)) >= 0x10
    ensures c < 0xD800 ==> Up(c) < 0x360
    ensures c >= 0xE000 ==> Up(Up(c)) >= 0xE
    ensures c < 0xD800 || c >= 0xE000
  {
    assert IsScalar(c);
  }

  function Encode(c: Scalar): (s: seq<Byte>)
    ensures 1 <= |s| <= 4
  {
    UpBounds(c);
    if c < 0x80 then [c]
    else if c < 0x800 then [0xC0 + Up(c), Tail(c)]
    else if c < 0x1_0000 then [0xE0 + Up(Up(c)), Tail(Up(c)), Tail(c)]
    else [0xF0 + Up(Up(Up(c))), Tail(Up(Up(c))), Tail(Up(c)), Tail(c)]
  }

  function EncodeAll(cs: seq<Scalar>): seq<Byte> {
    if cs == [] then [] else Encode(cs[0]) + EncodeAll(cs[1..])
  }

  lemma HeadOfEncoding(c: Scalar, rest: seq<Byte>)
    ensures Utf8Head(Encode(c) + rest) == |Encode(c)|
  {
    var s, e := Encode(c) + rest, Encode(c);
    UpBounds(c);
    assert s[0] == e[0] && (|e| > 1 ==> s[1] == e[1]) && (|e| > 2 ==> s[2] == e[2]) && (|e| > 3 ==> s[3] == e[3]);
  }

  /** A two-byte head spells a scalar. */
  lemma TwoBytes(a: nat, b: nat) returns (c: Scalar)
    requires 0xC2 <= a < 0xE0 && 0x80 <= b < 0xC0
    ensures Encode(c) == [a, b]
  {
    c := (a - 0xC0) * 64 + (b - 0x80);
    assert Up(c) == a - 0xC0;
  }

  lemma ThreeBytes(a: nat, b: nat, d: nat) returns (c: Scalar)
    requires 0xE0 <= a < 0xF0 && 0x80 <= b < 0xC0 && 0x80 <= d < 0xC0
    requires (a == 0xE0 ==> b >= 0xA0) && (a == 0xED ==> b < 0xA0)
    ensures Encode(c) == [a, b, d]
  {
    var x := (a - 0xE0) * 64 + (b - 0x80);
    c := x * 64 + (d - 0x80);
    assert Up(c) == x && Up(x) == a - 0xE0;
  }

  lemma FourBytes(a: nat, b: nat, d: nat, e: nat) returns (c: Scalar)
    requires 0xF0 <= a < 0xF5 && 0x80 <= b < 0xC0 && 0x80 <= d < 0xC0 && 0x80 <= e < 0xC0
    requires (a == 0xF0 ==> b >= 0x90) && (a == 0xF4 ==> b < 0x90)
    ensures Encode(c) == [a, b, d, e]
  {
    var x := (a - 0xF0) * 64 + (b - 0x80);
    var y := x * 64 + (d - 0x80);
    c := y * 64 + (e - 0x80);
    assert Up(c) == y && Up(y) == x && Up(x) == a - 0xF0;
  }

  lemma HeadIsAScalar(s: seq<Byte>) returns (c: Scalar)
    requires Utf8Head(s) > 0
    ensures Encode(c) == s[..Utf8Head(s)]
  {
    var n := Utf8Head(s);
    if n == 1 {
      c := s[0];
    } else if n == 2 {
      c := TwoBytes(s[0], s[1]);
    } else if n == 3 {
      c := ThreeBytes(s[0], s[1], s[2]);
    } else {
      c := FourBytes(s[0], s[1], s[2], s[3]);
    }
  }

  lemma {:induction false} EncodedIsUtf8(cs: seq<Scalar>)
    ensures Utf8(EncodeAll(cs))
  {
    hide Encode;
    if cs != [] {
      var rest := EncodeAll(cs[1..]);
      HeadOfEncoding(cs[0], rest);
      assert (Encode(cs[0]) + rest)[|Encode(cs[0])|..] == rest;
      EncodedIsUtf8(cs[1..]);
    }
  }

  lemma {:induction false} Utf8IsEncoded(s: seq<Byte>) returns (cs: seq<Scalar>)
    requires Utf8(s)
    ensures EncodeAll(cs) == s
    decreases |s|
  {
    hide Encode, Utf8Head;
    cs := [];
    if s != [] {
      var n := Utf8Head(s);
      var c := HeadIsAScalar(s);
      var rest := Utf8IsEncoded(s[n..]);
      cs := [c] + rest;
      assert cs[1..] == rest;
    }
  }

  /** The test accepts exactly the encodings of scalar values: no overlong form, no surrogate, nothing past
      U+10FFFF, nothing cut short. */
  lemma Utf8IsExact(s: seq<Byte>)
    ensures Utf8(s) <==> exists cs: seq<Scalar> :: EncodeAll(cs) == s
  {
    if Utf8(s) {
      var cs := Utf8IsEncoded(s);
    }
    forall cs: seq<Scalar> | EncodeAll(cs) == s ensures Utf8(s) {
      EncodedIsUtf8(cs);
    }
  }
}
