/**
 * The Postcard wire format: little-endian base-128 varints, raw bytes, length-prefixed runs,
 * UTF-8 strings. Decoding follows the library: at most `width` varint bytes, a bounded last byte,
 * non-minimal encodings accepted, and everything after the value handed back to the caller.
 */
module Postcard {
  import opened Bytes

  /** A decode step: the value and the bytes after it, or failure. */
  datatype Take<+T> = Got(value: T, rest: seq<Byte>) | Bad {
    predicate IsFailure() {
      Bad?
    }

    function PropagateFailure<U>(): Take<U>
      requires Bad?
    {
      Bad
    }

    function Extract(): (T, seq<Byte>)
      requires Got?
    {
      (value, rest)
    }
  }

  /** Width of `usize` on the decoding platform: lengths are varints of that width. */
  datatype Usize = Usize32 | Usize64

  // ---------------------------------------------------------------------------------------------
  // Varints

  function PutVarint(v: nat): seq<Byte> {
    if v < 128 then [v] else [128 + v % 128] + PutVarint(v / 128)
  }

  /** Read a varint of at most `width` bytes whose last permitted byte may not exceed `lastMax`. */
  function TakeVarint(s: seq<Byte>, width: nat, lastMax: nat): (t: Take<nat>)
    ensures t.Got? ==> |t.rest| < |s|
    decreases |s|
  {
    if width == 0 || s == [] then Bad
    else if s[0] < 128 then
      if width == 1 && s[0] > lastMax then Bad else Got(s[0], s[1..])
    else
      match TakeVarint(s[1..], width - 1, lastMax)
      case Bad => Bad
      case Got(hi, rest) => Got(s[0] - 128 + 128 * hi, rest)
  }

  /** One past the largest value such a varint can carry. */
  function VarintBound(width: nat, lastMax: nat): nat
    requires width > 0
  {
    if width == 1 then lastMax + 1 else 128 * VarintBound(width - 1, lastMax)
  }

  function TakeU32(s: seq<Byte>): (t: Take<nat>)
    ensures t.Got? ==> t.value < TWO32
  {
    VarintInRange(s, 5, 15);
    BoundsAreTypeWidths();
    TakeVarint(s, 5, 15)
  }

  function TakeU64(s: seq<Byte>): (t: Take<nat>)
    ensures t.Got? ==> t.value < TWO64
  {
    VarintInRange(s, 10, 1);
    BoundsAreTypeWidths();
    TakeVarint(s, 10, 1)
  }

  function TakeUsize(w: Usize, s: seq<Byte>): (t: Take<nat>) {
    if w.Usize32? then TakeU32(s) else TakeU64(s)
  }

  lemma {:induction false} VarintInRange(s: seq<Byte>, width: nat, lastMax: nat)
    requires width > 0 && lastMax < 128
    ensures var t := TakeVarint(s, width, lastMax); t.Got? ==> t.value < VarintBound(width, lastMax)
    decreases width
  {
    if s != [] && width > 1 {
      if s[0] >= 128 {
        VarintInRange(s[1..], width - 1, lastMax);
      } else {
        BoundAtLeast(width, lastMax);
      }
    }
  }

  lemma {:induction false} VarintWidth(s: seq<Byte>, width: nat, lastMax: nat)
    ensures var t := TakeVarint(s, width, lastMax); t.Got? ==> |s| - |t.rest| <= width
    decreases width
  {
    if s != [] && width > 0 && s[0] >= 128 {
      VarintWidth(s[1..], width - 1, lastMax);
    }
  }

  lemma {:induction false} BoundAtLeast(width: nat, lastMax: nat)
    requires width > 1
    ensures VarintBound(width, lastMax) >= 128
  {
    if width > 2 {
      BoundAtLeast(width - 1, lastMax);
    }
  }

  lemma BoundsAreTypeWidths()
    ensures VarintBound(5, 15) == TWO32
    ensures VarintBound(10, 1) == TWO64
  {
    assert VarintBound(3, 15) == 128 * (128 * 16);
    assert VarintBound(5, 15) == 128 * (128 * VarintBound(3, 15));
    assert VarintBound(3, 1) == 128 * (128 * 2);
    assert VarintBound(5, 1) == 128 * (128 * VarintBound(3, 1));
    assert VarintBound(7, 1) == 128 * (128 * VarintBound(5, 1));
    assert VarintBound(9, 1) == 128 * (128 * VarintBound(7, 1));
    assert VarintBound(10, 1) == 128 * VarintBound(9, 1);
  }

  /** Whatever follows it, an encoded value reads back as itself and leaves what follows. */
  lemma {:induction false} VarintRoundTrip(v: nat, width: nat, lastMax: nat, rest: seq<Byte>)
    requires width > 0 && lastMax < 128 && v < VarintBound(width, lastMax)
    ensures TakeVarint(PutVarint(v) + rest, width, lastMax) == Got(v, rest)
    ensures 0 < |PutVarint(v)| <= width
    decreases width
  {
    var s := PutVarint(v) + rest;
    if v < 128 {
      assert s[1..] == rest;
    } else {
      assert s[1..] == PutVarint(v / 128) + rest;
      VarintRoundTrip(v / 128, width - 1, lastMax, rest);
      assert v == v % 128 + 128 * (v / 128);
    }
  }

  lemma U32RoundTrip(v: nat, rest: seq<Byte>)
    requires v < TWO32
    ensures TakeU32(PutVarint(v) + rest) == Got(v, rest)
    ensures 0 < |PutVarint(v)| <= 5
  {
    BoundsAreTypeWidths();
    VarintRoundTrip(v, 5, 15, rest);
  }

  lemma U64RoundTrip(v: nat, rest: seq<Byte>)
    requires v < TWO64
    ensures TakeU64(PutVarint(v) + rest) == Got(v, rest)
    ensures 0 < |PutVarint(v)| <= 10
  {
    BoundsAreTypeWidths();
    VarintRoundTrip(v, 10, 1, rest);
  }

  lemma UsizeRoundTrip(w: Usize, v: nat, rest: seq<Byte>)
    requires v < TWO32
    ensures TakeUsize(w, PutVarint(v) + rest) == Got(v, rest)
    ensures 0 < |PutVarint(v)| <= 5
  {
    U32RoundTrip(v, rest);
    U64RoundTrip(v, rest);
  }

  /** A wide varint that fits the narrow one reads the same both ways: it does so exactly when it is
      no longer than five bytes and its value fits. */
  lemma {:induction false} NarrowReadsWide(s: seq<Byte>, narrow: nat, narrowMax: nat, wide: nat, wideMax: nat)
    requires 0 < narrow < wide && narrowMax < 128 && wideMax < 128
    requires TakeVarint(s, wide, wideMax).Got?
    requires TakeVarint(s, wide, wideMax).value < VarintBound(narrow, narrowMax)
    ensures |s| - |TakeVarint(s, wide, wideMax).rest| <= narrow
            ==> TakeVarint(s, narrow, narrowMax) == TakeVarint(s, wide, wideMax)
    ensures |s| - |TakeVarint(s, wide, wideMax).rest| > narrow ==> TakeVarint(s, narrow, narrowMax).Bad?
    decreases narrow
  {
    if s[0] >= 128 && narrow > 1 {
      NarrowReadsWide(s[1..], narrow - 1, narrowMax, wide - 1, wideMax);
    }
  }

  // ---------------------------------------------------------------------------------------------
  // Raw bytes and length-prefixed runs

  function TakeByte(s: seq<Byte>): (t: Take<Byte>) {
    if s == [] then Bad else Got(s[0], s[1..])
  }

  /** Exactly `n` raw bytes. */
  function TakeRaw(s: seq<Byte>, n: nat): (t: Take<seq<Byte>>) {
    if |s| < n then Bad else Got(s[..n], s[n..])
  }

  function PutRun(bytes: seq<Byte>): seq<Byte> {
    PutVarint(|bytes|) + bytes
  }

  /** A length-prefixed byte run read into a container of `cap` bytes. */
  function TakeRun(w: Usize, s: seq<Byte>, cap: nat): (t: Take<seq<Byte>>)
    ensures t.Got? ==> |t.value| <= cap
  {
    var (n, rest) :- TakeUsize(w, s);
    if n > cap then Bad else TakeRaw(rest, n)
  }

  lemma RunRoundTrip(w: Usize, bytes: seq<Byte>, cap: nat, rest: seq<Byte>)
    requires |bytes| <= cap < TWO32
    ensures TakeRun(w, PutRun(bytes) + rest, cap) == Got(bytes, rest)
    ensures |PutRun(bytes)| <= 5 + |bytes|
  {
    assert PutRun(bytes) + rest == PutVarint(|bytes|) + (bytes + rest);
    UsizeRoundTrip(w, |bytes|, bytes + rest);
    assert (bytes + rest)[..|bytes|] == bytes;
    assert (bytes + rest)[|bytes|..] == rest;
  }

  // ---------------------------------------------------------------------------------------------
  // Strings

  predicate Continuation(b: Byte) {
    0x80 <= b < 0xC0
  }

  /** Length of the well-formed UTF-8 sequence at the front of `s` (Unicode Standard, Table 3-7), 0 if none. */
  function Utf8Head(s: seq<Byte>): (n: nat)
    ensures n <= |s|
  {
    if s == [] then 0
    else if s[0] < 0x80 then 1
    else if 0xC2 <= s[0] < 0xE0 && |s| >= 2 && Continuation(s[1]) then 2
    else if 0xE0 <= s[0] < 0xF0 && |s| >= 3 && Continuation(s[1]) && Continuation(s[2])
            && (s[0] == 0xE0 ==> s[1] >= 0xA0) && (s[0] == 0xED ==> s[1] < 0xA0) then 3
    else if 0xF0 <= s[0] < 0xF5 && |s| >= 4 && Continuation(s[1]) && Continuation(s[2]) && Continuation(s[3])
            && (s[0] == 0xF0 ==> s[1] >= 0x90) && (s[0] == 0xF4 ==> s[1] < 0x90) then 4
    else 0
  }

  predicate Utf8(s: seq<Byte>) {
    s == [] || (Utf8Head(s) > 0 && Utf8(s[Utf8Head(s)..]))
  }

  function TakeString(w: Usize, s: seq<Byte>, cap: nat): (t: Take<seq<Byte>>)
    ensures t.Got? ==> |t.value| <= cap && Utf8(t.value)
  {
    var (bytes, rest) :- TakeRun(w, s, cap);
    if Utf8(bytes) then Got(bytes, rest) else Bad
  }
}
