/** Bytes, the `u32` counter width, and the few sequence facts every other module uses. */
module Bytes {

  type Byte = x: int | 0 <= x < 256

  /** One past the largest `u32`. */
  const TWO32: nat := 0x1_0000_0000

  type U32 = x: int | 0 <= x < TWO32

  /** One 16-bit audio sample. */
  type Sample = x: int | -32768 <= x < 32768

  /** One past the largest `u64`. */
  const TWO64: nat := 0x1_0000_0000_0000_0000

  type U64 = x: int | 0 <= x < TWO64

  function Min(a: int, b: int): int {
    if a <= b then a else b
  }

  function Max(a: int, b: int): int {
    if a <= b then b else a
  }

  /** `u32::wrapping_sub`. */
  function WrappingSub(a: int, b: int): nat {
    (a - b) % TWO32
  }

  /** `u32::wrapping_add`. */
  function WrappingAdd(a: int, b: int): nat {
    (a + b) % TWO32
  }

  /** A wrapped difference of two absolute positions less than 2^32 apart is their true distance. */
  lemma WrappedDistance(a: nat, b: nat)
    requires b <= a < b + TWO32
    ensures WrappingSub(a % TWO32, b % TWO32) == a - b
  {
    ModOfDifference(a, b);
  }

  lemma ModOfDifference(a: nat, b: nat)
    ensures (a % TWO32 - b % TWO32) % TWO32 == (a - b) % TWO32
  {
    var qa, qb := a / TWO32, b / TWO32;
    assert a % TWO32 - b % TWO32 == (a - b) - (qa - qb) * TWO32;
  }

  /** Advancing a wrapped counter is wrapping the advanced one. */
  lemma WrappedAdvance(a: nat, n: nat)
    ensures WrappingAdd(a % TWO32, n) == (a + n) % TWO32
  {
  }

  /** Absolute counts less than 2^32 apart are told apart by their wrapped forms. */
  lemma WrappedInjective(a: nat, b: nat)
    requires b <= a < b + TWO32
    ensures a % TWO32 == b % TWO32 <==> a == b
  {
    WrappedDistance(a, b);
  }

  /** Appending the next slice of a frame grows the prefix of it already there. */
  lemma PrefixGrows(before: seq<Byte>, bytes: seq<Byte>, i: nat, j: nat)
    requires i <= j <= |bytes|
    ensures before + bytes[..i] + bytes[i..j] == before + bytes[..j]
    ensures j == |bytes| ==> before + bytes[..i] + bytes[i..j] == before + bytes
  {
    assert bytes[..i] + bytes[i..j] == bytes[..j];
  }

  /** Quotient and remainder are unique. */
  lemma DivModUnique(x: nat, cap: nat, q: int, s: nat)
    requires 0 < cap && s < cap && x == q * cap + s
    ensures x % cap == s
  {
    RemainderUnique(cap, x / cap, x % cap, q, s);
  }

  lemma RemainderUnique(cap: nat, q1: int, s1: nat, q2: int, s2: nat)
    requires s1 < cap && s2 < cap && q1 * cap + s1 == q2 * cap + s2
    ensures s1 == s2
  {
    if q1 > q2 {
      MultipleAtLeast(cap, q1 - q2);
    } else if q1 < q2 {
      MultipleAtLeast(cap, q2 - q1);
    }
  }

  lemma {:induction false} MultipleAtLeast(cap: nat, k: nat)
    requires k > 0
    ensures k * cap >= cap
  {
    if k > 1 {
      MultipleAtLeast(cap, k - 1);
      assert k * cap == (k - 1) * cap + cap;
    }
  }

  /** An even number has an even remainder by an even divisor. */
  lemma EvenRemainder(x: nat, cap: nat)
    requires cap > 0 && cap % 2 == 0 && x % 2 == 0
    ensures (x % cap) % 2 == 0
  {
    var q, c := x / cap, cap / 2;
    assert cap == 2 * c;
    assert x == q * cap + x % cap == 2 * (q * c) + x % cap;
  }
}
