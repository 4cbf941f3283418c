/** Expansion of raw 16-bit mono samples to 32-bit stereo I2S frames, and the packing it undoes. */
module Playout {
  import opened Bytes

  const I2S_TX_FRAME_BYTES: nat := 8

  /** `i16::to_le_bytes`, as the two bytes of the two's-complement value. */
  function LeBytes(s: Sample): (b: (Byte, Byte))
    ensures IsLittleEndian(s, b.0, b.1)
  {
    var u: nat := if s < 0 then s + 65536 else s;
    (u % 256, u / 256)
  }

  /** The low byte first, of the value modulo 2^16. */
  predicate IsLittleEndian(s: int, lo: int, hi: int) {
    lo + 256 * hi == s || lo + 256 * hi == s + 65536
  }

  function FromLeBytes(lo: Byte, hi: Byte): Sample {
    var h: nat := hi;
    var u := lo + 256 * h;
    if u < 32768 then u else u - 65536
  }

  lemma LeBytesRoundTrip(s: Sample, lo: Byte, hi: Byte)
    ensures FromLeBytes(LeBytes(s).0, LeBytes(s).1) == s
    ensures LeBytes(FromLeBytes(lo, hi)) == (lo, hi)
  {
  }

  /** The left slot carries the sample in its top sixteen bits; the right slot is silent. */
  function ExpandSampleToFrame(s: Sample): (f: seq<Byte>)
    ensures |f| == I2S_TX_FRAME_BYTES
  {
    var (lo, hi) := LeBytes(s);
    [0, 0, lo, hi, 0, 0, 0, 0]
  }

  /** The I2S frame of the sample at the front of a run. */
  function FrameAt(raw: seq<Byte>, k: nat): (f: seq<Byte>)
    requires 2 * k + 1 < |raw|
    ensures f == [0, 0, raw[2 * k], raw[2 * k + 1], 0, 0, 0, 0]
  {
    LeBytesRoundTrip(0, raw[2 * k], raw[2 * k + 1]);
    ExpandSampleToFrame(FromLeBytes(raw[2 * k], raw[2 * k + 1]))
  }

  /** A run of whole samples, frame by frame. */
  function Expand(raw: seq<Byte>): (out: seq<Byte>)
    ensures |out| == 8 * (|raw| / 2)
  {
    if |raw| < 2 then [] else FrameAt(raw, 0) + Expand(raw[2..])
  }

  lemma {:induction false} ExpandAt(raw: seq<Byte>, k: nat)
    requires 2 * k + 1 < |raw|
    ensures Expand(raw)[8 * k..8 * k + 8] == FrameAt(raw, k)
  {
    if k > 0 {
      ExpandAt(raw[2..], k - 1);
      assert Expand(raw)[8 * k..8 * k + 8] == Expand(raw[2..])[8 * (k - 1)..8 * (k - 1) + 8];
    }
  }

  /** Expansion goes run by run: cutting between samples changes nothing. */
  lemma {:induction false} ExpandAppend(a: seq<Byte>, b: seq<Byte>)
    requires |a| % 2 == 0
    ensures Expand(a + b) == Expand(a) + Expand(b)
  {
    if a == [] {
      assert a + b == b;
    } else {
      assert (a + b)[2..] == a[2..] + b;
      ExpandAppend(a[2..], b);
    }
  }

  /** Out of place: the first frames of `out` are written and its tail is left alone. */
  method ExpandRunInto(raw: seq<Byte>, out: array<Byte>)
    requires |raw| % 2 == 0 && out.Length >= |raw| / 2 * 8
    modifies out
    ensures out[..] == Expand(raw) + old(out[..])[4 * |raw|..]
  {
    hide Expand, FrameAt;
    var n := |raw| / 2;
    for k := 0 to n
      invariant out[..8 * k] == Expand(raw)[..8 * k]
      invariant out[8 * k..] == old(out[..])[8 * k..]
    {
      ghost var before := out[..];
      var frame := FrameAt(raw, k);
      forall i | 0 <= i < 8 {
        out[8 * k + i] := frame[i];
      }
      ExpandAt(raw, k);
      assert out[..] == before[..8 * k] + frame + before[8 * k + 8..];
      ForwardStep(Expand(raw), old(out[..]), before, frame, 8 * k);
    }
    assert out[..] == out[..8 * n] + out[8 * n..];
  }

  /** Writing the next frame of an expansion front to back. */
  lemma ForwardStep(e: seq<Byte>, was: seq<Byte>, before: seq<Byte>, frame: seq<Byte>, a: nat)
    requires |frame| == 8 && a + 8 <= |e| && a + 8 <= |was| == |before| && e[a..a + 8] == frame
    requires before[..a] == e[..a] && before[a..] == was[a..]
    ensures var after := before[..a] + frame + before[a + 8..];
            after[..a + 8] == e[..a + 8] && after[a + 8..] == was[a + 8..]
  {
    var after := before[..a] + frame + before[a + 8..];
    assert e[..a + 8] == e[..a] + frame;
    assert after[a + 8..] == before[a..][8..];
  }

  /** Writing the previous frame of an expansion back to front. */
  lemma BackwardStep(e: seq<Byte>, rest: seq<Byte>, before: seq<Byte>, frame: seq<Byte>, a: nat)
    requires |frame| == 8 && a + 8 <= |e| && a + 8 <= |before| && e[a..a + 8] == frame
    requires before[a + 8..] == e[a + 8..] + rest
    ensures var after := before[..a] + frame + before[a + 8..];
            after[a..] == e[a..] + rest
  {
    assert e[a..] == frame + e[a + 8..];
  }

  /** Samples `i..n` of `raw` have been expanded over `was`; the bytes below frame `i` are still as they were. */
  predicate InPlace(raw: seq<Byte>, was: seq<Byte>, b: seq<Byte>, i: nat, n: nat)
    requires i <= n && |raw| == 2 * n && |was| >= 8 * n
  {
    |b| == |was| && b[..8 * i] == was[..8 * i] && b[8 * i..] == Expand(raw)[8 * i..] + was[8 * n..]
  }

  lemma InPlaceStep(raw: seq<Byte>, was: seq<Byte>, b: seq<Byte>, i: nat, n: nat)
    requires i < n && |was| >= 8 * n && raw == was[..2 * n] && InPlace(raw, was, b, i + 1, n)
    ensures var frame := ExpandSampleToFrame(FromLeBytes(b[2 * i], b[2 * i + 1]));
            InPlace(raw, was, b[..8 * i] + frame + b[8 * i + 8..], i, n)
  {
    var frame := ExpandSampleToFrame(FromLeBytes(b[2 * i], b[2 * i + 1]));
    assert b[2 * i] == b[..8 * i + 8][2 * i] == raw[2 * i];
    assert b[2 * i + 1] == b[..8 * i + 8][2 * i + 1] == raw[2 * i + 1];
    assert frame == FrameAt(raw, i);
    ExpandAt(raw, i);
    hide Expand, ExpandSampleToFrame;
    BackwardStep(Expand(raw), was[8 * n..], b, frame, 8 * i);
    var after := b[..8 * i] + frame + b[8 * i + 8..];
    assert after[..8 * i] == b[..8 * i + 8][..8 * i] == was[..8 * i];
  }

  /** Overwrite eight bytes. */
  method PutFrame(buf: array<Byte>, at: nat, frame: seq<Byte>)
    requires |frame| == 8 && at + 8 <= buf.Length
    modifies buf
    ensures buf[..] == old(buf[..at]) + frame + old(buf[at + 8..])
  {
    forall j | 0 <= j < 8 {
      buf[at + j] := frame[j];
    }
  }

  /** In place, from the last sample down, so no sample is overwritten before it is read: the result is
      the out-of-place expansion and the bytes past it are untouched. */
  method ExpandRunInPlace(buf: array<Byte>, sampleCount: nat)
    requires buf.Length >= sampleCount * 8
    modifies buf
    ensures buf[..] == Expand(old(buf[..2 * sampleCount])) + old(buf[..])[8 * sampleCount..]
  {
    hide Expand, ExpandSampleToFrame;
    ghost var was := buf[..];
    ghost var raw := was[..2 * sampleCount];
    assert raw == buf[..2 * sampleCount];
    assert InPlace(raw, was, buf[..], sampleCount, sampleCount);
    var i := sampleCount;
    while i > 0
      invariant 0 <= i <= sampleCount
      invariant InPlace(raw, was, buf[..], i, sampleCount)
    {
      i := i - 1;
      InPlaceStep(raw, was, buf[..], i, sampleCount);
      var lo, hi := buf[2 * i], buf[2 * i + 1];
      PutFrame(buf, 8 * i, ExpandSampleToFrame(FromLeBytes(lo, hi)));
    }
    assert buf[..] == buf[..][0..] && Expand(raw) == Expand(raw)[0..];
  }

  /** Pack samples as little-endian bytes. */
  function Packed(samples: seq<Sample>): (b: seq<Byte>)
    ensures |b| == 2 * |samples|
  {
    if samples == [] then []
    else Packed(samples[..|samples| - 1]) + [LeBytes(samples[|samples| - 1]).0, LeBytes(samples[|samples| - 1]).1]
  }

  method PackPcmS16le(samples: seq<Sample>, cap: nat) returns (out: seq<Byte>)
    requires |samples| * 2 <= cap
    ensures |out| == 2 * |samples| <= cap
    ensures forall k :: 0 <= k < |samples| ==> FromLeBytes(out[2 * k], out[2 * k + 1]) == samples[k]
    ensures forall k :: 0 <= k < |samples| ==> IsLittleEndian(samples[k], out[2 * k], out[2 * k + 1])
    ensures out == Packed(samples)
  {
    out := [];
    for i := 0 to |samples|
      invariant |out| == 2 * i
      invariant forall k :: 0 <= k < i ==> FromLeBytes(out[2 * k], out[2 * k + 1]) == samples[k]
      invariant forall k :: 0 <= k < i ==> IsLittleEndian(samples[k], out[2 * k], out[2 * k + 1])
      invariant out == Packed(samples[..i])
    {
      var (lo, hi) := LeBytes(samples[i]);
      LeBytesRoundTrip(samples[i], 0, 0);
      assert samples[..i + 1][..i] == samples[..i];
      out := out + [lo] + [hi];
    }
    assert samples[..|samples|] == samples;
  }

  /** Captured samples, packed and later expanded, are those samples' frames. */
  lemma {:induction false} ExpandUndoesPacking(samples: seq<Sample>, k: nat)
    requires k < |samples|
    ensures Expand(Packed(samples))[8 * k..8 * k + 8] == ExpandSampleToFrame(samples[k])
  {
    ExpandAt(Packed(samples), k);
    PackedAt(samples, k);
  }

  lemma {:induction false} PackedAt(samples: seq<Sample>, k: nat)
    requires k < |samples|
    ensures Packed(samples)[2 * k] == LeBytes(samples[k]).0 && Packed(samples)[2 * k + 1] == LeBytes(samples[k]).1
  {
    if k < |samples| - 1 {
      PackedAt(samples[..|samples| - 1], k);
    }
  }
}
