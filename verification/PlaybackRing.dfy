/** The ring code itself: one object, one method per critical section, proved against Ring. */
module PlaybackRing {
  import opened Bytes
  import opened Ring
  import Spec = Ring

  class InboundPcmRing {
    const cap: nat
    const buf: array<Byte>
    var head: U32
    var tail: U32
    var gen: U32
    var headAtReset: U32
    var marks: seq<Mark>

    function View(): Ring
      reads this, buf
    {
      Ring(cap, head, tail, gen, headAtReset, buf[..], marks)
    }

    ghost predicate Valid()
      reads this, buf
    {
      Sound(View())
    }

    /** A ring around caller-owned storage: a whole number of samples, at least one. */
    constructor (storage: array<Byte>)
      requires 0 < storage.Length && storage.Length % 2 == 0
      ensures buf == storage && View() == Fresh(storage[..])
      ensures storage.Length < TWO32 ==> Valid()
    {
      cap, buf := storage.Length, storage;
      head, tail, gen, headAtReset, marks := 0, 0, 0, 0, [];
    }

    method FreeTotal() returns (n: nat)
      requires Valid()
      ensures n == cap - Used(View())
    {
      n := cap - WrappingSub(head, tail);
    }

    method Available() returns (n: nat)
      requires Valid()
      ensures n == Used(View())
    {
      n := WrappingSub(head, tail);
    }

    /** Copy all of `data` in, split at the wrap, or refuse and change nothing. */
    method Write(data: seq<Byte>) returns (ok: bool)
      requires Valid()
      modifies this`head, buf
      ensures (View(), ok) == Spec.Write(old(View()), data)
      ensures Valid()
    {
      var used := WrappingSub(head, tail);
      var free := cap - used;
      if free < |data| {
        return false;
      }
      var start := head % cap;
      var first := Min(|data|, cap - start);
      Fill(start, data[..first]);
      if first < |data| {
        Fill(0, data[first..]);
      }
      SplitFill(old(buf[..]), start, data);
      UsedAfterWrite(head, tail, |data|);
      head := WrappingAdd(head, |data|);
      ok := true;
    }

    /** Fill one contiguous stretch of the buffer. */
    method Fill(at: nat, data: seq<Byte>)
      requires at + |data| <= buf.Length
      modifies buf
      ensures buf[..] == Filled(old(buf[..]), at, data)
    {
      forall i | 0 <= i < |data| {
        buf[at + i] := data[i];
      }
    }

    /** Mark a reconnection boundary. */
    method Reset()
      modifies this`gen, this`headAtReset
      ensures View() == Spec.Reset(old(View()))
      ensures old(Valid()) ==> Valid()
    {
      gen := WrappingAdd(gen, 1);
      headAtReset := head;
    }

    /** Push a boundary at the head of write; a full FIFO loses its oldest. */
    method MarkEndOfAudio()
      requires Valid()
      modifies this`marks
      ensures View() == PushMark(old(View()))
      ensures Valid()
    {
      var mark := Mark(head, gen);
      if |marks| >= RING_EOA_MARK_CAP {
        marks := marks[1..];
      }
      marks := marks + [mark];
    }

    /** Copy the next contiguous run into the caller's staging buffer; the ring does not change. */
    method CopyRunInto(maxRun: nat, txBuf: array<Byte>) returns (n: nat, generation: U32, reachedEndOfAudio: bool)
      requires Valid() && txBuf != buf
      modifies txBuf
      ensures View() == old(View())
      ensures n <= txBuf.Length
      ensures DrainRun(txBuf[..n], generation, reachedEndOfAudio) == CopyRun(View(), maxRun, txBuf.Length)
      ensures txBuf[n..] == old(txBuf[..])[n..]
    {
      var available := WrappingSub(head, tail);
      var start := tail % cap;
      var contiguous := cap - start;
      var base := Min(Min(available, maxRun), Min(contiguous, txBuf.Length));
      n, reachedEndOfAudio := base, false;
      if marks != [] {
        var dist := WrappingSub(marks[0].pos, tail);
        if dist > 0 && dist <= base {
          n, reachedEndOfAudio := dist, true;
        }
      }
      CopyOut(start, n, txBuf);
      generation := gen;
    }

    /** Copy one contiguous stretch of the buffer to the front of `txBuf`. */
    method CopyOut(start: nat, n: nat, txBuf: array<Byte>)
      requires txBuf != buf && start + n <= buf.Length && n <= txBuf.Length
      modifies txBuf
      ensures txBuf[..n] == buf[start..start + n] && txBuf[n..] == old(txBuf[..])[n..]
    {
      forall i | 0 <= i < n {
        txBuf[i] := buf[start + i];
      }
    }

    method PopMarkIfAt(pos: U32) returns (popped: bool)
      modifies this`marks
      ensures (View(), popped) == Spec.PopMarkIfAt(old(View()), pos)
    {
      popped := marks != [] && marks[0].pos == pos;
      if popped {
        marks := marks[1..];
      }
    }

    method TakeMarkAtTail() returns (popped: bool)
      requires Valid()
      modifies this`marks
      ensures (View(), popped) == Spec.TakeMarkAtTail(old(View()))
      ensures Valid()
    {
      popped := PopMarkIfAt(tail);
    }

    /** Publish consumption of `n` bytes, which must be available. */
    method Advance(n: nat) returns (popped: bool)
      requires Valid() && n <= Used(View())
      modifies this`tail, this`marks
      ensures (View(), popped) == Spec.Advance(old(View()), n)
      ensures Valid()
    {
      UsedAfterAdvance(head, tail, n);
      tail := WrappingAdd(tail, n);
      popped := PopMarkIfAt(tail);
    }

    /** Keep only the live generation's marks: pop each in turn and push the survivors back. */
    method DiscardDeadGenerationMarks()
      modifies this`marks
      ensures marks == Live(old(marks), gen)
    {
      ghost var all := marks;
      var n := |marks|;
      RotatedEnds(all, gen);
      for i := 0 to n
        invariant marks == Rotated(all, i, gen)
      {
        RotateOnce(all, i, gen);
        var m := marks[0];
        marks := marks[1..];
        if m.gen == gen {
          marks := marks + [m];
        }
      }
    }

    /** Jump the tail to the last reset, dropping what the dead connection left. */
    method ApplyReset() returns (generation: U32)
      modifies this`tail, this`marks
      ensures View() == Spec.ApplyReset(old(View())) && generation == gen
      ensures old(Valid()) && WrappingSub(head, headAtReset) <= cap ==> Valid()
    {
      DiscardDeadGenerationMarks();
      tail := headAtReset;
      generation := gen;
    }
  }

  function Filled(buf: seq<Byte>, at: nat, data: seq<Byte>): (b: seq<Byte>)
    requires at + |data| <= |buf|
    ensures |b| == |buf|
  {
    buf[..at] + data + buf[at + |data|..]
  }

  /** Two contiguous fills make the split write. */
  lemma SplitFill(buf: seq<Byte>, start: nat, data: seq<Byte>)
    requires start < |buf| && |data| <= |buf|
    ensures var first := Min(|data|, |buf| - start);
            var once := Filled(buf, start, data[..first]);
            Put(buf, start, data) == if first < |data| then Filled(once, 0, data[first..]) else once
  {
    var first := Min(|data|, |buf| - start);
    if first == |data| {
      assert data[..first] == data;
    }
  }

  lemma UsedAfterWrite(head: U32, tail: U32, n: nat)
    requires WrappingSub(head, tail) + n < TWO32
    ensures WrappingSub(WrappingAdd(head, n), tail) == WrappingSub(head, tail) + n
  {
  }

  lemma UsedAfterAdvance(head: U32, tail: U32, n: nat)
    requires n <= WrappingSub(head, tail)
    ensures WrappingSub(head, WrappingAdd(tail, n)) == WrappingSub(head, tail) - n
  {
  }

  /** The FIFO after `i` turns of the discard loop: the rest, then the survivors so far. */
  function Rotated(all: seq<Mark>, i: nat, gen: nat): seq<Mark>
    requires i <= |all|
  {
    all[i..] + Live(all[..i], gen)
  }

  lemma RotatedEnds(all: seq<Mark>, gen: nat)
    ensures Rotated(all, 0, gen) == all && Rotated(all, |all|, gen) == Live(all, gen)
  {
    assert all[..|all|] == all && all[0..] == all;
    assert Live(all[..0], gen) == [];
  }

  lemma RotateOnce(all: seq<Mark>, i: nat, gen: nat)
    requires i < |all|
    ensures var r := Rotated(all, i, gen);
            && r != [] && r[0] == all[i]
            && Rotated(all, i + 1, gen) == r[1..] + if all[i].gen == gen then [all[i]] else []
  {
    hide Live;
    LiveSnoc(all[..i], all[i], gen);
    assert all[..i + 1] == all[..i] + [all[i]];
    assert Rotated(all, i, gen)[1..] == all[i + 1..] + Live(all[..i], gen);
  }

  lemma {:induction false} LiveSnoc(marks: seq<Mark>, m: Mark, gen: nat)
    ensures Live(marks + [m], gen) == Live(marks, gen) + if m.gen == gen then [m] else []
  {
    if marks != [] {
      assert (marks + [m])[1..] == marks[1..] + [m];
      LiveSnoc(marks[1..], m, gen);
    }
  }

  // ---------------------------------------------------------------------------------------------
  // The playback sink

  /** A whole, non-zero number of 16-bit samples. */
  predicate IsValidS16lePcm(pcm: seq<Byte>) {
    pcm != [] && |pcm| % 2 == 0
  }

  /** What offering a frame's PCM does to the ring: malformed PCM is discarded, not held. */
  function Offered(r: Ring, pcm: seq<Byte>): (Ring, bool)
    requires Sound(r)
  {
    if IsValidS16lePcm(pcm) then Write(r, pcm) else (r, true)
  }

  /** An offer is refused exactly when it is a whole, non-zero number of samples that does not fit; it fills the
      ring by its length exactly when it is one that does, and otherwise leaves it alone. */
  lemma OfferIsExact(r: Ring, pcm: seq<Byte>)
    requires Sound(r)
    ensures var (r', taken) := Offered(r, pcm);
            var samples := |pcm| > 0 && |pcm| % 2 == 0;
            && (!taken <==> samples && |pcm| > r.cap - Used(r))
            && (samples && taken ==> Used(r') == Used(r) + |pcm|)
            && (!samples || !taken ==> r' == r)
  {
    hide Put;
    if IsValidS16lePcm(pcm) && |pcm| <= r.cap - Used(r) {
      UsedAfterWrite(r.head, r.tail, |pcm|);
    }
  }

  /** A sink in front of a ring, with its loss and backpressure counters. */
  class I2sStreamSink {
    const ring: InboundPcmRing?
    var frames: U32
    var samples: U64
    var fullStalls: U32
    var deadChannelDiscards: U32

    constructor (ring: InboundPcmRing?)
      ensures this.ring == ring && frames == samples == fullStalls == deadChannelDiscards == 0
    {
      this.ring := ring;
      frames, samples, fullStalls, deadChannelDiscards := 0, 0, 0, 0;
    }

    /** Enqueue, or answer `false` and leave the frame with the caller. Every offer is counted exactly
        once: discarded malformed, enqueued, stalled, or lost to an unwired ring. */
    method Accept(pcm: seq<Byte>) returns (enqueued: bool)
      requires ring != null ==> ring.Valid()
      modifies this, if ring != null then {ring, ring.buf} else {}
      ensures ring == null ==> enqueued
      ensures ring != null ==> ring.Valid() && (ring.View(), enqueued) == Offered(old(ring.View()), pcm)
      ensures !IsValidS16lePcm(pcm) ==>
                && frames == old(frames) && samples == old(samples)
                && fullStalls == old(fullStalls) && deadChannelDiscards == old(deadChannelDiscards)
      ensures IsValidS16lePcm(pcm) ==>
                && frames == WrappingAdd(old(frames), if enqueued then 1 else 0)
                && samples == (old(samples) + if enqueued then |pcm| / 2 else 0) % TWO64
                && fullStalls == WrappingAdd(old(fullStalls), if enqueued then 0 else 1)
                && deadChannelDiscards == WrappingAdd(old(deadChannelDiscards), if ring == null then 1 else 0)
    {
      hide Spec.Write, Sound;
      if !IsValidS16lePcm(pcm) {
        return true;
      }
      if ring != null {
        enqueued := ring.Write(pcm);
        if !enqueued {
          fullStalls := WrappingAdd(fullStalls, 1);
          return false;
        }
      } else {
        deadChannelDiscards := WrappingAdd(deadChannelDiscards, 1);
      }
      frames := WrappingAdd(frames, 1);
      samples := (samples + |pcm| / 2) % TWO64;
      enqueued := true;
    }

    method EndOfAudio()
      requires ring != null ==> ring.Valid()
      modifies if ring != null then {ring} else {}
      ensures ring != null ==> ring.Valid() && ring.View() == PushMark(old(ring.View()))
    {
      if ring != null {
        ring.MarkEndOfAudio();
      }
    }

    /** Reset first, so the mark rides the new generation. */
    method FlushPlayback()
      requires ring != null ==> ring.Valid()
      modifies if ring != null then {ring} else {}
      ensures ring != null ==> ring.Valid() && ring.View() == PushMark(Reset(old(ring.View())))
    {
      if ring != null {
        ring.Reset();
        ring.MarkEndOfAudio();
      }
    }

    method StreamReset()
      requires ring != null ==> ring.Valid()
      modifies this`deadChannelDiscards, if ring != null then {ring} else {}
      ensures ring != null ==> ring.Valid() && ring.View() == Reset(old(ring.View()))
      ensures deadChannelDiscards == WrappingAdd(old(deadChannelDiscards), if ring == null then 1 else 0)
    {
      if ring != null {
        ring.Reset();
      } else {
        deadChannelDiscards := WrappingAdd(deadChannelDiscards, 1);
      }
    }
  }
}
