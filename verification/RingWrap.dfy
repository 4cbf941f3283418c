/**
 * The comments on the ring say the plain-integer wrap math makes no demand on the capacity beyond a
 * whole number of samples. It does: past 2^32 bytes a capacity that does not divide 2^32 reads the wrong
 * bytes. Dividing 2^32 is exactly what byte-exactness needs.
 */
module RingWrap {
  import opened Bytes
  import opened Ring
  import opened RingRuns

  /** Every copied run, after every run of a ring of this capacity, is the next bytes of its stream. */
  ghost predicate ByteExact(cap: nat) {
    forall storage: seq<Byte>, events: seq<Event>, maxRun: nat, txLen: nat | |storage| == cap ::
      CopiesNext(After(storage, events), maxRun, txLen)
  }

  predicate CopiesNext(s: System, maxRun: nat, txLen: nat) {
    Sound(s.ring) &&
    var run := CopyRun(s.ring, maxRun, txLen);
    s.h.tail + |run.bytes| <= |s.h.stream| && run.bytes == s.h.stream[s.h.tail..s.h.tail + |run.bytes|]
  }

  function Zeros(n: nat): (s: seq<Byte>)
    ensures |s| == n && forall i :: 0 <= i < n ==> s[i] == 0
  {
    seq(n, _ => 0)
  }

  /** One sample in, one sample out, `k` times. */
  function Trickle(k: nat): seq<Event> {
    if k == 0 then [] else Trickle(k - 1) + [Produce([0, 0])] + [Copy(2, 2)] + [Consume(2)]
  }

  /** An empty, all-zero ring at stream position `p`. */
  predicate EmptyAt(s: System, cap: nat, p: nat) {
    && Inv(s) && s.ring.cap == cap && s.ring.buf == Zeros(cap) && s.ring.marks == []
    && s.h.stream == Zeros(p) && s.h.tail == p && s.h.gen == s.h.acted == 0
  }

  lemma PutZeros(cap: nat, start: nat, n: nat)
    requires start < cap && n <= cap
    ensures Put(Zeros(cap), start, Zeros(n)) == Zeros(cap)
  {
  }

  /** Even positions sit at even slots of an even ring, so a sample never meets the wrap. */
  lemma EvenSlot(p: nat, cap: nat)
    requires cap > 0 && cap % 2 == 0 && p % 2 == 0
    ensures (p % TWO32 % cap) % 2 == 0 && p % TWO32 % cap + 2 <= cap
  {
    var x := p % TWO32;
    EvenRemainder(x, cap);
  }

  lemma TrickleStep(s: System, cap: nat, p: nat)
    requires EmptyAt(s, cap, p) && cap > 2 && cap % 2 == 0 && p % 2 == 0
    ensures EmptyAt(Do(Do(Do(s, Produce([0, 0])), Copy(2, 2)), Consume(2)), cap, p + 2)
  {
    EvenSlot(p, cap);
    UsedIsUnread(s);
    assert [0, 0] == Zeros(2);
    PutZeros(cap, s.ring.head % cap, 2);
    var s1 := Do(s, Produce([0, 0]));
    ProduceKeeps(s, [0, 0]);
    UsedIsUnread(s1);
    assert s1.h.stream == Zeros(p + 2);
    CopyKeeps(s1, 2, 2);
    var s2 := Do(s1, Copy(2, 2));
    assert |s2.staged.run.bytes| == 2;
    ConsumeKeeps(s2, 2);
  }

  lemma TrickleStart(cap: nat)
    requires 0 < cap < TWO32
    ensures EmptyAt(After(Zeros(cap), Trickle(0)), cap, 0)
  {
    hide Inv;
    StartKeeps(Zeros(cap));
    assert After(Zeros(cap), []) == Start(Zeros(cap));
  }

  lemma {:induction false} TrickleReaches(cap: nat, k: nat)
    requires 2 < cap < TWO32 && cap % 2 == 0
    ensures EmptyAt(After(Zeros(cap), Trickle(k)), cap, 2 * k)
  {
    hide Do, After, EmptyAt;
    if k == 0 {
      TrickleStart(cap);
    } else {
      TrickleReaches(cap, k - 1);
      TrickleStep(After(Zeros(cap), Trickle(k - 1)), cap, 2 * k - 2);
      AfterThree(Zeros(cap), Trickle(k - 1), Produce([0, 0]), Copy(2, 2), Consume(2));
    }
  }

  /** Two samples straddling position 2^32 are stored in adjacent slots, neither of them the slot of
      counter value 0. */
  predicate Straddled(s: System, cap: nat) {
    && Inv(s) && s.ring.cap == cap && s.ring.marks == [] && s.ring.buf[0] == 0
    && |s.h.stream| == TWO32 + 2 && s.h.stream[TWO32] == 1
    && s.h.tail == TWO32 - 2 && s.h.gen == s.h.acted == 0
  }

  lemma StraddlingWrite(s: System, cap: nat)
    requires EmptyAt(s, cap, TWO32 - 2) && 4 < cap && cap % 2 == 0 && TWO32 % cap != 0
    ensures Straddled(Do(s, Produce([0, 0, 1, 1])), cap)
  {
    var data: seq<Byte> := [0, 0, 1, 1];
    var p: nat := TWO32 - 2;
    ProduceKeeps(s, data);
    UsedIsUnread(s);
    hide Inv;
    EvenSlot(p, cap);
    EvenRemainder(TWO32, cap);
    SlotAhead(p, 2, cap);
    assert p % TWO32 == p;
    SlotZeroSpared(cap, p % cap, data);
  }

  lemma SlotZeroSpared(cap: nat, start: nat, data: seq<Byte>)
    requires 4 < cap && cap % 2 == 0 && start < cap && start % 2 == 0 && start + 2 != cap
    requires data == [0, 0, 1, 1]
    ensures Put(Zeros(cap), start, data)[0] == 0
  {
  }

  /** The first sample goes out and the tail counter wraps to 0. */
  lemma FirstSampleConsumed(s: System, cap: nat)
    requires Straddled(s, cap) && 4 < cap && cap % 2 == 0
    ensures var s' := Do(Do(s, Copy(2, 2)), Consume(2));
            Counted(s') && s'.h.tail == TWO32 && s'.h.stream == s.h.stream && s'.ring.buf == s.ring.buf
            && s'.ring.marks == [] && s'.ring.cap == cap
  {
    EvenSlot(TWO32 - 2, cap);
    UsedIsUnread(s);
    CopyKeeps(s, 2, 2);
    var s2 := Do(s, Copy(2, 2));
    assert |s2.staged.run.bytes| == 2;
    ConsumeKeeps(s2, 2);
  }

  /** So the second is looked for in slot 0. */
  lemma SlotZeroMisreads(s: System)
    requires Counted(s) && s.ring.cap > 2 && s.ring.marks == [] && s.ring.buf[0] == 0
    requires |s.h.stream| == TWO32 + 2 && s.h.stream[TWO32] == 1 && s.h.tail == TWO32
    ensures !CopiesNext(s, 2, 2)
  {
    UsedIsUnread(s);
    assert s.ring.tail == 0;
    var run := CopyRun(s.ring, 2, 2);
    assert |run.bytes| == 2 && run.bytes[0] == 0;
  }

  /** For a ring of whole samples, byte-exactness over all runs holds exactly when the capacity divides
      2^32. */
  lemma ByteExactIffDividesCounter(cap: nat)
    requires 2 <= cap < TWO32 && cap % 2 == 0
    ensures ByteExact(cap) <==> TWO32 % cap == 0
  {
    if TWO32 % cap == 0 {
      forall storage: seq<Byte>, events: seq<Event>, maxRun: nat, txLen: nat | |storage| == cap
        ensures CopiesNext(After(storage, events), maxRun, txLen)
      {
        RingIsFifo(storage, events, [], maxRun, txLen);
      }
    } else {
      assert cap != 2 && cap != 4;
      MisreadingRun(cap);
    }
  }

  lemma StraddleMisreads(s: System, cap: nat)
    requires Straddled(s, cap) && 4 < cap && cap % 2 == 0
    ensures !CopiesNext(Do(Do(s, Copy(2, 2)), Consume(2)), 2, 2)
  {
    hide Do, CopiesNext;
    FirstSampleConsumed(s, cap);
    SlotZeroMisreads(Do(Do(s, Copy(2, 2)), Consume(2)));
  }

  lemma MisreadingRun(cap: nat)
    requires 4 < cap < TWO32 && cap % 2 == 0 && TWO32 % cap != 0
    ensures exists events: seq<Event> :: !CopiesNext(After(Zeros(cap), events), 2, 2)
  {
    hide Do, After, EmptyAt, Straddled, CopiesNext;
    var k: nat := (TWO32 - 2) / 2;
    var e1, e2, e3 := Produce([0, 0, 1, 1]), Copy(2, 2), Consume(2);
    TrickleReaches(cap, k);
    var s := After(Zeros(cap), Trickle(k));
    StraddlingWrite(s, cap);
    StraddleMisreads(Do(s, e1), cap);
    AfterThree(Zeros(cap), Trickle(k), e1, e2, e3);
    assert !CopiesNext(After(Zeros(cap), Trickle(k) + [e1] + [e2] + [e3]), 2, 2);
  }

  /** The production capacity does. */
  lemma ProductionRingIsByteExact()
    ensures INBOUND_PCM_RING_BYTES == 65_536 && ByteExact(65_536)
  {
    assert TWO32 % INBOUND_PCM_RING_BYTES == 0;
    ByteExactIffDividesCounter(INBOUND_PCM_RING_BYTES);
  }
}
