/** How much a copied run holds: all that budget, staging, wrap, fill and the next mark allow. */
module RunLengths {
  import opened Bytes
  import opened Ring
  import opened RingRuns
  import opened RingMarks

  /** Bytes from the tail's slot to the end of the buffer. */
  function ToTheWrap(r: Ring): nat
    requires r.cap > 0
  {
    r.cap - r.tail % r.cap
  }

  /** A run passes none of its limits and stops only at one of them: its budget, its staging, the end of the
      buffer, the last byte written, or the oldest pending boundary. */
  lemma RunIsMaximal(m: Marked, maxRun: nat, txLen: nat)
    requires MarksInv(m) && Respects(m.s, Copy(maxRun, txLen))
    ensures Sound(m.s.ring)
    ensures var n := |CopyRun(m.s.ring, maxRun, txLen).bytes|;
            var unread := |m.s.h.stream| - m.s.h.tail;
            && n <= maxRun && n <= txLen && n <= unread && n <= ToTheWrap(m.s.ring)
            && (|| n == maxRun || n == txLen || n == unread || n == ToTheWrap(m.s.ring)
                || (HasFront(m.log) && m.log.fifo[0] < |m.log.pushed|
                    && n == m.log.pushed[m.log.fifo[0]].pos - m.s.h.tail))
  {
    UsedIsUnread(m.s);
    FrontAgainst(m, m.s.h.tail);
    hide MarksInv, Used, WrappingSub;
  }

  /** One run of all that is contiguous, consumed whole. */
  function RunDown(s: System): System
    requires Sound(s.ring)
  {
    var s1 := Do(s, Copy(s.ring.cap, s.ring.cap));
    Do(s1, Consume(|CopyRun(s.ring, s.ring.cap, s.ring.cap).bytes|))
  }

  lemma RunDownMoves(s: System)
    requires Inv(s) && s.ring.gen == s.acted && s.ring.marks == []
    ensures var s' := RunDown(s);
            && Inv(s') && s'.ring.marks == [] && s'.ring.gen == s'.acted && s'.ring.cap == s.ring.cap
            && s'.h.stream == s.h.stream
            && s'.h.tail == s.h.tail + Min(|s.h.stream| - s.h.tail, ToTheWrap(s.ring))
  {
    UsedIsUnread(s);
    var s1 := Do(s, Copy(s.ring.cap, s.ring.cap));
    CopyKeeps(s, s.ring.cap, s.ring.cap);
    var n := |CopyRun(s.ring, s.ring.cap, s.ring.cap).bytes|;
    assert n == Min(|s.h.stream| - s.h.tail, ToTheWrap(s.ring));
    ConsumeKeeps(s1, n);
    hide Inv, Used;
  }

  /** Two full runs empty any ring without marks, however it is wrapped. */
  lemma TwoRunsEmptyTheRing(s: System)
    requires Inv(s) && s.ring.gen == s.acted && s.ring.marks == [] && Exact(s.ring.cap, |s.h.stream|)
    ensures Sound(RunDown(s).ring)
    ensures RunDown(RunDown(s)).h.tail == |s.h.stream|
  {
    RunDownMoves(s);
    var s1 := RunDown(s);
    RunDownMoves(s1);
    FillFits(s);
    FillFits(s1);
    hide RunDown, Inv, ToTheWrap, Exact;
    if s1.h.tail < |s.h.stream| {
      SlotAfterWrap(s.h.tail, s1.h.tail, s.ring.cap, |s.h.stream|);
      WholeBufferAhead(s1.ring);
    }
  }

  /** A run to the end of the buffer leaves the tail at slot 0. */
  lemma SlotAfterWrap(t: nat, t1: nat, cap: nat, written: nat)
    requires cap > 0 && Exact(cap, written) && t <= t1 < written
    requires t1 == t + (cap - t % TWO32 % cap)
    ensures t1 % TWO32 % cap == 0
  {
    SlotOf(t, cap, written);
    SlotOf(t1, cap, written);
    hide Exact;
    var q := t / cap;
    assert t == q * cap + t % cap;
    assert t1 == (q + 1) * cap;
    DivModUnique(t1, cap, q + 1, 0);
  }

  lemma WholeBufferAhead(r: Ring)
    requires r.cap > 0 && r.tail % r.cap == 0
    ensures ToTheWrap(r) == r.cap
  {
  }

  lemma FillFits(s: System)
    requires Inv(s)
    ensures s.h.tail <= |s.h.stream| <= s.h.tail + s.ring.cap && s.ring.tail == s.h.tail % TWO32
    ensures s.ring.cap > 0 && ToTheWrap(s.ring) == s.ring.cap - s.h.tail % TWO32 % s.ring.cap
  {
  }
}
