/**
 * What a missed look at the tail costs. A mark pushed at the tail after the drain looked there, with audio
 * behind it, is passed by the next run and stays at the front of the FIFO, where it hides every boundary
 * behind it.
 */
module StrandedMarks {
  import opened Bytes
  import opened Ring
  import opened RingRuns
  import RingMarks

  /** The oldest mark belongs to position `pos`, which the tail has passed by less than a turn of the counter. */
  predicate Stranded(s: System, pos: nat) {
    s.ring.marks != [] && s.ring.marks[0].pos == pos % TWO32 && pos < s.h.tail < pos + TWO32
  }

  /** Consuming any part of a run copied with a mark at the tail strands that mark. */
  lemma MissedLookStrands(s: System, maxRun: nat, txLen: nat, n: nat)
    requires Inv(s) && s.ring.gen == s.acted
    requires s.ring.marks != [] && s.ring.marks[0].pos == s.ring.tail
    requires 0 < n <= |CopyRun(s.ring, maxRun, txLen).bytes|
    ensures var s' := Do(Do(s, Copy(maxRun, txLen)), Consume(n));
            Stranded(s', s.h.tail) && s'.h.tail == s.h.tail + n && s'.ring.marks == s.ring.marks
  {
    CopyIsNext(s, maxRun, txLen);
    WrappedAdvance(s.h.tail, n);
    WrappedInjective(s.h.tail + n, s.h.tail);
    hide CopyRun, Dated, Stored, StagedOk, Accounted;
  }

  /** The look does not help if the mark comes after it: look, mark, two bytes, copy, consume. The next
      boundary is at the tail and in the FIFO, and the next look does not see it. */
  lemma MarkAfterTheLook()
    ensures var s := After([0, 0, 0, 0], [TakeMark, MarkEnd, Produce([1, 2]), Copy(2, 2), Consume(2), MarkEnd]);
            && s.ring.marks == [Mark(0, 0), Mark(2, 0)] && s.ring.tail == 2 && s.played == [1, 2]
            && Stranded(s, 0) && !TakeMarkAtTail(s.ring).1
  {
    hide After, Do, Stranded, TakeMarkAtTail;
    var z: seq<Byte> := [0, 0, 0, 0];
    LookMarkWrite();
    CopyConsumeMark(Do(Do(Do(Start(z), TakeMark), MarkEnd), Produce([1, 2])));
    AfterNothing(z);
    AfterThree(z, [], TakeMark, MarkEnd, Produce([1, 2]));
    AfterThree(z, [] + [TakeMark] + [MarkEnd] + [Produce([1, 2])], Copy(2, 2), Consume(2), MarkEnd);
    assert [] + [TakeMark] + [MarkEnd] + [Produce([1, 2])] + [Copy(2, 2)] + [Consume(2)] + [MarkEnd]
           == [TakeMark, MarkEnd, Produce([1, 2]), Copy(2, 2), Consume(2), MarkEnd];
  }

  lemma AfterNothing(storage: seq<Byte>)
    ensures After(storage, []) == Start(storage)
  {
  }

  lemma LookMarkWrite()
    ensures var s := Do(Do(Do(Start([0, 0, 0, 0]), TakeMark), MarkEnd), Produce([1, 2]));
            && s.ring == Ring(4, 2, 0, 0, 0, [1, 2, 0, 0], [Mark(0, 0)])
            && s.acted == 0 && s.played == [] && s.h.tail == 0
  {
    var s := Do(Do(Start([0, 0, 0, 0]), TakeMark), MarkEnd);
    assert s.ring == Ring(4, 0, 0, 0, 0, [0, 0, 0, 0], [Mark(0, 0)]);
    assert Put([0, 0, 0, 0], 0, [1, 2]) == [1, 2, 0, 0];
  }

  lemma CopyConsumeMark(s: System)
    requires s.ring == Ring(4, 2, 0, 0, 0, [1, 2, 0, 0], [Mark(0, 0)])
    requires s.acted == 0 && s.played == [] && s.h.tail == 0
    ensures var s' := Do(Do(Do(s, Copy(2, 2)), Consume(2)), MarkEnd);
            && s'.ring.marks == [Mark(0, 0), Mark(2, 0)] && s'.ring.tail == 2 && s'.played == [1, 2]
            && Stranded(s', 0) && !TakeMarkAtTail(s'.ring).1
  {
    var s1 := Do(s, Copy(2, 2));
    assert [1, 2, 0, 0][0..2] == [1, 2];
    assert s1.staged.run == DrainRun([1, 2], 0, false);
    var s2 := Do(s1, Consume(2));
    assert s2.ring == s.ring.(tail := 2) && s2.h.tail == 2;
    assert s2.played == [1, 2];
  }

  // ---------------------------------------------------------------------------------------------
  // Until it is freed

  /** Further sections from a given point. */
  function Onward(s: System, events: seq<Event>): System
    decreases |events|
  {
    if events == [] then s else Onward(Do(s, events[0]), events[1..])
  }

  /** The section tells the drain that audio ended at the tail. */
  predicate Reports(s: System, e: Event) {
    Sound(s.ring) && Legal(s, e)
    && ((e.TakeMark? && TakeMarkAtTail(s.ring).1) || (e.Consume? && Advance(s.ring, e.n).1))
  }

  predicate Silent(s: System, events: seq<Event>)
    decreases |events|
  {
    events == [] || (!Reports(s, events[0]) && Silent(Do(s, events[0]), events[1..]))
  }

  lemma {:induction false} TailClimbs(s: System, events: seq<Event>)
    requires Apply !in events
    ensures s.h.tail <= Onward(s, events).h.tail
    decreases |events|
  {
    if events != [] {
      TailClimbs(Do(s, events[0]), events[1..]);
    }
  }

  lemma StrandedStep(s: System, pos: nat, e: Event)
    requires Inv(s) && Stranded(s, pos) && e != Apply && Do(s, e).h.tail < pos + TWO32
    requires e.MarkEnd? ==> |s.ring.marks| < RING_EOA_MARK_CAP
    ensures Inv(Do(s, e)) && !Reports(s, e) && Stranded(Do(s, e), pos)
    ensures s.ring.marks <= Do(s, e).ring.marks
    ensures |Do(s, e).ring.marks| == |s.ring.marks| + if e.MarkEnd? then 1 else 0
  {
    if Legal(s, e) {
      StepKeeps(s, e);
    }
    if e.Consume? && Legal(s, e) {
      WrappedAdvance(s.h.tail, e.n);
      WrappedInjective(s.h.tail + e.n, pos);
    } else {
      WrappedInjective(s.h.tail, pos);
    }
    assert Sound(s.ring) && s.ring.tail == s.h.tail % TWO32;
    hide Inv, CopyRun, Put, Used;
  }

  /** A stranded mark is never reported and neither is any behind it: not a look, not an `advance`, however
      the producer and the drain go on, until a reset is applied, four newer marks push it out, or the tail
      has gone 2^32 bytes past it. */
  lemma {:induction false} StrandedHidesEveryMark(s: System, pos: nat, events: seq<Event>)
    requires Inv(s) && Stranded(s, pos) && Apply !in events
    requires |s.ring.marks| + RingMarks.Pushes(events) <= RING_EOA_MARK_CAP
    requires Onward(s, events).h.tail < pos + TWO32
    ensures Silent(s, events) && Stranded(Onward(s, events), pos)
    ensures s.ring.marks <= Onward(s, events).ring.marks
    ensures |Onward(s, events).ring.marks| == |s.ring.marks| + RingMarks.Pushes(events)
    decreases |events|
  {
    if events != [] {
      TailClimbs(Do(s, events[0]), events[1..]);
      hide Inv, Do, Stranded, Reports;
      StrandedStep(s, pos, events[0]);
      StrandedHidesEveryMark(Do(s, events[0]), pos, events[1..]);
    }
  }

  /** Nor does a copied run claim to reach an end of audio while less than 2^32 bytes were written past it. */
  lemma StrandedBlindsCopy(s: System, pos: nat, maxRun: nat, txLen: nat)
    requires Inv(s) && Stranded(s, pos) && |s.h.stream| < pos + TWO32
    ensures !CopyRun(s.ring, maxRun, txLen).reachedEndOfAudio
  {
    UsedIsUnread(s);
    assert s.ring.tail == s.h.tail % TWO32;
    TurnAhead(pos, s.h.tail);
    hide Inv, Used, WrappingSub;
  }

  /** A position behind the tail looks like the same position one turn of the counter ahead. */
  lemma TurnAhead(pos: nat, tail: nat)
    requires pos < tail < pos + TWO32
    ensures WrappingSub(pos % TWO32, tail % TWO32) == pos + TWO32 - tail
  {
    assert (pos + TWO32) % TWO32 == pos % TWO32;
    WrappedDistance(pos + TWO32, tail);
  }
}
