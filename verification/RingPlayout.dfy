/** Sample alignment over whole runs of the ring, and what the playout device is given. */
module RingPlayout {
  import opened Bytes
  import opened Ring
  import opened RingRuns
  import opened Playout

  predicate Even(n: int) {
    n % 2 == 0
  }

  /** A caller working in whole samples: even writes, budgets, staging buffer and consumed lengths. */
  predicate WholeSamples(e: Event) {
    match e
    case Produce(data) => Even(|data|)
    case Copy(maxRun, txLen) => Even(maxRun) && Even(txLen)
    case Consume(n) => Even(n)
    case _ => true
  }

  predicate AllEven(marks: seq<Mark>) {
    marks == [] || (Even(marks[0].pos) && AllEven(marks[1..]))
  }

  /** Every position, boundary and staged run falls between samples. */
  predicate Aligned(s: System) {
    && Even(s.ring.cap) && Even(|s.h.stream|) && Even(s.h.tail) && Even(s.h.resetAt)
    && AllEven(s.ring.marks)
    && (s.staged.Run? ==> Even(|s.staged.run.bytes|))
    && Even(|s.played|)
  }

  lemma EvenWrap(a: nat, b: nat)
    requires Even(a) && Even(b)
    ensures Even(WrappingSub(a, b)) && Even(a % TWO32)
  {
    var q, r := (a - b) / TWO32, WrappingSub(a, b);
    assert r == (a - b) - 2 * (q * 0x8000_0000);
    assert a % TWO32 == a - 2 * (a / TWO32 * 0x8000_0000);
  }

  lemma EvenMin(a: int, b: int)
    requires Even(a) && Even(b)
    ensures Even(Min(a, b))
  {
  }

  lemma EvenDifference(a: int, b: int)
    requires Even(a) && Even(b)
    ensures Even(a - b)
  {
  }

  lemma EvenSum(a: int, b: int)
    requires Even(a) && Even(b)
    ensures Even(a + b)
  {
  }

  /** No run ever ends inside a sample — not at the wrap, at a mark, at the budget or at the head. */
  lemma CopiedRunIsEven(s: System, maxRun: nat, txLen: nat)
    requires Counted(s) && Aligned(s) && Even(maxRun) && Even(txLen)
    ensures Even(|CopyRun(s.ring, maxRun, txLen).bytes|)
  {
    UsedIsUnread(s);
    EvenWrap(s.h.tail, 0);
    EvenWrap(|s.h.stream|, 0);
    EvenRemainder(s.ring.tail, s.ring.cap);
    if s.ring.marks != [] {
      EvenWrap(s.ring.marks[0].pos, s.ring.tail);
    }
    EvenWrap(s.ring.head, s.ring.tail);
    hide Even, WrappingSub, AllEven;
    EvenMin(Used(s.ring), maxRun);
    EvenDifference(s.ring.cap, s.ring.tail % s.ring.cap);
    EvenMin(s.ring.cap - s.ring.tail % s.ring.cap, txLen);
    EvenMin(Min(Used(s.ring), maxRun), Min(s.ring.cap - s.ring.tail % s.ring.cap, txLen));
  }

  lemma {:induction false} LiveStaysEven(marks: seq<Mark>, gen: nat)
    requires AllEven(marks)
    ensures AllEven(Live(marks, gen))
  {
    if marks != [] {
      var rest := Live(marks[1..], gen);
      LiveStaysEven(marks[1..], gen);
      if marks[0].gen == gen {
        assert Live(marks, gen)[1..] == rest;
      } else {
        assert Live(marks, gen) == rest;
      }
    }
  }

  lemma {:induction false} PushStaysEven(marks: seq<Mark>, m: Mark)
    requires AllEven(marks) && Even(m.pos)
    ensures AllEven(marks + [m])
  {
    if marks != [] {
      assert (marks + [m])[1..] == marks[1..] + [m];
      PushStaysEven(marks[1..], m);
    }
  }

  lemma MarkEndStaysAligned(s: System)
    requires Counted(s) && Aligned(s)
    ensures Aligned(Step(s, MarkEnd))
  {
    EvenWrap(|s.h.stream|, 0);
    var m := Mark(s.ring.head, s.ring.gen);
    PushStaysEven(s.ring.marks, m);
    if s.ring.marks != [] {
      PushStaysEven(s.ring.marks[1..], m);
    }
    hide Even, AllEven;
  }

  lemma ProduceStaysAligned(s: System, data: seq<Byte>)
    requires Counted(s) && Aligned(s) && Even(|data|)
    ensures Aligned(Step(s, Produce(data)))
  {
    assert Sound(s.ring);
    hide Put, AllEven, Even, Counted, Sound, Used, WrappingAdd;
    EvenSum(|s.h.stream|, |data|);
  }

  lemma PopStaysEven(r: Ring, pos: nat)
    requires AllEven(r.marks)
    ensures AllEven(PopMarkIfAt(r, pos).0.marks)
  {
  }

  lemma ConsumeStaysAligned(s: System, n: nat)
    requires Counted(s) && Aligned(s) && Legal(s, Consume(n)) && Even(n)
    ensures Aligned(Step(s, Consume(n)))
  {
    PopStaysEven(s.ring.(tail := WrappingAdd(s.ring.tail, n)), WrappingAdd(s.ring.tail, n));
    EvenSum(s.h.tail, n);
    EvenSum(|s.played|, n);
    assert Sound(s.ring);
    hide AllEven, Even, Counted, Sound, WrappingAdd;
  }

  lemma StepStaysAligned(s: System, e: Event)
    requires Counted(s) && Aligned(s) && Legal(s, e) && WholeSamples(e)
    ensures Aligned(Step(s, e))
  {
    hide AllEven, Even;
    match e
    case Produce(data) => ProduceStaysAligned(s, data);
    case Reconnect =>
    case MarkEnd => MarkEndStaysAligned(s);
    case Copy(maxRun, txLen) => CopiedRunIsEven(s, maxRun, txLen);
    case Consume(n) => ConsumeStaysAligned(s, n);
    case Apply => LiveStaysEven(s.ring.marks, s.ring.gen);
    case TakeMark => PopStaysEven(s.ring, s.ring.tail);
  }

  lemma {:induction false} RunStaysAligned(storage: seq<Byte>, events: seq<Event>)
    requires 0 < |storage| < TWO32 && Even(|storage|)
    requires forall i :: 0 <= i < |events| ==> WholeSamples(events[i])
    ensures Aligned(After(storage, events))
  {
    if events != [] {
      var init := events[..|events| - 1];
      RunStaysAligned(storage, init);
      RunKeeps(storage, init);
      if Legal(After(storage, init), events[|events| - 1]) {
        StepStaysAligned(After(storage, init), events[|events| - 1]);
      }
    }
  }

  /** What the device was given: each consumed run, expanded on its own as it was staged. */
  function DeviceOutput(storage: seq<Byte>, events: seq<Event>): seq<Byte> {
    if events == [] then []
    else
      var init := events[..|events| - 1];
      var s, e := After(storage, init), events[|events| - 1];
      DeviceOutput(storage, init) +
      if e.Consume? && Sound(s.ring) && Legal(s, e) then Expand(s.staged.run.bytes[..e.n]) else []
  }

  lemma {:induction false} OutputIsPlayedExpanded(storage: seq<Byte>, events: seq<Event>)
    requires 0 < |storage| < TWO32 && Even(|storage|)
    requires forall i :: 0 <= i < |events| ==> WholeSamples(events[i])
    ensures DeviceOutput(storage, events) == Expand(After(storage, events).played)
  {
    if events != [] {
      var init := events[..|events| - 1];
      OutputIsPlayedExpanded(storage, init);
      RunStaysAligned(storage, init);
      var s, e := After(storage, init), events[|events| - 1];
      hide Aligned, Expand, After, WholeSamples, Do;
      AfterSnoc(storage, init, e);
      assert init + [e] == events;
      if e.Consume? && Sound(s.ring) && Legal(s, e) {
        AlignedPlayed(s);
        PlayedByConsume(s, e.n);
        ExpandAppend(s.played, s.staged.run.bytes[..e.n]);
      } else {
        PlayedOnlyByConsume(s, e);
      }
    }
  }

  lemma PlayedByConsume(s: System, n: nat)
    requires Sound(s.ring) && Legal(s, Consume(n))
    ensures Do(s, Consume(n)).played == s.played + s.staged.run.bytes[..n]
  {
  }

  lemma PlayedOnlyByConsume(s: System, e: Event)
    requires !(e.Consume? && Sound(s.ring) && Legal(s, e))
    ensures Do(s, e).played == s.played
  {
  }

  lemma AlignedPlayed(s: System)
    requires Aligned(s)
    ensures |s.played| % 2 == 0
  {
  }

  /** Run by run, across wraps, marks and reconnects, the device is given the expansion of the whole
      stream without its dropped positions. */
  lemma DeviceIsGivenTheStream(storage: seq<Byte>, events: seq<Event>)
    requires 0 < |storage| < TWO32 && Even(|storage|)
    requires forall i :: 0 <= i < |events| ==> WholeSamples(events[i])
    ensures var h := After(storage, events).h;
            |h.fates| <= |h.stream| && (Exact(|storage|, |h.stream|) ==>
              DeviceOutput(storage, events) == Expand(Select(h.stream, h.fates)))
  {
    OutputIsPlayedExpanded(storage, events);
    PlayedIsStreamMinusDropped(storage, events);
  }
}
