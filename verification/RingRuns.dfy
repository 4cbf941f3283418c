/**
 * Whole runs of the ring: producer and consumer critical sections in any interleaving. Beside the ring
 * goes a history nobody could overflow — the whole stream ever written, the generation of each byte,
 * absolute positions — and the main results say the ring is that history seen through its counters.
 */
module RingRuns {
  import opened Bytes
  import opened Ring

  /** One critical section. `Copy` fills the consumer's staging buffer; `Consume` is its later `advance`. */
  datatype Event =
    | Produce(data: seq<Byte>)
    | Reconnect
    | MarkEnd
    | Copy(maxRun: nat, txLen: nat)
    | Consume(n: nat)
    | Apply
    | TakeMark

  /** Consumer sections only. */
  predicate IsDrain(e: Event) {
    e.Copy? || e.Consume? || e.Apply? || e.TakeMark?
  }

  /** The run in the staging buffer, if any; `born` is the true generation it was copied in. */
  datatype Staged = NoRun | Run(run: DrainRun, born: nat)

  /** What became of a consumed position: played while the consumer acted on `under`, or jumped over. */
  datatype Fate = Played(under: nat) | Dropped

  /** What happened, unbounded: bytes, their generations, tail position, generation count, position of
      the last reset, generation the consumer last acted on, and the fate of every consumed position. */
  datatype History = History(
    stream: seq<Byte>,
    gens: seq<nat>,
    tail: nat,
    gen: nat,
    resetAt: nat,
    acted: nat,
    fates: seq<Fate>)

  /** The ring, the generation the consumer last acted on, its staged run, and everything it has played. */
  datatype System = System(ring: Ring, acted: nat, staged: Staged, played: seq<Byte>, h: History)

  function Start(storage: seq<Byte>): System {
    System(Fresh(storage), 0, NoRun, [], History([], [], 0, 0, 0, 0, []))
  }

  function Copies<T>(n: nat, x: T): (s: seq<T>)
    ensures |s| == n && forall i :: 0 <= i < n ==> s[i] == x
  {
    seq(n, _ => x)
  }

  function Step(s: System, e: Event): System
    requires Sound(s.ring)
  {
    var h := s.h;
    match e
    case Produce(data) =>
      var (r, ok) := Write(s.ring, data);
      if ok then s.(ring := r, h := h.(stream := h.stream + data, gens := h.gens + Copies(|data|, h.gen)))
      else s.(ring := r)
    case Reconnect => s.(ring := Reset(s.ring), h := h.(gen := h.gen + 1, resetAt := |h.stream|))
    case MarkEnd => s.(ring := PushMark(s.ring))
    case Copy(maxRun, txLen) => s.(staged := Run(CopyRun(s.ring, maxRun, txLen), h.gen))
    case Consume(n) =>
      if s.staged.Run? && n <= |s.staged.run.bytes| then
        s.(ring := Advance(s.ring, n).0, staged := NoRun, played := s.played + s.staged.run.bytes[..n],
           h := h.(tail := h.tail + n, fates := h.fates + Copies(n, Played(h.acted))))
      else s
    case Apply =>
      s.(ring := ApplyReset(s.ring), acted := s.ring.gen, staged := NoRun,
         h := h.(tail := h.resetAt, acted := h.gen,
                 fates := h.fates + Copies(if h.tail <= h.resetAt then h.resetAt - h.tail else 0, Dropped)))
    case TakeMark => s.(ring := TakeMarkAtTail(s.ring).0)
  }

  /** The drain loop's discipline: consume only from a staged run that carried the generation acted on;
      apply a reset only when the generation moved; and fewer than 2^32 resets between two passes. */
  predicate Legal(s: System, e: Event) {
    match e
    case Consume(n) => s.staged.Run? && s.staged.run.gen == s.acted && n <= |s.staged.run.bytes|
    case Apply => s.ring.gen != s.acted
    case Reconnect => s.h.gen + 1 < s.h.acted + TWO32
    case _ => true
  }

  // ---------------------------------------------------------------------------------------------
  // The invariant

  /** Byte positions keep their slots: always when the capacity divides 2^32, and otherwise as long as
      at most 2^32 bytes were ever written. */
  predicate Exact(cap: nat, written: nat)
    requires cap > 0
  {
    TWO32 % cap == 0 || written <= TWO32
  }

  /** Counters are the absolute positions and counts, wrapped; never more than a ring's worth unread. */
  predicate Counted(s: System) {
    var h := s.h;
    && Sound(s.ring)
    && h.tail <= |h.stream| <= h.tail + s.ring.cap
    && s.ring.head == |h.stream| % TWO32 && s.ring.tail == h.tail % TWO32
    && s.ring.gen == h.gen % TWO32 && s.ring.headAtReset == h.resetAt % TWO32
    && s.acted == h.acted % TWO32 && h.acted <= h.gen < h.acted + TWO32
  }

  /** Generations partition the stream at resets, and the consumer is on the right side of the last. */
  predicate Dated(h: History) {
    && |h.gens| == |h.stream| && h.resetAt <= |h.stream|
    && (forall i :: 0 <= i < h.resetAt ==> h.gens[i] < h.gen)
    && (forall i :: h.resetAt <= i < |h.gens| ==> h.gens[i] == h.gen)
    && (if h.acted == h.gen then h.resetAt <= h.tail else h.tail <= h.resetAt)
    && (forall i :: 0 <= h.tail <= i < |h.gens| ==> h.gens[i] >= h.acted)
  }

  /** Every unread byte sits in its slot. */
  predicate Stored(s: System)
    requires s.ring.cap > 0 && |s.ring.buf| == s.ring.cap
  {
    Exact(s.ring.cap, |s.h.stream|) ==>
      forall i :: 0 <= s.h.tail <= i < |s.h.stream| ==> s.ring.buf[i % s.ring.cap] == s.h.stream[i]
  }

  /** The staged run is still the next bytes of the stream; one that carries the acted generation was
      written wholly in it and lies before any later reset. */
  predicate StagedOk(s: System)
    requires s.ring.cap > 0
  {
    var h := s.h;
    s.staged.Run? ==>
      var n := |s.staged.run.bytes|;
      && h.tail + n <= |h.stream| && |h.gens| == |h.stream|
      && s.staged.run.gen == s.staged.born % TWO32 && h.acted <= s.staged.born <= h.gen
      && (Exact(s.ring.cap, |h.stream|) ==> s.staged.run.bytes == h.stream[h.tail..h.tail + n])
      && (s.staged.born == h.acted ==>
            && (h.acted < h.gen ==> h.tail + n <= h.resetAt)
            && forall i :: h.tail <= i < h.tail + n ==> h.gens[i] == h.acted)
  }

  /** Played positions of a stream. */
  function Select(stream: seq<Byte>, fates: seq<Fate>): seq<Byte>
    requires |fates| <= |stream|
  {
    if fates == [] then []
    else
      var k := |fates| - 1;
      Select(stream, fates[..k]) + if fates[k].Played? then [stream[k]] else []
  }

  /** Every consumed position has one fate: played under its own generation, or dropped by a reset that
      superseded it. What was played is the played positions of the stream, in order. */
  predicate Accounted(s: System) {
    var h := s.h;
    && |h.fates| == h.tail <= |h.stream| == |h.gens|
    && (forall i :: 0 <= i < h.tail ==>
          if h.fates[i].Played? then h.gens[i] == h.fates[i].under else h.gens[i] < h.acted)
    && (s.ring.cap > 0 && Exact(s.ring.cap, |h.stream|) ==> s.played == Select(h.stream, h.fates))
  }

  predicate Inv(s: System) {
    Counted(s) && Dated(s.h) && Stored(s) && StagedOk(s) && Accounted(s)
  }

  // ---------------------------------------------------------------------------------------------
  // Each critical section keeps it

  lemma SlotOf(i: nat, cap: nat, written: nat)
    requires cap > 0 && Exact(cap, written) && i < written
    ensures (i % TWO32) % cap == i % cap
  {
    if TWO32 % cap == 0 {
      SlotSurvivesWrap(i, cap);
    }
  }

  lemma UsedIsUnread(s: System)
    requires Counted(s)
    ensures Used(s.ring) == |s.h.stream| - s.h.tail
  {
    WrappedDistance(|s.h.stream|, s.h.tail);
  }

  lemma {:induction false} SelectGrows(stream: seq<Byte>, more: seq<Byte>, fates: seq<Fate>)
    requires |fates| <= |stream|
    ensures Select(stream + more, fates) == Select(stream, fates)
  {
    if fates != [] {
      SelectGrows(stream, more, fates[..|fates| - 1]);
    }
  }

  lemma {:induction false} SelectPlayed(stream: seq<Byte>, fates: seq<Fate>, n: nat, under: nat)
    requires |fates| + n <= |stream|
    ensures Select(stream, fates + Copies(n, Played(under))) == Select(stream, fates) + stream[|fates|..|fates| + n]
    decreases n
  {
    var all := fates + Copies(n, Played(under));
    if n == 0 {
      assert all == fates;
    } else {
      SelectPlayed(stream, fates, n - 1, under);
      assert all[..|all| - 1] == fates + Copies(n - 1, Played(under));
      var k := |fates| + n - 1;
      assert stream[|fates|..k] + [stream[k]] == stream[|fates|..k + 1];
    }
  }

  lemma {:induction false} SelectDropped(stream: seq<Byte>, fates: seq<Fate>, n: nat)
    requires |fates| + n <= |stream|
    ensures Select(stream, fates + Copies(n, Dropped)) == Select(stream, fates)
    decreases n
  {
    var all := fates + Copies(n, Dropped);
    if n == 0 {
      assert all == fates;
    } else {
      SelectDropped(stream, fates, n - 1);
      assert all[..|all| - 1] == fates + Copies(n - 1, Dropped);
    }
  }

  lemma ProduceStores(s: System, data: seq<Byte>)
    requires Inv(s) && Write(s.ring, data).1
    ensures Stored(Step(s, Produce(data)))
  {
    var s' := Step(s, Produce(data));
    var cap, hd := s.ring.cap, |s.h.stream|;
    UsedIsUnread(s);
    if Exact(cap, |s'.h.stream|) {
      if data == [] {
        assert Put(s.ring.buf, s.ring.head % cap, data) == s.ring.buf;
      } else {
        SlotOf(hd, cap, |s'.h.stream|);
        forall i | s.h.tail <= i < |s'.h.stream| ensures s'.ring.buf[i % cap] == s'.h.stream[i] {
          if i < hd {
            PutSpares(s.ring.buf, hd, data, hd - i);
          } else {
            PutLands(s.ring.buf, hd, data, i - hd);
          }
        }
      }
    }
  }

  lemma ProduceCounts(s: System, data: seq<Byte>)
    requires Inv(s) && Write(s.ring, data).1
    ensures Counted(Step(s, Produce(data)))
  {
    var s' := Step(s, Produce(data));
    UsedIsUnread(s);
    WrappedAdvance(|s.h.stream|, |data|);
    WrappedDistance(|s'.h.stream|, s.h.tail);
  }

  lemma ProduceKeeps(s: System, data: seq<Byte>)
    requires Inv(s)
    ensures Inv(Step(s, Produce(data)))
  {
    if Write(s.ring, data).1 {
      hide Put;
      ProduceCounts(s, data);
      ProduceStores(s, data);
      SelectGrows(s.h.stream, data, s.h.fates);
    }
  }

  lemma ReconnectKeeps(s: System)
    requires Inv(s) && Legal(s, Reconnect)
    ensures Inv(Step(s, Reconnect))
  {
    WrappedAdvance(s.h.gen, 1);
  }

  lemma CopyIsNext(s: System, maxRun: nat, txLen: nat)
    requires Inv(s)
    ensures var n := |CopyRun(s.ring, maxRun, txLen).bytes|;
            && s.h.tail + n <= |s.h.stream|
            && (Exact(s.ring.cap, |s.h.stream|) ==>
                  CopyRun(s.ring, maxRun, txLen).bytes == s.h.stream[s.h.tail..s.h.tail + n])
  {
    var run := CopyRun(s.ring, maxRun, txLen);
    var n, t, cap := |run.bytes|, s.h.tail, s.ring.cap;
    UsedIsUnread(s);
    if Exact(cap, |s.h.stream|) && n > 0 {
      SlotOf(t, cap, |s.h.stream|);
      forall j | 0 <= j < n ensures run.bytes[j] == s.h.stream[t + j] {
        SlotAhead(t, j, cap);
        assert s.ring.buf[(t + j) % cap] == s.h.stream[t + j];
      }
    }
  }

  lemma CopyKeeps(s: System, maxRun: nat, txLen: nat)
    requires Inv(s)
    ensures Inv(Step(s, Copy(maxRun, txLen)))
  {
    CopyIsNext(s, maxRun, txLen);
  }

  lemma ConsumeKeeps(s: System, n: nat)
    requires Inv(s) && Legal(s, Consume(n))
    ensures Inv(Step(s, Consume(n)))
  {
    WrappedInjective(s.staged.born, s.h.acted);
    WrappedAdvance(s.h.tail, n);
    WrappedDistance(|s.h.stream|, s.h.tail + n);
    ConsumeAccounts(s, n);
    hide Accounted;
  }

  lemma ConsumeAccounts(s: System, n: nat)
    requires Inv(s) && Legal(s, Consume(n))
    ensures Accounted(Step(s, Consume(n)))
  {
    WrappedInjective(s.staged.born, s.h.acted);
    hide Dated, Stored, Advance;
    SelectPlayed(s.h.stream, s.h.fates, n, s.h.acted);
    var t := s.h.tail;
    if Exact(s.ring.cap, |s.h.stream|) {
      assert s.staged.run.bytes[..n] == s.h.stream[t..t + n];
    }
    AdvanceKeepsCap(s.ring, n);
  }

  lemma AdvanceKeepsCap(r: Ring, n: nat)
    ensures Advance(r, n).0.cap == r.cap
  {
  }

  lemma ApplyKeeps(s: System)
    requires Inv(s) && Legal(s, Apply)
    ensures Inv(Step(s, Apply))
  {
    WrappedInjective(s.h.gen, s.h.acted);
    WrappedDistance(|s.h.stream|, s.h.resetAt);
    SelectDropped(s.h.stream, s.h.fates, s.h.resetAt - s.h.tail);
  }

  lemma StepKeeps(s: System, e: Event)
    requires Inv(s) && Legal(s, e)
    ensures Inv(Step(s, e))
  {
    match e
    case Produce(data) => ProduceKeeps(s, data);
    case Reconnect => ReconnectKeeps(s);
    case MarkEnd =>
    case Copy(maxRun, txLen) => CopyKeeps(s, maxRun, txLen);
    case Consume(n) => ConsumeKeeps(s, n);
    case Apply => ApplyKeeps(s);
    case TakeMark =>
  }

  // ---------------------------------------------------------------------------------------------
  // Runs

  /** An event the discipline forbids does not happen. */
  function Do(s: System, e: Event): System {
    if Sound(s.ring) && Legal(s, e) then Step(s, e) else s
  }

  function After(storage: seq<Byte>, events: seq<Event>): System {
    if events == [] then Start(storage)
    else Do(After(storage, events[..|events| - 1]), events[|events| - 1])
  }

  lemma AfterSnoc(storage: seq<Byte>, events: seq<Event>, e: Event)
    ensures After(storage, events + [e]) == Do(After(storage, events), e)
  {
    assert (events + [e])[..|events|] == events;
  }

  lemma AfterThree(storage: seq<Byte>, events: seq<Event>, e1: Event, e2: Event, e3: Event)
    ensures After(storage, events + [e1] + [e2] + [e3]) == Do(Do(Do(After(storage, events), e1), e2), e3)
  {
    hide Do, After;
    AfterSnoc(storage, events, e1);
    AfterSnoc(storage, events + [e1], e2);
    AfterSnoc(storage, events + [e1] + [e2], e3);
  }

  lemma StartKeeps(storage: seq<Byte>)
    requires 0 < |storage| < TWO32
    ensures Inv(Start(storage))
  {
    var h := Start(storage).h;
    assert Select(h.stream, h.fates) == [];
  }

  /** The invariant holds after every interleaving. */
  lemma {:induction false} RunKeeps(storage: seq<Byte>, events: seq<Event>)
    requires 0 < |storage| < TWO32
    ensures Inv(After(storage, events)) && After(storage, events).ring.cap == |storage|
  {
    if events != [] {
      var init := events[..|events| - 1];
      RunKeeps(storage, init);
      var s := After(storage, init);
      var e := events[|events| - 1];
      if Legal(s, e) {
        StepKeeps(s, e);
        hide Inv;
      }
    } else {
      StartKeeps(storage);
    }
  }

  /** The ring is a bounded FIFO over its stream, across the capacity wrap and the counter wrap: never
      more than a ring's worth unread, the wrapped counters say exactly how much, a write goes in whole or
      leaves the system as it was, and a copied run is the next bytes of the stream. */
  lemma RingIsFifo(storage: seq<Byte>, events: seq<Event>, data: seq<Byte>, maxRun: nat, txLen: nat)
    requires 0 < |storage| < TWO32
    ensures var s := After(storage, events);
            && Sound(s.ring) && Used(s.ring) == |s.h.stream| - s.h.tail <= |storage|
            && (if |data| <= |storage| - (|s.h.stream| - s.h.tail)
                then After(storage, events + [Produce(data)]).h.stream == s.h.stream + data
                else After(storage, events + [Produce(data)]) == s)
            && (Exact(|storage|, |s.h.stream|) ==>
                  var run := CopyRun(s.ring, maxRun, txLen);
                  s.h.tail + |run.bytes| <= |s.h.stream|
                  && run.bytes == s.h.stream[s.h.tail..s.h.tail + |run.bytes|])
  {
    hide Put, CopyRun;
    var s := After(storage, events);
    RunKeeps(storage, events);
    UsedIsUnread(s);
    CopyIsNext(s, maxRun, txLen);
    AfterSnoc(storage, events, Produce(data));
  }

  /** A run that carries the generation the consumer acted on holds only bytes written since the reset
      that opened that generation. */
  lemma ReconnectIsolation(storage: seq<Byte>, events: seq<Event>, maxRun: nat, txLen: nat)
    requires 0 < |storage| < TWO32
    requires var s := After(storage, events); Sound(s.ring) && CopyRun(s.ring, maxRun, txLen).gen == s.acted
    ensures var s := After(storage, events);
            var n := |CopyRun(s.ring, maxRun, txLen).bytes|;
            && s.h.resetAt <= s.h.tail && s.h.tail + n <= |s.h.gens|
            && forall i :: s.h.tail <= i < s.h.tail + n ==> s.h.gens[i] == s.h.gen == s.h.acted
  {
    var s := After(storage, events);
    RunKeeps(storage, events);
    CopyIsNext(s, maxRun, txLen);
    WrappedInjective(s.h.gen, s.h.acted);
  }

  /** Applying a reset never moves the tail back, nor past the head, whatever resets and writes came
      between observing the generation and applying it. */
  lemma ApplyNeverRewinds(storage: seq<Byte>, events: seq<Event>)
    requires 0 < |storage| < TWO32
    requires After(storage, events).ring.gen != After(storage, events).acted
    ensures var s, s' := After(storage, events), After(storage, events + [Apply]);
            && s.h.tail <= s'.h.tail == s.h.resetAt <= |s'.h.stream|
            && s'.ring.tail == s'.h.tail % TWO32 && s'.acted == s'.ring.gen
  {
    var s := After(storage, events);
    RunKeeps(storage, events);
    AfterSnoc(storage, events, Apply);
    WrappedInjective(s.h.gen, s.h.acted);
  }

  /** Conservation over whole runs: what was played is the stream without its dropped positions — no
      byte twice, none out of order — where a byte is dropped only if a reset the consumer has acted on
      superseded it, and is played only while its own generation was the one acted on. */
  lemma PlayedIsStreamMinusDropped(storage: seq<Byte>, events: seq<Event>)
    requires 0 < |storage| < TWO32
    ensures var s := After(storage, events);
            && |s.h.fates| == s.h.tail <= |s.h.stream| == |s.h.gens|
            && (Exact(|storage|, |s.h.stream|) ==> s.played == Select(s.h.stream, s.h.fates))
            && (forall i :: 0 <= i < s.h.tail && s.h.fates[i].Dropped? ==> s.h.gens[i] < s.h.acted)
            && (forall i :: 0 <= i < s.h.tail && s.h.fates[i].Played? ==> s.h.fates[i].under == s.h.gens[i])
  {
    RunKeeps(storage, events);
  }

  /** The generation check before `advance` is needed: consuming `n` bytes of a run copied after an
      unapplied reset makes the later `apply_reset` give bytes back — to be played twice — exactly when
      the run reached past the reset point. */
  lemma UncheckedConsumeRewinds(s: System, maxRun: nat, txLen: nat, n: nat)
    requires Inv(s) && s.ring.gen != s.acted && n <= |CopyRun(s.ring, maxRun, txLen).bytes|
    ensures var r := Advance(s.ring, n).0;
            Used(ApplyReset(r)) > Used(r) <==> s.h.tail + n > s.h.resetAt
  {
    CopyIsNext(s, maxRun, txLen);
    WrappedInjective(s.h.gen, s.h.acted);
    WrappedAdvance(s.h.tail, n);
    WrappedDistance(|s.h.stream|, s.h.tail + n);
    WrappedDistance(|s.h.stream|, s.h.resetAt);
  }

  /** A two-byte ring written to after a reset, then drained unchecked, then written to again. */
  const WRITTEN: Ring := Ring(2, 2, 0, 1, 0, [1, 2], [])
  const DRAINED: Ring := WRITTEN.(tail := 2)
  const REFILLED: Ring := Ring(2, 4, 2, 1, 0, [3, 4], [])

  /** And it can then break the ring: the reset is applied, and four bytes are unread in a two-byte ring. */
  lemma UncheckedConsumeOverfills()
    ensures Sound(Reset(Fresh([0, 0]))) && Write(Reset(Fresh([0, 0])), [1, 2]) == (WRITTEN, true)
    ensures Sound(WRITTEN) && CopyRun(WRITTEN, 2, 2) == DrainRun([1, 2], 1, false)
    ensures Advance(WRITTEN, 2) == (DRAINED, false)
    ensures Sound(DRAINED) && Write(DRAINED, [3, 4]) == (REFILLED, true)
    ensures Used(ApplyReset(REFILLED)) == 4 > REFILLED.cap
  {
    assert Put([0, 0], 0, [1, 2]) == [1, 2] && Put([1, 2], 0, [3, 4]) == [3, 4];
    assert WRITTEN.buf[0..2] == [1, 2];
  }
}
