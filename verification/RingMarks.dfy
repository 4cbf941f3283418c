/**
 * End-of-audio marks over whole runs. A log nobody could overflow records every boundary ever pushed
 * and what became of it; the ring's four-slot FIFO is the log's pending part.
 */
module RingMarks {
  import opened Bytes
  import opened Ring
  import opened RingRuns

  /** A boundary at its true position and generation. */
  datatype Boundary = Boundary(pos: nat, gen: nat)

  datatype MarkFate = Pending | Popped(at: nat) | Overflowed(newer: nat) | Superseded

  /** Boundaries are named by push order: `fifo` lists the pending ones, `popped` the reported ones. */
  datatype Log = Log(pushed: seq<Boundary>, fates: seq<MarkFate>, fifo: seq<nat>, popped: seq<nat>)

  const EMPTY_LOG: Log := Log([], [], [], [])

  datatype Marked = Marked(s: System, log: Log)

  predicate HasFront(log: Log) {
    log.fifo != [] && log.fifo[0] < |log.fates|
  }

  function Pushed(log: Log, b: Boundary): Log {
    var id := |log.pushed|;
    if |log.fifo| >= RING_EOA_MARK_CAP && HasFront(log) then
      Log(log.pushed + [b], log.fates[log.fifo[0] := Overflowed(id)] + [Pending], log.fifo[1..] + [id], log.popped)
    else
      Log(log.pushed + [b], log.fates + [Pending], log.fifo + [id], log.popped)
  }

  function PoppedAt(log: Log, at: nat): Log {
    if HasFront(log) then
      Log(log.pushed, log.fates[log.fifo[0] := Popped(at)], log.fifo[1..], log.popped + [log.fifo[0]])
    else
      log
  }

  /** Ids whose boundary has the live generation. */
  function LiveIds(log: Log, fifo: seq<nat>, gen: nat): seq<nat> {
    if fifo == [] then []
    else
      (if fifo[0] < |log.pushed| && log.pushed[fifo[0]].gen == gen then [fifo[0]] else [])
      + LiveIds(log, fifo[1..], gen)
  }

  function Purged(log: Log, gen: nat): Log {
    Retaining(log, LiveIds(log, log.fifo, gen))
  }

  /** Only the listed boundaries stay pending. */
  function Retaining(log: Log, live: seq<nat>): Log {
    log.(fifo := live,
         fates := seq(|log.fates|, i requires 0 <= i < |log.fates| =>
                        if log.fates[i] == Pending && i !in live then Superseded else log.fates[i]))
  }

  /** A copy that respects the drain loop's order: no boundary is left sitting at the tail. */
  predicate Respects(s: System, e: Event) {
    e.Copy? ==> s.ring.marks == [] || s.ring.marks[0].pos != s.ring.tail
  }

  function MarkStep(m: Marked, e: Event): Marked {
    var s := m.s;
    if !(Sound(s.ring) && Legal(s, e) && Respects(s, e)) then m
    else
      Marked(Step(s, e),
             match e
             case MarkEnd => Pushed(m.log, Boundary(|s.h.stream|, s.h.gen))
             case Consume(n) => if Advance(s.ring, n).1 then PoppedAt(m.log, s.h.tail + n) else m.log
             case TakeMark => if TakeMarkAtTail(s.ring).1 then PoppedAt(m.log, s.h.tail) else m.log
             case Apply => Purged(m.log, s.h.gen)
             case _ => m.log)
  }

  function MarkedAfter(storage: seq<Byte>, events: seq<Event>): Marked {
    if events == [] then Marked(Start(storage), EMPTY_LOG)
    else MarkStep(MarkedAfter(storage, events[..|events| - 1]), events[|events| - 1])
  }

  // ---------------------------------------------------------------------------------------------
  // The invariant

  /** The log alone: pending ids in push order, each fate recorded once, pops in push order. */
  predicate Filed(log: Log) {
    && |log.fates| == |log.pushed|
    && (forall k :: 0 <= k < |log.fifo| ==> log.fifo[k] < |log.pushed|)
    && (forall i, j :: 0 <= i < j < |log.fifo| ==> log.fifo[i] < log.fifo[j])
    && (forall id :: 0 <= id < |log.fates| ==> (log.fates[id] == Pending <==> id in log.fifo))
    && (forall id, k :: 0 <= id < |log.fates| && 0 <= k < |log.fifo|
                        && (log.fates[id].Popped? || log.fates[id].Overflowed?) ==>
          id < log.fifo[k])
  }

  predicate Reported(log: Log) {
    && |log.fates| == |log.pushed|
    && (forall k :: 0 <= k < |log.popped| ==>
          log.popped[k] < |log.fates| && log.fates[log.popped[k]] == Popped(log.pushed[log.popped[k]].pos))
    && (forall i, j :: 0 <= i < j < |log.popped| ==> log.popped[i] < log.popped[j])
    && (forall id :: 0 <= id < |log.fates| && log.fates[id].Popped? ==> id in log.popped)
  }

  /** Boundaries are pushed in stream order. */
  predicate Ordered(pushed: seq<Boundary>) {
    forall i, j :: 0 <= i < j < |pushed| ==> pushed[i].pos <= pushed[j].pos && pushed[i].gen <= pushed[j].gen
  }

  /** They lie within what was written, split by generation at the last reset. */
  predicate Within(h: History, pushed: seq<Boundary>) {
    forall i :: 0 <= i < |pushed| ==>
      && pushed[i].pos <= |h.stream| && pushed[i].gen <= h.gen
      && if pushed[i].gen == h.gen then h.resetAt <= pushed[i].pos else pushed[i].pos <= h.resetAt
  }

  /** The listed ones lie at or after `pos`. */
  predicate AllFrom(pushed: seq<Boundary>, ids: seq<nat>, pos: nat) {
    forall k :: 0 <= k < |ids| && ids[k] < |pushed| ==> pos <= pushed[ids[k]].pos
  }

  /** The listed ones are of generation `gen` or later. */
  predicate AllSince(pushed: seq<Boundary>, ids: seq<nat>, gen: nat) {
    forall k :: 0 <= k < |ids| && ids[k] < |pushed| ==> gen <= pushed[ids[k]].gen
  }

  /** What is no longer pending: a superseded boundary belongs to a generation the consumer has moved
      past, a reported one to a position it has reached, and one pushed out had four newer behind it. */
  predicate Settled(pushed: seq<Boundary>, fates: seq<MarkFate>, acted: nat, tail: nat) {
    forall id :: 0 <= id < |fates| && id < |pushed| ==>
      && (fates[id] == Superseded ==> pushed[id].gen < acted)
      && (fates[id].Popped? ==> pushed[id].pos <= tail)
      && (fates[id].Overflowed? ==> id + RING_EOA_MARK_CAP <= fates[id].newer < |pushed|)
  }

  /** The ring's FIFO is the log's pending part, wrapped. */
  predicate Mirrored(marks: seq<Mark>, pushed: seq<Boundary>, ids: seq<nat>) {
    && |marks| == |ids|
    && forall k :: 0 <= k < |marks| && ids[k] < |pushed| ==>
         marks[k] == Mark(pushed[ids[k]].pos % TWO32, pushed[ids[k]].gen % TWO32)
  }

  /** Pending boundaries: not behind the tail, none inside the staged run, none already superseded. */
  predicate Ahead(s: System, log: Log) {
    && AllFrom(log.pushed, log.fifo, s.h.tail)
    && AllSince(log.pushed, log.fifo, s.h.acted)
    && (s.staged.Run? ==> AllFrom(log.pushed, log.fifo, s.h.tail + |s.staged.run.bytes|))
  }

  predicate MarksInv(m: Marked) {
    && Inv(m.s)
    && Filed(m.log) && Reported(m.log)
    && Ordered(m.log.pushed) && Within(m.s.h, m.log.pushed)
    && Ahead(m.s, m.log)
    && Settled(m.log.pushed, m.log.fates, m.s.h.acted, m.s.h.tail)
    && Mirrored(m.s.ring.marks, m.log.pushed, m.log.fifo)
  }

  // ---------------------------------------------------------------------------------------------
  // Pushing

  lemma PushFiles(log: Log, b: Boundary)
    requires Filed(log) && Reported(log) && |log.fifo| <= RING_EOA_MARK_CAP
    ensures Filed(Pushed(log, b)) && Reported(Pushed(log, b))
  {
    PushReports(log, b);
    hide Reported;
  }

  lemma PushReports(log: Log, b: Boundary)
    requires Filed(log) && Reported(log)
    ensures Reported(Pushed(log, b))
  {
    assert HasFront(log) ==> log.fates[log.fifo[0]] == Pending;
    hide Filed;
  }

  lemma PushOrders(h: History, pushed: seq<Boundary>, b: Boundary)
    requires Ordered(pushed) && Within(h, pushed) && b == Boundary(|h.stream|, h.gen) && h.resetAt <= |h.stream|
    ensures Ordered(pushed + [b]) && Within(h, pushed + [b])
  {
  }

  lemma PushAhead(log: Log, b: Boundary, pos: nat, gen: nat)
    requires Filed(log) && AllFrom(log.pushed, log.fifo, pos) && AllSince(log.pushed, log.fifo, gen)
    requires pos <= b.pos && gen <= b.gen
    ensures var p := Pushed(log, b); AllFrom(p.pushed, p.fifo, pos) && AllSince(p.pushed, p.fifo, gen)
  {
  }

  lemma PushSettles(log: Log, b: Boundary, acted: nat, tail: nat)
    requires Filed(log) && Settled(log.pushed, log.fates, acted, tail)
    ensures var p := Pushed(log, b); Settled(p.pushed, p.fates, acted, tail)
  {
    if |log.fifo| >= RING_EOA_MARK_CAP {
      assert log.fifo[0] < log.fifo[1] < log.fifo[2] < log.fifo[3] < |log.pushed|;
    }
  }

  lemma PushMirrors(r: Ring, log: Log, b: Boundary)
    requires Filed(log) && Mirrored(r.marks, log.pushed, log.fifo) && |r.marks| <= RING_EOA_MARK_CAP
    requires r.head == b.pos % TWO32 && r.gen == b.gen % TWO32
    ensures var p := Pushed(log, b); Mirrored(PushMark(r).marks, p.pushed, p.fifo)
  {
  }

  lemma MarkEndKeepsMarks(m: Marked)
    requires MarksInv(m)
    ensures MarksInv(MarkStep(m, MarkEnd))
  {
    var s, log := m.s, m.log;
    var b := Boundary(|s.h.stream|, s.h.gen);
    StepKeeps(s, MarkEnd);
    assert s.staged.Run? ==> s.h.tail + |s.staged.run.bytes| <= b.pos;
    assert |s.ring.marks| == |log.fifo|;
    hide Filed, Reported, Ordered, Within, AllFrom, AllSince, Settled, Mirrored, Inv;
    PushFiles(log, b);
    PushOrders(s.h, log.pushed, b);
    PushAhead(log, b, s.h.tail, s.h.acted);
    if s.staged.Run? {
      PushAhead(log, b, s.h.tail + |s.staged.run.bytes|, s.h.acted);
    }
    PushSettles(log, b, s.h.acted, s.h.tail);
    PushMirrors(s.ring, log, b);
  }

  // ---------------------------------------------------------------------------------------------
  // Popping

  lemma PopFiles(log: Log)
    requires Filed(log) && Reported(log) && log.fifo != []
    ensures HasFront(log)
    ensures var p := PoppedAt(log, log.pushed[log.fifo[0]].pos); Filed(p) && Reported(p)
  {
  }

  lemma PopRest(marks: seq<Mark>, log: Log, at: nat, acted: nat)
    requires Filed(log) && HasFront(log) && Mirrored(marks, log.pushed, log.fifo)
    requires Settled(log.pushed, log.fates, acted, at) && log.pushed[log.fifo[0]].pos == at
    ensures var p := PoppedAt(log, at);
            Settled(p.pushed, p.fates, acted, at) && Mirrored(marks[1..], p.pushed, p.fifo)
  {
  }

  lemma PopAhead(log: Log, at: nat, pos: nat, gen: nat)
    requires AllFrom(log.pushed, log.fifo, pos) && AllSince(log.pushed, log.fifo, gen)
    ensures var p := PoppedAt(log, at); AllFrom(p.pushed, p.fifo, pos) && AllSince(p.pushed, p.fifo, gen)
  {
  }

  /** Where the oldest pending boundary is, seen from the ring: `pos` is any tail at or before it. */
  lemma FrontAgainst(m: Marked, pos: nat)
    requires MarksInv(m) && m.s.h.tail <= pos <= |m.s.h.stream| && AllFrom(m.log.pushed, m.log.fifo, pos)
    ensures m.s.ring.marks == [] <==> m.log.fifo == []
    ensures m.log.fifo != [] ==>
              && HasFront(m.log) && |m.log.pushed| == |m.log.fates|
              && var front := m.log.pushed[m.log.fifo[0]].pos;
                 && WrappingSub(m.s.ring.marks[0].pos, pos % TWO32) == front - pos <= m.s.ring.cap
                 && (m.s.ring.marks[0].pos == pos % TWO32 <==> front == pos)
  {
    hide Reported, Dated, Stored, StagedOk, Accounted;
    if m.log.fifo != [] {
      var front := m.log.pushed[m.log.fifo[0]].pos;
      WrappedDistance(front, pos);
      WrappedInjective(front, pos);
    }
  }

  /** A look at the tail reports a boundary exactly when the oldest pending one is there, and a consumed run exactly
      when it ends there. */
  lemma ReportsExactly(m: Marked, n: nat)
    requires MarksInv(m)
    ensures TakeMarkAtTail(m.s.ring).1 <==>
              HasFront(m.log) && m.log.fifo[0] < |m.log.pushed| && m.log.pushed[m.log.fifo[0]].pos == m.s.h.tail
    ensures Legal(m.s, Consume(n)) ==>
              (Advance(m.s.ring, n).1 <==>
                 HasFront(m.log) && m.log.fifo[0] < |m.log.pushed|
                 && m.log.pushed[m.log.fifo[0]].pos == m.s.h.tail + n)
  {
    FrontAgainst(m, m.s.h.tail);
    assert m.s.ring.tail == m.s.h.tail % TWO32 && HasFront(m.log) ==> m.log.fifo != [];
    if Legal(m.s, Consume(n)) {
      AllFromEarlier(m.log.pushed, m.log.fifo, m.s.h.tail + |m.s.staged.run.bytes|, m.s.h.tail + n);
      FrontAgainst(m, m.s.h.tail + n);
      WrappedAdvance(m.s.h.tail, n);
    }
    hide MarksInv, WrappingAdd, WrappingSub;
  }

  lemma TakeMarkKeepsMarks(m: Marked)
    requires MarksInv(m)
    ensures MarksInv(MarkStep(m, TakeMark))
  {
    var s, log := m.s, m.log;
    StepKeeps(s, TakeMark);
    FrontAgainst(m, s.h.tail);
    hide Filed, Reported, Ordered, Within, AllFrom, AllSince, Settled, Mirrored, Inv;
    if TakeMarkAtTail(s.ring).1 {
      PopFiles(log);
      PopRest(s.ring.marks, log, s.h.tail, s.h.acted);
      PopAhead(log, s.h.tail, s.h.tail, s.h.acted);
      if s.staged.Run? {
        PopAhead(log, s.h.tail, s.h.tail + |s.staged.run.bytes|, s.h.acted);
      }
    }
  }

  lemma WithinIgnoresTail(h: History, h': History, pushed: seq<Boundary>)
    requires Within(h, pushed) && h'.stream == h.stream && h'.gen == h.gen && h'.resetAt == h.resetAt
    ensures Within(h', pushed)
  {
  }

  lemma SettledLater(pushed: seq<Boundary>, fates: seq<MarkFate>, acted: nat, tail: nat, later: nat)
    requires Settled(pushed, fates, acted, tail) && tail <= later
    ensures Settled(pushed, fates, acted, later)
  {
  }

  lemma AllFromEarlier(pushed: seq<Boundary>, ids: seq<nat>, pos: nat, earlier: nat)
    requires AllFrom(pushed, ids, pos) && earlier <= pos
    ensures AllFrom(pushed, ids, earlier)
  {
  }

  /** The tail moved on to `at`, no further than the oldest pending boundary, and no run is staged. */
  predicate Moved(s: System, log: Log, s': System, at: nat) {
    && Inv(s') && s'.staged == NoRun && s.h.tail <= s'.h.tail == at && s'.h.acted == s.h.acted
    && s'.h.stream == s.h.stream && s'.h.gen == s.h.gen && s'.h.resetAt == s.h.resetAt
    && AllFrom(log.pushed, log.fifo, at)
  }

  lemma MoveKeepsMarks(s: System, log: Log, s': System, at: nat)
    requires MarksInv(Marked(s, log)) && Moved(s, log, s', at) && s'.ring.marks == s.ring.marks
    ensures MarksInv(Marked(s', log))
  {
    hide Inv, Filed, Reported, Ordered, Within, AllFrom, AllSince, Settled, Mirrored;
    WithinIgnoresTail(s.h, s'.h, log.pushed);
    SettledLater(log.pushed, log.fates, s.h.acted, s.h.tail, at);
  }

  lemma MoveAndPopKeepsMarks(s: System, log: Log, s': System, at: nat)
    requires s.ring.marks != [] && s'.ring.marks == s.ring.marks[1..]
    requires MarksInv(Marked(s, log)) && Moved(s, log, s', at)
    requires HasFront(log) && log.fifo[0] < |log.pushed| && log.pushed[log.fifo[0]].pos == at
    ensures MarksInv(Marked(s', PoppedAt(log, at)))
  {
    hide Inv, Filed, Reported, Ordered, Within, AllFrom, AllSince, Settled, Mirrored;
    WithinIgnoresTail(s.h, s'.h, log.pushed);
    SettledLater(log.pushed, log.fates, s.h.acted, s.h.tail, at);
    PopFiles(log);
    PopRest(s.ring.marks, log, at, s.h.acted);
    PopAhead(log, at, at, s.h.acted);
  }

  lemma ConsumeKeepsMarks(m: Marked, n: nat)
    requires MarksInv(m) && Legal(m.s, Consume(n))
    ensures MarksInv(MarkStep(m, Consume(n)))
  {
    hide MarksInv, MarkStep, Inv, AllFrom, Step, Advance, Sound, Legal;
    ConsumeStepIs(m, n);
    ConsumeFront(m, n);
    var s', at := Step(m.s, Consume(n)), m.s.h.tail + n;
    if Advance(m.s.ring, n).1 {
      MoveAndPopKeepsMarks(m.s, m.log, s', at);
    } else {
      MoveKeepsMarks(m.s, m.log, s', at);
    }
  }

  /** The step of a legal consume, piece by piece. */
  lemma ConsumeStepIs(m: Marked, n: nat)
    requires MarksInv(m) && Legal(m.s, Consume(n))
    ensures Sound(m.s.ring) && Inv(Step(m.s, Consume(n)))
    ensures MarkStep(m, Consume(n)) ==
            Marked(Step(m.s, Consume(n)), if Advance(m.s.ring, n).1 then PoppedAt(m.log, m.s.h.tail + n) else m.log)
    ensures var s, s' := m.s, Step(m.s, Consume(n));
            && s'.staged == NoRun && s'.h.tail == s.h.tail + n && s'.h.acted == s.h.acted
            && s'.h.stream == s.h.stream && s'.h.gen == s.h.gen && s'.h.resetAt == s.h.resetAt
            && (Advance(s.ring, n).1 ==> s.ring.marks != [])
            && s'.ring.marks == if Advance(s.ring, n).1 then s.ring.marks[1..] else s.ring.marks
  {
    ConsumeKeeps(m.s, n);
    assert Sound(m.s.ring);
    hide MarksInv, Inv;
    ConsumeShape(m.s, n);
  }

  lemma ConsumeShape(s: System, n: nat)
    requires Sound(s.ring) && Legal(s, Consume(n))
    ensures var s' := Step(s, Consume(n));
            && s'.staged == NoRun && s'.h.tail == s.h.tail + n && s'.h.acted == s.h.acted
            && s'.h.stream == s.h.stream && s'.h.gen == s.h.gen && s'.h.resetAt == s.h.resetAt
            && s'.ring.marks == if Advance(s.ring, n).1 then s.ring.marks[1..] else s.ring.marks
    ensures Advance(s.ring, n).1 ==> s.ring.marks != []
  {
  }

  lemma ConsumeFront(m: Marked, n: nat)
    requires MarksInv(m) && Legal(m.s, Consume(n))
    ensures AllFrom(m.log.pushed, m.log.fifo, m.s.h.tail + n)
    ensures Advance(m.s.ring, n).1 ==>
              HasFront(m.log) && m.log.fifo[0] < |m.log.pushed|
              && m.log.pushed[m.log.fifo[0]].pos == m.s.h.tail + n
  {
    var s, log := m.s, m.log;
    AllFromEarlier(log.pushed, log.fifo, s.h.tail + |s.staged.run.bytes|, s.h.tail + n);
    FrontAgainst(m, s.h.tail + n);
    WrappedAdvance(s.h.tail, n);
    hide Filed, Reported, Ordered, Within, AllFrom, AllSince, Settled, Mirrored;
  }

  // ---------------------------------------------------------------------------------------------
  // Copying

  /** A run copied with no boundary at the tail stops at the oldest pending one, and says so. */
  lemma CopyStopsAtFront(m: Marked, maxRun: nat, txLen: nat)
    requires MarksInv(m) && Respects(m.s, Copy(maxRun, txLen))
    ensures var run := CopyRun(m.s.ring, maxRun, txLen);
            && AllFrom(m.log.pushed, m.log.fifo, m.s.h.tail + |run.bytes|)
            && (run.reachedEndOfAudio <==>
                  |run.bytes| > 0 && HasFront(m.log) && m.log.fifo[0] < |m.log.pushed|
                  && m.log.pushed[m.log.fifo[0]].pos == m.s.h.tail + |run.bytes|)
  {
    FrontAgainst(m, m.s.h.tail);
    hide Reported, Inv, Settled;
    if m.log.fifo != [] {
      var run := CopyRun(m.s.ring, maxRun, txLen);
      FrontIsFirst(m.log, m.s.h.tail + |run.bytes|);
    }
  }

  lemma FrontIsFirst(log: Log, pos: nat)
    requires Filed(log) && Ordered(log.pushed) && log.fifo != [] && pos <= log.pushed[log.fifo[0]].pos
    ensures AllFrom(log.pushed, log.fifo, pos)
  {
    assert forall k :: 0 < k < |log.fifo| ==> log.fifo[0] < log.fifo[k];
  }

  lemma CopyKeepsMarks(m: Marked, maxRun: nat, txLen: nat)
    requires MarksInv(m) && Respects(m.s, Copy(maxRun, txLen))
    ensures MarksInv(MarkStep(m, Copy(maxRun, txLen)))
  {
    CopyKeeps(m.s, maxRun, txLen);
    CopyStopsAtFront(m, maxRun, txLen);
    hide Filed, Reported, Ordered, Within, AllFrom, AllSince, Settled, Mirrored, Inv;
  }

  // ---------------------------------------------------------------------------------------------
  // Resets

  lemma ReconnectKeepsMarks(m: Marked)
    requires MarksInv(m) && Legal(m.s, Reconnect)
    ensures MarksInv(MarkStep(m, Reconnect))
  {
    ReconnectKeeps(m.s);
    hide Filed, Reported, Ordered, AllFrom, AllSince, Settled, Mirrored, Inv;
  }

  lemma ProduceKeepsMarks(m: Marked, data: seq<Byte>)
    requires MarksInv(m)
    ensures MarksInv(MarkStep(m, Produce(data)))
  {
    ProduceKeeps(m.s, data);
    hide Filed, Reported, Ordered, AllFrom, AllSince, Settled, Mirrored, Inv, Put;
  }

  lemma {:induction false} LiveIdsAreThe(log: Log, ids: seq<nat>, gen: nat)
    requires forall k :: 0 <= k < |ids| ==> ids[k] < |log.pushed|
    requires forall i, j :: 0 <= i < j < |ids| ==> ids[i] < ids[j]
    ensures var live := LiveIds(log, ids, gen);
            && (forall x :: x in live <==> x in ids && log.pushed[x].gen == gen)
            && (forall i, j :: 0 <= i < j < |live| ==> live[i] < live[j])
  {
    if ids != [] {
      LiveIdsAreThe(log, ids[1..], gen);
      var rest := LiveIds(log, ids[1..], gen);
      assert forall x :: x in ids <==> x == ids[0] || x in ids[1..];
      assert forall k :: 0 <= k < |rest| ==> rest[k] in rest;
    }
  }

  lemma {:induction false} LiveMirrors(marks: seq<Mark>, log: Log, ids: seq<nat>, acted: nat, gen: nat)
    requires forall k :: 0 <= k < |ids| ==> ids[k] < |log.pushed|
    requires Mirrored(marks, log.pushed, ids)
    requires forall k :: 0 <= k < |ids| ==> acted <= log.pushed[ids[k]].gen <= gen
    requires gen < acted + TWO32
    ensures Mirrored(Live(marks, gen % TWO32), log.pushed, LiveIds(log, ids, gen))
  {
    if ids != [] {
      WrappedInjective(gen, log.pushed[ids[0]].gen);
      LiveMirrors(marks[1..], log, ids[1..], acted, gen);
    }
  }

  lemma PurgeFiles(log: Log, gen: nat)
    requires Filed(log) && Reported(log)
    ensures Filed(Purged(log, gen)) && Reported(Purged(log, gen))
  {
    LiveIdsAreThe(log, log.fifo, gen);
    hide Filed, Reported, LiveIds;
    RetainFiles(log, LiveIds(log, log.fifo, gen));
    RetainReports(log, LiveIds(log, log.fifo, gen));
  }

  lemma RetainFiles(log: Log, live: seq<nat>)
    requires Filed(log)
    requires forall x :: x in live ==> x in log.fifo
    requires forall i, j :: 0 <= i < j < |live| ==> live[i] < live[j]
    ensures Filed(Retaining(log, live))
  {
    assert forall k :: 0 <= k < |live| ==> live[k] in live;
  }

  lemma RetainReports(log: Log, live: seq<nat>)
    requires Reported(log)
    ensures Reported(Retaining(log, live))
  {
  }

  lemma PurgePlaces(h: History, log: Log, acted: nat)
    requires Filed(log) && Within(h, log.pushed) && acted <= h.gen
    requires Settled(log.pushed, log.fates, acted, h.tail) && h.tail <= h.resetAt
    ensures var p := Purged(log, h.gen);
            && AllFrom(p.pushed, p.fifo, h.resetAt) && AllSince(p.pushed, p.fifo, h.gen)
            && Settled(p.pushed, p.fates, h.gen, h.resetAt)
  {
    LiveIdsAreThe(log, log.fifo, h.gen);
    var p := Purged(log, h.gen);
    assert forall k :: 0 <= k < |p.fifo| ==> p.fifo[k] in p.fifo;
  }

  lemma ApplyKeepsMarks(m: Marked)
    requires MarksInv(m) && Legal(m.s, Apply)
    ensures MarksInv(MarkStep(m, Apply))
  {
    var s, log := m.s, m.log;
    ApplyKeeps(s);
    assert s.h.acted <= s.h.gen < s.h.acted + TWO32;
    WrappedInjective(s.h.gen, s.h.acted);
    assert s.h.tail <= s.h.resetAt;
    LiveMirrors(s.ring.marks, log, log.fifo, s.h.acted, s.h.gen);
    hide Filed, Reported, Ordered, Within, AllFrom, AllSince, Settled, Mirrored, Inv;
    PurgeFiles(log, s.h.gen);
    PurgePlaces(s.h, log, s.h.acted);
    WithinIgnoresTail(s.h, Step(s, Apply).h, log.pushed);
  }

  lemma MarkStepKeeps(m: Marked, e: Event)
    requires MarksInv(m)
    ensures MarksInv(MarkStep(m, e))
  {
    if Legal(m.s, e) && Respects(m.s, e) {
      hide MarksInv;
      match e
      case Produce(data) => ProduceKeepsMarks(m, data);
      case Reconnect => ReconnectKeepsMarks(m);
      case MarkEnd => MarkEndKeepsMarks(m);
      case Copy(maxRun, txLen) => CopyKeepsMarks(m, maxRun, txLen);
      case Consume(n) => ConsumeKeepsMarks(m, n);
      case Apply => ApplyKeepsMarks(m);
      case TakeMark => TakeMarkKeepsMarks(m);
    }
  }

  // ---------------------------------------------------------------------------------------------
  // Runs

  lemma EmptyLog(h: History)
    ensures Filed(EMPTY_LOG) && Reported(EMPTY_LOG)
    ensures Ordered([]) && Within(h, []) && Mirrored([], [], [])
    ensures AllFrom([], [], h.tail) && AllSince([], [], h.acted) && Settled([], [], h.acted, h.tail)
  {
  }

  lemma StartKeepsMarks(storage: seq<Byte>)
    requires 0 < |storage| < TWO32
    ensures MarksInv(Marked(Start(storage), EMPTY_LOG))
  {
    StartKeeps(storage);
    hide Inv, Filed, Reported, Ordered, Within, AllFrom, AllSince, Settled, Mirrored;
    EmptyLog(Start(storage).h);
  }

  lemma {:induction false} MarkedRunKeeps(storage: seq<Byte>, events: seq<Event>)
    requires 0 < |storage| < TWO32
    ensures MarksInv(MarkedAfter(storage, events))
  {
    if events == [] {
      StartKeepsMarks(storage);
    } else {
      hide MarksInv, MarkStep;
      MarkedRunKeeps(storage, events[..|events| - 1]);
      MarkStepKeeps(MarkedAfter(storage, events[..|events| - 1]), events[|events| - 1]);
    }
  }

  /** Over every run: pending boundaries lie in order between tail and head; each boundary is reported at
      most once, in push order, when the tail stood exactly at its position; and one that is neither
      pending nor reported was pushed out, as the oldest, by the fourth newer one or a later, or belongs
      to a generation the consumer has moved past. */
  lemma MarksOverRuns(storage: seq<Byte>, events: seq<Event>)
    requires 0 < |storage| < TWO32
    ensures var m := MarkedAfter(storage, events);
            var log, h := m.log, m.s.h;
            && |log.fates| == |log.pushed| && |log.fifo| <= 4
            && (forall k :: 0 <= k < |log.fifo| ==>
                  log.fifo[k] < |log.pushed| && h.tail <= log.pushed[log.fifo[k]].pos <= |h.stream|)
            && (forall i, j :: 0 <= i < j < |log.fifo| ==>
                  log.fifo[i] < log.fifo[j] && log.pushed[log.fifo[i]].pos <= log.pushed[log.fifo[j]].pos)
            && (forall i, j :: 0 <= i < j < |log.popped| ==> log.popped[i] < log.popped[j])
            && (forall k :: 0 <= k < |log.popped| ==>
                  log.popped[k] < |log.pushed| && log.pushed[log.popped[k]].pos <= h.tail
                  && log.fates[log.popped[k]] == Popped(log.pushed[log.popped[k]].pos))
            && (forall id :: 0 <= id < |log.pushed| && id !in log.fifo && id !in log.popped ==>
                  || (log.fates[id].Overflowed? && id + 4 <= log.fates[id].newer < |log.pushed|
                      && forall k :: 0 <= k < |log.fifo| ==> id < log.fifo[k])
                  || (log.fates[id] == Superseded && log.pushed[id].gen < h.acted))
  {
    MarkedRunKeeps(storage, events);
    var m := MarkedAfter(storage, events);
    PendingInPlace(m);
    ReportedInPlace(m);
    forall id | 0 <= id < |m.log.pushed| && id !in m.log.fifo && id !in m.log.popped
      ensures || (m.log.fates[id].Overflowed? && id + RING_EOA_MARK_CAP <= m.log.fates[id].newer < |m.log.pushed|
                  && forall k :: 0 <= k < |m.log.fifo| ==> id < m.log.fifo[k])
              || (m.log.fates[id] == Superseded && m.log.pushed[id].gen < m.s.h.acted)
    {
      LostHow(m, id);
    }
    hide MarksInv, MarkedAfter;
  }

  lemma PendingInPlace(m: Marked)
    requires MarksInv(m)
    ensures |m.log.fates| == |m.log.pushed| && |m.log.fifo| <= RING_EOA_MARK_CAP
    ensures forall k :: 0 <= k < |m.log.fifo| ==>
              m.log.fifo[k] < |m.log.pushed| && m.s.h.tail <= m.log.pushed[m.log.fifo[k]].pos <= |m.s.h.stream|
    ensures forall i, j :: 0 <= i < j < |m.log.fifo| ==>
              m.log.fifo[i] < m.log.fifo[j] && m.log.pushed[m.log.fifo[i]].pos <= m.log.pushed[m.log.fifo[j]].pos
  {
    assert Sound(m.s.ring);
    hide Inv, Reported, Settled;
  }

  lemma ReportedInPlace(m: Marked)
    requires MarksInv(m)
    ensures |m.log.fates| == |m.log.pushed|
    ensures forall i, j :: 0 <= i < j < |m.log.popped| ==> m.log.popped[i] < m.log.popped[j]
    ensures forall k :: 0 <= k < |m.log.popped| ==>
              m.log.popped[k] < |m.log.pushed| && m.log.pushed[m.log.popped[k]].pos <= m.s.h.tail
              && m.log.fates[m.log.popped[k]] == Popped(m.log.pushed[m.log.popped[k]].pos)
  {
    hide Inv, Filed, Ordered, Within, Ahead, Mirrored;
  }

  /** How a boundary that is neither pending nor reported was lost. */
  lemma LostHow(m: Marked, id: nat)
    requires MarksInv(m) && id < |m.log.pushed| && id !in m.log.fifo && id !in m.log.popped
    ensures |m.log.fates| == |m.log.pushed|
    ensures || (m.log.fates[id].Overflowed? && id + RING_EOA_MARK_CAP <= m.log.fates[id].newer < |m.log.pushed|
                && forall k :: 0 <= k < |m.log.fifo| ==> id < m.log.fifo[k])
            || (m.log.fates[id] == Superseded && m.log.pushed[id].gen < m.s.h.acted)
  {
    hide Inv, Ordered, Within, Ahead, Mirrored;
  }

  /** Further events from a given point. */
  function MarkRun(m: Marked, events: seq<Event>): Marked
    decreases |events|
  {
    if events == [] then m else MarkRun(MarkStep(m, events[0]), events[1..])
  }

  function Pushes(events: seq<Event>): nat {
    if events == [] then 0 else (if events[0].MarkEnd? then 1 else 0) + Pushes(events[1..])
  }

  /** Boundary `f` opened the current generation, at its reset point, and has not been lost; at most
      `newer` boundaries were pushed since. */
  predicate Kept(m: Marked, f: nat, newer: nat) {
    && MarksInv(m) && f < |m.log.pushed| <= f + 1 + newer && |m.log.fates| == |m.log.pushed|
    && m.log.pushed[f] == Boundary(m.s.h.resetAt, m.s.h.gen)
    && (m.log.fates[f] == Pending || m.log.fates[f].Popped?)
    && forall id :: 0 <= id < f ==> m.log.pushed[id].gen < m.s.h.gen
  }

  /** The boundary itself and those before it are untouched; it is still pending or was reported. */
  predicate Spared(before: Log, after: Log, f: nat) {
    && before.pushed <= after.pushed && |after.fates| == |after.pushed|
    && f < |before.fates| <= |after.fates|
    && (after.fates[f] == Pending || after.fates[f].Popped?)
  }

  lemma PushSpares(log: Log, b: Boundary, f: nat, newer: nat)
    requires Filed(log) && f < |log.pushed| <= f + 1 + newer && newer < 3
    requires log.fates[f] == Pending || log.fates[f].Popped?
    ensures Spared(log, Pushed(log, b), f)
  {
    if |log.fifo| >= RING_EOA_MARK_CAP {
      assert log.fifo[0] < log.fifo[1] < log.fifo[2] < log.fifo[3] < |log.pushed|;
    }
  }

  lemma PopSpares(log: Log, at: nat, f: nat)
    requires Filed(log) && f < |log.pushed| && (log.fates[f] == Pending || log.fates[f].Popped?)
    ensures Spared(log, PoppedAt(log, at), f)
  {
  }

  lemma PurgeSpares(log: Log, gen: nat, f: nat)
    requires Filed(log) && f < |log.pushed| && (log.fates[f] == Pending || log.fates[f].Popped?)
    requires log.pushed[f].gen == gen
    ensures Spared(log, Purged(log, gen), f)
  {
    LiveIdsAreThe(log, log.fifo, gen);
  }

  /** Only a reset moves the reset point or the generation. */
  lemma StepHoldsReset(s: System, e: Event)
    requires Sound(s.ring) && !e.Reconnect?
    ensures Step(s, e).h.resetAt == s.h.resetAt && Step(s, e).h.gen == s.h.gen
  {
  }

  lemma StepSpares(m: Marked, e: Event, f: nat, newer: nat)
    requires Filed(m.log) && f < |m.log.pushed| <= f + 1 + newer && (e.MarkEnd? ==> newer < 3)
    requires (m.log.fates[f] == Pending || m.log.fates[f].Popped?) && m.log.pushed[f].gen == m.s.h.gen
    ensures Spared(m.log, MarkStep(m, e).log, f)
    ensures |MarkStep(m, e).log.pushed| <= |m.log.pushed| + if e.MarkEnd? then 1 else 0
  {
    hide Filed, Step, Advance, TakeMarkAtTail, Sound;
    assert Spared(m.log, m.log, f) by {
      FiledLengths(m.log);
    }
    match e
    case MarkEnd => PushSpares(m.log, Boundary(|m.s.h.stream|, m.s.h.gen), f, newer);
    case Consume(n) => PopSpares(m.log, m.s.h.tail + n, f);
    case TakeMark => PopSpares(m.log, m.s.h.tail, f);
    case Apply => PurgeSpares(m.log, m.s.h.gen, f);
    case _ =>
  }

  lemma FiledLengths(log: Log)
    requires Filed(log)
    ensures |log.fates| == |log.pushed|
  {
  }

  lemma KeptStep(m: Marked, e: Event, f: nat, newer: nat)
    requires Kept(m, f, newer) && !e.Reconnect? && (e.MarkEnd? ==> newer < 3)
    ensures Kept(MarkStep(m, e), f, if e.MarkEnd? then newer + 1 else newer)
  {
    MarkStepKeeps(m, e);
    assert Sound(m.s.ring) && Filed(m.log);
    StepSpares(m, e, f, newer);
    StepHoldsReset(m.s, e);
    hide MarksInv, Step, Filed, Pushed, PoppedAt, Purged, Advance, TakeMarkAtTail;
  }

  lemma {:induction false} KeptRun(m: Marked, events: seq<Event>, f: nat, newer: nat)
    requires Kept(m, f, newer) && Reconnect !in events && newer + Pushes(events) <= 3
    ensures Kept(MarkRun(m, events), f, newer + Pushes(events))
    decreases |events|
  {
    hide Kept, MarkStep;
    if events != [] {
      KeptStep(m, events[0], f, newer);
      KeptRun(MarkStep(m, events[0]), events[1..], f, if events[0].MarkEnd? then newer + 1 else newer);
    }
  }

  predicate IsPending(log: Log, id: nat) {
    id < |log.fates| && log.fates[id] == Pending
  }

  predicate IsPopped(log: Log, id: nat) {
    id < |log.fates| && log.fates[id].Popped?
  }

  /** Once its generation is acted on, a kept boundary that is still pending is at the tail and first. */
  lemma KeptIsNext(m: Marked, f: nat, newer: nat)
    requires Kept(m, f, newer) && IsPending(m.log, f) && m.s.h.acted == m.s.h.gen
    ensures TakeMarkAtTail(m.s.ring).1
    ensures IsPopped(MarkStep(m, TakeMark).log, f)
  {
    FrontAgainst(m, m.s.h.tail);
    assert f in m.log.fifo;
    var k :| 0 <= k < |m.log.fifo| && m.log.fifo[k] == f;
    assert m.log.fifo[0] <= f;
    assert m.log.pushed[m.log.fifo[0]].gen >= m.s.h.gen;
    assert m.log.fifo[0] == f && m.log.pushed[f].pos == m.s.h.tail;
  }

  /** A flush is a reset and then a mark, each under its own lock. Whatever the consumer does between the
      two, whatever marks sat at that very position before, and whatever happens after, short of another
      reset or four more marks, its boundary is not lost: it has been reported, or the consumer's next look
      at the tail, once it has acted on the reset, reports it. */
  lemma FlushMarkSurvives(m: Marked, mid: seq<Event>, events: seq<Event>)
    requires MarksInv(m) && Legal(m.s, Reconnect)
    requires forall i :: 0 <= i < |mid| ==> IsDrain(mid[i])
    requires Reconnect !in events && Pushes(events) <= 3
    ensures var f := |m.log.pushed|;
            var after := MarkRun(MarkStep(MarkRun(MarkStep(m, Reconnect), mid), MarkEnd), events);
            var acted := if after.s.ring.gen != after.s.acted then MarkStep(after, Apply) else after;
            && (IsPending(after.log, f) || IsPopped(after.log, f))
            && (IsPending(acted.log, f) || IsPopped(acted.log, f))
            && (IsPending(acted.log, f) ==>
                  TakeMarkAtTail(acted.s.ring).1 && IsPopped(MarkStep(acted, TakeMark).log, f))
  {
    hide MarkStep, MarkRun, TakeMarkAtTail, MarksInv;
    var f := |m.log.pushed|;
    FlushStarts(m, mid);
    var started := MarkStep(MarkRun(MarkStep(m, Reconnect), mid), MarkEnd);
    KeptRun(started, events, f, 0);
    var after := MarkRun(started, events);
    var n := Pushes(events);
    ActedAfterApply(after, f, n);
    if after.s.ring.gen != after.s.acted {
      KeptStep(after, Apply, f, n);
      if IsPending(MarkStep(after, Apply).log, f) {
        KeptIsNext(MarkStep(after, Apply), f, n);
      }
    } else if IsPending(after.log, f) {
      KeptIsNext(after, f, n);
    }
  }

  /** Between the reset and the mark of a flush: the reset is the last the producer did. */
  predicate MidFlush(m: Marked, pushed: seq<Boundary>) {
    && MarksInv(m) && m.log.pushed == pushed && m.s.h.resetAt == |m.s.h.stream|
    && forall id :: 0 <= id < |pushed| ==> pushed[id].gen < m.s.h.gen
  }

  lemma MidFlushStep(m: Marked, e: Event, pushed: seq<Boundary>)
    requires MidFlush(m, pushed) && IsDrain(e)
    ensures MidFlush(MarkStep(m, e), pushed)
  {
    MarkStepKeeps(m, e);
    hide MarksInv, Advance, TakeMarkAtTail, CopyRun, ApplyReset, Sound, Legal, Respects, LiveIds;
  }

  lemma {:induction false} MidFlushRun(m: Marked, mid: seq<Event>, pushed: seq<Boundary>)
    requires MidFlush(m, pushed) && forall i :: 0 <= i < |mid| ==> IsDrain(mid[i])
    ensures MidFlush(MarkRun(m, mid), pushed)
    decreases |mid|
  {
    hide MidFlush, MarkStep;
    if mid != [] {
      MidFlushStep(m, mid[0], pushed);
      MidFlushRun(MarkStep(m, mid[0]), mid[1..], pushed);
    }
  }

  lemma FlushStarts(m: Marked, mid: seq<Event>)
    requires MarksInv(m) && Legal(m.s, Reconnect)
    requires forall i :: 0 <= i < |mid| ==> IsDrain(mid[i])
    ensures Kept(MarkStep(MarkRun(MarkStep(m, Reconnect), mid), MarkEnd), |m.log.pushed|, 0)
  {
    hide MarksInv, Sound;
    var reset := MarkStep(m, Reconnect);
    ReconnectKeepsMarks(m);
    PushedSoFar(m);
    assert MidFlush(reset, m.log.pushed);
    MidFlushRun(reset, mid, m.log.pushed);
    FlushMarked(MarkRun(reset, mid), m.log.pushed);
  }

  lemma FlushMarked(m: Marked, pushed: seq<Boundary>)
    requires MidFlush(m, pushed)
    ensures Kept(MarkStep(m, MarkEnd), |pushed|, 0)
  {
    hide MarksInv, Sound;
    MarkEndKeepsMarks(m);
    PushedSoFar(m);
    PushNames(m.log, Boundary(|m.s.h.stream|, m.s.h.gen));
  }

  lemma PushedSoFar(m: Marked)
    requires MarksInv(m)
    ensures Sound(m.s.ring) && |m.log.fates| == |m.log.pushed|
    ensures forall id :: 0 <= id < |m.log.pushed| ==> m.log.pushed[id].gen <= m.s.h.gen
  {
  }

  lemma PushNames(log: Log, b: Boundary)
    requires |log.fates| == |log.pushed|
    ensures var p := Pushed(log, b);
            p.pushed == log.pushed + [b] && |p.fates| == |p.pushed| && p.fates[|log.pushed|] == Pending
  {
  }

  lemma ActedAfterApply(m: Marked, f: nat, newer: nat)
    requires Kept(m, f, newer)
    ensures m.s.ring.gen != m.s.acted ==> MarkStep(m, Apply).s.h.acted == MarkStep(m, Apply).s.h.gen
    ensures m.s.ring.gen == m.s.acted ==> m.s.h.acted == m.s.h.gen
  {
    WrappedInjective(m.s.h.gen, m.s.h.acted);
  }

  /** The drain loop's look at the tail before a copy is needed: a run of `n > 0` bytes copied from a
      sound state would carry the tail past a pending boundary — leaving it stuck at the front of the
      FIFO, behind the tail — exactly when a boundary sits at the tail. */
  lemma SkippedLookStrandsMark(m: Marked, maxRun: nat, txLen: nat)
    requires MarksInv(m) && Sound(m.s.ring) && |CopyRun(m.s.ring, maxRun, txLen).bytes| > 0
    ensures AllFrom(m.log.pushed, m.log.fifo, m.s.h.tail + |CopyRun(m.s.ring, maxRun, txLen).bytes|)
            <==> Respects(m.s, Copy(maxRun, txLen))
  {
    FrontAgainst(m, m.s.h.tail);
    if Respects(m.s, Copy(maxRun, txLen)) {
      CopyStopsAtFront(m, maxRun, txLen);
    }
  }
}
