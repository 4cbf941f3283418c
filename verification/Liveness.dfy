/** The composed inbound path cannot wedge: a full accumulator, a full ring, marks at the tail and a waiting
    gate never hold each other up for ever. */
module Liveness {
  import opened Bytes
  import opened Postcard
  import opened Wire
  import opened Reassembly
  import opened Ring
  import opened RingRuns
  import opened RingMarks
  import opened Preroll
  import opened RingPlayout
  import PlaybackRing
  import EndToEnd
  import Speaker

  // ---------------------------------------------------------------------------------------------
  // One instant

  /** When the accumulator has no room, what it holds at its head is a whole Audio frame the sink refused;
      a production ring that refuses it already banks enough for the gate to open at every target the
      gate can reach, and the drain then gets a run with something in it. */
  lemma BackpressureUnblocks(w: Usize, acc: seq<Byte>, hello: bool, s: System, gate: seq<GateEvent>,
                             now: nat, maxWaitMs: nat, maxRun: nat, txLen: nat)
    requires Stuck(w, acc, hello) && |acc| <= ACCUM_CAP && !HasRoom(acc)
    requires Inv(s) && s.ring.cap == 65_536 && maxRun > 0 && txLen > 0
    ensures Sound(s.ring)
    ensures var h := HeadOf(w, acc, hello);
            && h.Whole? && h.act.Offer? && |h.act.pcm| <= 1280
            && (!PlaybackRing.Offered(s.ring, h.act.pcm).1 ==>
                  && Admitted(GateAfter(gate), Used(s.ring), now, maxWaitMs).1
                  && CopyRun(s.ring, maxRun, txLen).bytes != [])
  {
    hide HeadOf, GateAfter;
    FullMeansRefusedAudio(w, acc, hello);
    ReachableTargets(gate);
    RunIsNotEmpty(s.ring, maxRun, txLen);
  }

  /** Bytes available always make a run: a mark shortens one but never to nothing. */
  lemma RunIsNotEmpty(r: Ring, maxRun: nat, txLen: nat)
    requires Sound(r) && maxRun > 0 && txLen > 0
    ensures CopyRun(r, maxRun, txLen).bytes != [] <==> Used(r) > 0
  {
  }

  // ---------------------------------------------------------------------------------------------
  // A drain pass

  /** One run of a pass: its budget, its staging length, and what the device takes of it. */
  datatype Pull = Pull(maxRun: nat, txLen: nat, take: nat)

  /** When a pass is made, its fallback, and the runs it may make. */
  datatype Pass = Pass(now: nat, maxWaitMs: nat, pulls: seq<Pull>)

  /** The consumer's side: ring and marks, and the gate. */
  datatype Drainer = Drainer(m: Marked, gate: Gate)

  /** Runs copied and consumed until one crosses a boundary, the device takes less than it was given, the
      ring is empty or the runs are used up; and whether a boundary was crossed. */
  function Pulled(m: Marked, pulls: seq<Pull>): (Marked, bool)
    decreases |pulls|
  {
    if pulls == [] then (m, false)
    else
      var m1 := MarkStep(m, Copy(pulls[0].maxRun, pulls[0].txLen));
      if !m1.s.staged.Run? || m1.s.staged.run.bytes == [] || m1.s.staged.run.gen != m1.s.acted then (m1, false)
      else
        var n := Min(pulls[0].take, |m1.s.staged.run.bytes|);
        var crossed := Advance(m1.s.ring, n).1;
        var m2 := MarkStep(m1, Consume(n));
        if crossed || n < |m1.s.staged.run.bytes| then (m2, crossed) else Pulled(m2, pulls[1..])
  }

  /** A reset moved the generation: jump, and start the gate over. */
  function Caught(d: Drainer): Drainer {
    if d.m.s.ring.gen != d.m.s.acted then Drainer(MarkStep(d.m, Apply), NEW_GATE) else d
  }

  /** One pass: catch up with a reset; a boundary at the tail re-arms the gate and ends the pass; an empty ring
      is noted; the gate decides; then the runs, and a boundary they crossed re-arms the gate. */
  function Passed(d: Drainer, p: Pass): Drainer {
    var d0 := Caught(d);
    var r := d0.m.s.ring;
    if TakeMarkAtTail(r).1 then Drainer(MarkStep(d0.m, TakeMark), NEW_GATE)
    else if Used(r) == 0 then Drainer(d0.m, Emptied(d0.gate))
    else
      var (g, open) := Admitted(d0.gate.(sawAudio := true), Used(r), p.now, p.maxWaitMs);
      if !open then Drainer(d0.m, g)
      else
        var (m, crossed) := Pulled(d0.m, p.pulls);
        Drainer(m, if crossed then NEW_GATE else g)
  }

  function AfterPasses(d: Drainer, passes: seq<Pass>): Drainer {
    if passes == [] then d else Passed(AfterPasses(d, passes[..|passes| - 1]), passes[|passes| - 1])
  }

  /** A pass that may make a run, of which the device takes something. */
  predicate Willing(p: Pass) {
    p.pulls != [] && forall i :: 0 <= i < |p.pulls| ==> TakesSome(p.pulls[i])
  }

  predicate TakesSome(p: Pull) {
    p.maxRun > 0 && p.txLen > 0 && p.take > 0
  }

  // ---------------------------------------------------------------------------------------------
  // What it does to the ring

  /** A later state of the same ring with the producer standing still. */
  predicate Later(m: Marked, m': Marked) {
    && MarksInv(m') && m'.s.ring.cap == m.s.ring.cap && m'.s.h.stream == m.s.h.stream
    && m'.s.h.tail >= m.s.h.tail && |m'.s.ring.marks| <= |m.s.ring.marks|
  }

  /** Caught up, and no boundary at the tail. */
  predicate Clear(m: Marked) {
    m.s.ring.gen == m.s.acted && !TakeMarkAtTail(m.s.ring).1
  }

  lemma CatchesUp(d: Drainer)
    requires MarksInv(d.m)
    ensures Later(d.m, Caught(d).m) && Caught(d).m.s.ring.gen == Caught(d).m.s.acted
  {
    if d.m.s.ring.gen != d.m.s.acted {
      ApplyKeepsMarks(d.m);
      WrappedInjective(d.m.s.h.gen, d.m.s.h.acted);
      assert d.m.s.h.tail <= d.m.s.h.resetAt && Sound(d.m.s.ring);
      hide MarksInv, Live, Purged;
    }
  }

  lemma TakesMark(m: Marked)
    requires MarksInv(m) && TakeMarkAtTail(m.s.ring).1
    ensures var m' := MarkStep(m, TakeMark); Later(m, m') && |m'.s.ring.marks| < |m.s.ring.marks|
  {
    TakeMarkKeepsMarks(m);
    assert Sound(m.s.ring);
    hide MarksInv, PoppedAt;
  }

  lemma CopyStages(m: Marked, p: Pull)
    requires MarksInv(m) && Clear(m) && TakesSome(p)
    ensures var m1 := MarkStep(m, Copy(p.maxRun, p.txLen));
            && Later(m, m1) && m1.s.ring == m.s.ring && m1.s.acted == m.s.acted && m1.s.h.tail == m.s.h.tail
            && m1.s.staged.Run? && m1.s.staged.run.gen == m1.s.acted
            && (m1.s.staged.run.bytes != [] <==> m.s.h.tail < |m.s.h.stream|)
  {
    CopyKeepsMarks(m, p.maxRun, p.txLen);
    assert Sound(m.s.ring);
    UsedIsUnread(m.s);
    RunIsNotEmpty(m.s.ring, p.maxRun, p.txLen);
    hide MarksInv, Sound;
  }

  lemma ConsumeMoves(m: Marked, n: nat)
    requires MarksInv(m) && Legal(m.s, Consume(n))
    ensures var m' := MarkStep(m, Consume(n));
            && Later(m, m') && m'.s.h.tail == m.s.h.tail + n && m'.s.ring.gen == m.s.ring.gen
            && m'.s.acted == m.s.acted && (!Advance(m.s.ring, n).1 ==> !TakeMarkAtTail(m'.s.ring).1)
  {
    ConsumeKeepsMarks(m, n);
    assert Sound(m.s.ring);
    hide MarksInv, PoppedAt;
  }

  /** The runs of a pass lose nothing, and move at least a byte if there is one. */
  lemma {:induction false} PulledMoves(m: Marked, pulls: seq<Pull>)
    requires MarksInv(m) && Clear(m) && forall i :: 0 <= i < |pulls| ==> TakesSome(pulls[i])
    ensures var m' := Pulled(m, pulls).0;
            Later(m, m') && (pulls != [] && m.s.h.tail < |m.s.h.stream| ==> m'.s.h.tail > m.s.h.tail)
    decreases |pulls|
  {
    hide MarksInv, MarkStep, Advance;
    if pulls != [] {
      CopyStages(m, pulls[0]);
      var m1 := MarkStep(m, Copy(pulls[0].maxRun, pulls[0].txLen));
      if m1.s.staged.run.bytes != [] {
        var n := Min(pulls[0].take, |m1.s.staged.run.bytes|);
        ConsumeMoves(m1, n);
        if !Advance(m1.s.ring, n).1 && n == |m1.s.staged.run.bytes| {
          PulledMoves(MarkStep(m1, Consume(n)), pulls[1..]);
        }
      }
    }
  }

  // ---------------------------------------------------------------------------------------------
  // What it does to the gate

  lemma ConsumeReports(m: Marked, n: nat)
    requires MarksInv(m) && Legal(m.s, Consume(n))
    ensures var m' := MarkStep(m, Consume(n));
            if Advance(m.s.ring, n).1 then |m'.log.popped| == |m.log.popped| + 1 && m.log.popped <= m'.log.popped
            else m'.log.popped == m.log.popped
  {
    ReportsExactly(m, n);
    assert Sound(m.s.ring);
    hide MarksInv, Advance, Step;
  }

  lemma {:induction false} PulledReports(m: Marked, pulls: seq<Pull>)
    requires MarksInv(m) && Clear(m) && forall i :: 0 <= i < |pulls| ==> TakesSome(pulls[i])
    ensures var (m', crossed) := Pulled(m, pulls);
            if crossed then |m'.log.popped| == |m.log.popped| + 1 && m.log.popped <= m'.log.popped
            else m'.log.popped == m.log.popped
    decreases |pulls|
  {
    hide MarksInv, MarkStep, Advance;
    if pulls != [] {
      CopyStages(m, pulls[0]);
      CopyReportsNothing(m, pulls[0]);
      var m1 := MarkStep(m, Copy(pulls[0].maxRun, pulls[0].txLen));
      if m1.s.staged.run.bytes != [] {
        var n := Min(pulls[0].take, |m1.s.staged.run.bytes|);
        ConsumeMoves(m1, n);
        ConsumeReports(m1, n);
        if !Advance(m1.s.ring, n).1 && n == |m1.s.staged.run.bytes| {
          PulledReports(MarkStep(m1, Consume(n)), pulls[1..]);
        }
      }
    }
  }

  lemma CopyReportsNothing(m: Marked, p: Pull)
    ensures MarkStep(m, Copy(p.maxRun, p.txLen)).log == m.log
    ensures MarkStep(m, Copy(p.maxRun, p.txLen)).s.played == m.s.played
  {
  }

  lemma CatchUpReportsNothing(d: Drainer)
    ensures Caught(d).m.log.popped == d.m.log.popped && Caught(d).m.s.played == d.m.s.played
    ensures d.m.s.ring.gen != d.m.s.acted ==> Caught(d).gate == NEW_GATE
  {
    hide Live, LiveIds;
  }

  lemma TakeReports(m: Marked)
    requires MarksInv(m) && TakeMarkAtTail(m.s.ring).1
    ensures var m' := MarkStep(m, TakeMark);
            |m'.log.popped| == |m.log.popped| + 1 && m.log.popped <= m'.log.popped && m'.s.played == m.s.played
  {
    ReportsExactly(m, 0);
    assert Sound(m.s.ring);
    hide MarksInv, TakeMarkAtTail;
  }

  /** A pass reports at most one end of audio, and when it does the next stream starts from a fresh gate; after a
      reset too; an empty ring is an underrun or idle time as the gate says; and nothing is played that the gate did
      not let through. */
  lemma BoundariesStartOver(d: Drainer, p: Pass)
    requires MarksInv(d.m) && Willing(p)
    ensures var d', d0 := Passed(d, p), Caught(d);
            && (d'.m.log.popped == d.m.log.popped
                || (|d'.m.log.popped| == |d.m.log.popped| + 1 && d.m.log.popped <= d'.m.log.popped
                    && d'.gate == NEW_GATE))
            && (d.m.s.ring.gen != d.m.s.acted ==> d0.gate == NEW_GATE)
            && (d'.m.log.popped == d.m.log.popped && Used(d0.m.s.ring) == 0 ==> d'.gate == Emptied(d0.gate))
            && (d'.m.s.played != d.m.s.played ==>
                  Admitted(d0.gate.(sawAudio := true), Used(d0.m.s.ring), p.now, p.maxWaitMs).1)
  {
    hide MarksInv, MarkStep, Caught, Pulled, TakeMarkAtTail, Used, Admitted;
    CatchesUp(d);
    CatchUpReportsNothing(d);
    var m0 := Caught(d).m;
    if TakeMarkAtTail(m0.s.ring).1 {
      TakeReports(m0);
    } else {
      PulledReports(m0, p.pulls);
    }
  }

  // ---------------------------------------------------------------------------------------------
  // Progress

  /** What a drain still has in front of it: bytes, and marks, each of which may cost a pass. */
  function Load(m: Marked): nat {
    Used(m.s.ring) + |m.s.ring.marks|
  }

  predicate Bounded(d: Drainer) {
    MarksInv(d.m) && d.gate.target <= PLAYBACK_PREROLL_MAX_TARGET_BYTES
  }

  lemma LaterIsLighter(m: Marked, m': Marked)
    requires MarksInv(m) && Later(m, m')
    ensures Used(m'.s.ring) <= Used(m.s.ring) && Load(m') <= Load(m)
    ensures m'.s.h.tail > m.s.h.tail || |m'.s.ring.marks| < |m.s.ring.marks| ==> Load(m') < Load(m)
    ensures Used(m.s.ring) > 0 <==> m.s.h.tail < |m.s.h.stream|
  {
    UsedIsUnread(m.s);
    UsedIsUnread(m'.s);
    hide Used;
  }

  /** The gate kept a caught-up drain with bytes in front of it from playing. */
  predicate HeldBack(d: Drainer, p: Pass) {
    var d0 := Caught(d);
    var (g, open) := Admitted(d0.gate.(sawAudio := true), Used(d0.m.s.ring), p.now, p.maxWaitMs);
    && Clear(d0.m) && Used(d0.m.s.ring) > 0 && !open
    && Passed(d, p) == Drainer(d0.m, g)
  }

  /** A pass makes the load lighter, finds the ring empty, or is held back by the gate. */
  lemma PassMoves(d: Drainer, p: Pass)
    requires MarksInv(d.m) && Willing(p)
    ensures var d' := Passed(d, p);
            && MarksInv(d'.m) && d'.m.s.ring.cap == d.m.s.ring.cap
            && Used(d'.m.s.ring) <= Used(d.m.s.ring) && Load(d'.m) <= Load(d.m)
            && (Load(d'.m) < Load(d.m) || Used(d'.m.s.ring) == 0 || HeldBack(d, p))
  {
    hide MarksInv, MarkStep, Caught, Pulled, TakeMarkAtTail, Used, Load, Admitted;
    CatchesUp(d);
    var m0 := Caught(d).m;
    LaterIsLighter(d.m, m0);
    LaterIsLighter(m0, m0);
    if TakeMarkAtTail(m0.s.ring).1 {
      TakesMark(m0);
      LaterIsLighter(m0, MarkStep(m0, TakeMark));
    } else {
      PulledMoves(m0, p.pulls);
      LaterIsLighter(m0, Pulled(m0, p.pulls).0);
    }
  }

  /** So every pass makes the load lighter, unless fewer bytes are banked than the deepest target: a boundary
      costs a pass and re-arms the gate, but a gate over a deep ring opens at once. */
  lemma PassLightens(d: Drainer, p: Pass)
    requires Bounded(d) && Willing(p)
    ensures var d' := Passed(d, p);
            && Bounded(d') && d'.m.s.ring.cap == d.m.s.ring.cap && Load(d'.m) <= Load(d.m)
            && Used(d'.m.s.ring) <= Used(d.m.s.ring)
            && (Used(d'.m.s.ring) < PLAYBACK_PREROLL_MAX_TARGET_BYTES || Load(d'.m) < Load(d.m))
  {
    hide MarksInv, MarkStep, Caught, Pulled, TakeMarkAtTail, Used, Load, Willing;
    PassMoves(d, p);
    CaughtKeepsTarget(d);
  }

  lemma CaughtKeepsTarget(d: Drainer)
    requires d.gate.target <= PLAYBACK_PREROLL_MAX_TARGET_BYTES
    ensures Caught(d).gate.target <= PLAYBACK_PREROLL_MAX_TARGET_BYTES
  {
  }

  lemma {:induction false} PassesLighten(d: Drainer, passes: seq<Pass>)
    requires Bounded(d) && forall i :: 0 <= i < |passes| ==> Willing(passes[i])
    ensures var d' := AfterPasses(d, passes);
            && Bounded(d') && d'.m.s.ring.cap == d.m.s.ring.cap
            && (Used(d'.m.s.ring) < PLAYBACK_PREROLL_MAX_TARGET_BYTES || Load(d'.m) + |passes| <= Load(d.m))
  {
    hide Bounded, Passed, Load, Used, Willing;
    if passes != [] {
      var init := passes[..|passes| - 1];
      PassesLighten(d, init);
      PassLightens(AfterPasses(d, init), passes[|passes| - 1]);
    }
  }

  /** A refused frame is accepted after at most one pass per byte of it and one per mark the ring can hold,
      whatever the clock, the fallback and the lengths of the runs, and however many boundaries re-arm the
      gate on the way: provided the ring has room for the deepest target and the frame together. */
  lemma HeldFrameIsAccepted(d: Drainer, pcm: seq<Byte>, passes: seq<Pass>)
    requires Bounded(d) && 30_720 + |pcm| <= d.m.s.ring.cap + 1
    requires |passes| >= |pcm| + 4 && forall i :: 0 <= i < |passes| ==> Willing(passes[i])
    ensures TakenAfter(d, pcm, passes)
  {
    hide Willing, AfterPasses;
    PassesLighten(d, passes);
    var r := AfterPasses(d, passes).m.s.ring;
    assert Sound(d.m.s.ring) && Sound(r);
    hide MarksInv, Used;
    assert Load(d.m) <= d.m.s.ring.cap + RING_EOA_MARK_CAP;
  }

  /** The ring takes the frame after the passes. */
  predicate TakenAfter(d: Drainer, pcm: seq<Byte>, passes: seq<Pass>) {
    var r := AfterPasses(d, passes).m.s.ring;
    Sound(r) && PlaybackRing.Offered(r, pcm).1
  }

  /** So a full accumulator over a production ring, with the gate in any state its history can leave it in,
      gets its head frame taken and room to read again. */
  lemma FullAccumulatorDrains(w: Usize, p: EndToEnd.Pod, gate: seq<GateEvent>, passes: seq<Pass>)
    requires Stuck(w, p.acc, p.hello) && |p.acc| <= ACCUM_CAP && !HasRoom(p.acc)
    requires MarksInv(p.m) && p.m.s.ring.cap == 65_536
    requires |passes| >= 1284
    requires forall i :: 0 <= i < |passes| ==> Willing(passes[i])
    ensures var drained := p.(m := AfterPasses(Drainer(p.m, GateAfter(gate)), passes).m);
            && Sound(drained.m.s.ring)
            && var q := EndToEnd.OnFrame(w, drained);
               q.acc == p.acc[HeadOf(w, p.acc, p.hello).len..] && HasRoom(q.acc)
  {
    hide HeadOf, MarksInv, GateAfter, AfterPasses, Willing;
    FullMeansRefusedAudio(w, p.acc, p.hello);
    ReachableTargets(gate);
    var pcm := HeadOf(w, p.acc, p.hello).act.pcm;
    HeldFrameIsAccepted(Drainer(p.m, GateAfter(gate)), pcm, passes);
    hide MarkStep, Write, Sound;
  }

  // ---------------------------------------------------------------------------------------------
  // Any capacity, once the clock moves

  /** The gate saw its first bytes no later than `t`. */
  predicate SeenBy(g: Gate, t: nat) {
    g.firstBytesAt.Since? ==> g.firstBytesAt.at <= t
  }

  /** A drain with bytes in front of it whose gate has been counting since `t` or before. */
  predicate Counting(d: Drainer, t: nat) {
    && MarksInv(d.m) && Clear(d.m) && Used(d.m.s.ring) > 0
    && d.gate.pending && d.gate.firstBytesAt.Since? && SeenBy(d.gate, t)
  }

  /** A pass held back leaves the gate counting. */
  lemma HeldBackCounts(d: Drainer, p: Pass)
    requires MarksInv(d.m) && Willing(p) && SeenBy(d.gate, p.now)
    ensures SeenBy(Passed(d, p).gate, p.now)
    ensures HeldBack(d, p) ==> Counting(Passed(d, p), p.now)
  {
    hide MarksInv, MarkStep, Pulled, Used, Willing;
    PassMoves(d, p);
  }

  /** A gate that is counting holds nothing back once the fallback has run out, and keeps counting until then. */
  lemma CountingRunsOut(d: Drainer, t: nat, p: Pass)
    requires Counting(d, t) && HeldBack(d, p)
    ensures p.now < t + p.maxWaitMs
    ensures Counting(Passed(d, p), t)
  {
    hide MarksInv, MarkStep, Pulled, Used;
    assert Caught(d) == d;
  }

  /** Willing passes in time order. */
  predicate InTime(passes: seq<Pass>) {
    && (forall i :: 0 <= i < |passes| ==> Willing(passes[i]))
    && forall i, j :: 0 <= i < j < |passes| ==> passes[i].now <= passes[j].now
  }

  /** A stretch of passes at least a fallback long. */
  predicate Round(passes: seq<Pass>) {
    && passes != [] && InTime(passes)
    && passes[|passes| - 1].now >= passes[0].now + passes[|passes| - 1].maxWaitMs
  }

  /** Over such passes the load gets lighter, the ring empties, or the gate has been counting from the first. */
  lemma {:induction false} PassesCount(d: Drainer, passes: seq<Pass>)
    requires MarksInv(d.m) && passes != [] && InTime(passes) && SeenBy(d.gate, passes[0].now)
    ensures var d' := AfterPasses(d, passes);
            && MarksInv(d'.m) && d'.m.s.ring.cap == d.m.s.ring.cap && SeenBy(d'.gate, passes[|passes| - 1].now)
            && Used(d'.m.s.ring) <= Used(d.m.s.ring) && Load(d'.m) <= Load(d.m)
            && (Load(d'.m) < Load(d.m) || Used(d'.m.s.ring) == 0
                || (Counting(d', passes[0].now)
                    && HeldBack(AfterPasses(d, passes[..|passes| - 1]), passes[|passes| - 1])
                    && (|passes| > 1 ==> Counting(AfterPasses(d, passes[..|passes| - 1]), passes[0].now))))
    decreases |passes|
  {
    hide MarksInv, Passed, HeldBack, Counting, Used, Load, Willing;
    var k := |passes| - 1;
    var p := passes[k];
    var init := passes[..k];
    if k > 0 {
      PassesCount(d, init);
      var d1 := AfterPasses(d, init);
      PassMoves(d1, p);
      HeldBackCounts(d1, p);
      if Counting(d1, passes[0].now) && HeldBack(d1, p) {
        CountingRunsOut(d1, passes[0].now, p);
      }
    } else {
      assert AfterPasses(d, init) == d;
      PassMoves(d, p);
      HeldBackCounts(d, p);
    }
  }

  /** A round lightens the load or finds the ring empty, whatever the gate's target: the fallback sees to it. */
  lemma RoundLightens(d: Drainer, passes: seq<Pass>)
    requires MarksInv(d.m) && Round(passes) && SeenBy(d.gate, passes[0].now)
    ensures var d' := AfterPasses(d, passes);
            && MarksInv(d'.m) && d'.m.s.ring.cap == d.m.s.ring.cap && SeenBy(d'.gate, passes[|passes| - 1].now)
            && Used(d'.m.s.ring) <= Used(d.m.s.ring) && Load(d'.m) <= Load(d.m)
            && (Load(d'.m) < Load(d.m) || Used(d'.m.s.ring) == 0)
  {
    hide MarksInv, Passed, HeldBack, Counting, Used, Load, Willing;
    PassesCount(d, passes);
    var before := AfterPasses(d, passes[..|passes| - 1]);
    if |passes| == 1 {
      AtOnce(before, passes[0]);
    } else if Counting(before, passes[0].now) {
      LastOfRound(d, passes);
    }
  }

  lemma LastOfRound(d: Drainer, passes: seq<Pass>)
    requires Round(passes) && |passes| > 1
    requires Counting(AfterPasses(d, passes[..|passes| - 1]), passes[0].now)
    ensures !HeldBack(AfterPasses(d, passes[..|passes| - 1]), passes[|passes| - 1])
  {
    hide HeldBack, Counting, Willing, AfterPasses;
    var d1 := AfterPasses(d, passes[..|passes| - 1]);
    if HeldBack(d1, passes[|passes| - 1]) {
      CountingRunsOut(d1, passes[0].now, passes[|passes| - 1]);
    }
  }

  /** A fallback of nothing never holds back. */
  lemma AtOnce(d: Drainer, p: Pass)
    requires p.maxWaitMs == 0
    ensures !HeldBack(d, p)
  {
    hide Used, Caught, Passed;
  }

  function AfterRounds(d: Drainer, rounds: seq<seq<Pass>>): Drainer {
    if rounds == [] then d else AfterPasses(AfterRounds(d, rounds[..|rounds| - 1]), rounds[|rounds| - 1])
  }

  /** One round after another. */
  predicate Successive(rounds: seq<seq<Pass>>) {
    && (forall i :: 0 <= i < |rounds| ==> Round(rounds[i]))
    && forall i :: 0 < i < |rounds| && rounds[i] != [] && rounds[i - 1] != [] ==>
         rounds[i - 1][|rounds[i - 1]| - 1].now <= rounds[i][0].now
  }

  lemma {:induction false} RoundsLighten(d: Drainer, rounds: seq<seq<Pass>>)
    requires MarksInv(d.m) && Successive(rounds)
    requires rounds != [] && rounds[0] != [] ==> SeenBy(d.gate, rounds[0][0].now)
    ensures var d' := AfterRounds(d, rounds);
            && MarksInv(d'.m) && d'.m.s.ring.cap == d.m.s.ring.cap
            && (rounds != [] ==> rounds[|rounds| - 1] != []
                                 && SeenBy(d'.gate, rounds[|rounds| - 1][|rounds[|rounds| - 1]| - 1].now))
            && (Used(d'.m.s.ring) == 0 || Load(d'.m) + |rounds| <= Load(d.m))
    decreases |rounds|
  {
    hide MarksInv, AfterPasses, Used, Load;
    if rounds != [] {
      var k := |rounds| - 1;
      var init := rounds[..k];
      RoundsLighten(d, init);
      var d1 := AfterRounds(d, init);
      assert Round(rounds[k]);
      assert SeenBy(d1.gate, rounds[k][0].now);
      hide Round;
      RoundLightens(d1, rounds[k]);
    }
  }

  /** Any ring that can hold the frame at all takes it in the end, whatever the gate waits for: after at most
      one round per byte of the frame and one per mark slot, a round being passes that span one fallback. */
  lemma EveryRingDrains(d: Drainer, pcm: seq<Byte>, rounds: seq<seq<Pass>>)
    requires MarksInv(d.m) && |pcm| <= d.m.s.ring.cap
    requires Successive(rounds) && |rounds| >= |pcm| + 4
    requires rounds[0] != [] ==> SeenBy(d.gate, rounds[0][0].now)
    ensures var r := AfterRounds(d, rounds).m.s.ring;
            Sound(r) && PlaybackRing.Offered(r, pcm).1
  {
    hide AfterRounds, Successive;
    RoundsLighten(d, rounds);
    var r := AfterRounds(d, rounds).m.s.ring;
    assert Sound(d.m.s.ring) && Sound(r);
    hide MarksInv, Used;
    assert Load(d.m) <= d.m.s.ring.cap + RING_EOA_MARK_CAP;
  }

  // ---------------------------------------------------------------------------------------------
  // The capacity that does without the fallback

  predicate PassInSamples(p: Pass) {
    forall i :: 0 <= i < |p.pulls| ==>
      Even(p.pulls[i].maxRun) && Even(p.pulls[i].txLen) && Even(p.pulls[i].take)
  }

  lemma {:induction false} PulledInOrder(m: Marked, pulls: seq<Pull>)
    requires Speaker.InOrder(m)
    requires forall i :: 0 <= i < |pulls| ==> Even(pulls[i].maxRun) && Even(pulls[i].txLen) && Even(pulls[i].take)
    ensures Speaker.InOrder(Pulled(m, pulls).0)
    decreases |pulls|
  {
    hide Speaker.InOrder, MarkStep, Advance, Even;
    if pulls != [] {
      var copy := Copy(pulls[0].maxRun, pulls[0].txLen);
      Speaker.StepInOrder(m, copy);
      var m1 := MarkStep(m, copy);
      if m1.s.staged.Run? && m1.s.staged.run.bytes != [] && m1.s.staged.run.gen == m1.s.acted {
        var n := Min(pulls[0].take, |m1.s.staged.run.bytes|);
        StagedIsEven(m1);
        EvenMin(pulls[0].take, |m1.s.staged.run.bytes|);
        Speaker.StepInOrder(m1, Consume(n));
        PulledInOrder(MarkStep(m1, Consume(n)), pulls[1..]);
      }
    }
  }

  lemma StagedIsEven(m: Marked)
    requires Speaker.InOrder(m) && m.s.staged.Run?
    ensures Even(|m.s.staged.run.bytes|)
  {
    hide MarksInv;
  }

  lemma {:induction false} PassesInOrder(d: Drainer, passes: seq<Pass>)
    requires Speaker.InOrder(d.m) && forall i :: 0 <= i < |passes| ==> PassInSamples(passes[i])
    ensures Speaker.InOrder(AfterPasses(d, passes).m)
  {
    hide Speaker.InOrder, MarkStep, Pulled, Used, TakeMarkAtTail;
    if passes != [] {
      var init := passes[..|passes| - 1];
      PassesInOrder(d, init);
      var d1 := AfterPasses(d, init);
      Speaker.StepInOrder(d1.m, Apply);
      Speaker.StepInOrder(Caught(d1).m, TakeMark);
      PulledInOrder(Caught(d1).m, passes[|passes| - 1].pulls);
    }
  }

  lemma FillIsEven(m: Marked)
    requires Speaker.InOrder(m)
    ensures Even(Used(m.s.ring)) && Sound(m.s.ring)
  {
    UsedIsUnread(m.s);
    EvenDifference(|m.s.h.stream|, m.s.h.tail);
    hide Used;
  }

  /** In whole samples the ring may be one sample smaller still. */
  lemma HeldFrameIsAcceptedInSamples(d: Drainer, pcm: seq<Byte>, passes: seq<Pass>)
    requires Bounded(d) && Speaker.InOrder(d.m)
    requires Even(d.m.s.ring.cap) && Even(|pcm|)
    requires 30_720 + |pcm| <= d.m.s.ring.cap + 2
    requires |passes| >= |pcm| + 4
    requires forall i :: 0 <= i < |passes| ==> Willing(passes[i]) && PassInSamples(passes[i])
    ensures TakenAfter(d, pcm, passes)
  {
    hide Willing, AfterPasses, PassInSamples;
    PassesLighten(d, passes);
    PassesInOrder(d, passes);
    FillIsEven(AfterPasses(d, passes).m);
    var r := AfterPasses(d, passes).m.s.ring;
    assert Sound(d.m.s.ring);
    assert Even(PLAYBACK_PREROLL_MAX_TARGET_BYTES);
    if Used(r) < PLAYBACK_PREROLL_MAX_TARGET_BYTES {
      EvenBelow(Used(r), PLAYBACK_PREROLL_MAX_TARGET_BYTES);
    }
    hide MarksInv, Used, Speaker.InOrder, Even;
    assert Load(d.m) <= d.m.s.ring.cap + RING_EOA_MARK_CAP;
  }

  lemma EvenBelow(a: int, b: int)
    requires Even(a) && Even(b) && a < b
    ensures a + 2 <= b
  {
  }

  /** A frame of `len` bytes never needs the fallback to get into a ring of `cap` bytes: in every whole-sample
      state, by whole-sample passes at whatever times, it is taken within the bound. */
  ghost predicate NeverNeedsFallback(cap: nat, len: nat) {
    forall d: Drainer, pcm: seq<Byte>, passes: seq<Pass> ::
      Bounded(d) && Speaker.InOrder(d.m) && d.m.s.ring.cap == cap
      && |pcm| == len && |passes| >= len + 4
      && (forall i :: 0 <= i < |passes| ==> Willing(passes[i]) && PassInSamples(passes[i]))
      ==> TakenAfter(d, pcm, passes)
  }

  /** The size the ring is checked for is what this takes, to within a sample: with less, a ring too full for
      the frame and a gate at its deepest target leave it to the fallback. */
  lemma ReachabilityIsExact(cap: nat, len: nat)
    requires 0 < cap < TWO32 && cap % 2 == 0 && 0 < len && len % 2 == 0
    ensures NeverNeedsFallback(cap, len) <==> 30_720 + len <= cap + 2
  {
    hide Bounded, Willing, PassInSamples, TakenAfter, Speaker.InOrder;
    if 30_720 + len <= cap + 2 {
      forall d: Drainer, pcm: seq<Byte>, passes: seq<Pass> |
        Bounded(d) && Speaker.InOrder(d.m) && d.m.s.ring.cap == cap
        && |pcm| == len && |passes| >= len + 4
        && (forall i :: 0 <= i < |passes| ==> Willing(passes[i]) && PassInSamples(passes[i]))
        ensures TakenAfter(d, pcm, passes)
      {
        HeldFrameIsAcceptedInSamples(d, pcm, passes);
      }
    } else {
      var d, pcm, passes := ShallowRingWaits(cap, len);
      assert !TakenAfter(d, pcm, passes);
    }
  }

  /** A pass soon after the first bytes. */
  const EARLY: Pass := Pass(0, 1, [Pull(2, 2, 2)])

  lemma ShallowRingWaits(cap: nat, len: nat) returns (d: Drainer, pcm: seq<Byte>, passes: seq<Pass>)
    requires 0 < cap < TWO32 && cap % 2 == 0 && 0 < len && len % 2 == 0
    requires 30_720 + len > cap + 2
    ensures Bounded(d) && Speaker.InOrder(d.m) && d.m.s.ring.cap == cap
    ensures |pcm| == len && |passes| >= len + 4
    ensures forall i :: 0 <= i < |passes| ==> Willing(passes[i]) && PassInSamples(passes[i])
    ensures !TakenAfter(d, pcm, passes)
  {
    pcm, passes := Copies(len, 0), Copies(len + RING_EOA_MARK_CAP, EARLY);
    var m := BankedUpTo(cap, Max(0, cap + 2 - len));
    d := Drainer(m, Gate(true, Since(0), PLAYBACK_PREROLL_MAX_TARGET_BYTES, true));
    assert MarksInv(m);
    hide MarksInv, Speaker.InOrder, AfterPasses, Used, Sound;
    WaitsForFallback(d, passes);
  }

  /** A fresh ring with `n` bytes in it. */
  lemma BankedUpTo(cap: nat, n: nat) returns (m: Marked)
    requires 0 < cap < TWO32 && Even(cap) && n <= cap && Even(n)
    ensures Speaker.InOrder(m) && m.s.ring.cap == cap && Used(m.s.ring) == n && m.s.ring.marks == []
    ensures m.s.ring.gen == m.s.acted
  {
    hide Speaker.InOrder, Write, Used, Sound, Live, CopyRun;
    var storage: seq<Byte> := Copies(cap, 0);
    var data: seq<Byte> := Copies(n, 0);
    var start := Marked(Start(storage), EMPTY_LOG);
    Speaker.StartsInOrder(storage);
    Speaker.StepInOrder(start, Produce(data));
    m := MarkStep(start, Produce(data));
    FreshTakes(storage, data);
  }

  lemma FreshTakes(storage: seq<Byte>, data: seq<Byte>)
    requires 0 < |storage| < TWO32 && |data| <= |storage|
    ensures var r := Fresh(storage);
            && Sound(r) && Write(r, data).1
            && var r' := Write(r, data).0;
               Used(r') == |data| && r'.cap == |storage| && r'.marks == [] && r'.gen == 0
  {
    hide Put;
  }

  /** A gate waiting for a deeper ring than it has, with no reset or boundary to see to. */
  predicate Waiting(d: Drainer) {
    && d.m.s.ring.gen == d.m.s.acted && d.m.s.ring.marks == []
    && d.gate.pending && d.gate.firstBytesAt.Since? && Used(d.m.s.ring) < d.gate.target
  }

  /** Until the fallback runs out, such a gate lets nothing through, however many passes are made. */
  lemma {:induction false} WaitsForFallback(d: Drainer, passes: seq<Pass>)
    requires Waiting(d) && d.gate.firstBytesAt.Since?
    requires forall i :: 0 <= i < |passes| ==>
              Max(0, passes[i].now - d.gate.firstBytesAt.at) < passes[i].maxWaitMs
    ensures var d' := AfterPasses(d, passes);
            Waiting(d') && d'.m == d.m && d'.gate.firstBytesAt == d.gate.firstBytesAt
  {
    hide Passed, Waiting;
    if passes != [] {
      WaitsForFallback(d, passes[..|passes| - 1]);
      WaitsOnce(AfterPasses(d, passes[..|passes| - 1]), passes[|passes| - 1]);
    }
  }

  lemma WaitsOnce(d: Drainer, p: Pass)
    requires Waiting(d) && d.gate.firstBytesAt.Since?
    requires Max(0, p.now - d.gate.firstBytesAt.at) < p.maxWaitMs
    ensures var d' := Passed(d, p);
            Waiting(d') && d'.m == d.m && d'.gate.firstBytesAt == d.gate.firstBytesAt
  {
    hide Used, Pulled, MarkStep;
    assert Caught(d) == d;
  }
}
