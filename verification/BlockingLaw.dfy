/**
 * When the blocking send stops, and with what, told by its three answer streams alone: a run is a list of
 * beats, one per write attempt, and the loop goes on exactly as long as the beats so far let it.
 */
module BlockingLaw {
  import opened Bytes
  import opened StreamSend

  /** One blocking send: frame length, ceiling, the answer streams, and how far each was read before it. */
  datatype Run = Run(n: nat, ceiling: nat, env: Env, asked: nat, waits: nat, ticks: nat)

  function Send(run: Run): (res: (SendResult, Loop))
    ensures res.0 != EncodeFailed
  {
    BlockingLoop(run.n, run.ceiling, run.env, BlockingStart(run.ceiling, run.env, run.asked, run.waits, run.ticks))
  }

  /** A write attempt: bytes were taken, or none were and the wait that followed answered, or the socket broke. */
  datatype Beat = Moved | Waited(r: Writable) | Broke

  function Waits(beats: seq<Beat>): nat {
    if beats == [] then 0 else Waits(beats[..|beats| - 1]) + if beats[|beats| - 1].Waited? then 1 else 0
  }

  /** The first `k` beats: each attempt uses the next write answer, each wait the next readiness answer. */
  function Beats(run: Run, k: nat): (beats: seq<Beat>)
    ensures |beats| == k
  {
    if k == 0 then [] else Beats(run, k - 1) + [BeatAt(run, Beats(run, k - 1))]
  }

  function BeatAt(run: Run, before: seq<Beat>): Beat {
    var a := run.env.answers(run.asked + |before|);
    if Accepting(a) then Moved else if NoByte(a) then Waited(run.env.ready(run.waits + Waits(before))) else Broke
  }

  /** Waits in a row, up to now, that said ready and brought no byte. */
  function ReadyRun(beats: seq<Beat>): nat {
    if beats == [] || beats[|beats| - 1] != Waited(Ready) then 0 else ReadyRun(beats[..|beats| - 1]) + 1
  }

  /** A byte was taken since the last wait that timed out. */
  predicate MovedSinceTimeout(beats: seq<Beat>) {
    beats != [] &&
    var last := beats[|beats| - 1];
    last == Moved || (last != Waited(WaitTimedOut) && MovedSinceTimeout(beats[..|beats| - 1]))
  }

  /** A wait has just timed out with no byte taken since the one before it. */
  predicate TimedOutIdle(beats: seq<Beat>) {
    beats != [] && beats[|beats| - 1] == Waited(WaitTimedOut) && !MovedSinceTimeout(beats[..|beats| - 1])
  }

  predicate Faulted(beats: seq<Beat>) {
    beats != [] && (beats[|beats| - 1] == Broke || beats[|beats| - 1] == Waited(WaitFault))
  }

  /** Beats that reset the per-wait budget: all but a ready wait. */
  function Rearms(beats: seq<Beat>): nat {
    if beats == [] then 0
    else Rearms(beats[..|beats| - 1]) + if beats[|beats| - 1] == Waited(Ready) then 0 else 1
  }

  /** Which clock reading the next attempt is checked against: one read to begin with, one per attempt so far
      and one per reset of the budget. */
  function TopTick(ticks: nat, beats: seq<Beat>): nat {
    ticks + 1 + |beats| + Rearms(beats)
  }

  /** Which clock reading the budget was last armed from. */
  function ArmTick(ticks: nat, beats: seq<Beat>): nat {
    if beats == [] then ticks
    else
      var init := beats[..|beats| - 1];
      if beats[|beats| - 1] == Waited(Ready) then ArmTick(ticks, init) else TopTick(ticks, init) + 1
  }

  /** Bytes taken over the first `k` answers. */
  function Progress(run: Run, k: nat): nat {
    Cursor(run.n, Answers(run.env, run.asked, run.asked + k))
  }

  /** After `k` attempts there is another: bytes are left, nothing broke, no wait timed out idle, the clock is
      short of the ceiling, and readiness has not lied 1 024 times in a row. */
  predicate GoesOn(run: Run, k: nat) {
    var beats := Beats(run, k);
    && Progress(run, k) < run.n && !Faulted(beats) && !TimedOutIdle(beats)
    && run.env.clock(TopTick(run.ticks, beats)) < run.ceiling && ReadyRun(beats) < 1024
  }

  /** The deadline of a wait after these beats: 750 ms from the last reset of the budget, within the ceiling. */
  function Budget(run: Run, beats: seq<Beat>): nat {
    Min(run.env.clock(ArmTick(run.ticks, beats)) + 750, run.ceiling)
  }

  /** The deadlines of the waits among the first `k` attempts. */
  function WaitDeadlines(run: Run, k: nat): seq<nat> {
    if k == 0 then []
    else WaitDeadlines(run, k - 1) + if Beats(run, k)[k - 1].Waited? then [Budget(run, Beats(run, k - 1))] else []
  }

  /** What the loop returned is what its beats decide: the first count of attempts at which it may not go on,
      the verdict there, and the deadlines of the waits. */
  predicate Decided(run: Run, r: SendResult, l: Loop) {
    && run.asked <= l.asked
    && var k := l.asked - run.asked;
       var beats := Beats(run, k);
       && (forall j :: 0 <= j < k ==> GoesOn(run, j))
       && !GoesOn(run, k)
       && (r == Sent <==> Progress(run, k) == run.n)
       && (r == Fault <==> Faulted(beats))
       && (r == BackpressureAligned <==> !Faulted(beats) && Progress(run, k) == 0 < run.n)
       && (r == MidTailDead <==> !Faulted(beats) && 0 < Progress(run, k) < run.n)
       && l.deadlines == WaitDeadlines(run, k)
  }

  // ---------------------------------------------------------------------------------------------
  // The loop follows its beats

  /** The loop's locals are what the beats say. */
  predicate Shows(run: Run, l: Loop, beats: seq<Beat>) {
    && LoopOk(run.n, l) && l.asked == run.asked + |beats|
    && !Faulted(beats) && !TimedOutIdle(beats)
    && l.waits == run.waits + Waits(beats)
    && l.zeroProgressReady == ReadyRun(beats)
    && (l.written > l.writtenAtLastWait <==> MovedSinceTimeout(beats))
    && (l.written < run.n ==> l.ticks == TopTick(run.ticks, beats) && l.deadline == Budget(run, beats))
  }

  /** What one more beat does to each reading of them. */
  lemma BeatStep(run: Run, beats: seq<Beat>, x: Beat)
    ensures var b := beats + [x];
            && Waits(b) == Waits(beats) + (if x.Waited? then 1 else 0)
            && ReadyRun(b) == (if x == Waited(Ready) then ReadyRun(beats) + 1 else 0)
            && (MovedSinceTimeout(b) <==> x == Moved || (x != Waited(WaitTimedOut) && MovedSinceTimeout(beats)))
            && (TimedOutIdle(b) <==> x == Waited(WaitTimedOut) && !MovedSinceTimeout(beats))
            && (Faulted(b) <==> x == Broke || x == Waited(WaitFault))
            && TopTick(run.ticks, b) == TopTick(run.ticks, beats) + (if x == Waited(Ready) then 1 else 2)
            && Budget(run, b) == (if x == Waited(Ready) then Budget(run, beats)
                                  else Min(run.env.clock(TopTick(run.ticks, beats) + 1) + 750, run.ceiling))
  {
    assert (beats + [x])[..|beats|] == beats;
  }

  /** The loop is about to attempt a write. */
  predicate Attempting(run: Run, l: Loop, beats: seq<Beat>) {
    && Shows(run, l, beats) && l.written < run.n
    && run.env.clock(TopTick(run.ticks, beats)) < run.ceiling && ReadyRun(beats) < 1024
  }

  lemma MovedShows(run: Run, l: Loop, beats: seq<Beat>)
    requires Attempting(run, l, beats) && Accepting(run.env.answers(l.asked))
    ensures var p := OnePass(run.n, run.ceiling, run.env, l);
            && p.Again? && Shows(run, p.l, beats + [Moved]) && p.l.deadlines == l.deadlines
            && p.l.written == l.written + Taken(run.env.answers(l.asked), run.n - l.written)
  {
    BeatStep(run, beats, Moved);
    hide Waits, ReadyRun, MovedSinceTimeout, TimedOutIdle, Faulted, TopTick, Budget;
  }

  lemma WaitedShows(run: Run, l: Loop, beats: seq<Beat>)
    requires Attempting(run, l, beats) && NoByte(run.env.answers(l.asked))
    ensures var p := OnePass(run.n, run.ceiling, run.env, l);
            var b := beats + [Waited(run.env.ready(l.waits))];
            && (p.Again? ==> Shows(run, p.l, b))
            && (p.Return? ==> (Faulted(b) || TimedOutIdle(b)) && (p.r == Fault <==> Faulted(b)))
            && (p.Return? && p.r != Fault ==> p.r == GiveUp(l.written))
            && p.l.written == l.written && p.l.asked == l.asked + 1
            && p.l.deadlines == l.deadlines + [Budget(run, beats)]
  {
    BeatStep(run, beats, Waited(run.env.ready(l.waits)));
    hide Waits, ReadyRun, MovedSinceTimeout, TimedOutIdle, Faulted, TopTick, Budget;
  }

  lemma BeatsNext(run: Run, k: nat)
    ensures Beats(run, k + 1) == Beats(run, k) + [BeatAt(run, Beats(run, k))]
    ensures var a := run.env.answers(run.asked + k);
            Progress(run, k + 1) == Progress(run, k) + Taken(a, run.n - Progress(run, k))
    ensures WaitDeadlines(run, k + 1) == WaitDeadlines(run, k) +
            if BeatAt(run, Beats(run, k)).Waited? then [Budget(run, Beats(run, k))] else []
  {
    AnswersNext(run.env, run.asked, run.asked + k);
    Snoc(run.n, Answers(run.env, run.asked, run.asked + k), run.env.answers(run.asked + k));
  }

  predicate Tracks(run: Run, l: Loop) {
    && run.asked <= l.asked
    && var k := l.asked - run.asked;
       && Shows(run, l, Beats(run, k)) && l.written == Progress(run, k)
       && l.deadlines == WaitDeadlines(run, k)
       && forall j :: 0 <= j < k ==> GoesOn(run, j)
  }

  lemma MovedIsDecided(run: Run, l: Loop)
    requires Tracks(run, l) && GoesOn(run, l.asked - run.asked) && Accepting(run.env.answers(l.asked))
    ensures var p := OnePass(run.n, run.ceiling, run.env, l); p.Again? && Tracks(run, p.l)
  {
    hide Beats, Progress, WaitDeadlines, Waits, ReadyRun, MovedSinceTimeout, TimedOutIdle, Faulted, TopTick,
         Budget, OnePass, Taken;
    var k := l.asked - run.asked;
    BeatsNext(run, k);
    MovedShows(run, l, Beats(run, k));
    GoesOnNext(run, k);
    hide Shows, GoesOn;
  }

  lemma GoesOnNext(run: Run, k: nat)
    requires GoesOn(run, k) && forall j :: 0 <= j < k ==> GoesOn(run, j)
    ensures forall j :: 0 <= j < k + 1 ==> GoesOn(run, j)
  {
    hide GoesOn;
  }

  lemma WaitedIsDecided(run: Run, l: Loop)
    requires Tracks(run, l) && GoesOn(run, l.asked - run.asked) && NoByte(run.env.answers(l.asked))
    ensures var p := OnePass(run.n, run.ceiling, run.env, l);
            if p.Again? then Tracks(run, p.l) else Decided(run, p.r, p.l)
  {
    hide Beats, Progress, WaitDeadlines, Waits, ReadyRun, MovedSinceTimeout, TimedOutIdle, Faulted, TopTick,
         Budget, OnePass;
    var k := l.asked - run.asked;
    BeatsNext(run, k);
    WaitedShows(run, l, Beats(run, k));
    GoesOnNext(run, k);
    StopsHere(run, k + 1);
    hide GoesOn, Shows;
  }

  lemma StopsHere(run: Run, k: nat)
    ensures Faulted(Beats(run, k)) || TimedOutIdle(Beats(run, k)) ==> !GoesOn(run, k)
  {
    hide Beats, Progress, WaitDeadlines, Waits, ReadyRun, MovedSinceTimeout, TimedOutIdle, Faulted, TopTick, Budget;
  }

  lemma BrokeIsDecided(run: Run, l: Loop)
    requires Tracks(run, l) && GoesOn(run, l.asked - run.asked) && run.env.answers(l.asked).Broken?
    ensures var p := OnePass(run.n, run.ceiling, run.env, l); p.Return? && Decided(run, p.r, p.l)
  {
    hide Beats, Progress, WaitDeadlines, Waits, ReadyRun, MovedSinceTimeout, TimedOutIdle, Faulted, TopTick, Budget;
    var k := l.asked - run.asked;
    BeatsNext(run, k);
    BeatStep(run, Beats(run, k), Broke);
    GoesOnNext(run, k);
    StopsHere(run, k + 1);
  }

  lemma StopIsDecided(run: Run, l: Loop)
    requires Tracks(run, l) && !GoesOn(run, l.asked - run.asked)
    ensures var p := OnePass(run.n, run.ceiling, run.env, l);
            p.Return? && Decided(run, p.r, p.l)
  {
    hide Beats, Progress, WaitDeadlines, Waits, ReadyRun, MovedSinceTimeout, TimedOutIdle, Faulted, TopTick, Budget;
  }

  lemma {:induction false} LoopIsDecided(run: Run, l: Loop)
    requires Tracks(run, l)
    ensures var (r, l') := BlockingLoop(run.n, run.ceiling, run.env, l); Decided(run, r, l')
    decreases run.n - l.written,
              if l.written > l.writtenAtLastWait then 1 else 0,
              MAX_ZERO_PROGRESS_READY - l.zeroProgressReady
  {
    assert LoopOk(run.n, l);
    if GoesOn(run, l.asked - run.asked) {
      if Accepting(run.env.answers(l.asked)) {
        MovedIsDecided(run, l);
      } else if NoByte(run.env.answers(l.asked)) {
        WaitedIsDecided(run, l);
      } else {
        BrokeIsDecided(run, l);
      }
    } else {
      StopIsDecided(run, l);
    }
    hide Tracks, Decided;
    var p := OnePass(run.n, run.ceiling, run.env, l);
    if p.Again? {
      LoopIsDecided(run, p.l);
    }
  }

  /** The exact law of the blocking send, for every writer, waiter and clock. */
  lemma BlockingIsDecided(run: Run)
    ensures Decided(run, Send(run).0, Send(run).1)
  {
    var l := BlockingStart(run.ceiling, run.env, run.asked, run.waits, run.ticks);
    assert Answers(run.env, run.asked, run.asked) == [];
    assert Tracks(run, l);
    hide Tracks, Decided;
    LoopIsDecided(run, l);
  }

  /** So it gives up on a sound socket exactly when the clock had reached the ceiling, 1 024 ready waits in a row
      brought no byte, or a wait timed out with no byte since the one before. */
  lemma GiveUpIsJustified(run: Run)
    ensures var (r, l) := Send(run);
            && run.asked <= l.asked
            && var beats := Beats(run, l.asked - run.asked);
               r == BackpressureAligned || r == MidTailDead <==>
                 && r != Sent && r != Fault
                 && (|| run.env.clock(TopTick(run.ticks, beats)) >= run.ceiling
                     || ReadyRun(beats) >= 1024
                     || TimedOutIdle(beats))
  {
    hide Send, Beats, Progress, WaitDeadlines, ReadyRun, TimedOutIdle, Faulted;
    BlockingIsDecided(run);
  }

  /** And a healthy link sends: a writer that takes something every time, under a clock short of the ceiling. */
  lemma HealthyLinkSends(run: Run)
    requires forall i: nat :: Accepting(run.env.answers(i))
    requires forall i: nat :: run.env.clock(i) < run.ceiling
    ensures Send(run).0 == Sent
  {
    hide Send;
    BlockingIsDecided(run);
    var k := Send(run).1.asked - run.asked;
    if k > 0 {
      BeatsNext(run, k - 1);
      BeatStep(run, Beats(run, k - 1), Moved);
    }
    hide Progress, WaitDeadlines;
  }
}
