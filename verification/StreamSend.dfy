/**
 * Resumable frame send, in its two forms: the blocking loop, which owns its waits, and the stepped
 * cursor the event loop drives one write attempt at a time. The writer, the readiness wait and the
 * clock are adversaries: fixed but arbitrary answer streams, one answer per question asked.
 */
module StreamSend {
  import opened Bytes
  import opened Wire

  const WRITE_TIMEOUT_MS: nat := 750
  const MAX_ZERO_PROGRESS_READY: nat := 1024
  const SPIN_GUARD_THRESHOLD: nat := 8

  /** One answer of a non-blocking `write`. `Accept(0)` is `Ok(0)`, a degenerate would-block. */
  datatype WriteAnswer = Accept(m: nat) | WouldBlock | TimedOut | Broken

  /** One answer of a writability wait. */
  datatype Writable = Ready | WaitTimedOut | WaitFault

  predicate Accepting(a: WriteAnswer) {
    a.Accept? && a.m > 0
  }

  predicate NoByte(a: WriteAnswer) {
    a == Accept(0) || a == WouldBlock || a == TimedOut
  }

  /** Bytes of the offered slice an answer takes: a writer never accepts more than it was offered. */
  function Taken(a: WriteAnswer, offered: nat): (m: nat)
    ensures m <= offered
    ensures a.Accept? && a.m <= offered ==> m == a.m
    ensures m > 0 ==> Accepting(a)
  {
    if a.Accept? then Min(a.m, offered) else 0
  }

  // ---------------------------------------------------------------------------------------------
  // What a list of answers means, without either machine

  /** Bytes of an `n`-byte frame accepted over a list of answers. */
  function Cursor(n: nat, answers: seq<WriteAnswer>): (c: nat)
    ensures c <= n
  {
    if answers == [] then 0
    else
      var c := Cursor(n, answers[..|answers| - 1]);
      c + Taken(answers[|answers| - 1], n - c)
  }

  /** Accepting answers immediately preceded by a no-byte answer. */
  function Resumes(answers: seq<WriteAnswer>): nat {
    if |answers| < 2 then 0
    else
      Resumes(answers[..|answers| - 1])
      + if Accepting(answers[|answers| - 1]) && NoByte(answers[|answers| - 2]) then 1 else 0
  }

  /** No answer is a fault, and each was given to an unfinished frame. */
  predicate Orderly(n: nat, answers: seq<WriteAnswer>) {
    answers == []
    || (var init := answers[..|answers| - 1];
        !answers[|answers| - 1].Broken? && Cursor(n, init) < n && Orderly(n, init))
  }

  lemma Snoc(n: nat, answers: seq<WriteAnswer>, a: WriteAnswer)
    ensures Orderly(n, answers + [a]) <==> !a.Broken? && Cursor(n, answers) < n && Orderly(n, answers)
    ensures Cursor(n, answers + [a]) == Cursor(n, answers) + Taken(a, n - Cursor(n, answers))
    ensures Resumes(answers + [a]) ==
            Resumes(answers) + if answers != [] && Accepting(a) && NoByte(answers[|answers| - 1]) then 1 else 0
  {
    assert (answers + [a])[..|answers|] == answers;
  }

  // ---------------------------------------------------------------------------------------------
  // The stepped machine

  datatype FrameWrite = FrameWrite(
    n: nat,
    written: nat,
    resumePending: bool,
    resumeCycles: nat,
    writtenAtBudget: nat,
    frameCeiling: nat,
    budgetDeadline: nat,
    writeAttempts: nat,
    wouldBlocks: nat,
    consecutiveNoProgress: nat,
    beganAt: nat)

  datatype StepOutcome = WroteWhole | WrotePartial | StepWouldBlock | StepFault

  datatype Verdict = KeepWaiting | GaveUpAligned | GaveUpMidTail

  function Begin(n: nat, now: nat, ceiling: nat): FrameWrite {
    FrameWrite(n, 0, false, 0, 0, ceiling, Min(now + WRITE_TIMEOUT_MS, ceiling), 0, 0, 0, now)
  }

  function StepWritable(s: FrameWrite, a: WriteAnswer, now: nat): (FrameWrite, StepOutcome)
    requires s.written <= s.n
  {
    var s0 := s.(writeAttempts := s.writeAttempts + 1);
    if Accepting(a) then
      var s1 := s0.(consecutiveNoProgress := 0, written := s.written + Taken(a, s.n - s.written));
      var s2 := if s.resumePending then s1.(resumeCycles := s.resumeCycles + 1, resumePending := false) else s1;
      if s2.written < s2.n then
        (s2.(writtenAtBudget := s2.written, budgetDeadline := Min(now + WRITE_TIMEOUT_MS, s2.frameCeiling)),
         WrotePartial)
      else
        (s2, WroteWhole)
    else if NoByte(a) then
      (s0.(wouldBlocks := s.wouldBlocks + 1, consecutiveNoProgress := s.consecutiveNoProgress + 1,
           resumePending := true),
       StepWouldBlock)
    else
      (s0, StepFault)
  }

  function Classify(written: nat): Verdict {
    if written == 0 then GaveUpAligned else GaveUpMidTail
  }

  function CheckDeadlines(s: FrameWrite, t: nat): (FrameWrite, Verdict) {
    if t >= s.frameCeiling then
      (s, Classify(s.written))
    else if t >= s.budgetDeadline then
      if s.written > s.writtenAtBudget then
        (s.(writtenAtBudget := s.written, budgetDeadline := Min(t + WRITE_TIMEOUT_MS, s.frameCeiling)), KeepWaiting)
      else
        (s, Classify(s.written))
    else
      (s, KeepWaiting)
  }

  /** Writability is claimed and no byte taken, too often in a row. */
  predicate SpinGuardTripped(s: FrameWrite) {
    s.consecutiveNoProgress >= SPIN_GUARD_THRESHOLD
  }

  function NextDeadline(s: FrameWrite): nat {
    Min(s.budgetDeadline, s.frameCeiling)
  }

  /** The machine after a list of answers, the i-th given at time `times[i]`. */
  function Steps(s: FrameWrite, answers: seq<WriteAnswer>, times: seq<nat>): (r: FrameWrite)
    requires s.written <= s.n && |times| == |answers|
    ensures r.written <= r.n && r.n == s.n
  {
    if answers == [] then s
    else
      var k := |answers| - 1;
      StepWritable(Steps(s, answers[..k], times[..k]), answers[k], times[k]).0
  }

  /** Cursor and resume count of the stepped machine are those of its answers, at any times. */
  lemma {:induction false} SteppedMeaning(n: nat, now: nat, ceiling: nat, answers: seq<WriteAnswer>, times: seq<nat>)
    requires |times| == |answers| && Orderly(n, answers)
    ensures var s := Steps(Begin(n, now, ceiling), answers, times);
            s.written == Cursor(n, answers) && s.resumeCycles == Resumes(answers)
            && s.resumePending == (answers != [] && NoByte(answers[|answers| - 1]))
            && s.writeAttempts == |answers|
  {
    if answers != [] {
      var k := |answers| - 1;
      SteppedMeaning(n, now, ceiling, answers[..k], times[..k]);
      assert answers == answers[..k] + [answers[k]];
      Snoc(n, answers[..k], answers[k]);
    }
  }

  // ---------------------------------------------------------------------------------------------
  // The blocking loop

  /** The three answer streams. The loop reads each in order. */
  datatype Env = Env(answers: nat -> WriteAnswer, ready: nat -> Writable, clock: nat -> nat)

  /** The loop's locals, how many answers of each stream it has used, and the deadlines it gave its waits. */
  datatype Loop = Loop(
    written: nat,
    resumePending: bool,
    resumeCycles: nat,
    zeroProgressReady: nat,
    deadline: nat,
    writtenAtLastWait: nat,
    asked: nat,
    waits: nat,
    ticks: nat,
    deadlines: seq<nat>)

  datatype SendResult = Sent | BackpressureAligned | MidTailDead | Fault | EncodeFailed

  function GiveUp(written: nat): SendResult {
    if written == 0 then BackpressureAligned else MidTailDead
  }

  predicate LoopOk(n: nat, l: Loop) {
    l.writtenAtLastWait <= l.written <= n && l.zeroProgressReady <= MAX_ZERO_PROGRESS_READY
  }

  /** An accepting write: advance, count a pending resume, re-arm the budget while unfinished. */
  function AfterAccept(n: nat, ceiling: nat, env: Env, l: Loop, a: WriteAnswer): (r: Loop)
    requires LoopOk(n, l) && l.written < n && Accepting(a)
    ensures LoopOk(n, r) && r.written > l.written
  {
    var w := l.written + Taken(a, n - l.written);
    var l1 := l.(written := w, zeroProgressReady := 0, asked := l.asked + 1,
                 resumeCycles := l.resumeCycles + if l.resumePending then 1 else 0, resumePending := false);
    if w < n then
      l1.(deadline := Min(env.clock(l.ticks) + WRITE_TIMEOUT_MS, ceiling), ticks := l.ticks + 1)
    else
      l1
  }

  /** One pass of the loop: it returns, or goes round again. */
  datatype Pass = Return(r: SendResult, l: Loop) | Again(l: Loop)

  /** How one writability wait is read. */
  datatype WaitStep = StepReady | StepProgressed | StepStalled | StepWaitFault

  function WaitForWritable(w: Writable, written: nat, writtenAtLastWait: nat): WaitStep {
    match w
    case Ready => StepReady
    case WaitTimedOut => if written > writtenAtLastWait then StepProgressed else StepStalled
    case WaitFault => StepWaitFault
  }

  /** The shared wait after a write that took no byte. */
  function AfterWait(n: nat, ceiling: nat, env: Env, l: Loop): (p: Pass)
    requires LoopOk(n, l) && l.written < n && l.zeroProgressReady < MAX_ZERO_PROGRESS_READY
    ensures p.Again? ==> LoopOk(n, p.l)
    ensures p.Return? ==> p.l.written < n && p.r != Sent && p.r != EncodeFailed
  {
    var l1 := l.(waits := l.waits + 1, deadlines := l.deadlines + [l.deadline]);
    match WaitForWritable(env.ready(l.waits), l.written, l.writtenAtLastWait)
    case StepReady =>
      Again(l1.(zeroProgressReady := l.zeroProgressReady + 1, resumePending := true))
    case StepProgressed =>
      Again(l1.(writtenAtLastWait := l.written, ticks := l.ticks + 1,
                deadline := Min(env.clock(l.ticks) + WRITE_TIMEOUT_MS, ceiling),
                zeroProgressReady := 0, resumePending := true))
    case StepStalled => Return(GiveUp(l.written), l1)
    case StepWaitFault => Return(Fault, l1)
  }

  function OnePass(n: nat, ceiling: nat, env: Env, l: Loop): (p: Pass)
    requires LoopOk(n, l)
    ensures p.Again? ==> LoopOk(n, p.l) && Closer(n, l, p.l)
    ensures p.Return? ==> p.l.written <= n && (p.r == Sent <==> p.l.written == n) && p.r != EncodeFailed
    ensures l.written <= p.l.written
  {
    if l.written == n then
      Return(Sent, l)
    else
      var l0 := l.(ticks := l.ticks + 1);
      if env.clock(l.ticks) >= ceiling then Return(GiveUp(l.written), l0)
      else if l.zeroProgressReady >= MAX_ZERO_PROGRESS_READY then Return(GiveUp(l.written), l0)
      else
        var a := env.answers(l.asked);
        if Accepting(a) then Again(AfterAccept(n, ceiling, env, l0, a))
        else if a.Broken? then Return(Fault, l0.(asked := l.asked + 1))
        else AfterWait(n, ceiling, env, l0.(asked := l.asked + 1))
  }

  /** The measure of a loop state strictly falls: bytes left, then whether a timed-out wait may still
      be forgiven, then the ready-without-progress allowance. Time plays no part. */
  predicate Closer(n: nat, l: Loop, l': Loop) {
    || l'.written > l.written
    || (l'.written == l.written && l.written > l.writtenAtLastWait && l'.writtenAtLastWait == l.written)
    || (l'.written == l.written && l'.writtenAtLastWait == l.writtenAtLastWait
        && l'.zeroProgressReady > l.zeroProgressReady)
  }

  /** The loop from a given state to its return, with no fuel: every writer, waiter and clock. */
  function BlockingLoop(n: nat, ceiling: nat, env: Env, l: Loop): (res: (SendResult, Loop))
    requires LoopOk(n, l)
    ensures res.1.written <= n && (res.0 == Sent <==> res.1.written == n) && res.0 != EncodeFailed
    decreases n - l.written,
              if l.written > l.writtenAtLastWait then 1 else 0,
              MAX_ZERO_PROGRESS_READY - l.zeroProgressReady
  {
    match OnePass(n, ceiling, env, l)
    case Return(r, l') => (r, l')
    case Again(l') => BlockingLoop(n, ceiling, env, l')
  }

  /** The loop's first state: the first budget is armed from one clock read. */
  function BlockingStart(ceiling: nat, env: Env, asked: nat, waits: nat, ticks: nat): Loop {
    Loop(0, false, 0, 0, Min(env.clock(ticks) + WRITE_TIMEOUT_MS, ceiling), 0, asked, waits, ticks + 1, [])
  }

  /** The writer answers with indices in [from, to). */
  function Answers(env: Env, from: nat, to: nat): (s: seq<WriteAnswer>)
    requires from <= to
    ensures |s| == to - from
  {
    seq(to - from, i requires 0 <= i < to - from => env.answers(from + i))
  }

  /** What a list of answers given to an unfinished frame comes to. */
  predicate Means(n: nat, past: seq<WriteAnswer>, written: nat, resumeCycles: nat, resumePending: bool) {
    && Orderly(n, past)
    && written == Cursor(n, past)
    && resumeCycles == Resumes(past)
    && resumePending == (past != [] && NoByte(past[|past| - 1]))
  }

  lemma MeansNext(n: nat, past: seq<WriteAnswer>, l: Loop, a: WriteAnswer)
    requires Means(n, past, l.written, l.resumeCycles, l.resumePending) && l.written < n && !a.Broken?
    ensures Means(n, past + [a], l.written + Taken(a, n - l.written),
                  l.resumeCycles + if l.resumePending && Accepting(a) then 1 else 0, NoByte(a))
  {
    Snoc(n, past, a);
  }

  lemma AnswersNext(env: Env, from: nat, to: nat)
    requires from <= to
    ensures Answers(env, from, to + 1) == Answers(env, from, to) + [env.answers(to)]
  {
  }

  /** Loop state `l` is what the answers so far mean. */
  predicate Follows(n: nat, env: Env, start: nat, l: Loop) {
    && start <= l.asked
    && LoopOk(n, l)
    && Means(n, Answers(env, start, l.asked), l.written, l.resumeCycles, l.resumePending)
  }

  /** What the blocking loop returned is what the answers it used mean. */
  predicate Returned(n: nat, env: Env, start: nat, r: SendResult, l: Loop) {
    && start <= l.asked
    && var used := Answers(env, start, l.asked);
       && l.written == Cursor(n, used)
       && l.resumeCycles == Resumes(used)
       && (r == Sent <==> l.written == n)
       && (r == BackpressureAligned ==> l.written == 0)
       && (r == MidTailDead ==> 0 < l.written < n)
       && (r != Fault ==> Orderly(n, used))
  }

  /** A return after an answer that took no byte. */
  lemma ReturnAfterNoByte(n: nat, env: Env, start: nat, l: Loop, l': Loop, r: SendResult)
    requires Follows(n, env, start, l) && l.written < n && !Accepting(env.answers(l.asked))
    requires l'.asked == l.asked + 1 && l'.written == l.written && l'.resumeCycles == l.resumeCycles
    requires r == Fault || (r == GiveUp(l.written) && !env.answers(l.asked).Broken?)
    ensures Returned(n, env, start, r, l')
  {
    AnswersNext(env, start, l.asked);
    Snoc(n, Answers(env, start, l.asked), env.answers(l.asked));
  }

  /** The loop keeps `Follows` from one write attempt to the next. */
  lemma FollowsNext(n: nat, env: Env, start: nat, l: Loop, l': Loop)
    requires Follows(n, env, start, l) && l.written < n
    requires l'.asked == l.asked + 1 && LoopOk(n, l') && env.answers(l.asked) != Broken
    requires l'.written == l.written + Taken(env.answers(l.asked), n - l.written)
    requires l'.resumePending == NoByte(env.answers(l.asked))
    requires l'.resumeCycles
             == l.resumeCycles + if l.resumePending && Accepting(env.answers(l.asked)) then 1 else 0
    ensures Follows(n, env, start, l')
  {
    AnswersNext(env, start, l.asked);
    MeansNext(n, Answers(env, start, l.asked), l, env.answers(l.asked));
  }

  lemma PassMeaning(n: nat, ceiling: nat, env: Env, start: nat, l: Loop)
    requires Follows(n, env, start, l)
    ensures var p := OnePass(n, ceiling, env, l);
            if p.Again? then Follows(n, env, start, p.l) else Returned(n, env, start, p.r, p.l)
  {
    var p := OnePass(n, ceiling, env, l);
    if l.written < n && p.l.asked > l.asked {
      if p.Again? {
        FollowsNext(n, env, start, l, p.l);
      } else {
        ReturnAfterNoByte(n, env, start, l, p.l, p.r);
      }
    }
  }

  /** What the blocking loop returns, in terms of the answers it used and nothing else. */
  lemma {:induction false} BlockingMeaning(n: nat, ceiling: nat, env: Env, start: nat, l: Loop)
    requires Follows(n, env, start, l)
    ensures var (r, l') := BlockingLoop(n, ceiling, env, l); Returned(n, env, start, r, l')
    decreases n - l.written,
              if l.written > l.writtenAtLastWait then 1 else 0,
              MAX_ZERO_PROGRESS_READY - l.zeroProgressReady
  {
    PassMeaning(n, ceiling, env, start, l);
    var p := OnePass(n, ceiling, env, l);
    if p.Again? {
      BlockingMeaning(n, ceiling, env, start, p.l);
    }
  }

  /** The two forms agree: on the writer answers the blocking loop used, unless the socket faulted,
      the stepped machine reaches the same cursor with the same resume count, whenever it is woken. */
  lemma FormsAgree(n: nat, ceiling: nat, env: Env, asked: nat, waits: nat, ticks: nat,
                   began: nat, stepCeiling: nat, times: seq<nat>)
    requires n > 0
    requires |times| == BlockingLoop(n, ceiling, env, BlockingStart(ceiling, env, asked, waits, ticks)).1.asked - asked
    requires BlockingLoop(n, ceiling, env, BlockingStart(ceiling, env, asked, waits, ticks)).0 != Fault
    ensures var l' := BlockingLoop(n, ceiling, env, BlockingStart(ceiling, env, asked, waits, ticks)).1;
            var s := Steps(Begin(n, began, stepCeiling), Answers(env, asked, l'.asked), times);
            s.written == l'.written && s.resumeCycles == l'.resumeCycles
  {
    var l := BlockingStart(ceiling, env, asked, waits, ticks);
    BlockingMeaning(n, ceiling, env, asked, l);
    var l' := BlockingLoop(n, ceiling, env, l).1;
    SteppedMeaning(n, began, stepCeiling, Answers(env, asked, l'.asked), times);
  }

  // ---------------------------------------------------------------------------------------------
  // Deadlines of an unfinished frame

  /** What the event loop does to an in-flight frame. */
  datatype Wake = Attempt(a: WriteAnswer, at: nat) | Housekeep(at: nat) | ResetSpinGuard

  function Woken(s: FrameWrite, w: Wake): (r: FrameWrite)
    requires s.written <= s.n
    ensures r.written <= r.n == s.n && r.written >= s.written
  {
    match w
    case Attempt(a, at) => StepWritable(s, a, at).0
    case Housekeep(at) => CheckDeadlines(s, at).0
    case ResetSpinGuard => s.(consecutiveNoProgress := 0)
  }

  function Driven(n: nat, began: nat, ceiling: nat, wakes: seq<Wake>): (s: FrameWrite)
    ensures s.written <= s.n == n
  {
    if wakes == [] then Begin(n, began, ceiling)
    else Woken(Driven(n, began, ceiling, wakes[..|wakes| - 1]), wakes[|wakes| - 1])
  }

  /** When the cursor last moved, or when the frame began. */
  function LastProgress(began: nat, wakes: seq<Wake>): nat {
    if wakes == [] then began
    else
      var w := wakes[|wakes| - 1];
      if w.Attempt? && Accepting(w.a) then w.at else LastProgress(began, wakes[..|wakes| - 1])
  }

  /** Bytes the attempts of a history took. */
  function Attempts(wakes: seq<Wake>): seq<WriteAnswer> {
    if wakes == [] then []
    else
      var w := wakes[|wakes| - 1];
      Attempts(wakes[..|wakes| - 1]) + if w.Attempt? then [w.a] else []
  }

  predicate Armed(s: FrameWrite, began: nat, ceiling: nat, last: nat, cursor: nat) {
    && s.writtenAtBudget == s.written == cursor
    && s.frameCeiling == ceiling && s.beganAt == began
    && s.budgetDeadline == Min(last + 750, ceiling)
  }

  lemma ArmedKept(s: FrameWrite, w: Wake, began: nat, ceiling: nat, last: nat, cursor: nat)
    requires s.written <= s.n && Armed(s, began, ceiling, last, cursor)
    requires Woken(s, w).written < s.n
    ensures Armed(Woken(s, w), began, ceiling, if w.Attempt? && Accepting(w.a) then w.at else last,
                  cursor + if w.Attempt? then Taken(w.a, s.n - cursor) else 0)
  {
  }

  /** In every reachable state of an unfinished frame the budget is armed at the last progress. */
  lemma {:induction false} BudgetArmedAtLastProgress(n: nat, began: nat, ceiling: nat, wakes: seq<Wake>)
    requires Driven(n, began, ceiling, wakes).written < n
    ensures Armed(Driven(n, began, ceiling, wakes), began, ceiling, LastProgress(began, wakes),
                  Cursor(n, Attempts(wakes)))
  {
    if wakes != [] {
      var init := wakes[..|wakes| - 1];
      var w := wakes[|wakes| - 1];
      var s := Driven(n, began, ceiling, init);
      BudgetArmedAtLastProgress(n, began, ceiling, init);
      ArmedKept(s, w, began, ceiling, LastProgress(began, init), Cursor(n, Attempts(init)));
      if w.Attempt? {
        Snoc(n, Attempts(init), w.a);
      } else {
        assert Attempts(wakes) == Attempts(init);
      }
    }
  }

  /** So the housekeeping check gives up exactly from the announced deadline on, changes nothing, and
      keeps the socket exactly when no byte of the frame was accepted. */
  lemma DeadlineExactness(n: nat, began: nat, ceiling: nat, wakes: seq<Wake>, t: nat)
    requires Driven(n, began, ceiling, wakes).written < n
    ensures var s := Driven(n, began, ceiling, wakes);
            var (s', v) := CheckDeadlines(s, t);
            && s' == s
            && NextDeadline(s) == Min(LastProgress(began, wakes) + 750, ceiling)
            && (v != KeepWaiting <==> t >= NextDeadline(s))
            && (v == GaveUpAligned <==> t >= NextDeadline(s) && Cursor(n, Attempts(wakes)) == 0)
  {
    BudgetArmedAtLastProgress(n, began, ceiling, wakes);
  }

  /** An attempt at any point of any history says what the writer's answers have come to: the whole frame, part
      of it, nothing this time, or a fault. */
  lemma OutcomeIsExact(n: nat, began: nat, ceiling: nat, wakes: seq<Wake>, a: WriteAnswer, at: nat)
    requires Driven(n, began, ceiling, wakes).written < n
    ensures var out := StepWritable(Driven(n, began, ceiling, wakes), a, at).1;
            var taken := Cursor(n, Attempts(wakes) + [a]);
            && (out == WroteWhole <==> taken == n)
            && (out == WrotePartial <==> Cursor(n, Attempts(wakes)) < taken < n)
            && (out == StepWouldBlock <==> NoByte(a))
            && (out == StepFault <==> a == Broken)
  {
    BudgetArmedAtLastProgress(n, began, ceiling, wakes);
    Snoc(n, Attempts(wakes), a);
  }

  /** Refused attempts since the last accepted byte or the last reset of the guard. */
  function RefusalRun(wakes: seq<Wake>): nat {
    if wakes == [] then 0
    else
      var w := wakes[|wakes| - 1];
      if w.ResetSpinGuard? || (w.Attempt? && Accepting(w.a)) then 0
      else RefusalRun(wakes[..|wakes| - 1]) + if w.Attempt? && NoByte(w.a) then 1 else 0
  }

  function Refused(answers: seq<WriteAnswer>): nat {
    if answers == [] then 0
    else Refused(answers[..|answers| - 1]) + if NoByte(answers[|answers| - 1]) then 1 else 0
  }

  /** The forensic counters and the spin guard say what happened, over every history. */
  lemma {:induction false} CountersTellTheHistory(n: nat, began: nat, ceiling: nat, wakes: seq<Wake>)
    ensures var s := Driven(n, began, ceiling, wakes);
            && s.writeAttempts == |Attempts(wakes)|
            && s.wouldBlocks == Refused(Attempts(wakes))
            && s.consecutiveNoProgress == RefusalRun(wakes)
            && (SpinGuardTripped(s) <==> RefusalRun(wakes) >= 8)
  {
    if wakes != [] {
      var init := wakes[..|wakes| - 1];
      var w := wakes[|wakes| - 1];
      CountersTellTheHistory(n, began, ceiling, init);
      if w.Attempt? {
        assert Attempts(wakes)[..|Attempts(init)|] == Attempts(init);
      } else {
        assert Attempts(wakes) == Attempts(init);
      }
      hide Attempts, Refused, RefusalRun, Driven;
      CountersStep(Driven(n, began, ceiling, init), w);
    }
  }

  lemma CountersStep(s: FrameWrite, w: Wake)
    requires s.written <= s.n
    ensures var s' := Woken(s, w);
            && s'.writeAttempts == s.writeAttempts + (if w.Attempt? then 1 else 0)
            && s'.wouldBlocks == s.wouldBlocks + (if w.Attempt? && NoByte(w.a) then 1 else 0)
            && s'.consecutiveNoProgress ==
               if w.ResetSpinGuard? || (w.Attempt? && Accepting(w.a)) then 0
               else s.consecutiveNoProgress + if w.Attempt? && NoByte(w.a) then 1 else 0
  {
  }

  /** The blocking loop's state after `k` passes, or where it returned. */
  function AfterPasses(n: nat, ceiling: nat, env: Env, l: Loop, k: nat): (r: Loop)
    requires LoopOk(n, l)
    ensures r.written <= n
    decreases k
  {
    if k == 0 then l
    else
      var p := OnePass(n, ceiling, env, l);
      if p.Again? then AfterPasses(n, ceiling, env, p.l, k - 1) else p.l
  }

  /** No wait of the blocking loop is ever asked to last past the frame's ceiling. */
  lemma {:induction false} WaitsNeverPassCeiling(n: nat, ceiling: nat, env: Env, l: Loop, k: nat)
    requires LoopOk(n, l) && l.deadline <= ceiling
    ensures AfterPasses(n, ceiling, env, l, k).deadline <= ceiling
    decreases k
  {
    if k > 0 {
      var p := OnePass(n, ceiling, env, l);
      if p.Again? {
        WaitsNeverPassCeiling(n, ceiling, env, p.l, k - 1);
      }
    }
  }
}
