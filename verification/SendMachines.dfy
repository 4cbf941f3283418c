/** The send code itself: the blocking loop and the stepped cursor, each proved against StreamSend. */
module SendMachines {
  import opened Bytes
  import opened Wire
  import opened StreamSend

  /** The injected writer, readiness waiter and clock. */
  class Link {
    const env: Env
    var asked: nat
    var waits: nat
    var ticks: nat
    var wire: seq<Byte>
    var deadlines: seq<nat>

    constructor (env: Env)
      ensures this.env == env && asked == waits == ticks == 0 && wire == [] && deadlines == []
    {
      this.env := env;
      asked, waits, ticks, wire, deadlines := 0, 0, 0, [], [];
    }

    /** A non-blocking write: takes a prefix of `data`, never more than was offered. */
    method Write(data: seq<Byte>) returns (a: WriteAnswer)
      modifies this`asked, this`wire
      ensures asked == old(asked) + 1
      ensures var x := env.answers(old(asked)); a == if x.Accept? then Accept(Taken(x, |data|)) else x
      ensures if Accepting(a) then wire == old(wire) + data[..a.m] else wire == old(wire)
    {
      a := env.answers(asked);
      asked := asked + 1;
      if a.Accept? && a.m > 0 {
        a := Accept(Min(a.m, |data|));
      }
      if a.Accept? && a.m > 0 {
        wire := wire + data[..a.m];
      }
    }

    method WaitWritable(deadline: nat) returns (r: Writable)
      modifies this`waits, this`deadlines
      ensures waits == old(waits) + 1 && r == env.ready(old(waits))
      ensures deadlines == old(deadlines) + [deadline]
    {
      r := env.ready(waits);
      waits := waits + 1;
      deadlines := deadlines + [deadline];
    }

    method Now() returns (t: nat)
      modifies this`ticks
      ensures ticks == old(ticks) + 1 && t == env.clock(old(ticks))
    {
      t := env.clock(ticks);
      ticks := ticks + 1;
    }
  }

  /** The blocking send. Its result, its resume count, what it put on the wire and how far it read each
      answer stream are those of `BlockingLoop`; it terminates for every link. */
  method WriteFrameClassifiedAt(link: Link, f: StreamFrame, buf: array<Byte>, frameCeiling: nat)
    returns (r: SendResult, resumeCycles: nat)
    modifies link, buf
    ensures r == EncodeFailed <==> buf.Length < |FrameBytes(f)|
    ensures r == EncodeFailed ==> link.wire == old(link.wire) && resumeCycles == 0
    ensures r != EncodeFailed ==>
              var (r', l) := BlockingLoop(|FrameBytes(f)|, frameCeiling, link.env,
                               BlockingStart(frameCeiling, link.env, old(link.asked), old(link.waits),
                                             old(link.ticks)));
              && r == r' && resumeCycles == l.resumeCycles && InStep(link, l)
              && link.wire == old(link.wire) + FrameBytes(f)[..l.written]
              && link.deadlines == old(link.deadlines) + l.deadlines
  {
    var encoded := EncodeFrame(f, buf);
    if encoded.Err? {
      return EncodeFailed, 0;
    }
    var n := encoded.value;
    assert buf[..n] == FrameBytes(f);
    r, resumeCycles := WriteEncoded(link, buf[..n], frameCeiling);
  }

  /** The shared wait: a timed-out wait after progress re-arms the budget. */
  method AwaitWritable(link: Link, written: nat, writtenAtLastWait: nat, deadline: nat, frameCeiling: nat)
    returns (step: WaitStep, writtenAtLastWait': nat, deadline': nat)
    modifies link`waits, link`ticks, link`deadlines
    ensures link.deadlines == old(link.deadlines) + [deadline]
    ensures step == WaitForWritable(link.env.ready(old(link.waits)), written, writtenAtLastWait)
    ensures link.waits == old(link.waits) + 1
    ensures step == StepProgressed ==>
              && writtenAtLastWait' == written && link.ticks == old(link.ticks) + 1
              && deadline' == Min(link.env.clock(old(link.ticks)) + WRITE_TIMEOUT_MS, frameCeiling)
    ensures step != StepProgressed ==>
              writtenAtLastWait' == writtenAtLastWait && deadline' == deadline && link.ticks == old(link.ticks)
  {
    writtenAtLastWait', deadline' := writtenAtLastWait, deadline;
    var w := link.WaitWritable(deadline);
    step := WaitForWritable(w, written, writtenAtLastWait);
    if step == StepProgressed {
      writtenAtLastWait' := written;
      var t := link.Now();
      deadline' := Min(t + WRITE_TIMEOUT_MS, frameCeiling);
    }
  }

  /** The answer streams have been read as far as `l` says. */
  ghost predicate InStep(link: Link, l: Loop)
    reads link
  {
    l.asked == link.asked && l.waits == link.waits && l.ticks == link.ticks
  }

  /** One pass of the write loop over its locals `l`. */
  method WritePass(link: Link, bytes: seq<Byte>, frameCeiling: nat, l: Loop) returns (p: Pass)
    requires LoopOk(|bytes|, l) && l.written < |bytes| && InStep(link, l)
    modifies link
    ensures p == OnePass(|bytes|, frameCeiling, link.env, l) && InStep(link, p.l)
    ensures link.wire == old(link.wire) + bytes[l.written..p.l.written]
    ensures l.deadlines <= p.l.deadlines
    ensures link.deadlines == old(link.deadlines) + p.l.deadlines[|l.deadlines|..]
  {
    var n := |bytes|;
    var t := link.Now();
    var l' := l.(ticks := l.ticks + 1);
    if t >= frameCeiling || l'.zeroProgressReady >= MAX_ZERO_PROGRESS_READY {
      return Return(GiveUp(l'.written), l');
    }
    var a := link.Write(bytes[l'.written..]);
    l' := l'.(asked := l'.asked + 1);
    if a.Accept? && a.m > 0 {
      assert bytes[l.written..][..a.m] == bytes[l.written..l.written + a.m];
      l' := l'.(written := l'.written + a.m, zeroProgressReady := 0);
      if l'.resumePending {
        l' := l'.(resumeCycles := l'.resumeCycles + 1, resumePending := false);
      }
      if l'.written < n {
        t := link.Now();
        l' := l'.(deadline := Min(t + WRITE_TIMEOUT_MS, frameCeiling), ticks := l'.ticks + 1);
      }
      return Again(l');
    }
    if a.Broken? {
      return Return(Fault, l');
    }
    p := AwaitPass(link, n, frameCeiling, l');
  }

  /** The rest of a pass whose write took no byte. */
  method AwaitPass(link: Link, n: nat, frameCeiling: nat, l: Loop) returns (p: Pass)
    requires LoopOk(n, l) && l.written < n && l.zeroProgressReady < MAX_ZERO_PROGRESS_READY && InStep(link, l)
    modifies link`waits, link`ticks, link`deadlines
    ensures p == AfterWait(n, frameCeiling, link.env, l) && InStep(link, p.l)
    ensures p.l.deadlines == l.deadlines + [l.deadline] && link.deadlines == old(link.deadlines) + [l.deadline]
  {
    var step, wlw, deadline := AwaitWritable(link, l.written, l.writtenAtLastWait, l.deadline, frameCeiling);
    var l' := l.(waits := l.waits + 1, deadlines := l.deadlines + [l.deadline]);
    match step {
      case StepReady =>
        p := Again(l'.(zeroProgressReady := l.zeroProgressReady + 1, resumePending := true));
      case StepProgressed =>
        p := Again(l'.(writtenAtLastWait := wlw, deadline := deadline, ticks := l.ticks + 1,
                       zeroProgressReady := 0, resumePending := true));
      case StepStalled =>
        p := Return(GiveUp(l.written), l');
      case StepWaitFault =>
        p := Return(Fault, l');
    }
  }

  /** The write loop over an encoded frame. */
  method WriteEncoded(link: Link, bytes: seq<Byte>, frameCeiling: nat)
    returns (r: SendResult, resumeCycles: nat)
    modifies link
    ensures var (r', l) := BlockingLoop(|bytes|, frameCeiling, link.env,
                             BlockingStart(frameCeiling, link.env, old(link.asked), old(link.waits), old(link.ticks)));
            && r == r' && resumeCycles == l.resumeCycles && InStep(link, l)
            && link.wire == old(link.wire) + bytes[..l.written]
            && link.deadlines == old(link.deadlines) + l.deadlines
  {
    var n := |bytes|;
    ghost var start := BlockingStart(frameCeiling, link.env, link.asked, link.waits, link.ticks);
    var asked, waits, ticks := link.asked, link.waits, link.ticks;
    var t := link.Now();
    var l := Loop(0, false, 0, 0, Min(t + WRITE_TIMEOUT_MS, frameCeiling), 0, asked, waits, ticks + 1, []);
    while l.written < n
      invariant LoopOk(n, l) && InStep(link, l)
      invariant BlockingLoop(n, frameCeiling, link.env, l) == BlockingLoop(n, frameCeiling, link.env, start)
      invariant link.wire == old(link.wire) + bytes[..l.written]
      invariant link.deadlines == old(link.deadlines) + l.deadlines
      decreases n - l.written,
                if l.written > l.writtenAtLastWait then 1 else 0,
                MAX_ZERO_PROGRESS_READY - l.zeroProgressReady
    {
      var p := WritePass(link, bytes, frameCeiling, l);
      PrefixGrows(old(link.wire), bytes, l.written, p.l.written);
      match p {
        case Return(r', l') =>
          return r', l'.resumeCycles;
        case Again(l') =>
          l := l';
      }
    }
    r, resumeCycles := Sent, l.resumeCycles;
  }

  /** The stepped cursor. */
  class FrameWriteState {
    var n: nat
    var written: nat
    var resumePending: bool
    var resumeCycles: nat
    var writtenAtBudget: nat
    var frameCeiling: nat
    var budgetDeadline: nat
    var writeAttempts: nat
    var wouldBlocks: nat
    var consecutiveNoProgress: nat
    var beganAt: nat

    function View(): FrameWrite
      reads this
    {
      FrameWrite(n, written, resumePending, resumeCycles, writtenAtBudget, frameCeiling, budgetDeadline,
                 writeAttempts, wouldBlocks, consecutiveNoProgress, beganAt)
    }

    /** A cursor over the first `n` bytes of a buffer, armed at `started`. */
    constructor (n: nat, started: nat, ceiling: nat)
      ensures View() == Begin(n, started, ceiling)
    {
      this.n, written, resumePending, resumeCycles, writtenAtBudget := n, 0, false, 0, 0;
      frameCeiling, budgetDeadline := ceiling, Min(started + WRITE_TIMEOUT_MS, ceiling);
      writeAttempts, wouldBlocks, consecutiveNoProgress, beganAt := 0, 0, 0, started;
    }

    /** Encode a frame into the caller's buffer and arm a cursor over it; a frame that does not fit leaves
        no cursor. */
    static method BeginAt(f: StreamFrame, buf: array<Byte>, started: nat, ceiling: nat) returns (st: FrameWriteState?)
      modifies buf
      ensures st != null <==> buf.Length >= |FrameBytes(f)|
      ensures st != null ==>
                && fresh(st) && st.View() == Begin(|FrameBytes(f)|, started, ceiling)
                && buf[..] == FrameBytes(f) + old(buf[..])[|FrameBytes(f)|..]
    {
      hide FrameBytes;
      var encoded := EncodeFrame(f, buf);
      if encoded.Err? {
        return null;
      }
      st := new FrameWriteState(encoded.value, started, ceiling);
    }

    /** One non-blocking attempt on the unsent tail of `buf`. */
    method Step(link: Link, buf: array<Byte>) returns (out: StepOutcome)
      requires written < n <= buf.Length
      modifies this, link
      ensures View() == StepWritable(old(View()), link.env.answers(old(link.asked)), link.env.clock(old(link.ticks))).0
      ensures out == StepWritable(old(View()), link.env.answers(old(link.asked)), link.env.clock(old(link.ticks))).1
      ensures link.wire == old(link.wire) + buf[old(written)..written]
      ensures link.asked == old(link.asked) + 1
      ensures link.ticks == old(link.ticks) + if out == WrotePartial then 1 else 0
    {
      var a := Offer(link, buf);
      out := Settle(link, a);
    }

    /** Offer the unsent tail to the writer. */
    method Offer(link: Link, buf: array<Byte>) returns (a: WriteAnswer)
      requires written < n <= buf.Length
      modifies link`asked, link`wire
      ensures link.asked == old(link.asked) + 1
      ensures var x := link.env.answers(old(link.asked));
              && a == (if x.Accept? then Accept(Taken(x, n - written)) else x)
              && link.wire == old(link.wire) + buf[written..written + Taken(x, n - written)]
    {
      var offered := buf[written..n];
      a := link.Write(offered);
      if a.Accept? && a.m > 0 {
        assert offered[..a.m] == buf[written..written + a.m];
      }
    }

    /** Account for the writer's answer. */
    method Settle(link: Link, a: WriteAnswer) returns (out: StepOutcome)
      requires written < n && (a.Accept? ==> a.m <= n - written)
      modifies this, link`ticks
      ensures View() == StepWritable(old(View()), a, link.env.clock(old(link.ticks))).0
      ensures out == StepWritable(old(View()), a, link.env.clock(old(link.ticks))).1
      ensures link.ticks == old(link.ticks) + if out == WrotePartial then 1 else 0
    {
      writeAttempts := writeAttempts + 1;
      if a.Accept? && a.m > 0 {
        NoteProgress(a.m);
        if written < n {
          var t := link.Now();
          Rearm(t);
          out := WrotePartial;
        } else {
          out := WroteWhole;
        }
      } else if a.Broken? {
        out := StepFault;
      } else {
        NoteRefusal();
        out := StepWouldBlock;
      }
    }

    /** No byte was accepted: arm a resume and lengthen the run of refusals. */
    method NoteRefusal()
      modifies this`wouldBlocks, this`consecutiveNoProgress, this`resumePending
      ensures wouldBlocks == old(wouldBlocks) + 1 && consecutiveNoProgress == old(consecutiveNoProgress) + 1
      ensures resumePending
    {
      wouldBlocks := wouldBlocks + 1;
      consecutiveNoProgress := consecutiveNoProgress + 1;
      resumePending := true;
    }

    /** Bytes were accepted: advance the cursor and count a pending resume. */
    method NoteProgress(m: nat)
      modifies this`consecutiveNoProgress, this`written, this`resumeCycles, this`resumePending
      ensures consecutiveNoProgress == 0 && written == old(written) + m && !resumePending
      ensures resumeCycles == old(resumeCycles) + if old(resumePending) then 1 else 0
    {
      consecutiveNoProgress := 0;
      written := written + m;
      if resumePending {
        resumeCycles := resumeCycles + 1;
        resumePending := false;
      }
    }

    /** Reset the per-wait budget at time `t`, clamped to the ceiling. */
    method Rearm(t: nat)
      modifies this`writtenAtBudget, this`budgetDeadline
      ensures writtenAtBudget == written && budgetDeadline == Min(t + WRITE_TIMEOUT_MS, frameCeiling)
    {
      writtenAtBudget := written;
      budgetDeadline := Min(t + WRITE_TIMEOUT_MS, frameCeiling);
    }

    /** The housekeeping check at time `t`. */
    method CheckDeadlines(t: nat) returns (v: Verdict)
      modifies this`writtenAtBudget, this`budgetDeadline
      ensures (View(), v) == StreamSend.CheckDeadlines(old(View()), t)
    {
      if t >= frameCeiling {
        return Classify(written);
      }
      if t >= budgetDeadline {
        if written > writtenAtBudget {
          Rearm(t);
          return KeepWaiting;
        }
        return Classify(written);
      }
      v := KeepWaiting;
    }

    method ResetSpinGuard()
      modifies this`consecutiveNoProgress
      ensures View() == old(View()).(consecutiveNoProgress := 0)
    {
      consecutiveNoProgress := 0;
    }
  }
}
