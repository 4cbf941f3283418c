/**
 * Whole runs of the sender: any sequence of frames, sent by either form, against any writer. What
 * reaches the wire is the encodings of the frames reported sent, in order, then at most the accepted
 * prefix of the one frame in flight.
 */
module SenderRuns {
  import opened Bytes
  import opened Wire
  import opened FrameStream
  import opened StreamSend

  /** The frame in flight and its cursor. */
  datatype InFlight = NoFrame | InFlight(frame: StreamFrame, state: FrameWrite)

  /** `kept` is whether the socket may still be used. */
  datatype Sender = Sender(kept: bool, wire: seq<Byte>, sent: seq<StreamFrame>, current: InFlight)

  datatype SenderEvent =
    | BeginFrame(f: StreamFrame, now: nat, ceiling: nat)
    | OnWake(w: Wake)
    | SendBlocking(f: StreamFrame, ceiling: nat, env: Env, asked: nat, waits: nat, ticks: nat)
    | DropSocket

  const FRESH: Sender := Sender(true, [], [], NoFrame)

  /** A write attempt on the frame in flight. */
  function Attempted(s: Sender, a: WriteAnswer, at: nat): Sender
    requires s.current.InFlight? && Consistent(s)
  {
    var st := s.current.state;
    var (st', out) := StepWritable(st, a, at);
    var s' := s.(wire := s.wire + FrameBytes(s.current.frame)[st.written..st'.written]);
    match out
    case WroteWhole => s'.(sent := s.sent + [s.current.frame], current := NoFrame)
    case StepFault => s'.(kept := false)
    case _ => s'.(current := InFlight(s.current.frame, st'))
  }

  /** The deadline check on the frame in flight: an aligned verdict drops the frame and keeps the
      socket, a mid-tail one clears the socket. */
  function Housekept(s: Sender, t: nat): Sender
    requires s.current.InFlight?
  {
    var (st', v) := CheckDeadlines(s.current.state, t);
    match v
    case KeepWaiting => s.(current := InFlight(s.current.frame, st'))
    case GaveUpAligned => s.(current := NoFrame)
    case GaveUpMidTail => s.(kept := false)
  }

  /** A whole blocking send between frames. */
  function SentBlocking(s: Sender, f: StreamFrame, ceiling: nat, env: Env, asked: nat, waits: nat, ticks: nat): Sender {
    var n := |FrameBytes(f)|;
    var (r, l) := BlockingLoop(n, ceiling, env, BlockingStart(ceiling, env, asked, waits, ticks));
    var s' := s.(wire := s.wire + FrameBytes(f)[..l.written]);
    match r
    case Sent => s'.(sent := s.sent + [f])
    case BackpressureAligned => s'
    case _ => s'.(kept := false, current := InFlight(f, Begin(n, 0, ceiling).(written := l.written)))
  }

  function Next(s: Sender, e: SenderEvent): Sender
    requires Consistent(s)
  {
    if !s.kept then s
    else match e
      case BeginFrame(f, now, ceiling) =>
        if s.current.NoFrame? then s.(current := InFlight(f, Begin(|FrameBytes(f)|, now, ceiling))) else s
      case OnWake(w) =>
        if s.current.NoFrame? then s
        else (match w
              case Attempt(a, at) => Attempted(s, a, at)
              case Housekeep(at) => Housekept(s, at)
              case ResetSpinGuard => s.(current := InFlight(s.current.frame, Woken(s.current.state, w))))
      case SendBlocking(f, ceiling, env, asked, waits, ticks) =>
        if s.current.NoFrame? then SentBlocking(s, f, ceiling, env, asked, waits, ticks) else s
      case DropSocket => s.(kept := false)
  }

  /** The frame in flight is unfinished. */
  predicate Consistent(s: Sender) {
    s.current.InFlight? ==>
      s.current.state.n == |FrameBytes(s.current.frame)| && s.current.state.written < s.current.state.n
  }

  /** Bytes of the frame in flight already on the wire. */
  function Tail(s: Sender): seq<Byte>
    requires Consistent(s)
  {
    if s.current.NoFrame? then [] else FrameBytes(s.current.frame)[..s.current.state.written]
  }

  predicate Aligned(s: Sender) {
    Consistent(s) && s.wire == AllBytes(s.sent) + Tail(s)
  }

  lemma AttemptKeepsAligned(s: Sender, a: WriteAnswer, at: nat)
    requires Aligned(s) && s.current.InFlight?
    ensures Aligned(Attempted(s, a, at))
  {
    hide FrameBytes;
    var st := s.current.state;
    var st' := StepWritable(st, a, at).0;
    PrefixGrows(AllBytes(s.sent), FrameBytes(s.current.frame), st.written, st'.written);
    AllBytesSnoc(s.sent, s.current.frame);
  }

  lemma BlockingKeepsAligned(s: Sender, f: StreamFrame, ceiling: nat, env: Env, asked: nat, waits: nat, ticks: nat)
    requires Aligned(s) && s.current.NoFrame?
    ensures var s' := SentBlocking(s, f, ceiling, env, asked, waits, ticks);
            Aligned(s') && (s'.kept ==> s'.current.NoFrame?)
  {
    var n := |FrameBytes(f)|;
    var l0 := BlockingStart(ceiling, env, asked, waits, ticks);
    BlockingMeaning(n, ceiling, env, asked, l0);
    var (r, l) := BlockingLoop(n, ceiling, env, l0);
    var bytes := FrameBytes(f);
    assert bytes[..n] == bytes;
    AllBytesSnoc(s.sent, f);
    assert s.wire == AllBytes(s.sent);
  }

  lemma NextKeepsAligned(s: Sender, e: SenderEvent)
    requires Aligned(s)
    ensures Aligned(Next(s, e))
  {
    hide FrameBytes;
    if s.kept {
      match e
      case BeginFrame(f, now, ceiling) =>
      case OnWake(w) =>
        if s.current.InFlight? && w.Attempt? {
          AttemptKeepsAligned(s, w.a, w.at);
        }
      case SendBlocking(f, ceiling, env, asked, waits, ticks) =>
        if s.current.NoFrame? {
          BlockingKeepsAligned(s, f, ceiling, env, asked, waits, ticks);
        }
      case DropSocket =>
    }
  }

  lemma NextKeepsConsistent(s: Sender, e: SenderEvent)
    requires Consistent(s)
    ensures Consistent(Next(s, e))
  {
    hide FrameBytes;
  }

  /** The sender after a list of events from a fresh connection. */
  function Ran(events: seq<SenderEvent>): (s: Sender)
    ensures Consistent(s)
  {
    if events == [] then FRESH
    else
      var s := Ran(events[..|events| - 1]);
      NextKeepsConsistent(s, events[|events| - 1]);
      Next(s, events[|events| - 1])
  }

  /** Over any run, the wire is the encodings of the frames reported sent and then a strict prefix of
      the frame in flight: nothing at all, on a kept socket with none. */
  lemma {:induction false} SenderNeverDesyncs(events: seq<SenderEvent>)
    ensures var s := Ran(events);
            && s.wire == AllBytes(s.sent) + Tail(s)
            && (s.current.NoFrame? ==> s.wire == AllBytes(s.sent))
            && (s.current.InFlight? ==> Tail(s) < FrameBytes(s.current.frame))
  {
    hide FrameBytes;
    if events != [] {
      SenderNeverDesyncs(events[..|events| - 1]);
      NextKeepsAligned(Ran(events[..|events| - 1]), events[|events| - 1]);
    }
  }

  /** A frame goes into flight on a kept, idle socket; each attempt puts on the wire exactly what the writer took;
      the frame is reported sent exactly when that was the last of it, and the socket is lost exactly on a fault. */
  lemma AttemptIsExact(events: seq<SenderEvent>, a: WriteAnswer, at: nat)
    requires Ran(events).kept && Ran(events).current.InFlight?
    ensures var s, s' := Ran(events), Ran(events + [OnWake(Attempt(a, at))]);
            var bytes, from := FrameBytes(s.current.frame), s.current.state.written;
            && from < |bytes|
            && s'.wire == s.wire + bytes[from..from + Taken(a, |bytes| - from)]
            && s'.sent == (if from + Taken(a, |bytes| - from) == |bytes| then s.sent + [s.current.frame] else s.sent)
            && (s'.kept <==> a != Broken)
            && (s'.current.NoFrame? <==> from + Taken(a, |bytes| - from) == |bytes|)
  {
    hide FrameBytes;
    assert (events + [OnWake(Attempt(a, at))])[..|events|] == events;
  }

  lemma BeginIsExact(events: seq<SenderEvent>, f: StreamFrame, now: nat, ceiling: nat)
    requires Ran(events).kept && Ran(events).current.NoFrame?
    ensures var s' := Ran(events + [BeginFrame(f, now, ceiling)]);
            && s'.kept && s'.wire == Ran(events).wire && s'.sent == Ran(events).sent
            && s'.current == InFlight(f, Begin(|FrameBytes(f)|, now, ceiling))
  {
    hide FrameBytes;
    assert (events + [BeginFrame(f, now, ceiling)])[..|events|] == events;
  }

  /** A give-up at any point of any run: it adds no byte, reports nothing sent, and keeps the socket
      exactly when no byte of the frame had been accepted. */
  lemma GiveUpIsExact(events: seq<SenderEvent>, t: nat)
    requires Ran(events).kept && Ran(events).current.InFlight?
    requires CheckDeadlines(Ran(events).current.state, t).1 != KeepWaiting
    ensures var s := Ran(events);
            var s' := Ran(events + [OnWake(Housekeep(t))]);
            && s'.wire == s.wire && s'.sent == s.sent
            && (s'.kept <==> s.wire == AllBytes(s.sent))
            && (s'.kept ==> s'.current.NoFrame?)
  {
    hide FrameBytes;
    var s := Ran(events);
    assert (events + [OnWake(Housekeep(t))])[..|events|] == events;
    SenderNeverDesyncs(events);
    assert |s.wire| == |AllBytes(s.sent)| + s.current.state.written;
    assert s.current.state.written == 0 ==> s.wire == AllBytes(s.sent);
  }

  /** The blocking form's give-up likewise: aligned keeps the wire as it was; anything but `Sent` and
      an aligned give-up loses the socket; a kept socket is always between frames. */
  lemma BlockingGiveUpIsExact(events: seq<SenderEvent>, f: StreamFrame, ceiling: nat, env: Env,
                              asked: nat, waits: nat, ticks: nat)
    requires Ran(events).kept && Ran(events).current.NoFrame?
    ensures var s := Ran(events);
            var s' := Ran(events + [SendBlocking(f, ceiling, env, asked, waits, ticks)]);
            var r := BlockingLoop(|FrameBytes(f)|, ceiling, env, BlockingStart(ceiling, env, asked, waits, ticks)).0;
            && (r == Sent ==> s'.kept && s'.sent == s.sent + [f] && s'.wire == s.wire + FrameBytes(f))
            && (r == BackpressureAligned ==> s' == s)
            && (s'.kept <==> r == Sent || r == BackpressureAligned)
  {
    hide FrameBytes;
    var e := SendBlocking(f, ceiling, env, asked, waits, ticks);
    assert (events + [e])[..|events|] == events;
    BlockingIsExact(Ran(events), f, ceiling, env, asked, waits, ticks);
  }

  lemma BlockingIsExact(s: Sender, f: StreamFrame, ceiling: nat, env: Env, asked: nat, waits: nat, ticks: nat)
    requires s.kept && s.current.NoFrame?
    ensures var s' := SentBlocking(s, f, ceiling, env, asked, waits, ticks);
            var r := BlockingLoop(|FrameBytes(f)|, ceiling, env, BlockingStart(ceiling, env, asked, waits, ticks)).0;
            && (r == Sent ==> s'.kept && s'.sent == s.sent + [f] && s'.wire == s.wire + FrameBytes(f))
            && (r == BackpressureAligned ==> s' == s)
            && (s'.kept <==> r == Sent || r == BackpressureAligned)
  {
    hide FrameBytes;
    var n := |FrameBytes(f)|;
    BlockingMeaning(n, ceiling, env, asked, BlockingStart(ceiling, env, asked, waits, ticks));
    assert FrameBytes(f)[..n] == FrameBytes(f);
    assert s.wire + [] == s.wire;
  }
}
