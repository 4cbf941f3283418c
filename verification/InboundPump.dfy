/** The inbound code itself — accumulator, handshake flag, consume loop, drain, pump — proved against
    Reassembly. The sink and the socket are adversaries with arbitrary answer streams. */
module InboundPump {
  import opened Bytes
  import opened Postcard
  import opened Wire
  import opened Reassembly

  /** `buf[..valid]` are bytes read but not yet consumed. */
  class FrameAccumulator {
    const buf: array<Byte>
    var valid: nat

    ghost predicate Valid()
      reads this
    {
      buf.Length == ACCUM_CAP && valid <= buf.Length
    }

    function Held(): seq<Byte>
      requires Valid()
      reads this, buf
    {
      buf[..valid]
    }

    constructor ()
      ensures Valid() && Held() == [] && fresh(buf) && buf.Length == 4098
    {
      buf := new Byte[ACCUM_CAP];
      valid := 0;
    }

    /** Between drains, bytes held are either a truncated tail or a whole frame held back by the sink;
        this tells which. */
    method HasCompleteFrameHeld(ghost w: Usize, ghost hello: bool) returns (r: bool)
      requires Valid()
      ensures Stuck(w, Held(), hello) ==> (r <==> HeadOf(w, Held(), hello).Whole?)
      ensures HeadOf(w, Held(), hello).Partial? ==> !r
    {
      hide DecodeInbound;
      if valid < 2 {
        return false;
      }
      var hi: nat := buf[1];
      r := valid >= 2 + buf[0] + 256 * hi;
    }

    /** Read the length prefix at the head. */
    method Peek(ghost w: Usize, ghost hello: bool) returns (p: Peeked)
      requires Valid()
      ensures p == TooShort <==> HeadOf(w, Held(), hello).Partial?
      ensures p == TooLong ==> HeadOf(w, Held(), hello) == Faulty(LengthOverLimit, hello)
      ensures p.Sized? ==> 2 <= p.len <= valid
                           && HeadOf(w, Held(), hello) == Judge(DecodeInbound(w, Held()[..p.len]), p.len, hello)
    {
      hide Judge, DecodeInbound;
      if valid < 2 {
        return TooShort;
      }
      var hi: nat := buf[1];
      var payloadLen := buf[0] + 256 * hi;
      if payloadLen > MAX_FRAME_BYTES {
        return TooLong;
      }
      p := if valid < 2 + payloadLen then TooShort else Sized(2 + payloadLen);
    }

    method Reset()
      requires Valid()
      modifies this`valid
      ensures Valid() && Held() == []
    {
      valid := 0;
    }

    /** Drop the first `n` bytes and move the rest down. */
    method Compact(n: nat)
      requires Valid() && n <= valid
      modifies this`valid, buf
      ensures Valid() && Held() == old(Held())[n..]
    {
      forall i | 0 <= i < valid - n {
        buf[i] := buf[n + i];
      }
      valid := valid - n;
    }

    /** Append a chunk a read left in the free space. */
    method Append(chunk: seq<Byte>)
      requires Valid() && |chunk| <= buf.Length - valid
      modifies this`valid, buf
      ensures Valid() && Held() == old(Held()) + chunk
    {
      forall i | 0 <= i < |chunk| {
        buf[valid + i] := chunk[i];
      }
      valid := valid + |chunk|;
    }
  }

  /** What the length prefix says about the bytes held. */
  datatype Peeked = TooShort | TooLong | Sized(len: nat)

  class InboundConnectionState {
    var seenHello: bool
    var inboundFrames: U32

    constructor ()
      ensures !seenHello && inboundFrames == 0
    {
      seenHello, inboundFrames := false, 0;
    }

    /** A fresh socket must greet again. */
    method Reset()
      modifies this
      ensures !seenHello && inboundFrames == 0
    {
      seenHello, inboundFrames := false, 0;
    }
  }

  /** A sink that takes the k-th frame offered to it exactly when `ask(k)`. */
  class Sink {
    const ask: nat -> bool
    var asked: nat
    var calls: seq<SinkCall>

    constructor (ask: nat -> bool)
      ensures this.ask == ask && asked == 0 && calls == []
    {
      this.ask := ask;
      asked, calls := 0, [];
    }

    method Accept(pcm: seq<Byte>) returns (enqueued: bool)
      modifies this
      ensures enqueued == ask(old(asked)) && asked == old(asked) + 1
      ensures calls == if enqueued then old(calls) + [AcceptPcm(pcm)] else old(calls)
    {
      enqueued := ask(asked);
      asked := asked + 1;
      if enqueued {
        calls := calls + [AcceptPcm(pcm)];
      }
    }

    method Control(call: SinkCall)
      modifies this`calls
      ensures calls == old(calls) + [call]
    {
      calls := calls + [call];
    }
  }

  /** What the next read of a socket does. */
  datatype Plan = Give(k: nat) | Block | Close | Break

  function Answer(plan: Plan, acc: seq<Byte>, unread: seq<Byte>): (r: ReadAnswer)
    requires |acc| <= ACCUM_CAP
    ensures HasRoom(acc) ==> ReadFits(acc, r)
  {
    match plan
    case Give(k) => Grant(acc, unread, k)
    case Block => Nothing
    case Close => Eof
    case Break => IoError
  }

  class Socket {
    const plans: nat -> Plan
    var answered: nat
    var unread: seq<Byte>

    constructor (plans: nat -> Plan, stream: seq<Byte>)
      ensures this.plans == plans && answered == 0 && unread == stream
    {
      this.plans := plans;
      answered, unread := 0, stream;
    }

    method Read(acc: seq<Byte>) returns (r: ReadAnswer)
      requires HasRoom(acc)
      modifies this
      ensures r == Answer(plans(old(answered)), acc, old(unread)) && ReadFits(acc, r)
      ensures answered == old(answered) + 1
      ensures if r.Data? then r.chunk + unread == old(unread) else unread == old(unread)
    {
      r := Answer(plans(answered), acc, unread);
      answered := answered + 1;
      if r.Data? {
        unread := unread[|r.chunk|..];
      }
    }
  }

  /** What became of a whole frame. */
  datatype Route = Past(routed: bool) | Held | Rejected(fault: ProtocolFault)

  /** Decode one whole frame and act on it. */
  method RouteFrame(w: Usize, frame: seq<Byte>, sink: Sink, state: InboundConnectionState) returns (r: Route)
    modifies sink, state
    ensures var h := Judge(DecodeInbound(w, frame), |frame|, old(state.seenHello));
            && (h.Faulty? <==> r.Rejected?)
            && (h.Faulty? ==> r.fault == h.fault && state.seenHello == h.hello)
            && (h.Whole? ==> state.seenHello == HelloAfter(h.act, old(state.seenHello)))
            && (h.Whole? ==> (r.Held? <==> h.act.Offer? && !sink.ask(old(sink.asked))))
            && (r.Past? ==> r.routed == h.act.Offer?)
            && sink.asked == old(sink.asked) + (if h.Whole? && h.act.Offer? then 1 else 0)
            && sink.calls == old(sink.calls) + (if r.Past? then CallsOf(h.act) else [])
    ensures state.inboundFrames == WrappingAdd(old(state.inboundFrames), if r.Past? && r.routed then 1 else 0)
  {
    hide DecodeInbound;
    match DecodeInbound(w, frame) {
      case Ok(InAudio(_, _, _, pcm)) =>
        if !state.seenHello {
          return Rejected(AudioBeforeHello);
        }
        var enqueued := sink.Accept(pcm);
        if !enqueued {
          return Held;
        }
        state.inboundFrames := WrappingAdd(state.inboundFrames, 1);
        r := Past(true);
      case Ok(InHello(version, format)) =>
        if version != AUDIO_PROTOCOL_VERSION {
          return Rejected(VersionMismatch(version));
        }
        state.seenHello := true;
        var check := CheckInboundFormat(DEVICE_PLAYBACK_FORMAT, format);
        if check != Match {
          return Rejected(FormatMismatch(check));
        }
        r := Past(false);
      case Ok(InEndOfAudio) =>
        if !state.seenHello {
          return Rejected(EndOfAudioBeforeHello);
        }
        sink.Control(MarkEndOfAudio);
        r := Past(false);
      case Ok(InFlush) =>
        if !state.seenHello {
          return Rejected(FlushBeforeHello);
        }
        sink.Control(FlushPlaybackNow);
        r := Past(false);
      case Ok(InOther(_)) =>
        r := Past(false);
      case Err(e) =>
        r := Rejected(Undecodable(e));
    }
  }

  /** The loop's progress: `calls` and `routed` so far, then the reference on what is held. */
  ghost predicate Underway(w: Usize, c: Consumed, calls: seq<SinkCall>, routed: nat,
                           held: seq<Byte>, hello: bool, ask: nat -> bool, k: nat)
  {
    c == Then(calls, routed, Consume(w, held, hello, ask, k))
  }

  lemma UnderwayStep(w: Usize, c: Consumed, calls: seq<SinkCall>, routed: nat,
                     held: seq<Byte>, hello: bool, ask: nat -> bool, k: nat)
    requires Underway(w, c, calls, routed, held, hello, ask, k)
    requires HeadOf(w, held, hello).Whole?
    requires !(HeadOf(w, held, hello).act.Offer? && !ask(k))
    ensures var h := HeadOf(w, held, hello);
            Underway(w, c, calls + CallsOf(h.act), routed + (if h.act.Offer? then 1 else 0), held[h.len..],
                     HelloAfter(h.act, hello), ask, k + if h.act.Offer? then 1 else 0)
  {
    hide HeadOf;
    var h := HeadOf(w, held, hello);
    var n := if h.act.Offer? then 1 else 0;
    var d := Consume(w, held[h.len..], HelloAfter(h.act, hello), ask, k + n);
    assert Consume(w, held, hello, ask, k) == Then(CallsOf(h.act), n, d);
    assert calls + (CallsOf(h.act) + d.calls) == calls + CallsOf(h.act) + d.calls;
  }

  lemma UnderwayStarts(w: Usize, held: seq<Byte>, hello: bool, ask: nat -> bool, k: nat)
    ensures Underway(w, Consume(w, held, hello, ask, k), [], 0, held, hello, ask, k)
  {
    hide Consume;
    assert [] + Consume(w, held, hello, ask, k).calls == Consume(w, held, hello, ask, k).calls;
  }

  /** The loop stops without a fault: nothing whole at the head, or a frame refused. */
  lemma UnderwayStops(w: Usize, c: Consumed, calls: seq<SinkCall>, routed: nat,
                      held: seq<Byte>, hello: bool, ask: nat -> bool, k: nat)
    requires Underway(w, c, calls, routed, held, hello, ask, k)
    requires Stuck(w, held, hello) && (HeadOf(w, held, hello).Whole? ==> !ask(k))
    ensures c == Consumed(held, hello, calls, k + (if HeadOf(w, held, hello).Whole? then 1 else 0), routed, Fine)
  {
    hide HeadOf;
  }

  /** The loop stops at a fault. */
  lemma UnderwayFaults(w: Usize, c: Consumed, calls: seq<SinkCall>, routed: nat,
                       held: seq<Byte>, hello: bool, ask: nat -> bool, k: nat)
    requires Underway(w, c, calls, routed, held, hello, ask, k)
    requires HeadOf(w, held, hello).Faulty?
    ensures c == Consumed([], HeadOf(w, held, hello).hello, calls, k, routed, Fault(HeadOf(w, held, hello).fault))
  {
    hide HeadOf;
  }

  /** One pass of the consume loop. */
  datatype Pass = Stop | Abort(fault: ProtocolFault) | Onward(routed: bool)

  method ConsumeOne(w: Usize, accum: FrameAccumulator, sink: Sink, state: InboundConnectionState) returns (p: Pass)
    requires accum.Valid()
    modifies accum`valid, accum.buf, sink, state
    ensures accum.Valid()
    ensures var h := HeadOf(w, old(accum.Held()), old(state.seenHello));
            match p
            case Stop =>
              && Stuck(w, old(accum.Held()), old(state.seenHello)) && (h.Whole? ==> !sink.ask(old(sink.asked)))
              && accum.Held() == old(accum.Held()) && state.seenHello == old(state.seenHello)
              && sink.calls == old(sink.calls)
              && sink.asked == old(sink.asked) + (if h.Whole? then 1 else 0)
              && state.inboundFrames == old(state.inboundFrames)
            case Abort(e) =>
              && h == Faulty(e, state.seenHello) && accum.Held() == []
              && sink.calls == old(sink.calls) && sink.asked == old(sink.asked)
              && state.inboundFrames == old(state.inboundFrames)
            case Onward(routed) =>
              && h.Whole? && !(h.act.Offer? && !sink.ask(old(sink.asked))) && routed == h.act.Offer?
              && accum.Held() == old(accum.Held())[h.len..]
              && state.seenHello == HelloAfter(h.act, old(state.seenHello))
              && sink.calls == old(sink.calls) + CallsOf(h.act)
              && sink.asked == old(sink.asked) + (if routed then 1 else 0)
              && state.inboundFrames == WrappingAdd(old(state.inboundFrames), if routed then 1 else 0)
  {
    hide Judge, DecodeInbound, HeadOf;
    ghost var held := accum.Held();
    var peek := accum.Peek(w, state.seenHello);
    if peek == TooShort {
      return Stop;
    }
    if peek == TooLong {
      accum.Reset();
      return Abort(LengthOverLimit);
    }
    assert accum.buf[..peek.len] == held[..peek.len];
    var r := RouteFrame(w, accum.buf[..peek.len], sink, state);
    match r {
      case Held =>
        return Stop;
      case Rejected(e) =>
        accum.Reset();
        return Abort(e);
      case Past(routed) =>
        accum.Compact(peek.len);
        return Onward(routed);
    }
  }

  /** Route whole frames off the accumulator until none is left, one is refused, or one is a fault. */
  method ConsumeFrames(w: Usize, accum: FrameAccumulator, sink: Sink, state: InboundConnectionState)
    returns (out: Outcome, framesDecoded: nat)
    requires accum.Valid()
    modifies accum`valid, accum.buf, sink, state
    ensures accum.Valid()
    ensures var c := Consume(w, old(accum.Held()), old(state.seenHello), sink.ask, old(sink.asked));
            && accum.Held() == c.rest && state.seenHello == c.hello
            && sink.calls == old(sink.calls) + c.calls && sink.asked == c.asked
            && out == c.out && framesDecoded == c.routed
            && state.inboundFrames == WrappingAdd(old(state.inboundFrames), c.routed)
  {
    hide Consume, Judge, DecodeInbound, Underway, HeadOf;
    ghost var c := Consume(w, accum.Held(), state.seenHello, sink.ask, sink.asked);
    ghost var calls: seq<SinkCall> := [];
    framesDecoded := 0;
    UnderwayStarts(w, accum.Held(), state.seenHello, sink.ask, sink.asked);
    while true
      invariant accum.Valid()
      invariant Underway(w, c, calls, framesDecoded, accum.Held(), state.seenHello, sink.ask, sink.asked)
      invariant sink.calls == old(sink.calls) + calls
      invariant state.inboundFrames == WrappingAdd(old(state.inboundFrames), framesDecoded)
      decreases |accum.Held()|
    {
      ghost var held, hello, k := accum.Held(), state.seenHello, sink.asked;
      var p := ConsumeOne(w, accum, sink, state);
      match p {
        case Stop =>
          UnderwayStops(w, c, calls, framesDecoded, held, hello, sink.ask, k);
          return Fine, framesDecoded;
        case Abort(e) =>
          UnderwayFaults(w, c, calls, framesDecoded, held, hello, sink.ask, k);
          return Fault(e), framesDecoded;
        case Onward(routed) =>
          UnderwayStep(w, c, calls, framesDecoded, held, hello, sink.ask, k);
          calls := calls + CallsOf(HeadOf(w, held, hello).act);
          if routed {
            framesDecoded := framesDecoded + 1;
          }
      }
    }
  }

  /** One non-blocking drain: at most one read, then the consume loop — which runs even when nothing was
      read, so a held frame is offered again. */
  method DrainInbound(w: Usize, socket: Socket, accum: FrameAccumulator, sink: Sink, state: InboundConnectionState)
    returns (d: Drained)
    requires accum.Valid()
    modifies socket, accum`valid, accum.buf, sink, state
    ensures accum.Valid()
    ensures var c := Conn(old(accum.Held()), old(state.seenHello), old(sink.calls), old(sink.asked));
            var r := Answer(socket.plans(old(socket.answered)), c.acc, old(socket.unread));
            && d == Drain(w, c, r, sink.ask)
            && d.conn == Conn(accum.Held(), state.seenHello, sink.calls, sink.asked)
            && (if HasRoom(c.acc) && r.Data? then r.chunk + socket.unread == old(socket.unread)
                else socket.unread == old(socket.unread))
            && socket.answered == old(socket.answered) + if HasRoom(c.acc) then 1 else 0
  {
    hide Consume, HeadOf;
    var bytesRead := 0;
    if accum.valid < accum.buf.Length {
      var r := socket.Read(accum.Held());
      match r {
        case Data(chunk) =>
          accum.Append(chunk);
          bytesRead := |chunk|;
        case Nothing =>
        case Eof =>
          return Drained(Conn(accum.Held(), state.seenHello, sink.calls, sink.asked), 0, 0, UnexpectedEof);
        case IoError =>
          return Drained(Conn(accum.Held(), state.seenHello, sink.calls, sink.asked), 0, 0, ReadFailed);
      }
    }
    var out, routed := ConsumeFrames(w, accum, sink, state);
    d := Drained(Conn(accum.Held(), state.seenHello, sink.calls, sink.asked), bytesRead, routed,
                 if out.Fine? then Quiet else ProtocolError(out.fault));
  }

  // ---------------------------------------------------------------------------------------------
  // The pump

  /** A connection, its unread bytes, and how many reads the socket has answered. */
  datatype Line = Line(conn: Conn, unread: seq<Byte>, answered: nat)

  function Drawn(w: Usize, l: Line, plans: nat -> Plan, ask: nat -> bool): (r: (Drained, Line))
    requires |l.conn.acc| <= ACCUM_CAP
    ensures |r.1.conn.acc| <= ACCUM_CAP && r.1.conn == r.0.conn
  {
    var r := Answer(plans(l.answered), l.conn.acc, l.unread);
    var d := Drain(w, l.conn, r, ask);
    var room := HasRoom(l.conn.acc);
    (d, Line(d.conn, if room && r.Data? then l.unread[|r.chunk|..] else l.unread, l.answered + if room then 1 else 0))
  }

  /** Drains until one makes no progress, one fails, or `steps` have run. */
  function Pump(w: Usize, l: Line, plans: nat -> Plan, ask: nat -> bool, steps: nat): (Line, DrainEnd, bool)
    requires |l.conn.acc| <= ACCUM_CAP
    decreases steps
  {
    if steps == 0 then (l, Quiet, true)
    else
      var (d, l') := Drawn(w, l, plans, ask);
      if d.end != Quiet then (l', d.end, false)
      else if !MadeProgress(d) then (l', Quiet, false)
      else Pump(w, l', plans, ask, steps - 1)
  }

  /** The line after `k` drains, each whatever came of the one before. */
  function Drains(w: Usize, l: Line, plans: nat -> Plan, ask: nat -> bool, k: nat): (r: Line)
    requires |l.conn.acc| <= ACCUM_CAP
    ensures |r.conn.acc| <= ACCUM_CAP
  {
    if k == 0 then l else Drawn(w, Drains(w, l, plans, ask, k - 1), plans, ask).1
  }

  /** The drain after `k` others ended without error, and read a byte or routed a frame. */
  predicate Productive(w: Usize, l: Line, plans: nat -> Plan, ask: nat -> bool, k: nat)
    requires |l.conn.acc| <= ACCUM_CAP
  {
    var d := Drawn(w, Drains(w, l, plans, ask, k), plans, ask).0;
    d.end == Quiet && (d.bytesRead > 0 || d.routed > 0)
  }

  lemma {:induction false} DrainsShift(w: Usize, l: Line, plans: nat -> Plan, ask: nat -> bool, k: nat)
    requires |l.conn.acc| <= ACCUM_CAP
    ensures Drains(w, Drawn(w, l, plans, ask).1, plans, ask, k) == Drains(w, l, plans, ask, k + 1)
  {
    hide Drawn;
    if k > 0 {
      DrainsShift(w, l, plans, ask, k - 1);
    } else {
      assert Drains(w, l, plans, ask, 0) == l;
    }
  }

  /** The pump goes on exactly as long as it makes progress: it stops behind the first drain that does not,
      with that drain's end, or after the whole allowance, and says which. */
  lemma {:induction false} PumpGoesOn(w: Usize, l: Line, plans: nat -> Plan, ask: nat -> bool, steps: nat)
    returns (k: nat)
    requires |l.conn.acc| <= ACCUM_CAP
    ensures k <= steps && forall j :: 0 <= j < k ==> Productive(w, l, plans, ask, j)
    ensures var (l', end, hitCap) := Pump(w, l, plans, ask, steps);
            && (hitCap <==> k == steps)
            && (hitCap ==> l' == Drains(w, l, plans, ask, steps) && end == Quiet)
            && (!hitCap ==> !Productive(w, l, plans, ask, k) && l' == Drains(w, l, plans, ask, k + 1)
                            && end == Drawn(w, Drains(w, l, plans, ask, k), plans, ask).0.end)
    decreases steps
  {
    hide Drawn;
    k := 0;
    assert Drains(w, l, plans, ask, 0) == l;
    if steps > 0 && Productive(w, l, plans, ask, 0) {
      var l1 := Drawn(w, l, plans, ask).1;
      var i := PumpGoesOn(w, l1, plans, ask, steps - 1);
      k := i + 1;
      forall j | 0 <= j <= k
        ensures Drains(w, l1, plans, ask, j) == Drains(w, l, plans, ask, j + 1)
        ensures Productive(w, l1, plans, ask, j) <==> Productive(w, l, plans, ask, j + 1)
      {
        DrainsShift(w, l, plans, ask, j);
      }
      DrainsShift(w, l, plans, ask, steps - 1);
      forall j | 0 <= j < k ensures Productive(w, l, plans, ask, j) {
        if j > 0 {
          assert Productive(w, l1, plans, ask, j - 1);
        }
      }
    } else if steps > 0 {
      assert Drains(w, l, plans, ask, 1) == Drawn(w, l, plans, ask).1;
    }
  }

  /** Nothing more can be delivered: the head is incomplete or was just refused, and the last read, if
      there was room for one, gave nothing. */
  predicate Exhausted(w: Usize, l: Line, plans: nat -> Plan, ask: nat -> bool)
    requires |l.conn.acc| <= ACCUM_CAP
  {
    && Stuck(w, l.conn.acc, l.conn.hello)
    && (HeadOf(w, l.conn.acc, l.conn.hello).Whole? ==> l.conn.asked > 0 && !ask(l.conn.asked - 1))
    && (HasRoom(l.conn.acc) ==>
          l.answered > 0 && Answer(plans(l.answered - 1), l.conn.acc, l.unread) == Nothing)
  }

  /** The stop signal is sound over a whole pump: a pump that stopped short of its allowance without an
      error left nothing deliverable; one that hit it is still in an orderly state to resume from. */
  lemma {:induction false} PumpStopsExhausted(w: Usize, l: Line, plans: nat -> Plan, ask: nat -> bool, steps: nat)
    requires |l.conn.acc| <= ACCUM_CAP && Stuck(w, l.conn.acc, l.conn.hello)
    ensures var (l', end, hitCap) := Pump(w, l, plans, ask, steps);
            && |l'.conn.acc| <= ACCUM_CAP
            && (end == Quiet ==> Stuck(w, l'.conn.acc, l'.conn.hello))
            && (end == Quiet && !hitCap ==> Exhausted(w, l', plans, ask))
            && (end != Quiet ==> !hitCap)
    decreases steps
  {
    hide Consume, HeadOf;
    if steps > 0 {
      var r := Answer(plans(l.answered), l.conn.acc, l.unread);
      var (d, l') := Drawn(w, l, plans, ask);
      if d.end == Quiet {
        DrainLeavesStuck(w, l.conn, r, ask);
        if MadeProgress(d) {
          PumpStopsExhausted(w, l', plans, ask, steps - 1);
        } else {
          NoProgressMeansIdle(w, l.conn, r, ask);
        }
      }
    }
  }

  /** Pumping, too, only moves along the reference. */
  lemma {:induction false} PumpStaysOnTrack(w: Usize, l: Line, plans: nat -> Plan, ask: nat -> bool, steps: nat,
                                            whole: Parsed)
    requires |l.conn.acc| <= ACCUM_CAP
    requires whole == Before(l.conn.calls, Parse(w, l.conn.acc + l.unread, l.conn.hello))
    ensures var (l', end, _) := Pump(w, l, plans, ask, steps);
            if end.ProtocolError? then whole == Parsed(l'.conn.calls, Failed(end.fault))
            else whole == Before(l'.conn.calls, Parse(w, l'.conn.acc + l'.unread, l'.conn.hello))
    decreases steps
  {
    hide Drawn, Parse, Before;
    if steps > 0 {
      DrawnStaysOnTrack(w, l, plans, ask, whole);
      var (d, l') := Drawn(w, l, plans, ask);
      if d.end == Quiet && MadeProgress(d) {
        PumpStaysOnTrack(w, l', plans, ask, steps - 1, whole);
      }
    }
  }

  lemma DrawnStaysOnTrack(w: Usize, l: Line, plans: nat -> Plan, ask: nat -> bool, whole: Parsed)
    requires |l.conn.acc| <= ACCUM_CAP
    requires whole == Before(l.conn.calls, Parse(w, l.conn.acc + l.unread, l.conn.hello))
    ensures var (d, l') := Drawn(w, l, plans, ask);
            if d.end.ProtocolError? then whole == Parsed(l'.conn.calls, Failed(d.end.fault))
            else whole == Before(l'.conn.calls, Parse(w, l'.conn.acc + l'.unread, l'.conn.hello))
  {
    hide Consume, Parse, Grant;
    var r := Answer(plans(l.answered), l.conn.acc, l.unread);
    var (d, l') := Drawn(w, l, plans, ask);
    var read := HasRoom(l.conn.acc) && r.Data?;
    var acc := if read then l.conn.acc + r.chunk else l.conn.acc;
    AnswerIsPrefix(plans(l.answered), l.conn.acc, l.unread);
    assert acc + l'.unread == l.conn.acc + l.unread;
    ConsumeIsParse(w, acc, l'.unread, l.conn.hello, ask, l.conn.asked);
    var c := Consume(w, acc, l.conn.hello, ask, l.conn.asked);
    BeforeTwice(l.conn.calls, c.calls,
                if c.out.Fine? then Parse(w, c.rest + l'.unread, c.hello) else Parsed([], Failed(c.out.fault)));
  }

  lemma AnswerIsPrefix(plan: Plan, acc: seq<Byte>, unread: seq<Byte>)
    requires |acc| <= ACCUM_CAP
    ensures var r := Answer(plan, acc, unread); r.Data? ==> r.chunk <= unread
  {
  }

  /** Drain until a drain makes no progress or the step allowance is spent. */
  method PumpInbound(w: Usize, socket: Socket, accum: FrameAccumulator, sink: Sink, state: InboundConnectionState,
                     maxSteps: nat)
    returns (end: DrainEnd, hitCap: bool)
    requires accum.Valid()
    modifies socket, accum`valid, accum.buf, sink, state
    ensures accum.Valid()
    ensures var l := Line(Conn(old(accum.Held()), old(state.seenHello), old(sink.calls), old(sink.asked)),
                          old(socket.unread), old(socket.answered));
            (Line(Conn(accum.Held(), state.seenHello, sink.calls, sink.asked), socket.unread, socket.answered),
             end, hitCap)
            == Pump(w, l, socket.plans, sink.ask, maxSteps)
  {
    hide Drain, Answer, HasRoom, MadeProgress;
    ghost var whole := Pump(w, Line(Conn(accum.Held(), state.seenHello, sink.calls, sink.asked),
                                    socket.unread, socket.answered), socket.plans, sink.ask, maxSteps);
    for step := 0 to maxSteps
      invariant accum.Valid()
      invariant whole == Pump(w, Line(Conn(accum.Held(), state.seenHello, sink.calls, sink.asked),
                                      socket.unread, socket.answered), socket.plans, sink.ask, maxSteps - step)
    {
      ghost var l := Line(Conn(accum.Held(), state.seenHello, sink.calls, sink.asked), socket.unread, socket.answered);
      var d := DrainInbound(w, socket, accum, sink, state);
      assert (d, Line(Conn(accum.Held(), state.seenHello, sink.calls, sink.asked), socket.unread, socket.answered))
             == Drawn(w, l, socket.plans, sink.ask);
      if d.end != Quiet {
        return d.end, false;
      }
      if !MadeProgress(d) {
        return Quiet, false;
      }
    }
    end, hitCap := Quiet, true;
  }
}
