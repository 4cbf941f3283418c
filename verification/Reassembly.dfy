/**
 * Inbound reassembly: partial reads gather in an accumulator, whole frames leave it in order, the
 * handshake gates them, and a frame the sink refuses stays at the head. `Parse` is the reference: one
 * pass over the whole byte stream, as if it had arrived at once and the sink never refused.
 */
module Reassembly {
  import opened Bytes
  import opened Postcard
  import opened Wire

  /** The accumulator holds one maximal framed message. */
  const ACCUM_CAP: nat := MAX_FRAME_BYTES + 2

  /** What reaches the playback sink. */
  datatype SinkCall = AcceptPcm(pcm: seq<Byte>) | MarkEndOfAudio | FlushPlaybackNow

  datatype ProtocolFault =
    | LengthOverLimit
    | AudioBeforeHello
    | EndOfAudioBeforeHello
    | FlushBeforeHello
    | VersionMismatch(peer: Byte)
    | FormatMismatch(check: FormatCheck)
    | Undecodable(error: DecodeError)

  /** What a whole frame asks for. Only `Offer` may be refused. */
  datatype Action = Offer(pcm: seq<Byte>) | Emit(call: SinkCall) | Greet | Ignore

  /** The bytes at the head of the accumulator. `hello` in a fault is the handshake flag it leaves. */
  datatype Head = Partial | Faulty(fault: ProtocolFault, hello: bool) | Whole(len: nat, act: Action)

  function Judge(d: Result<InboundFrame, DecodeError>, len: nat, hello: bool): (h: Head)
    ensures h.Whole? ==> h.len == len && (h.act.Emit? ==> !h.act.call.AcceptPcm?)
    ensures !h.Partial?
  {
    match d
    case Err(e) => Faulty(Undecodable(e), hello)
    case Ok(InAudio(_, _, _, pcm)) => if hello then Whole(len, Offer(pcm)) else Faulty(AudioBeforeHello, hello)
    case Ok(InHello(version, format)) =>
      if version != AUDIO_PROTOCOL_VERSION then Faulty(VersionMismatch(version), hello)
      else if CheckInboundFormat(DEVICE_PLAYBACK_FORMAT, format) == Match then Whole(len, Greet)
      else Faulty(FormatMismatch(CheckInboundFormat(DEVICE_PLAYBACK_FORMAT, format)), true)
    case Ok(InEndOfAudio) => if hello then Whole(len, Emit(MarkEndOfAudio)) else Faulty(EndOfAudioBeforeHello, hello)
    case Ok(InFlush) => if hello then Whole(len, Emit(FlushPlaybackNow)) else Faulty(FlushBeforeHello, hello)
    case Ok(InOther(_)) => Whole(len, Ignore)
  }

  function HeadOf(w: Usize, s: seq<Byte>, hello: bool): (h: Head)
    ensures h.Whole? ==> 2 <= h.len <= |s| && h.len <= ACCUM_CAP && (h.act.Emit? ==> !h.act.call.AcceptPcm?)
    ensures h.Partial? ==> |s| < ACCUM_CAP
  {
    if |s| < 2 then Partial
    else
      var n := DeclaredLength(s);
      if n > MAX_FRAME_BYTES then Faulty(LengthOverLimit, hello)
      else if |s| < 2 + n then Partial
      else Judge(DecodeInbound(w, s[..2 + n]), 2 + n, hello)
  }

  function HelloAfter(act: Action, hello: bool): bool {
    hello || act.Greet?
  }

  /** The sink call a routed action makes. */
  function CallsOf(act: Action): seq<SinkCall> {
    match act
    case Offer(pcm) => [AcceptPcm(pcm)]
    case Emit(call) => [call]
    case _ => []
  }

  /** A head that is judged is judged the same whatever arrives behind it. */
  lemma HeadIsLocal(w: Usize, s: seq<Byte>, t: seq<Byte>, hello: bool)
    requires !HeadOf(w, s, hello).Partial?
    ensures HeadOf(w, s + t, hello) == HeadOf(w, s, hello)
  {
    hide DecodeInbound, Judge;
    assert DeclaredLength(s + t) == DeclaredLength(s);
    if DeclaredLength(s) <= MAX_FRAME_BYTES {
      assert (s + t)[..2 + DeclaredLength(s)] == s[..2 + DeclaredLength(s)];
    }
  }

  // ---------------------------------------------------------------------------------------------
  // The reference

  /** How a stream ends: waiting for the rest of a frame, or in a fault. */
  datatype End = Awaiting(rest: seq<Byte>, hello: bool) | Failed(fault: ProtocolFault)

  datatype Parsed = Parsed(calls: seq<SinkCall>, end: End)

  function Before(calls: seq<SinkCall>, p: Parsed): Parsed {
    Parsed(calls + p.calls, p.end)
  }

  function Parse(w: Usize, s: seq<Byte>, hello: bool): Parsed
    decreases |s|
  {
    match HeadOf(w, s, hello)
    case Partial => Parsed([], Awaiting(s, hello))
    case Faulty(e, _) => Parsed([], Failed(e))
    case Whole(len, act) => Before(CallsOf(act), Parse(w, s[len..], HelloAfter(act, hello)))
  }

  // ---------------------------------------------------------------------------------------------
  // consume_frames

  datatype Outcome = Fine | Fault(fault: ProtocolFault)

  /** What one `consume_frames` leaves behind. `asked` counts offers made to the sink. */
  datatype Consumed = Consumed(
    rest: seq<Byte>,
    hello: bool,
    calls: seq<SinkCall>,
    asked: nat,
    routed: nat,
    out: Outcome)

  function Then(calls: seq<SinkCall>, routed: nat, c: Consumed): Consumed {
    c.(calls := calls + c.calls, routed := routed + c.routed)
  }

  /** `ask(k)` is whether the sink takes the k-th frame ever offered to it. */
  function Consume(w: Usize, s: seq<Byte>, hello: bool, ask: nat -> bool, k: nat): (c: Consumed)
    ensures |c.rest| <= |s| && k <= c.asked
    decreases |s|
  {
    match HeadOf(w, s, hello)
    case Partial => Consumed(s, hello, [], k, 0, Fine)
    case Faulty(e, hello') => Consumed([], hello', [], k, 0, Fault(e))
    case Whole(len, act) =>
      if act.Offer? && !ask(k) then
        Consumed(s, hello, [], k + 1, 0, Fine)
      else
        var k' := if act.Offer? then k + 1 else k;
        Then(CallsOf(act), if act.Offer? then 1 else 0, Consume(w, s[len..], HelloAfter(act, hello), ask, k'))
  }

  /** Nothing at the head can move without more bytes or the sink's consent. */
  predicate Stuck(w: Usize, s: seq<Byte>, hello: bool) {
    var h := HeadOf(w, s, hello);
    h.Partial? || (h.Whole? && h.act.Offer?)
  }

  /** What a consume leaves to the reference. */
  function Resumed(w: Usize, c: Consumed, t: seq<Byte>): Parsed {
    if c.out.Fine? then Before(c.calls, Parse(w, c.rest + t, c.hello)) else Parsed(c.calls, Failed(c.out.fault))
  }

  lemma ResumedAfter(w: Usize, calls: seq<SinkCall>, routed: nat, c: Consumed, t: seq<Byte>)
    ensures Resumed(w, Then(calls, routed, c), t) == Before(calls, Resumed(w, c, t))
  {
    hide Parse;
    if c.out.Fine? {
      BeforeTwice(calls, c.calls, Parse(w, c.rest + t, c.hello));
    }
  }

  /** One consume over part of a stream, then the reference over the remainder, is the reference over
      the whole — whatever the sink refused and whatever had not arrived yet. */
  lemma {:induction false} ConsumeIsParse(w: Usize, s: seq<Byte>, t: seq<Byte>, hello: bool, ask: nat -> bool, k: nat)
    ensures Parse(w, s + t, hello) == Resumed(w, Consume(w, s, hello, ask, k), t)
    decreases |s|
  {
    hide HeadOf;
    var h := HeadOf(w, s, hello);
    var c := Consume(w, s, hello, ask, k);
    if !h.Partial? {
      HeadIsLocal(w, s, t, hello);
    }
    if h.Whole? && !(h.act.Offer? && !ask(k)) {
      var k' := if h.act.Offer? then k + 1 else k;
      var hello' := HelloAfter(h.act, hello);
      var c' := Consume(w, s[h.len..], hello', ask, k');
      ConsumeIsParse(w, s[h.len..], t, hello', ask, k');
      assert (s + t)[h.len..] == s[h.len..] + t;
      ResumedAfter(w, CallsOf(h.act), if h.act.Offer? then 1 else 0, c', t);
      assert c == Then(CallsOf(h.act), if h.act.Offer? then 1 else 0, c');
      assert Parse(w, s + t, hello) == Before(CallsOf(h.act), Parse(w, s[h.len..] + t, hello'));
    } else {
      ParseAgain(w, s + t, hello);
    }
  }

  lemma ParseAgain(w: Usize, s: seq<Byte>, hello: bool)
    ensures Before([], Parse(w, s, hello)) == Parse(w, s, hello)
  {
    hide Parse;
    assert [] + Parse(w, s, hello).calls == Parse(w, s, hello).calls;
  }

  /** Between consumes the head is always a strict prefix of a frame or a refused Audio frame. */
  lemma {:induction false} ConsumeLeavesStuck(w: Usize, s: seq<Byte>, hello: bool, ask: nat -> bool, k: nat)
    ensures var c := Consume(w, s, hello, ask, k); c.out.Fine? ==> Stuck(w, c.rest, c.hello)
    decreases |s|
  {
    hide HeadOf;
    var h := HeadOf(w, s, hello);
    if h.Whole? && !(h.act.Offer? && !ask(k)) {
      ConsumeLeavesStuck(w, s[h.len..], HelloAfter(h.act, hello), ask, if h.act.Offer? then k + 1 else k);
    }
  }

  /** From such a head, a consume that routes nothing does nothing. */
  lemma NoRouteNoChange(w: Usize, s: seq<Byte>, hello: bool, ask: nat -> bool, k: nat)
    requires Stuck(w, s, hello)
    requires Consume(w, s, hello, ask, k).routed == 0
    ensures var c := Consume(w, s, hello, ask, k);
            c.rest == s && c.hello == hello && c.calls == [] && c.out.Fine?
            && c.asked == k + (if HeadOf(w, s, hello).Whole? then 1 else 0)
            && (HeadOf(w, s, hello).Whole? ==> !ask(k))
  {
    hide HeadOf;
  }

  /** Audio frames among the calls. */
  function Offers(calls: seq<SinkCall>): nat {
    if calls == [] then 0 else (if calls[0].AcceptPcm? then 1 else 0) + Offers(calls[1..])
  }

  lemma OffersOf(act: Action, calls: seq<SinkCall>)
    requires act.Emit? ==> !act.call.AcceptPcm?
    ensures Offers(CallsOf(act) + calls) == Offers(calls) + if act.Offer? then 1 else 0
  {
    var first := CallsOf(act);
    if first == [] {
      assert first + calls == calls;
    } else {
      assert (first + calls)[1..] == calls;
    }
  }

  /** The sink is asked once for each Audio frame, in order; every frame routed was one it took; and the one it is
      asked for and does not take is the one left at the head. */
  lemma {:induction false} ConsumeAsksExactly(w: Usize, s: seq<Byte>, hello: bool, ask: nat -> bool, k: nat)
    ensures var c := Consume(w, s, hello, ask, k);
            var left := c.out.Fine? && HeadOf(w, c.rest, c.hello).Whole?;
            && c.routed == Offers(c.calls)
            && (forall j :: k <= j < k + c.routed ==> ask(j))
            && c.asked == k + c.routed + (if left then 1 else 0)
            && (left ==> !ask(k + c.routed))
    decreases |s|
  {
    hide HeadOf, Offers;
    OffersOfNone();
    var h := HeadOf(w, s, hello);
    if h.Whole? && !(h.act.Offer? && !ask(k)) {
      var k' := if h.act.Offer? then k + 1 else k;
      var c' := Consume(w, s[h.len..], HelloAfter(h.act, hello), ask, k');
      ConsumeAsksExactly(w, s[h.len..], HelloAfter(h.act, hello), ask, k');
      OffersOf(h.act, c'.calls);
    }
  }

  lemma OffersOfNone()
    ensures Offers([]) == 0
  {
  }

  // ---------------------------------------------------------------------------------------------
  // drain_inbound and whole connections

  /** The receiving side of one connection. */
  datatype Conn = Conn(acc: seq<Byte>, hello: bool, calls: seq<SinkCall>, asked: nat)

  /** What one socket read gives. */
  datatype ReadAnswer = Data(chunk: seq<Byte>) | Nothing | Eof | IoError

  datatype DrainEnd = Quiet | ProtocolError(fault: ProtocolFault) | UnexpectedEof | ReadFailed

  datatype Drained = Drained(conn: Conn, bytesRead: nat, routed: nat, end: DrainEnd)

  predicate MadeProgress(d: Drained) {
    d.bytesRead > 0 || d.routed > 0
  }

  predicate HasRoom(acc: seq<Byte>) {
    |acc| < ACCUM_CAP
  }

  /** A read answers with no more than the room offered, and never with an empty success: that is `Eof`. */
  predicate ReadFits(acc: seq<Byte>, r: ReadAnswer) {
    r.Data? ==> 0 < |r.chunk| <= ACCUM_CAP - |acc|
  }

  /** Run the consumer on whatever the accumulator holds, `n` bytes of it new. */
  function ConsumeInto(w: Usize, c: Conn, n: nat, ask: nat -> bool): Drained {
    var r := Consume(w, c.acc, c.hello, ask, c.asked);
    Drained(Conn(r.rest, r.hello, c.calls + r.calls, r.asked), n, r.routed,
            if r.out.Fine? then Quiet else ProtocolError(r.out.fault))
  }

  /** The read is skipped when the accumulator is full; the consumer runs whether or not bytes came. */
  function Drain(w: Usize, c: Conn, r: ReadAnswer, ask: nat -> bool): Drained
    requires HasRoom(c.acc) ==> ReadFits(c.acc, r)
  {
    if !HasRoom(c.acc) then ConsumeInto(w, c, 0, ask)
    else match r
      case Data(chunk) => ConsumeInto(w, c.(acc := c.acc + chunk), |chunk|, ask)
      case Nothing => ConsumeInto(w, c, 0, ask)
      case Eof => Drained(c, 0, 0, UnexpectedEof)
      case IoError => Drained(c, 0, 0, ReadFailed)
  }

  /** A drain with room for fewer than 4 098 bytes held reads once and ends as the read did: a closed or broken
      socket leaves the connection as it was. With no room it reads nothing, whatever the socket would say. */
  lemma DrainEndsExactly(w: Usize, c: Conn, r: ReadAnswer, ask: nat -> bool)
    requires HasRoom(c.acc) ==> ReadFits(c.acc, r)
    ensures var d := Drain(w, c, r, ask);
            var room := |c.acc| < 4098;
            && (d.end == UnexpectedEof <==> room && r == Eof)
            && (d.end == ReadFailed <==> room && r == IoError)
            && (d.end == UnexpectedEof || d.end == ReadFailed ==> d == Drained(c, 0, 0, d.end))
            && d.bytesRead == (if room && r.Data? then |r.chunk| else 0)
            && (d.end == Quiet || d.end.ProtocolError? ==>
                  var acc := if room && r.Data? then c.acc + r.chunk else c.acc;
                  d.routed == Consume(w, acc, c.hello, ask, c.asked).routed)
  {
    hide Consume;
  }

  /** How the transport answers the next read: grant up to `k` bytes, or none. */
  function Grant(acc: seq<Byte>, unread: seq<Byte>, k: nat): (r: ReadAnswer)
    requires |acc| <= ACCUM_CAP
    ensures HasRoom(acc) ==> ReadFits(acc, r)
  {
    var n := Min(k, Min(|unread|, ACCUM_CAP - |acc|));
    if n == 0 then Nothing else Data(unread[..n])
  }

  /** A connection and the bytes of its stream not yet read. */
  datatype Feed = Feed(conn: Conn, unread: seq<Byte>, end: DrainEnd)

  function Feeding(w: Usize, f: Feed, k: nat, ask: nat -> bool): (f': Feed)
    requires |f.conn.acc| <= ACCUM_CAP
    ensures |f'.conn.acc| <= ACCUM_CAP
  {
    if f.end != Quiet then f
    else
      var r := Grant(f.conn.acc, f.unread, k);
      var d := Drain(w, f.conn, r, ask);
      Feed(d.conn, if HasRoom(f.conn.acc) && r.Data? then f.unread[|r.chunk|..] else f.unread, d.end)
  }

  /** The connection after a list of drains, the i-th granted up to `grants[i]` bytes. */
  function Fed(w: Usize, stream: seq<Byte>, grants: seq<nat>, ask: nat -> bool): (f: Feed)
    ensures |f.conn.acc| <= ACCUM_CAP
  {
    if grants == [] then Feed(Conn([], false, [], 0), stream, Quiet)
    else Feeding(w, Fed(w, stream, grants[..|grants| - 1], ask), grants[|grants| - 1], ask)
  }

  /** What the connection has done and has yet to do is what the reference does. */
  predicate OnTrack(w: Usize, f: Feed, whole: Parsed) {
    && (f.end == Quiet ==>
          whole == Before(f.conn.calls, Parse(w, f.conn.acc + f.unread, f.conn.hello))
          && Stuck(w, f.conn.acc, f.conn.hello))
    && (f.end.ProtocolError? ==> whole == Parsed(f.conn.calls, Failed(f.end.fault)))
    && (f.end == Quiet || f.end.ProtocolError?)
  }

  lemma BeforeTwice(a: seq<SinkCall>, b: seq<SinkCall>, p: Parsed)
    ensures Before(a, Before(b, p)) == Before(a + b, p)
  {
    assert a + (b + p.calls) == (a + b) + p.calls;
  }

  lemma FeedingStaysOnTrack(w: Usize, f: Feed, k: nat, ask: nat -> bool, whole: Parsed)
    requires |f.conn.acc| <= ACCUM_CAP && OnTrack(w, f, whole)
    ensures OnTrack(w, Feeding(w, f, k, ask), whole)
  {
    hide Parse, Consume, HeadOf, Stuck;
    if f.end == Quiet {
      var r := Grant(f.conn.acc, f.unread, k);
      var read := HasRoom(f.conn.acc) && r.Data?;
      var acc := if read then f.conn.acc + r.chunk else f.conn.acc;
      var unread := if read then f.unread[|r.chunk|..] else f.unread;
      assert acc + unread == f.conn.acc + f.unread;
      ConsumeIsParse(w, acc, unread, f.conn.hello, ask, f.conn.asked);
      ConsumeLeavesStuck(w, acc, f.conn.hello, ask, f.conn.asked);
      var c := Consume(w, acc, f.conn.hello, ask, f.conn.asked);
      if c.out.Fine? {
        BeforeTwice(f.conn.calls, c.calls, Parse(w, c.rest + unread, c.hello));
      } else {
        BeforeTwice(f.conn.calls, c.calls, Parsed([], Failed(c.out.fault)));
      }
    }
  }

  /** For every byte stream, every chunking of it and every pattern of refusals: what the sink was
      called with, followed by the reference over the bytes still held or unread, is the reference over
      the stream; a protocol fault is the reference's own, with exactly the reference's calls. */
  lemma {:induction false} ChunkingInvariance(w: Usize, stream: seq<Byte>, grants: seq<nat>, ask: nat -> bool)
    ensures OnTrack(w, Fed(w, stream, grants, ask), Parse(w, stream, false))
  {
    hide Parse, HeadOf;
    if grants == [] {
      assert [] + stream == stream;
      var p := Parse(w, stream, false);
      assert [] + p.calls == p.calls;
      EmptyIsStuck(w);
    } else {
      var init := grants[..|grants| - 1];
      ChunkingInvariance(w, stream, init, ask);
      FeedingStaysOnTrack(w, Fed(w, stream, init, ask), grants[|grants| - 1], ask, Parse(w, stream, false));
    }
  }

  lemma EmptyIsStuck(w: Usize)
    ensures Stuck(w, [], false)
  {
  }

  /** Two connections fed the same stream, however chunked and refused, never disagree: one's calls are
      a prefix of the other's, and if both fault they fault alike after the same calls. */
  lemma OutcomeIgnoresChunking(w: Usize, stream: seq<Byte>, g1: seq<nat>, ask1: nat -> bool,
                               g2: seq<nat>, ask2: nat -> bool)
    ensures var f1, f2 := Fed(w, stream, g1, ask1), Fed(w, stream, g2, ask2);
            && (f1.conn.calls <= f2.conn.calls || f2.conn.calls <= f1.conn.calls)
            && (f1.end.ProtocolError? ==> f2.conn.calls <= f1.conn.calls)
            && (f1.end.ProtocolError? && f2.end.ProtocolError? ==>
                  f1.end == f2.end && f1.conn.calls == f2.conn.calls)
  {
    hide Parse, HeadOf, Fed;
    ChunkingInvariance(w, stream, g1, ask1);
    ChunkingInvariance(w, stream, g2, ask2);
    var p := Parse(w, stream, false);
    var f1, f2 := Fed(w, stream, g1, ask1), Fed(w, stream, g2, ask2);
    assert f1.conn.calls <= p.calls && f2.conn.calls <= p.calls;
  }

  lemma DrainLeavesStuck(w: Usize, c: Conn, r: ReadAnswer, ask: nat -> bool)
    requires HasRoom(c.acc) ==> ReadFits(c.acc, r)
    requires Drain(w, c, r, ask).end == Quiet
    ensures Stuck(w, Drain(w, c, r, ask).conn.acc, Drain(w, c, r, ask).conn.hello)
  {
    hide HeadOf, Consume, Stuck;
    var acc := if HasRoom(c.acc) && r.Data? then c.acc + r.chunk else c.acc;
    ConsumeLeavesStuck(w, acc, c.hello, ask, c.asked);
  }

  /** The pump's stop signal: a drain without progress from a quiescent connection changed no buffered
      byte and reached the sink with nothing, and what it left cannot move — the head is an incomplete
      frame, or an Audio frame the sink has just refused. */
  lemma NoProgressMeansIdle(w: Usize, c: Conn, r: ReadAnswer, ask: nat -> bool)
    requires Stuck(w, c.acc, c.hello) && (HasRoom(c.acc) ==> ReadFits(c.acc, r))
    requires Drain(w, c, r, ask).end == Quiet && !MadeProgress(Drain(w, c, r, ask))
    ensures var d := Drain(w, c, r, ask);
            && d.conn.acc == c.acc && d.conn.hello == c.hello && d.conn.calls == c.calls
            && d.conn.asked == c.asked + (if HeadOf(w, c.acc, c.hello).Whole? then 1 else 0)
            && (HeadOf(w, c.acc, c.hello).Whole? ==> HeadOf(w, c.acc, c.hello).act.Offer? && !ask(c.asked))
            && (HasRoom(c.acc) ==> r == Nothing)
  {
    hide HeadOf, Consume;
    assert Drain(w, c, r, ask) == ConsumeInto(w, c, 0, ask);
    NoRouteNoChange(w, c.acc, c.hello, ask, c.asked);
    assert c.calls + [] == c.calls;
  }

  /** An accumulator with no room holds a whole Audio frame the sink refused: bytes alone never fill it. */
  lemma FullMeansRefusedAudio(w: Usize, acc: seq<Byte>, hello: bool)
    requires Stuck(w, acc, hello) && |acc| <= ACCUM_CAP && !HasRoom(acc)
    ensures var h := HeadOf(w, acc, hello);
            h.Whole? && h.act.Offer? && |h.act.pcm| <= 1280 && hello
  {
    hide DecodeInbound;
    var h := HeadOf(w, acc, hello);
    OfferIsBounded(w, acc[..2 + DeclaredLength(acc)]);
  }

  lemma OfferIsBounded(w: Usize, frame: seq<Byte>)
    ensures var d := DecodeInbound(w, frame); d.Ok? && d.value.InAudio? ==> |d.value.pcm| <= MAX_AUDIO_PAYLOAD
  {
    hide StripPrefix, TakeU32, TakeU64, TakeHello;
  }
}
