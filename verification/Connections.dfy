/**
 * One connection after another, each with any bytes at all on its socket and lost at any point: mid-frame,
 * mid-flush, after a protocol fault. What the ring has been told is the fold of what the connections said,
 * and no byte of one is played under the generations of another.
 */
module Connections {
  import opened Bytes
  import opened Postcard
  import opened Wire
  import opened Reassembly
  import opened Conformance
  import opened Ring
  import opened RingRuns
  import opened RingMarks
  import opened EndToEnd
  import PlaybackRing

  // ---------------------------------------------------------------------------------------------
  // What sink calls mean

  function AddCall(b: Score, c: SinkCall): Score {
    match c
    case AcceptPcm(pcm) =>
      if PlaybackRing.IsValidS16lePcm(pcm)
      then b.(stream := b.stream + pcm, gens := b.gens + Copies(|pcm|, b.gen))
      else b
    case MarkEndOfAudio => b.(ends := b.ends + [Boundary(|b.stream|, b.gen)])
    case FlushPlaybackNow => b.(gen := b.gen + 1, ends := b.ends + [Boundary(|b.stream|, b.gen + 1)])
  }

  function AddCalls(b: Score, calls: seq<SinkCall>): Score {
    if calls == [] then b else AddCall(AddCalls(b, calls[..|calls| - 1]), calls[|calls| - 1])
  }

  /** A new generation and nothing else. */
  function Opened(b: Score): Score {
    b.(gen := b.gen + 1)
  }

  lemma AddCallsNext(b: Score, calls: seq<SinkCall>, act: Action)
    ensures act.Offer? ==> AddCalls(b, calls + CallsOf(act)) == AddCall(AddCalls(b, calls), AcceptPcm(act.pcm))
    ensures act.Emit? ==> AddCalls(b, calls + CallsOf(act)) == AddCall(AddCalls(b, calls), act.call)
    ensures act.Greet? || act.Ignore? ==> calls + CallsOf(act) == calls
  {
    var more := CallsOf(act);
    if more != [] {
      assert (calls + more)[..|calls|] == calls;
    }
  }

  lemma AddCallsThen(b: Score, calls: seq<SinkCall>, more: seq<SinkCall>)
    requires |more| <= 1
    ensures AddCalls(b, calls + more) == AddCalls(AddCalls(b, calls), more)
  {
    if more == [] {
      assert calls + more == calls;
    } else {
      assert (calls + more)[..|calls|] == calls;
    }
  }

  lemma FrameMeansItsCall(b: Score, f: StreamFrame)
    ensures |Projected(f)| <= 1 && Add(b, f) == AddCalls(b, Projected(f))
  {
    hide InCapacity;
  }

  /** Frames mean what their calls mean. */
  lemma {:induction false} FramesMeanTheirCalls(b: Score, fs: seq<StreamFrame>)
    ensures AddAll(b, fs) == AddCalls(b, Calls(fs))
  {
    hide InCapacity, Projected, Add, AddCall;
    if fs != [] {
      var init, f := fs[..|fs| - 1], fs[|fs| - 1];
      FramesMeanTheirCalls(b, init);
      CallsSplit(init, [f]);
      assert init + [f] == fs && Calls([f]) == Projected(f);
      hide Calls, AddCalls;
      FrameMeansItsCall(AddAll(b, init), f);
      AddCallsThen(b, Calls(init), Projected(f));
    }
  }

  // ---------------------------------------------------------------------------------------------
  // One connection, any bytes

  /** Between the reset and the mark of a flush frame, which is still at the head. */
  predicate Flushing(w: Usize, p: Pod) {
    var h := HeadOf(w, p.acc, p.hello);
    !p.faulted && h.Whole? && h.act == Emit(FlushPlaybackNow)
  }

  /** The ring has been told `calls`, which is where the reference over the whole stream starts; the reference
      over what is held or unread is the rest of it, unless the stream faulted there. */
  predicate Tells(w: Usize, whole: Parsed, b: Score, p: Pod, calls: seq<SinkCall>) {
    && MarksInv(p.m)
    && (if p.faulted then whole.calls == calls && whole.end.Failed?
        else whole == Before(calls, Parse(w, p.acc + p.unread, p.hello)))
    && (if p.flushing then Flushing(w, p) && ScoreOf(p.m) == Opened(AddCalls(b, calls))
        else ScoreOf(p.m) == AddCalls(b, calls))
  }

  /** The reference takes the head the consume loop takes. */
  lemma HeadThenRest(w: Usize, acc: seq<Byte>, unread: seq<Byte>, hello: bool)
    requires !HeadOf(w, acc, hello).Partial?
    ensures var h := HeadOf(w, acc, hello);
            && (h.Faulty? ==> Parse(w, acc + unread, hello) == Parsed([], Failed(h.fault)))
            && (h.Whole? ==> Parse(w, acc + unread, hello)
                             == Before(CallsOf(h.act), Parse(w, acc[h.len..] + unread, HelloAfter(h.act, hello))))
  {
    hide HeadOf;
    HeadIsLocal(w, acc, unread, hello);
    var h := HeadOf(w, acc, hello);
    if h.Whole? {
      assert (acc + unread)[h.len..] == acc[h.len..] + unread;
    }
  }

  /** The head has been dealt with, told to the ring, and left its bytes behind. */
  lemma HeadDone(w: Usize, whole: Parsed, b: Score, p: Pod, q: Pod, calls: seq<SinkCall>)
    requires Tells(w, whole, b, p, calls) && !p.faulted && HeadOf(w, p.acc, p.hello).Whole?
    requires var h := HeadOf(w, p.acc, p.hello);
             && MarksInv(q.m) && !q.faulted && !q.flushing && q.unread == p.unread
             && q.acc == p.acc[h.len..] && q.hello == HelloAfter(h.act, p.hello)
             && ScoreOf(q.m) == AddCalls(b, calls + CallsOf(h.act))
    ensures Tells(w, whole, b, q, calls + CallsOf(HeadOf(w, p.acc, p.hello).act))
  {
    hide HeadOf, MarksInv, AddCalls, Parse;
    var h := HeadOf(w, p.acc, p.hello);
    HeadThenRest(w, p.acc, p.unread, p.hello);
    BeforeTwice(calls, CallsOf(h.act), Parse(w, q.acc + q.unread, q.hello));
  }

  /** A whole head of any kind. */
  lemma HeadTells(w: Usize, whole: Parsed, b: Score, p: Pod, calls: seq<SinkCall>) returns (calls': seq<SinkCall>)
    requires Tells(w, whole, b, p, calls) && !p.faulted && Sound(p.m.s.ring) && HeadOf(w, p.acc, p.hello).Whole?
    ensures Tells(w, whole, b, OnFrame(w, p), calls')
  {
    hide HeadOf, MarksInv, AddCalls, Parse, MarkStep, Sound, Write;
    var act := HeadOf(w, p.acc, p.hello).act;
    AddCallsNext(b, calls, act);
    var q := OnFrame(w, p);
    if act.Offer? && PlaybackRing.IsValidS16lePcm(act.pcm) {
      if Write(p.m.s.ring, act.pcm).1 {
        ProduceTells(p.m, act.pcm);
      }
    } else if act == Emit(MarkEndOfAudio) || (act.Emit? && p.flushing) {
      MarkEndTells(p.m);
    } else if act.Emit? && Legal(p.m.s, Reconnect) {
      ReconnectTells(p.m);
    }
    hide CallsOf;
    if q.acc == p.acc || q.flushing {
      calls' := calls;
    } else {
      HeadDone(w, whole, b, p, q, calls);
      calls' := calls + CallsOf(act);
    }
  }

  lemma FrameTells(w: Usize, whole: Parsed, b: Score, p: Pod, calls: seq<SinkCall>) returns (calls': seq<SinkCall>)
    requires Tells(w, whole, b, p, calls) && !p.faulted && Sound(p.m.s.ring)
    ensures Tells(w, whole, b, OnFrame(w, p), calls')
  {
    calls' := calls;
    var h := HeadOf(w, p.acc, p.hello);
    hide HeadOf, MarksInv, AddCalls, Parse, MarkStep, Sound, OfferPcm, FlushRing;
    if h.Whole? {
      calls' := HeadTells(w, whole, b, p, calls);
    } else if h.Faulty? {
      HeadThenRest(w, p.acc, p.unread, p.hello);
      assert calls + [] == calls;
    }
  }

  lemma EventTells(w: Usize, whole: Parsed, b: Score, p: Pod, e: PodEvent, calls: seq<SinkCall>)
    returns (calls': seq<SinkCall>)
    requires Tells(w, whole, b, p, calls)
    ensures Tells(w, whole, b, OnEvent(w, p, e), calls')
  {
    hide HeadOf, MarksInv, AddCalls, Parse, MarkStep, Sound, OnFrame;
    calls' := calls;
    if !p.faulted && Sound(p.m.s.ring) {
      match e
      case Read(k) =>
        var q := OnEvent(w, p, e);
        assert q.acc + q.unread == p.acc + p.unread;
        if p.flushing {
          HeadIsLocal(w, p.acc, q.acc[|p.acc|..], p.hello);
          assert q.acc == p.acc + q.acc[|p.acc|..];
        }
      case Frame =>
        calls' := FrameTells(w, whole, b, p, calls);
      case Drain(d) =>
        if IsDrain(d) {
          DrainTells(p.m, d);
        }
    }
  }

  /** For any bytes on the socket, any way they arrive and any interleaving with the drain, the ring has been
      told an initial part of what the reference hears in them, the same whatever the chunking; after a
      protocol fault, all of it. */
  lemma {:induction false} BytesToRing(w: Usize, m0: Marked, stream: seq<Byte>, events: seq<PodEvent>)
    returns (calls: seq<SinkCall>)
    requires MarksInv(m0)
    ensures Tells(w, Parse(w, stream, false), ScoreOf(m0), Lived(w, m0, stream, events), calls)
  {
    hide MarksInv, Parse, OnEvent;
    if events == [] {
      calls := [];
      assert [] + stream == stream;
      ParseAgain(w, stream, false);
    } else {
      hide Tells;
      var init := events[..|events| - 1];
      calls := BytesToRing(w, m0, stream, init);
      calls := EventTells(w, Parse(w, stream, false), ScoreOf(m0), Lived(w, m0, stream, init),
                          events[|events| - 1], calls);
    }
  }

  // ---------------------------------------------------------------------------------------------
  // One after another

  /** What a socket carries, what happens while it is up, and the drain after it is lost. */
  datatype Connection = Connection(stream: seq<Byte>, events: seq<PodEvent>, idle: seq<Event>)

  /** A socket comes up: the accumulator and the handshake start over and the ring is reset. It is lost: what
      was held of it is dropped and playback is told the audio ended. */
  function Connected(w: Usize, m: Marked, c: Connection): Marked {
    MarkRun(MarkStep(Lived(w, MarkStep(m, Reconnect), c.stream, c.events).m, MarkEnd), c.idle)
  }

  function AfterAll(w: Usize, m: Marked, cs: seq<Connection>): Marked {
    if cs == [] then m else Connected(w, AfterAll(w, m, cs[..|cs| - 1]), cs[|cs| - 1])
  }

  /** What got through of a connection; `cut` if it was lost between the reset and the mark of a flush. */
  datatype Through = Through(calls: seq<SinkCall>, cut: bool)

  function Heard(b: Score, t: Through): Score {
    var told := AddCalls(Opened(b), t.calls);
    AddCall(if t.cut then Opened(told) else told, MarkEndOfAudio)
  }

  function HeardAll(b: Score, ts: seq<Through>): Score {
    if ts == [] then b else Heard(HeardAll(b, ts[..|ts| - 1]), ts[|ts| - 1])
  }

  /** It is an initial part of what the reference hears, and a cut one stops before a flush. */
  predicate Came(w: Usize, c: Connection, t: Through) {
    var calls := Parse(w, c.stream, false).calls;
    t.calls <= calls && (t.cut ==> t.calls + [FlushPlaybackNow] <= calls)
  }

  lemma {:induction false} IdleTells(m: Marked, idle: seq<Event>)
    requires MarksInv(m) && forall i :: 0 <= i < |idle| ==> IsDrain(idle[i])
    ensures MarksInv(MarkRun(m, idle)) && ScoreOf(MarkRun(m, idle)) == ScoreOf(m)
    decreases |idle|
  {
    hide MarksInv, MarkStep;
    if idle != [] {
      DrainTells(m, idle[0]);
      IdleTells(MarkStep(m, idle[0]), idle[1..]);
    }
  }

  lemma ToldIsHeard(w: Usize, stream: seq<Byte>, b: Score, p: Pod, calls: seq<SinkCall>)
    requires Tells(w, Parse(w, stream, false), b, p, calls)
    ensures calls <= Parse(w, stream, false).calls
    ensures p.flushing ==> calls + [FlushPlaybackNow] <= Parse(w, stream, false).calls
  {
    hide HeadOf, MarksInv, Parse, AddCalls;
    if p.flushing {
      HeadThenRest(w, p.acc, p.unread, p.hello);
    }
  }

  lemma ConnectionTells(w: Usize, m: Marked, c: Connection) returns (t: Through)
    requires MarksInv(m) && Legal(m.s, Reconnect) && forall i :: 0 <= i < |c.idle| ==> IsDrain(c.idle[i])
    ensures MarksInv(Connected(w, m, c)) && ScoreOf(Connected(w, m, c)) == Heard(ScoreOf(m), t) && Came(w, c, t)
  {
    hide MarksInv, MarkStep, MarkRun, Parse, AddCalls, Lived;
    ReconnectTells(m);
    var m0 := MarkStep(m, Reconnect);
    var calls := BytesToRing(w, m0, c.stream, c.events);
    var p := Lived(w, m0, c.stream, c.events);
    ToldIsHeard(w, c.stream, ScoreOf(m0), p, calls);
    MarkEndTells(p.m);
    IdleTells(MarkStep(p.m, MarkEnd), c.idle);
    t := Through(calls, p.flushing);
  }

  // ---------------------------------------------------------------------------------------------
  // Generations tell connections apart

  /** A generation for every byte, none later than the present one. */
  predicate WellDated(b: Score) {
    |b.gens| == |b.stream| && forall i :: 0 <= i < |b.gens| ==> b.gens[i] <= b.gen
  }

  /** `b'` is `b` with more: nothing before it changed, and nothing after it is of an earlier generation. */
  predicate Extends(b: Score, b': Score) {
    && b.stream <= b'.stream && b.gens <= b'.gens && b.gen <= b'.gen
    && WellDated(b) && WellDated(b')
    && forall i :: |b.stream| <= i < |b'.stream| ==> b.gen <= b'.gens[i]
  }

  lemma ExtendsFurther(b: Score, b': Score, b'': Score)
    requires Extends(b, b') && Extends(b', b'')
    ensures Extends(b, b'')
  {
    assert forall i :: 0 <= i < |b'.gens| ==> b''.gens[i] == b'.gens[i];
  }

  lemma {:induction false} CallsExtend(b: Score, calls: seq<SinkCall>)
    requires WellDated(b)
    ensures Extends(b, AddCalls(b, calls))
  {
    if calls != [] {
      var b1 := AddCalls(b, calls[..|calls| - 1]);
      CallsExtend(b, calls[..|calls| - 1]);
      hide AddCalls;
      CallExtends(b1, calls[|calls| - 1]);
      ExtendsFurther(b, b1, AddCall(b1, calls[|calls| - 1]));
    }
  }

  lemma CallExtends(b: Score, c: SinkCall)
    requires WellDated(b)
    ensures Extends(b, AddCall(b, c))
  {
  }

  lemma HeardExtends(b: Score, t: Through)
    requires WellDated(b)
    ensures Extends(Opened(b), Heard(b, t))
  {
    hide AddCalls;
    var told := AddCalls(Opened(b), t.calls);
    CallsExtend(Opened(b), t.calls);
    var closed := if t.cut then Opened(told) else told;
    assert Extends(told, closed);
    ExtendsFurther(Opened(b), told, closed);
    CallExtends(closed, MarkEndOfAudio);
    ExtendsFurther(Opened(b), closed, Heard(b, t));
  }

  /** Everything the first `k` connections said, and then a new generation, comes before the rest. */
  lemma {:induction false} HeardAllExtends(b: Score, ts: seq<Through>, k: nat)
    requires WellDated(b) && k <= |ts|
    ensures WellDated(HeardAll(b, ts[..k]))
    ensures k < |ts| ==> Extends(Opened(HeardAll(b, ts[..k])), HeardAll(b, ts))
    decreases |ts|
  {
    hide Heard;
    if ts != [] {
      var n := |ts| - 1;
      var before := HeardAll(b, ts[..n]);
      HeardAllExtends(b, ts[..n], Min(k, n));
      HeardAllExtends(b, ts[..n], n);
      assert ts[..n][..n] == ts[..n];
      HeardExtends(before, ts[n]);
      if k < n {
        assert ts[..n][..k] == ts[..k];
        assert Extends(before, Opened(before));
        ExtendsFurther(Opened(HeardAll(b, ts[..k])), before, Opened(before));
        ExtendsFurther(Opened(HeardAll(b, ts[..k])), Opened(before), HeardAll(b, ts));
      }
      assert ts[..|ts|] == ts;
    }
  }

  // ---------------------------------------------------------------------------------------------
  // The device

  predicate Openable(w: Usize, m0: Marked, cs: seq<Connection>) {
    forall k :: 0 <= k < |cs| ==>
      Legal(AfterAll(w, m0, cs[..k]).s, Reconnect) && forall i :: 0 <= i < |cs[k].idle| ==> IsDrain(cs[k].idle[i])
  }

  lemma OpenableBefore(w: Usize, m0: Marked, cs: seq<Connection>)
    requires Openable(w, m0, cs) && cs != []
    ensures Openable(w, m0, cs[..|cs| - 1])
    ensures var c := cs[|cs| - 1];
            && Legal(AfterAll(w, m0, cs[..|cs| - 1]).s, Reconnect)
            && forall i :: 0 <= i < |c.idle| ==> IsDrain(c.idle[i])
  {
    hide AfterAll, Legal;
    var init := cs[..|cs| - 1];
    forall k | 0 <= k < |init|
      ensures Legal(AfterAll(w, m0, init[..k]).s, Reconnect)
              && forall i :: 0 <= i < |init[k].idle| ==> IsDrain(init[k].idle[i])
    {
      assert init[..k] == cs[..k] && init[k] == cs[k];
    }
  }

  lemma {:induction false} ConnectionsTell(w: Usize, m0: Marked, cs: seq<Connection>) returns (ts: seq<Through>)
    requires MarksInv(m0) && Openable(w, m0, cs)
    ensures |ts| == |cs| && forall k :: 0 <= k < |cs| ==> Came(w, cs[k], ts[k])
    ensures var m := AfterAll(w, m0, cs); MarksInv(m) && ScoreOf(m) == HeardAll(ScoreOf(m0), ts)
  {
    hide MarksInv, Came, Connected, Heard;
    ts := [];
    if cs != [] {
      var n := |cs| - 1;
      OpenableBefore(w, m0, cs);
      hide Openable;
      ts := ConnectionsTell(w, m0, cs[..n]);
      var t := ConnectionTells(w, AfterAll(w, m0, cs[..n]), cs[n]);
      assert (ts + [t])[..n] == ts;
      ts := ts + [t];
    }
  }

  /** Over any list of connections: the device has played what got through of them, in order, less what was
      superseded; ends of audio are reported against it; and a played byte came from one of the first `k`
      connections, or from before them, exactly when it was played under a generation they had opened. */
  lemma ConnectionsToDevice(w: Usize, m0: Marked, cs: seq<Connection>) returns (ts: seq<Through>)
    requires MarksInv(m0) && Openable(w, m0, cs) && TWO32 % m0.s.ring.cap == 0
    ensures |ts| == |cs| && forall k :: 0 <= k < |cs| ==> Came(w, cs[k], ts[k])
    ensures var m, told := AfterAll(w, m0, cs), HeardAll(ScoreOf(m0), ts);
            && PlaysTheScore(told, m.s) && ReportsTheEnds(told, m)
            && forall k, i :: 0 <= k < |cs| && 0 <= i < m.s.h.tail && m.s.h.fates[i].Played? ==>
                 (i < |HeardAll(ScoreOf(m0), ts[..k]).stream|
                  <==> m.s.h.fates[i].under <= HeardAll(ScoreOf(m0), ts[..k]).gen)
  {
    ts := ConnectionsTell(w, m0, cs);
    var m, b := AfterAll(w, m0, cs), ScoreOf(m0);
    AllKeepCap(w, m0, cs);
    RingPlays(m);
    RingReports(m);
    RingIsDated(m0);
    hide MarksInv, AfterAll, Came, HeardAll, ReportsTheEnds;
    forall k, i | 0 <= k < |cs| && 0 <= i < m.s.h.tail && m.s.h.fates[i].Played?
      ensures i < |HeardAll(b, ts[..k]).stream| <==> m.s.h.fates[i].under <= HeardAll(b, ts[..k]).gen
    {
      HeardAllExtends(b, ts, k);
    }
  }

  lemma RingIsDated(m: Marked)
    requires MarksInv(m)
    ensures WellDated(ScoreOf(m))
  {
  }

  lemma {:induction false} RunKeepsCap(m: Marked, events: seq<Event>)
    ensures MarkRun(m, events).s.ring.cap == m.s.ring.cap
    decreases |events|
  {
    hide MarkStep;
    if events != [] {
      StepKeepsCap(m, events[0]);
      RunKeepsCap(MarkStep(m, events[0]), events[1..]);
    }
  }

  lemma {:induction false} AllKeepCap(w: Usize, m0: Marked, cs: seq<Connection>)
    ensures AfterAll(w, m0, cs).s.ring.cap == m0.s.ring.cap
  {
    hide MarkStep, MarkRun, Lived;
    if cs != [] {
      var m, c := AfterAll(w, m0, cs[..|cs| - 1]), cs[|cs| - 1];
      AllKeepCap(w, m0, cs[..|cs| - 1]);
      StepKeepsCap(m, Reconnect);
      LivedKeepsCap(w, MarkStep(m, Reconnect), c.stream, c.events);
      var p := Lived(w, MarkStep(m, Reconnect), c.stream, c.events);
      StepKeepsCap(p.m, MarkEnd);
      RunKeepsCap(MarkStep(p.m, MarkEnd), c.idle);
    }
  }

  /** A drop with a reconnect right behind it is seamless: once the drain acts on the reset, the lost
      connection's banked tail and every pending mark, its own end of audio with them, are gone unreported. */
  lemma ReconnectIsSeamless(m: Marked)
    requires MarksInv(m) && Legal(m.s, Reconnect)
    ensures var m' := MarkStep(MarkStep(MarkStep(m, MarkEnd), Reconnect), Apply);
            && MarksInv(m') && m'.s.ring.marks == [] && m'.log.popped == m.log.popped
            && m'.s.h.tail == |m.s.h.stream| && Used(m'.s.ring) == 0
            && m'.s.h.acted == m.s.h.gen + 1
  {
    var m1 := MarkStep(m, MarkEnd);
    var m2 := MarkStep(m1, Reconnect);
    MarkEndTells(m);
    ReconnectTells(m1);
    PushedSoFar(m1);
    ApplyClears(m2);
    MarkEndPopsNothing(m);
    hide MarksInv;
  }

  lemma MarkEndPopsNothing(m: Marked)
    requires MarksInv(m)
    ensures var m' := MarkStep(m, MarkEnd);
            m'.log.popped == m.log.popped && m'.s.h == m.s.h && Sound(m.s.ring) && Sound(m'.s.ring)
  {
    hide MarksInv;
    MarkStepKeeps(m, MarkEnd);
    PushedSoFar(m);
    PushedSoFar(MarkStep(m, MarkEnd));
  }

  /** A reset with nothing behind it leaves nothing once applied. */
  lemma ApplyClears(m: Marked)
    requires MarksInv(m) && m.s.h.acted < m.s.h.gen && m.s.h.resetAt == |m.s.h.stream|
    requires forall id :: 0 <= id < |m.log.pushed| ==> m.log.pushed[id].gen < m.s.h.gen
    ensures var m' := MarkStep(m, Apply);
            && MarksInv(m') && m'.s.ring.marks == [] && m'.log.popped == m.log.popped
            && m'.s.h.tail == |m.s.h.stream| && Used(m'.s.ring) == 0 && m'.s.h.acted == m.s.h.gen
  {
    WrappedInjective(m.s.h.gen, m.s.h.acted);
    assert Sound(m.s.ring) && m.s.ring.gen != m.s.acted;
    ApplyKeepsMarks(m);
    NoneLive(m.log, m.log.fifo, m.s.h.gen);
    var m' := MarkStep(m, Apply);
    PendingIsMirrored(m');
    UsedIsUnread(m'.s);
    hide MarksInv, Used, LiveIds;
  }

  lemma PendingIsMirrored(m: Marked)
    requires MarksInv(m)
    ensures Counted(m.s) && |m.s.ring.marks| == |m.log.fifo|
  {
  }

  lemma {:induction false} NoneLive(log: Log, ids: seq<nat>, gen: nat)
    requires forall id :: 0 <= id < |log.pushed| ==> log.pushed[id].gen < gen
    ensures LiveIds(log, ids, gen) == []
  {
    if ids != [] {
      NoneLive(log, ids[1..], gen);
    }
  }
}
