/**
 * The composed path: a byte stream, the accumulator, the handshake, the playback ring with its marks, and
 * its drain, interleaved at the grain of one read, one frame or one critical section.
 */
module EndToEnd {
  import opened Bytes
  import opened Postcard
  import opened Wire
  import opened FrameStream
  import opened Reassembly
  import opened Conformance
  import opened Ring
  import opened RingRuns
  import opened RingMarks
  import PlaybackRing

  /** The receiving pod. `flushing` is between the reset and the mark of one flush frame. */
  datatype Pod = Pod(acc: seq<Byte>, hello: bool, unread: seq<Byte>, m: Marked, flushing: bool, faulted: bool)

  datatype PodEvent =
    | Read(k: nat)          // the socket gives up to k bytes
    | Frame                 // one pass of the consume loop
    | Drain(e: Event)       // one critical section of the consumer

  /** Offer a frame's PCM to the ring: malformed PCM is discarded, a full ring refuses. */
  function OfferPcm(p: Pod, len: nat, pcm: seq<Byte>): Pod
    requires len <= |p.acc| && Sound(p.m.s.ring)
  {
    if !PlaybackRing.IsValidS16lePcm(pcm) then p.(acc := p.acc[len..])
    else if Write(p.m.s.ring, pcm).1 then p.(acc := p.acc[len..], m := MarkStep(p.m, Produce(pcm)))
    else p
  }

  /** A flush takes the ring's lock twice: reset, then mark. */
  function FlushRing(p: Pod, len: nat): Pod
    requires len <= |p.acc|
  {
    if p.flushing then p.(acc := p.acc[len..], m := MarkStep(p.m, MarkEnd), flushing := false)
    else if Legal(p.m.s, Reconnect) then p.(m := MarkStep(p.m, Reconnect), flushing := true)
    else p
  }

  function OnFrame(w: Usize, p: Pod): Pod
    requires Sound(p.m.s.ring)
  {
    match HeadOf(w, p.acc, p.hello)
    case Partial => p
    case Faulty(_, hello) => p.(acc := [], hello := hello, faulted := true)
    case Whole(len, act) =>
      match act
      case Offer(pcm) => OfferPcm(p, len, pcm)
      case Emit(MarkEndOfAudio) => p.(acc := p.acc[len..], m := MarkStep(p.m, MarkEnd))
      case Emit(_) => FlushRing(p, len)
      case Greet => p.(acc := p.acc[len..], hello := true)
      case Ignore => p.(acc := p.acc[len..])
  }

  function OnEvent(w: Usize, p: Pod, e: PodEvent): Pod {
    if p.faulted || !Sound(p.m.s.ring) then p
    else match e
      case Read(k) =>
        var n := Min(k, Min(|p.unread|, Max(0, ACCUM_CAP - |p.acc|)));
        p.(acc := p.acc + p.unread[..n], unread := p.unread[n..])
      case Frame => OnFrame(w, p)
      case Drain(d) => if IsDrain(d) then p.(m := MarkStep(p.m, d)) else p
  }

  /** The pod after a list of events, from a ring in any state earlier connections left it. */
  function Lived(w: Usize, m: Marked, stream: seq<Byte>, events: seq<PodEvent>): Pod {
    if events == [] then Pod([], false, stream, m, false, false)
    else OnEvent(w, Lived(w, m, stream, events[..|events| - 1]), events[|events| - 1])
  }

  // ---------------------------------------------------------------------------------------------
  // What a list of frames means, with no socket, accumulator, ring or drain

  /** Sample bytes, the generation of each, the generation now, and where audio ended. */
  datatype Score = Score(stream: seq<Byte>, gens: seq<nat>, gen: nat, ends: seq<Boundary>)

  /** What a ring was told over its whole life. */
  function ScoreOf(m: Marked): Score {
    Score(m.s.h.stream, m.s.h.gens, m.s.h.gen, m.log.pushed)
  }

  /** Audio extends the stream; an end of audio is a boundary there; a flush opens a generation with one. */
  function Add(b: Score, f: StreamFrame): Score {
    match f
    case Audio(_, _, _, pcm) =>
      if PlaybackRing.IsValidS16lePcm(pcm)
      then b.(stream := b.stream + pcm, gens := b.gens + Copies(|pcm|, b.gen))
      else b
    case EndOfAudio => b.(ends := b.ends + [Boundary(|b.stream|, b.gen)])
    case FlushPlayback => b.(gen := b.gen + 1, ends := b.ends + [Boundary(|b.stream|, b.gen + 1)])
    case _ => b
  }

  function AddAll(b: Score, fs: seq<StreamFrame>): Score {
    if fs == [] then b else Add(AddAll(b, fs[..|fs| - 1]), fs[|fs| - 1])
  }

  /** The samples of a list of frames, back to back. */
  function Pcm(fs: seq<StreamFrame>): seq<Byte> {
    if fs == [] then []
    else
      var f := fs[|fs| - 1];
      Pcm(fs[..|fs| - 1]) + if f.Audio? && PlaybackRing.IsValidS16lePcm(f.pcm) then f.pcm else []
  }

  lemma {:induction false} StreamIsPcm(b: Score, fs: seq<StreamFrame>)
    ensures AddAll(b, fs).stream == b.stream + Pcm(fs)
  {
    if fs != [] {
      StreamIsPcm(b, fs[..|fs| - 1]);
    }
  }

  lemma AddNext(b: Score, fs: seq<StreamFrame>, j: nat)
    requires j < |fs|
    ensures AddAll(b, fs[..j + 1]) == Add(AddAll(b, fs[..j]), fs[j])
  {
    assert fs[..j + 1][..j] == fs[..j];
  }

  // ---------------------------------------------------------------------------------------------
  // What each critical section tells the ring

  lemma ProduceTells(m: Marked, data: seq<Byte>)
    requires MarksInv(m) && Sound(m.s.ring) && Write(m.s.ring, data).1
    ensures var b, m' := ScoreOf(m), MarkStep(m, Produce(data));
            MarksInv(m') && ScoreOf(m') == b.(stream := b.stream + data, gens := b.gens + Copies(|data|, b.gen))
  {
    ProduceKeepsMarks(m, data);
    hide MarksInv;
  }

  lemma MarkEndTells(m: Marked)
    requires MarksInv(m)
    ensures var b, m' := ScoreOf(m), MarkStep(m, MarkEnd);
            MarksInv(m') && ScoreOf(m') == b.(ends := b.ends + [Boundary(|b.stream|, b.gen)])
  {
    MarkEndKeepsMarks(m);
    assert Sound(m.s.ring);
    hide MarksInv, Sound;
  }

  lemma ReconnectTells(m: Marked)
    requires MarksInv(m) && Legal(m.s, Reconnect)
    ensures var b, m' := ScoreOf(m), MarkStep(m, Reconnect);
            MarksInv(m') && ScoreOf(m') == b.(gen := b.gen + 1)
  {
    ReconnectKeepsMarks(m);
    assert Sound(m.s.ring);
    hide MarksInv;
  }

  lemma DrainTells(m: Marked, e: Event)
    requires MarksInv(m) && IsDrain(e)
    ensures MarksInv(MarkStep(m, e)) && ScoreOf(MarkStep(m, e)) == ScoreOf(m)
  {
    MarkStepKeeps(m, e);
    hide MarksInv;
  }

  // ---------------------------------------------------------------------------------------------
  // Frame by frame

  /** The ring has been told the first `j` frames — and, mid-flush, the reset of the next — and the bytes
      of the others are held or unread. */
  ghost predicate Given(fs: seq<StreamFrame>, tail: seq<Byte>, m0: Marked, p: Pod, j: nat) {
    && j <= |fs| && !p.faulted && MarksInv(p.m)
    && p.acc + p.unread == AllBytes(fs[j..]) + tail && AllAdmitted(fs[j..], p.hello)
    && var told := AddAll(ScoreOf(m0), fs[..j]);
       if p.flushing then j < |fs| && fs[j].FlushPlayback? && ScoreOf(p.m) == told.(gen := told.gen + 1)
       else ScoreOf(p.m) == told
  }

  /** Whole frames leave the head of the line: the one judged is the next one sent. */
  lemma NextFrame(w: Usize, gs: seq<StreamFrame>, tail: seq<Byte>, acc: seq<Byte>, unread: seq<Byte>, hello: bool)
    requires Torn(tail) && AllAdmitted(gs, hello) && acc + unread == AllBytes(gs) + tail
    requires !HeadOf(w, acc, hello).Partial?
    ensures gs != []
    ensures var h := HeadOf(w, acc, hello);
            && h.Whole? && CallsOf(h.act) == Projected(gs[0]) && (h.act.Greet? <==> gs[0].Hello?)
            && acc[h.len..] + unread == AllBytes(gs[1..]) + tail
            && AllAdmitted(gs[1..], hello || gs[0].Hello?)
  {
    hide HeadOf, FrameBytes, Torn, Admitted, Projected, CallsOf, InCapacity;
    HeadIsLocal(w, acc, unread, hello);
    if gs == [] {
      assert acc + unread == tail;
      TornWaits(w, tail, hello);
    } else {
      var rest := AllBytes(gs[1..]) + tail;
      assert acc + unread == FrameBytes(gs[0]) + rest;
      FrameAtHead(w, gs[0], rest, hello);
      var h := HeadOf(w, acc, hello);
      assert acc[h.len..] + unread == (acc + unread)[h.len..] == rest;
    }
  }

  /** What the head asks for is what the frame is. */
  lemma ActionIsFrame(act: Action, f: StreamFrame)
    requires CallsOf(act) == Projected(f) && (act.Greet? <==> f.Hello?) && (act.Emit? ==> !act.call.AcceptPcm?)
    ensures act.Offer? <==> f.Audio?
    ensures act.Offer? ==> act.pcm == f.pcm
    ensures act == Emit(MarkEndOfAudio) <==> f.EndOfAudio?
    ensures act == Emit(FlushPlaybackNow) <==> f.FlushPlayback?
    ensures act.Emit? ==> f.EndOfAudio? || f.FlushPlayback?
  {
    var c, d := CallsOf(act), Projected(f);
    assert |c| == |d| && (c != [] ==> c[0] == d[0]);
  }

  /** The next frame has been dealt with, told to the ring, and left its bytes behind. */
  lemma FrameDone(fs: seq<StreamFrame>, tail: seq<Byte>, m0: Marked, q: Pod, j: nat)
    requires j < |fs| && !q.faulted && !q.flushing && MarksInv(q.m)
    requires q.acc + q.unread == AllBytes(fs[j + 1..]) + tail && AllAdmitted(fs[j + 1..], q.hello)
    requires ScoreOf(q.m) == Add(AddAll(ScoreOf(m0), fs[..j]), fs[j])
    ensures Given(fs, tail, m0, q, j + 1)
  {
    hide MarksInv, AllBytes, AllAdmitted, FrameBytes, Add, AddAll;
    AddNext(ScoreOf(m0), fs, j);
  }

  lemma OfferGives(fs: seq<StreamFrame>, tail: seq<Byte>, m0: Marked, p: Pod, j: nat, len: nat) returns (j': nat)
    requires Given(fs, tail, m0, p, j) && Sound(p.m.s.ring) && len <= |p.acc|
    requires j < |fs| && fs[j].Audio? && p.acc[len..] + p.unread == AllBytes(fs[j + 1..]) + tail
    requires AllAdmitted(fs[j + 1..], p.hello)
    ensures j <= j' && Given(fs, tail, m0, OfferPcm(p, len, fs[j].pcm), j')
  {
    hide MarksInv, AllBytes, AllAdmitted, AddAll, FrameBytes, Sound, Write, MarkStep;
    var pcm := fs[j].pcm;
    var q := OfferPcm(p, len, pcm);
    if PlaybackRing.IsValidS16lePcm(pcm) && !Write(p.m.s.ring, pcm).1 {
      j' := j;
    } else {
      if PlaybackRing.IsValidS16lePcm(pcm) {
        ProduceTells(p.m, pcm);
      }
      FrameDone(fs, tail, m0, q, j);
      j' := j + 1;
    }
  }

  lemma FlushGives(fs: seq<StreamFrame>, tail: seq<Byte>, m0: Marked, p: Pod, j: nat, len: nat) returns (j': nat)
    requires Given(fs, tail, m0, p, j) && len <= |p.acc|
    requires j < |fs| && fs[j].FlushPlayback?
    requires p.acc[len..] + p.unread == AllBytes(fs[j + 1..]) + tail && AllAdmitted(fs[j + 1..], p.hello)
    ensures j <= j' && Given(fs, tail, m0, FlushRing(p, len), j')
  {
    hide MarksInv, AllBytes, AllAdmitted, AddAll, FrameBytes, MarkStep;
    if p.flushing {
      MarkEndTells(p.m);
      FrameDone(fs, tail, m0, FlushRing(p, len), j);
      j' := j + 1;
    } else {
      if Legal(p.m.s, Reconnect) {
        ReconnectTells(p.m);
      }
      j' := j;
    }
  }

  lemma FrameGives(w: Usize, fs: seq<StreamFrame>, tail: seq<Byte>, m0: Marked, p: Pod, j: nat) returns (j': nat)
    requires Torn(tail) && Given(fs, tail, m0, p, j) && Sound(p.m.s.ring)
    ensures j <= j' && Given(fs, tail, m0, OnFrame(w, p), j')
  {
    hide HeadOf, FrameBytes, Torn, AllBytes, AllAdmitted, MarksInv, Sound, AddAll, MarkStep, OfferPcm, FlushRing;
    var h := HeadOf(w, p.acc, p.hello);
    j' := j;
    if !h.Partial? {
      NextFrame(w, fs[j..], tail, p.acc, p.unread, p.hello);
      var f := fs[j];
      assert fs[j..][0] == f && fs[j..][1..] == fs[j + 1..];
      ActionIsFrame(h.act, f);
      hide CallsOf, Projected;
      if f.Audio? {
        j' := OfferGives(fs, tail, m0, p, j, h.len);
      } else if f.FlushPlayback? {
        j' := FlushGives(fs, tail, m0, p, j, h.len);
      } else {
        MarkEndTells(p.m);
        FrameDone(fs, tail, m0, OnFrame(w, p), j);
        j' := j + 1;
      }
    }
  }

  lemma EventGives(w: Usize, fs: seq<StreamFrame>, tail: seq<Byte>, m0: Marked, p: Pod, e: PodEvent, j: nat)
    returns (j': nat)
    requires Torn(tail) && Given(fs, tail, m0, p, j)
    ensures j <= j' && Given(fs, tail, m0, OnEvent(w, p, e), j')
  {
    hide HeadOf, FrameBytes, Torn, AllBytes, AllAdmitted, MarksInv, Sound, AddAll, OnFrame, MarkStep;
    j' := j;
    if Sound(p.m.s.ring) {
      match e
      case Read(k) =>
        var q := OnEvent(w, p, e);
        assert q.acc + q.unread == p.acc + p.unread;
      case Frame =>
        j' := FrameGives(w, fs, tail, m0, p, j);
      case Drain(d) =>
        if IsDrain(d) {
          DrainTells(p.m, d);
        }
    }
  }

  // ---------------------------------------------------------------------------------------------
  // Whole connections

  /** For every list of admitted frames, every way their bytes arrive, every interleaving with the drain,
      and whatever the ring held before: at each moment the ring has been told exactly what the first `j`
      frames mean — samples, generations, ends of audio — and what is held or unread is exactly the
      encodings of the rest. Nothing is lost, repeated or reordered between socket and ring. */
  lemma {:induction false} SocketToRing(w: Usize, fs: seq<StreamFrame>, tail: seq<Byte>, m0: Marked,
                                        events: seq<PodEvent>)
    returns (j: nat)
    requires Torn(tail) && AllAdmitted(fs, false) && MarksInv(m0)
    ensures Given(fs, tail, m0, Lived(w, m0, AllBytes(fs) + tail, events), j)
  {
    hide FrameBytes, Torn, AllBytes, AllAdmitted, MarksInv, Given, OnEvent;
    if events == [] {
      StartGives(w, fs, tail, m0);
      j := 0;
    } else {
      var init := events[..|events| - 1];
      var i := SocketToRing(w, fs, tail, m0, init);
      var p := Lived(w, m0, AllBytes(fs) + tail, init);
      j := EventGives(w, fs, tail, m0, p, events[|events| - 1], i);
    }
  }

  lemma StartGives(w: Usize, fs: seq<StreamFrame>, tail: seq<Byte>, m0: Marked)
    requires AllAdmitted(fs, false) && MarksInv(m0)
    ensures Given(fs, tail, m0, Lived(w, m0, AllBytes(fs) + tail, []), 0)
  {
    hide FrameBytes, AllAdmitted, MarksInv, AllBytes;
    assert fs[0..] == fs && fs[..0] == [];
    assert [] + (AllBytes(fs) + tail) == AllBytes(fs) + tail;
  }

  /** And through the ring to the device: what has been played is those samples without the positions a
      flush or reconnect superseded, each played while its own generation was the one acted on. */
  predicate PlaysTheScore(told: Score, s: System) {
    && |s.h.fates| == s.h.tail <= |told.stream| == |told.gens|
    && s.played == Select(told.stream, s.h.fates)
    && (forall i :: 0 <= i < s.h.tail && s.h.fates[i].Played? ==> s.h.fates[i].under == told.gens[i])
    && (forall i :: 0 <= i < s.h.tail && s.h.fates[i].Dropped? ==> told.gens[i] < s.h.acted)
  }

  /** Ends of audio reach the drain in order, each at most once and only once every sample before it is
      played or superseded; one that does not was crowded out by four newer ones or superseded. */
  predicate ReportsTheEnds(told: Score, m: Marked) {
    var log := m.log;
    && |log.fates| == |told.ends|
    && (forall i, j :: 0 <= i < j < |log.popped| ==> log.popped[i] < log.popped[j])
    && (forall k :: 0 <= k < |log.popped| ==>
          && log.popped[k] < |told.ends| && told.ends[log.popped[k]].pos <= m.s.h.tail
          && log.fates[log.popped[k]] == Popped(told.ends[log.popped[k]].pos))
    && (forall k :: 0 <= k < |log.fifo| ==> log.fifo[k] < |told.ends| && told.ends[log.fifo[k]].pos >= m.s.h.tail)
    && (forall id :: 0 <= id < |told.ends| && id !in log.fifo && id !in log.popped ==>
          || (log.fates[id].Overflowed? && id + RING_EOA_MARK_CAP <= log.fates[id].newer < |told.ends|)
          || (log.fates[id] == Superseded && told.ends[id].gen < m.s.h.acted))
  }

  lemma SocketToDevice(w: Usize, fs: seq<StreamFrame>, tail: seq<Byte>, m0: Marked, events: seq<PodEvent>)
    returns (j: nat)
    requires Torn(tail) && AllAdmitted(fs, false) && MarksInv(m0)
    requires TWO32 % m0.s.ring.cap == 0
    ensures j <= |fs|
    ensures var p := Lived(w, m0, AllBytes(fs) + tail, events);
            var told := AddAll(ScoreOf(m0), fs[..j]);
            && p.acc + p.unread == AllBytes(fs[j..]) + tail
            && PlaysTheScore(told, p.m.s) && ReportsTheEnds(told, p.m)
            && told.stream == m0.s.h.stream + Pcm(fs[..j])
  {
    hide Lived;
    j := SocketToRing(w, fs, tail, m0, events);
    LivedKeepsCap(w, m0, AllBytes(fs) + tail, events);
    var p := Lived(w, m0, AllBytes(fs) + tail, events);
    StreamIsPcm(ScoreOf(m0), fs[..j]);
    RingPlays(p.m);
    RingReports(p.m);
    hide MarksInv, AllBytes, AllAdmitted, AddAll, Pcm, FrameBytes, PlaysTheScore, ReportsTheEnds;
    ScoreIgnoresGeneration(AddAll(ScoreOf(m0), fs[..j]), p.m);
  }

  lemma RingPlays(m: Marked)
    requires MarksInv(m) && TWO32 % m.s.ring.cap == 0
    ensures PlaysTheScore(ScoreOf(m), m.s)
  {
    hide Dated, Stored, StagedOk, Filed, Reported, Ordered, Within, Ahead, Settled, Mirrored;
  }

  lemma RingReports(m: Marked)
    requires MarksInv(m)
    ensures ReportsTheEnds(ScoreOf(m), m)
  {
    PendingInPlace(m);
    ReportedInPlace(m);
    forall id | 0 <= id < |m.log.pushed| && id !in m.log.fifo && id !in m.log.popped
      ensures || (m.log.fates[id].Overflowed? && id + RING_EOA_MARK_CAP <= m.log.fates[id].newer < |m.log.pushed|)
              || (m.log.fates[id] == Superseded && m.log.pushed[id].gen < m.s.h.acted)
    {
      LostHow(m, id);
    }
    hide MarksInv;
  }

  /** Neither law looks at the generation counter itself, which is one ahead mid-flush. */
  lemma ScoreIgnoresGeneration(told: Score, m: Marked)
    requires ScoreOf(m) == told || ScoreOf(m) == told.(gen := told.gen + 1)
    ensures PlaysTheScore(ScoreOf(m), m.s) ==> PlaysTheScore(told, m.s)
    ensures ReportsTheEnds(ScoreOf(m), m) ==> ReportsTheEnds(told, m)
  {
  }

  lemma StepKeepsCap(m: Marked, e: Event)
    ensures MarkStep(m, e).s.ring.cap == m.s.ring.cap
  {
  }

  lemma {:induction false} LivedKeepsCap(w: Usize, m0: Marked, stream: seq<Byte>, events: seq<PodEvent>)
    ensures Lived(w, m0, stream, events).m.s.ring.cap == m0.s.ring.cap
  {
    if events != [] {
      var init := events[..|events| - 1];
      LivedKeepsCap(w, m0, stream, init);
      var p := Lived(w, m0, stream, init);
      EventKeepsCap(w, p, events[|events| - 1]);
    }
  }

  lemma EventKeepsCap(w: Usize, p: Pod, e: PodEvent)
    ensures OnEvent(w, p, e).m.s.ring.cap == p.m.s.ring.cap
  {
    hide HeadOf, MarkStep, Write;
    StepKeepsCap(p.m, MarkEnd);
    StepKeepsCap(p.m, Reconnect);
    if e.Drain? {
      StepKeepsCap(p.m, e.e);
    }
    var h := HeadOf(w, p.acc, p.hello);
    if h.Whole? && h.act.Offer? {
      StepKeepsCap(p.m, Produce(h.act.pcm));
    }
  }

  /** A connection that opens with a reset is isolated from what the ring held before it: whatever is
      played under its generations is its own samples. */
  lemma NewConnectionIsIsolated(w: Usize, fs: seq<StreamFrame>, tail: seq<Byte>, before: Marked,
                                events: seq<PodEvent>, i: nat)
    requires Torn(tail) && AllAdmitted(fs, false) && MarksInv(before) && Legal(before.s, Reconnect)
    requires var m0 := MarkStep(before, Reconnect);
             var h := Lived(w, m0, AllBytes(fs) + tail, events).m.s.h;
             i < |h.fates| && h.fates[i].Played? && h.fates[i].under >= m0.s.h.gen
    ensures i >= |before.s.h.stream|
  {
    ReconnectTells(before);
    var m0 := MarkStep(before, Reconnect);
    OldBytesAreDated(before);
    hide Lived, MarkStep, MarksInv;
    var j := SocketToRing(w, fs, tail, m0, events);
    AddAllExtends(ScoreOf(m0), fs[..j]);
    PlayedUnderOwnGeneration(Lived(w, m0, AllBytes(fs) + tail, events).m, i);
  }

  lemma OldBytesAreDated(m: Marked)
    requires MarksInv(m) && Legal(m.s, Reconnect)
    ensures var h := MarkStep(m, Reconnect).s.h;
            |h.gens| == |m.s.h.stream| && forall i :: 0 <= i < |h.gens| ==> h.gens[i] < h.gen
  {
    ReconnectKeeps(m.s);
  }

  lemma {:induction false} AddAllExtends(b: Score, fs: seq<StreamFrame>)
    ensures b.gens <= AddAll(b, fs).gens
  {
    if fs != [] {
      AddAllExtends(b, fs[..|fs| - 1]);
    }
  }

  lemma PlayedUnderOwnGeneration(m: Marked, i: nat)
    requires MarksInv(m) && i < |m.s.h.fates| && m.s.h.fates[i].Played?
    ensures i < |m.s.h.gens| && m.s.h.gens[i] == m.s.h.fates[i].under
  {
    hide Dated, Stored, StagedOk, Filed, Reported, Ordered, Within, Ahead, Settled, Mirrored;
  }

  // ---------------------------------------------------------------------------------------------
  // When it is all through

  /** A pass of the consume loop does nothing only for want of bytes, of room in the ring, or, for a flush, of a
      generation the counter can still tell apart. */
  lemma PodStallsOnly(w: Usize, p: Pod)
    requires Sound(p.m.s.ring) && !p.faulted && OnFrame(w, p) == p
    ensures var h := HeadOf(w, p.acc, p.hello);
            || h.Partial?
            || (h.Whole? && h.act.Offer? && |h.act.pcm| > p.m.s.ring.cap - Used(p.m.s.ring))
            || (h.Whole? && h.act == Emit(FlushPlaybackNow) && !Legal(p.m.s, Reconnect))
  {
    hide HeadOf, MarkStep, Used;
  }

  lemma {:induction false} NoFlushOneGeneration(b: Score, fs: seq<StreamFrame>)
    requires forall i :: 0 <= i < |fs| ==> !fs[i].FlushPlayback?
    requires |b.gens| == |b.stream| && forall i :: 0 <= i < |b.gens| ==> b.gens[i] == b.gen
    ensures var s := AddAll(b, fs);
            s.gen == b.gen && |s.gens| == |s.stream| && forall i :: 0 <= i < |s.gens| ==> s.gens[i] == b.gen
  {
    if fs != [] {
      NoFlushOneGeneration(b, fs[..|fs| - 1]);
    }
  }

  lemma {:induction false} SelectAll(stream: seq<Byte>, fates: seq<Fate>)
    requires |fates| <= |stream| && forall i :: 0 <= i < |fates| ==> fates[i].Played?
    ensures Select(stream, fates) == stream[..|fates|]
  {
    if fates != [] {
      var k := |fates| - 1;
      SelectAll(stream, fates[..k]);
      assert stream[..k] + [stream[k]] == stream[..k + 1];
    }
  }

  lemma NoBytesNoFrames(fs: seq<StreamFrame>, tail: seq<Byte>)
    requires AllBytes(fs) + tail == tail
    ensures fs == []
  {
    hide FrameBytes;
    assert |AllBytes(fs)| == 0;
  }

  /** Nothing is lost at all: when every byte but a torn tail has been taken off a connection to a fresh ring, none of
      its frames was a flush, and the ring has been drained, the device has played exactly the samples sent. */
  lemma AllIsPlayed(w: Usize, fs: seq<StreamFrame>, tail: seq<Byte>, storage: seq<Byte>, events: seq<PodEvent>)
    requires Torn(tail) && AllAdmitted(fs, false) && forall i :: 0 <= i < |fs| ==> !fs[i].FlushPlayback?
    requires 0 < |storage| < TWO32 && TWO32 % |storage| == 0
    requires var p := Lived(w, Marked(Start(storage), EMPTY_LOG), AllBytes(fs) + tail, events);
             p.acc + p.unread == tail && p.m.s.h.tail == |p.m.s.h.stream|
    ensures Lived(w, Marked(Start(storage), EMPTY_LOG), AllBytes(fs) + tail, events).m.s.played == Pcm(fs)
  {
    var m0 := Marked(Start(storage), EMPTY_LOG);
    StartKeepsMarks(storage);
    StartSaysNothing(storage);
    hide MarksInv, Lived, AllBytes, Torn, AllAdmitted, Given, Start, Pcm;
    var j := SocketToRing(w, fs, tail, m0, events);
    LivedKeepsCap(w, m0, AllBytes(fs) + tail, events);
    GivenAllPlayed(fs, tail, m0, Lived(w, m0, AllBytes(fs) + tail, events), j);
  }

  lemma StartSaysNothing(storage: seq<Byte>)
    ensures ScoreOf(Marked(Start(storage), EMPTY_LOG)) == Score([], [], 0, []) && Start(storage).ring.cap == |storage|
  {
  }

  lemma GivenAllPlayed(fs: seq<StreamFrame>, tail: seq<Byte>, m0: Marked, p: Pod, j: nat)
    requires Given(fs, tail, m0, p, j) && forall i :: 0 <= i < |fs| ==> !fs[i].FlushPlayback?
    requires ScoreOf(m0) == Score([], [], 0, []) && p.m.s.ring.cap > 0 && TWO32 % p.m.s.ring.cap == 0
    requires p.acc + p.unread == tail && p.m.s.h.tail == |p.m.s.h.stream|
    ensures p.m.s.played == Pcm(fs)
  {
    hide MarksInv, AllBytes, AllAdmitted, FrameBytes, AddAll, Pcm, ReportsTheEnds;
    NoBytesNoFrames(fs[j..], tail);
    assert fs[..j] == fs;
    RingPlays(p.m);
    NoFlushOneGeneration(ScoreOf(m0), fs);
    StreamIsPcm(ScoreOf(m0), fs);
    hide PlaysTheScore;
    AllTold(p.m, Pcm(fs));
  }

  lemma AllTold(m: Marked, pcm: seq<Byte>)
    requires MarksInv(m) && PlaysTheScore(ScoreOf(m), m.s) && m.s.h.stream == [] + pcm && m.s.h.gen == 0
    requires m.s.h.tail == |m.s.h.stream|
    ensures m.s.played == pcm
  {
    assert m.s.h.acted <= m.s.h.gen;
    hide MarksInv, Select;
    SelectAll(m.s.h.stream, m.s.h.fates);
    assert m.s.h.stream[..|pcm|] == pcm;
  }
}
