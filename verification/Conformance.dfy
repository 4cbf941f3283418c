/** Reassembly of streams that are frames: the codec under the accumulator. */
module Conformance {
  import opened Bytes
  import opened Postcard
  import opened Wire
  import opened WireProofs
  import opened FrameStream
  import opened Reassembly

  /** A frame the handshake admits: a Hello must match this device, the frames the device acts on need
      one before them, and the rest are ignored wherever they stand. */
  predicate Admitted(f: StreamFrame, hello: bool) {
    match f
    case Hello(version, _, rate, bits, channels, codec, _) =>
      version == AUDIO_PROTOCOL_VERSION && PlaybackFormat(rate, bits, channels, codec) == DEVICE_PLAYBACK_FORMAT
    case Audio(_, _, _, _) => hello
    case EndOfAudio => hello
    case FlushPlayback => hello
    case _ => true
  }

  predicate AllAdmitted(fs: seq<StreamFrame>, hello: bool) {
    fs == [] || (Admitted(fs[0], hello) && AllAdmitted(fs[1..], hello || fs[0].Hello?))
  }

  /** What the sink should be called with for a frame. */
  function Projected(f: StreamFrame): seq<SinkCall> {
    match f
    case Audio(_, _, _, pcm) => [AcceptPcm(pcm)]
    case EndOfAudio => [MarkEndOfAudio]
    case FlushPlayback => [FlushPlaybackNow]
    case _ => []
  }

  function Calls(fs: seq<StreamFrame>): seq<SinkCall> {
    if fs == [] then [] else Projected(fs[0]) + Calls(fs[1..])
  }

  function Greeted(fs: seq<StreamFrame>, hello: bool): bool {
    if fs == [] then hello else Greeted(fs[1..], hello || fs[0].Hello?)
  }

  /** A whole frame at the head is recognised as itself, and refused exactly when it is not admitted. */
  lemma FrameAtHead(w: Usize, f: StreamFrame, t: seq<Byte>, hello: bool)
    ensures var h := HeadOf(w, FrameBytes(f) + t, hello);
            if Admitted(f, hello)
            then h.Whole? && h.len == |FrameBytes(f)| && CallsOf(h.act) == Projected(f) && (h.act.Greet? <==> f.Hello?)
            else h.Faulty?
  {
    hide FrameBytes, DecodeInbound, DecodeFrame, StripPrefix;
    var s := FrameBytes(f) + t;
    PrefixRoundTrip(f, t);
    CodecRoundTrip(w, f, []);
    assert s[..|FrameBytes(f)|] == FrameBytes(f) + [];
  }

  /** A strict prefix of a frame is never mistaken for one. */
  lemma CutFrameWaits(w: Usize, f: StreamFrame, p: seq<Byte>, hello: bool)
    requires p < FrameBytes(f)
    ensures HeadOf(w, p, hello) == Partial
  {
    hide FrameBytes, DecodeInbound, StripPrefix;
    PrefixRoundTrip(f, []);
    assert FrameBytes(f) + [] == FrameBytes(f);
    if |p| >= 2 {
      assert DeclaredLength(p) == DeclaredLength(FrameBytes(f));
    }
  }

  lemma TornWaits(w: Usize, p: seq<Byte>, hello: bool)
    requires Torn(p)
    ensures HeadOf(w, p, hello) == Partial
  {
    if p != [] {
      var f: StreamFrame :| p < FrameBytes(f);
      CutFrameWaits(w, f, p, hello);
    }
  }

  /** The reference reads a stream of frames back as their projection, up to a frame cut short; and it
      waits for more exactly when every frame was admitted. */
  lemma {:induction false} ParseOfFrames(w: Usize, fs: seq<StreamFrame>, p: seq<Byte>, hello: bool)
    requires Torn(p)
    ensures AllAdmitted(fs, hello) ==>
              Parse(w, AllBytes(fs) + p, hello) == Parsed(Calls(fs), Awaiting(p, Greeted(fs, hello)))
    ensures !AllAdmitted(fs, hello) ==> Parse(w, AllBytes(fs) + p, hello).end.Failed?
  {
    hide HeadOf, FrameBytes, Torn;
    var s := AllBytes(fs) + p;
    if fs == [] {
      assert s == p;
      TornWaits(w, p, hello);
    } else {
      var f := fs[0];
      var t := AllBytes(fs[1..]) + p;
      assert s == FrameBytes(f) + t;
      FrameAtHead(w, f, t, hello);
      if Admitted(f, hello) {
        assert s[|FrameBytes(f)|..] == t;
        ParseOfFrames(w, fs[1..], p, hello || f.Hello?);
      }
    }
  }

  // ---------------------------------------------------------------------------------------------
  // Frame by frame, under any chunking and any refusals

  lemma {:induction false} CallsSplit(fs: seq<StreamFrame>, gs: seq<StreamFrame>)
    ensures Calls(fs + gs) == Calls(fs) + Calls(gs)
  {
    if fs == [] {
      assert fs + gs == gs;
    } else {
      assert (fs + gs)[1..] == fs[1..] + gs;
      CallsSplit(fs[1..], gs);
    }
  }

  lemma CallsStep(fs: seq<StreamFrame>, i: nat)
    requires fs != [] && i <= |fs| - 1
    ensures Calls(fs[..i + 1]) == Projected(fs[0]) + Calls(fs[1..][..i]) && fs[i + 1..] == fs[1..][i..]
  {
    assert fs[..i + 1][1..] == fs[1..][..i];
  }

  /** One consume over part of an admitted stream takes whole frames off it, in order. */
  lemma {:induction false} ConsumeTakesFrames(w: Usize, fs: seq<StreamFrame>, p: seq<Byte>, s: seq<Byte>, t: seq<Byte>,
                                              hello: bool, ask: nat -> bool, k: nat) returns (j: nat)
    requires Torn(p) && AllAdmitted(fs, hello) && s + t == AllBytes(fs) + p
    ensures j <= |fs|
    ensures var c := Consume(w, s, hello, ask, k);
            && c.out.Fine? && c.calls == Calls(fs[..j])
            && c.rest + t == AllBytes(fs[j..]) + p
            && AllAdmitted(fs[j..], c.hello)
    decreases |s|
  {
    hide HeadOf, FrameBytes, Torn, Admitted, Projected, CallsOf, InCapacity;
    var h := HeadOf(w, s, hello);
    j := 0;
    assert fs[0..] == fs;
    if !h.Partial? {
      HeadIsLocal(w, s, t, hello);
      if fs == [] {
        assert s + t == p;
        TornWaits(w, p, hello);
      } else {
        var f := fs[0];
        var u := AllBytes(fs[1..]) + p;
        assert s + t == FrameBytes(f) + u;
        FrameAtHead(w, f, u, hello);
        if !(h.act.Offer? && !ask(k)) {
          var k' := if h.act.Offer? then k + 1 else k;
          assert s[h.len..] + t == (s + t)[h.len..] == u;
          var i := ConsumeTakesFrames(w, fs[1..], p, s[h.len..], t, HelloAfter(h.act, hello), ask, k');
          j := i + 1;
          CallsStep(fs, i);
        }
      }
    }
  }

  /** A connection that has routed the first `j` of the frames and holds or has yet to read the rest. */
  ghost predicate At(fs: seq<StreamFrame>, p: seq<Byte>, f: Feed, j: nat) {
    && j <= |fs|
    && f.end == Quiet
    && f.conn.calls == Calls(fs[..j])
    && f.conn.acc + f.unread == AllBytes(fs[j..]) + p
    && AllAdmitted(fs[j..], f.conn.hello)
  }

  lemma FeedingTakesFrames(w: Usize, fs: seq<StreamFrame>, p: seq<Byte>, f: Feed, j: nat, g: nat, ask: nat -> bool)
    returns (j': nat)
    requires Torn(p) && |f.conn.acc| <= ACCUM_CAP && At(fs, p, f, j)
    ensures j <= j' && At(fs, p, Feeding(w, f, g, ask), j')
  {
    hide HeadOf, FrameBytes, Torn, Consume, AllBytes, AllAdmitted;
    var r := Grant(f.conn.acc, f.unread, g);
    var read := HasRoom(f.conn.acc) && r.Data?;
    var acc := if read then f.conn.acc + r.chunk else f.conn.acc;
    var unread := if read then f.unread[|r.chunk|..] else f.unread;
    assert acc + unread == f.conn.acc + f.unread;
    var i := ConsumeTakesFrames(w, fs[j..], p, acc, unread, f.conn.hello, ask, f.conn.asked);
    j' := j + i;
    assert fs[..j'] == fs[..j] + fs[j..][..i];
    CallsSplit(fs[..j], fs[j..][..i]);
    assert fs[j..][i..] == fs[j'..];
  }

  /** The composed law: for every list of admitted frames, every chunking of their encodings (and of a
      frame cut short behind them) and every pattern of refusals, the sink has been called with the
      projection of the first `j` frames, and the bytes held or unread are exactly the other frames. */
  lemma {:induction false} ReassemblyOfFrames(w: Usize, fs: seq<StreamFrame>, p: seq<Byte>, grants: seq<nat>,
                                              ask: nat -> bool)
    returns (j: nat)
    requires Torn(p) && AllAdmitted(fs, false)
    ensures At(fs, p, Fed(w, AllBytes(fs) + p, grants, ask), j)
  {
    hide HeadOf, FrameBytes, Torn;
    if grants == [] {
      j := 0;
      assert fs[0..] == fs && [] + (AllBytes(fs) + p) == AllBytes(fs) + p;
    } else {
      var init := grants[..|grants| - 1];
      var i := ReassemblyOfFrames(w, fs, p, init, ask);
      j := FeedingTakesFrames(w, fs, p, Fed(w, AllBytes(fs) + p, init, ask), i, grants[|grants| - 1], ask);
    }
  }
}
