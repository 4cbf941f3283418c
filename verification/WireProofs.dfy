/** The codec's laws: round trips through both decoders, and their agreement on every byte string. */
module WireProofs {
  import opened Bytes
  import opened Postcard
  import opened Wire

  // ---------------------------------------------------------------------------------------------
  // Round trip, body by body, whatever follows the body

  lemma HelloRoundTrip(w: Usize, f: StreamFrame, rest: seq<Byte>)
    requires f.Hello?
    ensures TakeHello(w, Body(f) + rest) == Got(f, rest)
  {
    hide PutVarint, TakeVarint, TakeU32, PutRun, TakeRun, Utf8;
    var r7 := PutVarint(SourceTag(f.channelSource)) + rest;
    var r6 := PutVarint(0) + r7;
    var r4 := [f.bitsPerSample, f.channels] + r6;
    var r3 := PutVarint(f.sampleRateHz) + r4;
    var r2 := PutRun(f.podId) + r3;
    var s := Body(f) + rest;
    assert s == [f.version] + r2;
    assert s[1..] == r2;
    RunRoundTrip(w, f.podId, POD_ID_CAP, r3);
    U32RoundTrip(f.sampleRateHz, r4);
    var r5 := [f.channels] + r6;
    assert r4[1..] == r5 && r5[1..] == r6;
    assert TakeByte(r4) == Got(f.bitsPerSample, r5) && TakeByte(r5) == Got(f.channels, r6);
    U32RoundTrip(0, r7);
    U32RoundTrip(SourceTag(f.channelSource), rest);
    assert f.codec == S16Le;
    assert TakeByte(s) == Got(f.version, r2);
    assert TakeString(w, r2, POD_ID_CAP) == Got(f.podId, r3);
    assert TakeU32(r3) == Got(f.sampleRateHz, r4);
    assert TakeCodec(r6) == Got(S16Le, r7);
    assert TakeSource(r7) == Got(f.channelSource, rest);
  }

  lemma SegmentStartRoundTrip(f: StreamFrame, rest: seq<Byte>)
    requires f.SegmentStart?
    ensures TakeSegmentStart(Body(f) + rest) == Got(f, rest)
  {
    var r3 := PutVarint(f.prerollSamples) + rest;
    var r2 := PutVarint(f.baseDeviceTsUs) + r3;
    var r1 := PutVarint(f.baseSampleIndex) + r2;
    assert Body(f) + rest == PutVarint(f.segmentId) + r1;
    U32RoundTrip(f.segmentId, r1);
    U64RoundTrip(f.baseSampleIndex, r2);
    U64RoundTrip(f.baseDeviceTsUs, r3);
    U32RoundTrip(f.prerollSamples, rest);
  }

  lemma AudioRoundTrip(w: Usize, f: StreamFrame, rest: seq<Byte>)
    requires f.Audio?
    ensures TakeAudio(w, Body(f) + rest) == Got(f, rest)
  {
    var r3 := PutRun(f.pcm) + rest;
    var r2 := PutVarint(f.deviceTsUs) + r3;
    var r1 := PutVarint(f.firstSampleIndex) + r2;
    assert Body(f) + rest == PutVarint(f.segmentId) + r1;
    U32RoundTrip(f.segmentId, r1);
    U64RoundTrip(f.firstSampleIndex, r2);
    U64RoundTrip(f.deviceTsUs, r3);
    RunRoundTrip(w, f.pcm, MAX_AUDIO_PAYLOAD, rest);
  }

  lemma AudioWalkRoundTrip(f: StreamFrame, rest: seq<Byte>)
    requires f.Audio?
    ensures WalkAudio(Body(f) + rest) == Ok(Project(f))
  {
    var r4 := f.pcm + rest;
    var r3 := PutVarint(|f.pcm|) + r4;
    var r2 := PutVarint(f.deviceTsUs) + r3;
    var r1 := PutVarint(f.firstSampleIndex) + r2;
    assert PutRun(f.pcm) + rest == r3;
    assert Body(f) + rest == PutVarint(f.segmentId) + r1;
    U32RoundTrip(f.segmentId, r1);
    U64RoundTrip(f.firstSampleIndex, r2);
    U64RoundTrip(f.deviceTsUs, r3);
    U32RoundTrip(|f.pcm|, r4);
    assert r4[..|f.pcm|] == f.pcm;
  }

  lemma TelemetryRoundTrip(f: StreamFrame, rest: seq<Byte>)
    requires f.Telemetry?
    ensures TakeTelemetry(Body(f) + rest) == Got(f, rest)
  {
    var tag := if f.kind.Azimuths? then 0 else 1;
    var r2 := f.kind.values + rest;
    var r1 := PutVarint(tag) + r2;
    assert Body(f) + rest == PutVarint(f.deviceTsUs) + r1;
    U64RoundTrip(f.deviceTsUs, r1);
    U32RoundTrip(tag, r2);
    assert r2[..16] == f.kind.values && r2[16..] == rest;
  }

  lemma SegmentEndRoundTrip(f: StreamFrame, rest: seq<Byte>)
    requires f.SegmentEnd?
    ensures TakeSegmentEnd(Body(f) + rest) == Got(f, rest)
  {
    var r4 := PutVarint(ReasonTag(f.reason)) + rest;
    var r3 := PutVarint(f.samplesSent) + r4;
    var r2 := PutVarint(f.framesSent) + r3;
    var r1 := PutVarint(f.deviceTsUs) + r2;
    assert Body(f) + rest == PutVarint(f.segmentId) + r1;
    U32RoundTrip(f.segmentId, r1);
    U64RoundTrip(f.deviceTsUs, r2);
    U32RoundTrip(f.framesSent, r3);
    U64RoundTrip(f.samplesSent, r4);
    U32RoundTrip(ReasonTag(f.reason), rest);
  }

  lemma BodyRoundTrip(w: Usize, f: StreamFrame, rest: seq<Byte>)
    ensures TakeBody(w, Tag(f), Body(f) + rest) == Got(f, rest)
  {
    match f
    case Hello(_, _, _, _, _, _, _) => HelloRoundTrip(w, f, rest);
    case SegmentStart(_, _, _, _) => SegmentStartRoundTrip(f, rest);
    case Audio(_, _, _, _) => AudioRoundTrip(w, f, rest);
    case Telemetry(_, _) => TelemetryRoundTrip(f, rest);
    case SegmentEnd(_, _, _, _, _) => SegmentEndRoundTrip(f, rest);
    case EndOfAudio => assert Body(f) + rest == rest;
    case FlushPlayback => assert Body(f) + rest == rest;
  }

  lemma WalkRoundTrip(w: Usize, f: StreamFrame)
    ensures WalkBody(w, Tag(f), Body(f)) == Ok(Project(f))
  {
    assert Body(f) + [] == Body(f);
    if f.Hello? {
      HelloRoundTrip(w, f, []);
    } else if f.Audio? {
      AudioWalkRoundTrip(f, []);
    }
  }

  lemma TagRoundTrip(f: StreamFrame)
    ensures TakeU32(Payload(f)) == Got(Tag(f), Body(f))
  {
    U32RoundTrip(Tag(f), Body(f));
  }

  lemma PrefixRoundTrip(f: StreamFrame, rest: seq<Byte>)
    ensures var s := FrameBytes(f) + rest;
            DeclaredLength(s) == |FrameBytes(f)| - 2 && StripPrefix(s) == Ok(Payload(f))
  {
    PayloadFits(f);
    var s := FrameBytes(f) + rest;
    assert s[2..2 + |Payload(f)|] == Payload(f);
  }

  /** Both decoders undo the encoder, on either platform and whatever bytes follow the frame. */
  lemma CodecRoundTrip(w: Usize, f: StreamFrame, rest: seq<Byte>)
    ensures DecodeFrame(w, FrameBytes(f) + rest) == Ok(f)
    ensures DecodeInbound(w, FrameBytes(f) + rest) == Ok(Project(f))
  {
    PrefixRoundTrip(f, rest);
    TagRoundTrip(f);
    BodyRoundTrip(w, f, []);
    assert Body(f) + [] == Body(f);
    WalkRoundTrip(w, f);
  }

  /** Distinct frames have encodings neither of which begins the other. */
  lemma EncodingIsPrefixFree(f: StreamFrame, g: StreamFrame, x: seq<Byte>, y: seq<Byte>)
    requires FrameBytes(f) + x == FrameBytes(g) + y
    ensures f == g && x == y
  {
    CodecRoundTrip(Usize32, f, x);
    CodecRoundTrip(Usize32, g, y);
    assert (FrameBytes(f) + x)[|FrameBytes(f)|..] == x;
    assert (FrameBytes(g) + y)[|FrameBytes(g)|..] == y;
  }

  /** The wire layout is pinned byte for byte. */
  lemma GoldenBytes()
    ensures Payload(SegmentStart(1, 0, 0, 0)) == [1, 1, 0, 0, 0]
    ensures Payload(EndOfAudio) == [5] && Payload(FlushPlayback) == [6]
  {
  }

  /** The bytes of "pod-aabbcc". */
  const POD_AABBCC: seq<Byte> := [0x70, 0x6f, 0x64, 0x2d, 0x61, 0x61, 0x62, 0x62, 0x63, 0x63]

  lemma GoldenHelloBytes()
    ensures Payload(Hello(3, POD_AABBCC, 16_000, 16, 1, S16Le, CommunicationBeam))
            == [0x00, 0x03, 0x0a] + POD_AABBCC + [0x80, 0x7d, 0x10, 0x01, 0x00, 0x03]
  {
    assert PutVarint(16_000) == [0x80, 0x7d] by {
      assert PutVarint(125) == [125];
    }
    assert PutVarint(0) == [0] && PutVarint(3) == [3] && PutVarint(10) == [10];
    hide PutVarint;
    assert PutRun(POD_AABBCC) == [0x0a] + POD_AABBCC;
    hide PutRun;
  }

  // ---------------------------------------------------------------------------------------------
  // The two decoders on arbitrary bytes

  /** Bytes of the PCM length varint in an Audio payload, 0 when the header before it does not parse. */
  function PcmLengthWidth(w: Usize, payload: seq<Byte>): nat {
    match TakeU32(payload)
    case Bad => 0
    case Got(_, s0) =>
      match TakeU32(s0)
      case Bad => 0
      case Got(_, s1) =>
        match TakeU64(s1)
        case Bad => 0
        case Got(_, s2) =>
          match TakeU64(s2)
          case Bad => 0
          case Got(_, s3) =>
            match TakeUsize(w, s3)
            case Bad => 0
            case Got(_, s4) => |s3| - |s4|
  }

  lemma WalkAgreesWithTakeAudio(w: Usize, payload: seq<Byte>, s: seq<Byte>)
    requires TakeU32(payload) == Got(2, s)
    requires TakeAudio(w, s).Got?
    ensures PcmLengthWidth(w, payload) <= 5 ==> WalkAudio(s) == Ok(Project(TakeAudio(w, s).value))
    ensures PcmLengthWidth(w, payload) > 5 ==> WalkAudio(s) == Err(DecodePostcardError)
  {
    var s1 := TakeU32(s).rest;
    var s2 := TakeU64(s1).rest;
    var s3 := TakeU64(s2).rest;
    if w.Usize64? {
      BoundsAreTypeWidths();
      NarrowReadsWide(s3, 5, 15, 10, 1);
    } else {
      VarintWidth(s3, 5, 15);
    }
  }

  /** A frame the owned decoder accepts, the borrowing one accepts with the same projection — except
      an Audio frame whose length was spelt in more than five varint bytes. */
  lemma BorrowedFollowsOwned(w: Usize, buf: seq<Byte>)
    requires DecodeFrame(w, buf).Ok?
    ensures DecodeInbound(w, buf) == Ok(Project(DecodeFrame(w, buf).value))
            <==> !(DecodeFrame(w, buf).value.Audio? && PcmLengthWidth(w, StripPrefix(buf).value) > 5)
  {
    var payload := StripPrefix(buf).value;
    var tag := TakeU32(payload).value;
    if tag == 2 {
      WalkAgreesWithTakeAudio(w, payload, TakeU32(payload).rest);
    }
  }

  /** On a 32-bit device that exception is empty. */
  lemma BorrowedFollowsOwnedOnDevice(buf: seq<Byte>)
    requires DecodeFrame(Usize32, buf).Ok?
    ensures DecodeInbound(Usize32, buf) == Ok(Project(DecodeFrame(Usize32, buf).value))
  {
    BorrowedFollowsOwned(Usize32, buf);
  }

  /** A continuation byte carrying no bits. */
  lemma EmptyContinuation(rest: seq<Byte>, width: nat, lastMax: nat)
    requires width > 0
    ensures var t := TakeVarint(rest, width - 1, lastMax);
            TakeVarint([128] + rest, width, lastMax) == if t.Bad? then Bad else Got(128 * t.value, t.rest)
  {
    assert ([128] + rest)[1..] == rest;
  }

  /** Zero spelt in six varint bytes: a `u64` reader takes it, a `u32` reader does not. */
  lemma SixByteZero()
    ensures var s := [128, 128, 128, 128, 128, 0]; TakeU64(s) == Got(0, []) && TakeU32(s) == Bad
  {
    var r0: seq<Byte> := [0];
    assert TakeVarint(r0, 5, 1) == Got(0, []) && TakeVarint(r0, 0, 15) == Bad;
    hide TakeVarint;
    var r1, r2, r3 := [128] + r0, [128] + ([128] + r0), [128] + ([128] + ([128] + r0));
    EmptyContinuation(r0, 6, 1);
    EmptyContinuation(r1, 7, 1);
    EmptyContinuation(r2, 8, 1);
    EmptyContinuation(r3, 9, 1);
    EmptyContinuation([128] + r3, 10, 1);
    EmptyContinuation(r0, 1, 15);
    EmptyContinuation(r1, 2, 15);
    EmptyContinuation(r2, 3, 15);
    EmptyContinuation(r3, 4, 15);
    EmptyContinuation([128] + r3, 5, 15);
    assert [128, 128, 128, 128, 128, 0] == [128] + ([128] + r3);
  }

  /** Three zero header fields before a PCM length. */
  lemma ZeroHeader(s: seq<Byte>)
    ensures var p := [0, 0, 0] + s;
            TakeU32(p) == Got(0, [0, 0] + s) && TakeU64([0, 0] + s) == Got(0, [0] + s) && TakeU64([0] + s) == Got(0, s)
  {
    var p: seq<Byte> := [0, 0, 0] + s;
    assert p == PutVarint(0) + ([0, 0] + s);
    U32RoundTrip(0, [0, 0] + s);
    assert [0, 0] + s == PutVarint(0) + ([0] + s);
    U64RoundTrip(0, [0] + s);
    U64RoundTrip(0, s);
  }

  /** An empty Audio frame whose PCM length, zero, is spelt in six bytes. */
  function WideLengthAudio(): seq<Byte> {
    PutVarint(2) + ([0, 0, 0] + [128, 128, 128, 128, 128, 0])
  }

  lemma WideLengthAudioDecodes()
    ensures TakeFrame(Usize64, WideLengthAudio()) == Got(Audio(0, 0, 0, []), [])
    ensures TakeU32(WideLengthAudio()).Got? && TakeU32(WideLengthAudio()).value == 2
    ensures WalkAudio(TakeU32(WideLengthAudio()).rest) == Err(DecodePostcardError)
  {
    var s: seq<Byte> := [128, 128, 128, 128, 128, 0];
    SixByteZero();
    ZeroHeader(s);
    U32RoundTrip(2, [0, 0, 0] + s);
    assert TakeRun(Usize64, s, MAX_AUDIO_PAYLOAD) == Got([], []);
    assert TakeAudio(Usize64, [0, 0, 0] + s) == Got(Audio(0, 0, 0, []), []);
  }

  lemma FramedStrips(p: seq<Byte>)
    requires |p| <= MAX_FRAME_BYTES
    ensures StripPrefix(Framed(p)) == Ok(p)
  {
    assert Framed(p)[2..2 + |p|] == p;
  }

  /** On a 64-bit host it is not. */
  lemma HostAcceptsWhatBorrowedRefuses()
    ensures |WideLengthAudio()| == 10
    ensures DecodeFrame(Usize64, Framed(WideLengthAudio())) == Ok(Audio(0, 0, 0, []))
    ensures DecodeInbound(Usize64, Framed(WideLengthAudio())) == Err(DecodePostcardError)
  {
    WideLengthAudioDecodes();
    FramedStrips(WideLengthAudio());
  }

  /** Conversely the borrowing decoder accepts an Audio or Hello frame only if the owned one does. */
  lemma OwnedFollowsBorrowed(w: Usize, buf: seq<Byte>)
    requires DecodeInbound(w, buf).Ok?
    requires DecodeInbound(w, buf).value.InAudio? || DecodeInbound(w, buf).value.InHello?
    ensures DecodeFrame(w, buf).Ok? && Project(DecodeFrame(w, buf).value) == DecodeInbound(w, buf).value
  {
    var payload := StripPrefix(buf).value;
    var s := TakeU32(payload).rest;
    if TakeU32(payload).value == 2 {
      var s1 := TakeU32(s).rest;
      var s2 := TakeU64(s1).rest;
      var s3 := TakeU64(s2).rest;
      NarrowImpliesWide(s3, 5, 15, 10, 1);
    }
  }

  /** A varint the narrow reader accepts, a wider one reads the same. */
  lemma {:induction false} NarrowImpliesWide(s: seq<Byte>, narrow: nat, narrowMax: nat, wide: nat, wideMax: nat)
    requires narrow < wide
    requires TakeVarint(s, narrow, narrowMax).Got?
    ensures TakeVarint(s, wide, wideMax) == TakeVarint(s, narrow, narrowMax)
    decreases narrow
  {
    if s[0] >= 128 {
      NarrowImpliesWide(s[1..], narrow - 1, narrowMax, wide - 1, wideMax);
    }
  }
}
