/** What the device takes off the wire, byte for byte: which frames it greets, which it refuses and how. */
module WireLaw {
  import opened Bytes
  import opened Postcard
  import opened Wire
  import opened WireProofs
  import opened Reassembly

  // ---------------------------------------------------------------------------------------------
  // The layout of every frame kind

  /** Tags and fields in declaration order, one byte each where one will do. */
  lemma GoldenAudio()
    ensures Payload(SegmentStart(1, 2, 3, 4)) == [1, 1, 2, 3, 4]
    ensures Payload(Audio(1, 2, 3, [0x10, 0x20])) == [2, 1, 2, 3, 2, 0x10, 0x20]
  {
    SmallVarints();
    hide PutVarint;
    assert PutRun([0x10, 0x20]) == [2, 0x10, 0x20];
  }

  lemma GoldenTelemetry(values: seq<Byte>)
    ensures Payload(Telemetry(9, Azimuths(values))) == [3, 9, 0] + values
    ensures Payload(Telemetry(9, SpEnergy(values))) == [3, 9, 1] + values
  {
    SmallVarints();
    hide PutVarint;
    assert [3] + ([9] + ([0] + values)) == [3, 9, 0] + values;
    assert [3] + ([9] + ([1] + values)) == [3, 9, 1] + values;
  }

  lemma GoldenSegmentEnd(reason: EndReason)
    ensures Payload(SegmentEnd(1, 2, 3, 4, reason))
            == [4, 1, 2, 3, 4] + match reason case VadRelease => [0] case Overrun => [1] case InternalError => [2]
  {
    SmallVarints();
    hide PutVarint;
  }

  lemma SmallVarints()
    ensures PutVarint(0) == [0] && PutVarint(1) == [1] && PutVarint(2) == [2] && PutVarint(3) == [3]
    ensures PutVarint(4) == [4] && PutVarint(9) == [9]
  {
  }

  lemma GoldenSources(pod: seq<Byte>, source: ChannelSource)
    ensures Body(Hello(3, pod, 1, 16, 1, S16Le, source))
            == [3] + PutRun(pod) + [1, 16, 1, 0]
               + match source
                 case AsrBeam => [0] case ConferenceBeam => [1] case Stereo => [2] case CommunicationBeam => [3]
  {
    SmallVarints();
    hide PutVarint, PutRun;
  }

  // ---------------------------------------------------------------------------------------------
  // The handshake

  lemma HeadIsJudged(w: Usize, f: StreamFrame, t: seq<Byte>, hello: bool)
    ensures HeadOf(w, FrameBytes(f) + t, hello) == Judge(Ok(Project(f)), |FrameBytes(f)|, hello)
  {
    hide FrameBytes, DecodeInbound, DecodeFrame, StripPrefix, Judge;
    PrefixRoundTrip(f, t);
    CodecRoundTrip(w, f, []);
    assert (FrameBytes(f) + t)[..|FrameBytes(f)|] == FrameBytes(f) + [];
  }

  /** The device greets exactly protocol version 3 at 16 kHz, 16 bit, mono. Anything else is a fault that names
      what was wrong: the version first, then the first format field that differs. */
  lemma HelloIsGreetedExactly(w: Usize, f: StreamFrame, t: seq<Byte>, hello: bool)
    requires f.Hello?
    ensures HeadOf(w, FrameBytes(f) + t, hello) ==
            if f.version != 3 then Faulty(VersionMismatch(f.version), hello)
            else if f.sampleRateHz != 16_000 then
              Faulty(FormatMismatch(Mismatch(SampleRateHz, 16_000, f.sampleRateHz)), true)
            else if f.bitsPerSample != 16 then
              Faulty(FormatMismatch(Mismatch(BitsPerSample, 16, f.bitsPerSample)), true)
            else if f.channels != 1 then
              Faulty(FormatMismatch(Mismatch(Channels, 1, f.channels)), true)
            else Whole(|FrameBytes(f)|, Greet)
  {
    HeadIsJudged(w, f, t, hello);
    hide FrameBytes, HeadOf;
  }

  /** The pinned Hello, at the bytes: nineteen of payload behind a little-endian length. */
  lemma PinnedHelloIsGreeted(w: Usize)
    ensures HeadOf(w, [19, 0] + ([0x00, 0x03, 0x0a] + POD_AABBCC + [0x80, 0x7d, 0x10, 0x01, 0x00, 0x03]), false)
            == Whole(21, Greet)
  {
    hide HeadOf, Payload, FrameBytes, Framed, Utf8;
    PodIsUtf8();
    var f: StreamFrame := Hello(3, POD_AABBCC, 16_000, 16, 1, S16Le, CommunicationBeam);
    GoldenHelloBytes();
    HelloIsGreetedExactly(w, f, [], false);
    FrameIsFramed(f);
    FramedShort(Payload(f));
    assert FrameBytes(f) + [] == FrameBytes(f);
  }

  lemma FrameIsFramed(f: StreamFrame)
    ensures |Payload(f)| <= MAX_FRAME_BYTES && FrameBytes(f) == Framed(Payload(f))
  {
    hide Payload;
    PayloadFits(f);
  }

  lemma FramedShort(p: seq<Byte>)
    requires |p| < 256
    ensures |p| <= MAX_FRAME_BYTES && Framed(p) == [|p|, 0] + p
  {
  }

  lemma PodIsUtf8()
    ensures Utf8(POD_AABBCC)
  {
    hide Utf8;
    AsciiIsUtf8(POD_AABBCC);
  }

  lemma {:induction false} AsciiIsUtf8(s: seq<Byte>)
    requires forall i :: 0 <= i < |s| ==> s[i] < 0x80
    ensures Utf8(s)
  {
    if s != [] {
      AsciiIsUtf8(s[1..]);
    }
  }

  /** Every other frame: what it needs before it, what it asks for, and the fault it gives without. */
  lemma OtherFramesAreJudgedExactly(w: Usize, f: StreamFrame, t: seq<Byte>, hello: bool)
    requires !f.Hello?
    ensures var h := HeadOf(w, FrameBytes(f) + t, hello);
            match f
            case Audio(_, _, _, pcm) =>
              h == if hello then Whole(|FrameBytes(f)|, Offer(pcm)) else Faulty(AudioBeforeHello, false)
            case EndOfAudio =>
              h == if hello then Whole(|FrameBytes(f)|, Emit(MarkEndOfAudio)) else Faulty(EndOfAudioBeforeHello, false)
            case FlushPlayback =>
              h == if hello then Whole(|FrameBytes(f)|, Emit(FlushPlaybackNow)) else Faulty(FlushBeforeHello, false)
            case _ => h == Whole(|FrameBytes(f)|, Ignore)
  {
    HeadIsJudged(w, f, t, hello);
    hide FrameBytes, HeadOf;
  }

  // ---------------------------------------------------------------------------------------------
  // The length prefix

  function LittleEndian(lo: nat, hi: nat): nat {
    lo + 256 * hi
  }

  /** A prefix strips exactly when a whole payload of at most 4 096 bytes stands behind its little-endian length;
      a longer length is refused however much is there; anything else is cut short. */
  lemma PrefixIsExact(s: seq<Byte>)
    ensures var r := StripPrefix(s);
            var n: int := if |s| < 2 then -1 else LittleEndian(s[0], s[1]);
            && (r.Err? && r.error.OversizeFrame? <==> n > 4096)
            && (n > 4096 ==> r.error.len == n)
            && (r == Err(Truncated) <==> n < 0 || (n <= 4096 && |s| < 2 + n))
            && (r.Ok? <==> 0 <= n <= 4096 && |s| >= 2 + n)
            && (r.Ok? ==> r.value == s[2..2 + n] && Framed(r.value) <= s)
  {
    var r := StripPrefix(s);
    if r.Ok? {
      assert Framed(r.value) == s[..2 + |r.value|];
    }
  }

  /** The accumulator's reading of its head is the decoder's reading of the whole buffer: it waits exactly when the
      decoder would find it cut short, and what lies behind the frame makes no difference. */
  lemma HeadAgreesWithDecoder(w: Usize, s: seq<Byte>, hello: bool)
    ensures var h := HeadOf(w, s, hello);
            && (h.Partial? <==> StripPrefix(s) == Err(Truncated))
            && (h == Faulty(LengthOverLimit, hello) <==> StripPrefix(s).Err? && StripPrefix(s).error.OversizeFrame?)
            && (StripPrefix(s).Ok? ==> h == Judge(DecodeInbound(w, s), 2 + |StripPrefix(s).value|, hello))
  {
    if |s| >= 2 && |s| >= 2 + DeclaredLength(s) {
      var frame := s[..2 + DeclaredLength(s)];
      assert DeclaredLength(frame) == DeclaredLength(s);
      assert frame[2..2 + DeclaredLength(s)] == s[2..2 + DeclaredLength(s)];
    }
    hide TakeU32, WalkBody, StripPrefix;
  }

  // ---------------------------------------------------------------------------------------------
  // What the decoders refuse

  /** Neither decoder knows a tag above 6. */
  lemma UnknownTagsAreRefused(w: Usize, tag: nat, rest: seq<Byte>)
    requires 7 <= tag < TWO32 && |PutVarint(tag) + rest| <= MAX_FRAME_BYTES
    ensures DecodeInbound(w, Framed(PutVarint(tag) + rest)) == Err(DecodePostcardError)
    ensures DecodeFrame(w, Framed(PutVarint(tag) + rest)) == Err(DecodePostcardError)
  {
    U32RoundTrip(tag, rest);
    FramedStrips(PutVarint(tag) + rest);
    hide Framed, StripPrefix, TakeU32;
  }

  /** An Audio body: its three counters, and a PCM length the body may or may not live up to. */
  function AudioClaiming(id: nat, first: nat, ts: nat, n: nat, rest: seq<Byte>): seq<Byte> {
    PutVarint(2) + (PutVarint(id) + (PutVarint(first) + (PutVarint(ts) + (PutVarint(n) + rest))))
  }

  /** The borrowing decoder takes an Audio frame's PCM exactly when it claims at most 1 280 bytes and has them: an
      oversize claim is told apart from a short body, and bytes behind the PCM are ignored. */
  lemma AudioIsTakenExactly(w: Usize, id: nat, first: nat, ts: nat, n: nat, rest: seq<Byte>)
    requires id < TWO32 && first < TWO64 && ts < TWO64 && n < TWO32
    requires |AudioClaiming(id, first, ts, n, rest)| <= MAX_FRAME_BYTES
    ensures DecodeInbound(w, Framed(AudioClaiming(id, first, ts, n, rest)))
            == if n > 1280 then Err(OversizePcm(n))
               else if |rest| < n then Err(Truncated)
               else Ok(InAudio(id, first, ts, rest[..n]))
  {
    var r3 := PutVarint(n) + rest;
    var r2 := PutVarint(ts) + r3;
    var r1 := PutVarint(first) + r2;
    U32RoundTrip(2, PutVarint(id) + r1);
    U32RoundTrip(id, r1);
    U64RoundTrip(first, r2);
    U64RoundTrip(ts, r3);
    U32RoundTrip(n, rest);
    FramedStrips(AudioClaiming(id, first, ts, n, rest));
    hide Framed, StripPrefix, TakeU32, TakeU64, PutVarint;
  }

  /** The owned decoder takes it on the same terms, without telling the refusals apart. */
  lemma AudioIsOwnedExactly(w: Usize, id: nat, first: nat, ts: nat, n: nat, rest: seq<Byte>)
    requires id < TWO32 && first < TWO64 && ts < TWO64 && n < TWO32
    requires |AudioClaiming(id, first, ts, n, rest)| <= MAX_FRAME_BYTES
    ensures DecodeFrame(w, Framed(AudioClaiming(id, first, ts, n, rest)))
            == if n > 1280 || |rest| < n then Err(DecodePostcardError) else Ok(Audio(id, first, ts, rest[..n]))
  {
    var r3 := PutVarint(n) + rest;
    var r2 := PutVarint(ts) + r3;
    var r1 := PutVarint(first) + r2;
    U32RoundTrip(2, PutVarint(id) + r1);
    U32RoundTrip(id, r1);
    U64RoundTrip(first, r2);
    U64RoundTrip(ts, r3);
    UsizeRoundTrip(w, n, rest);
    FramedStrips(AudioClaiming(id, first, ts, n, rest));
    hide Framed, StripPrefix, TakeU32, TakeU64, TakeUsize, PutVarint;
  }

  /** A Hello is decoded exactly when its pod id is at most 32 bytes of UTF-8. */
  lemma PodIdIsTakenExactly(w: Usize, podId: seq<Byte>, rest: seq<Byte>)
    requires |podId| < TWO32
    ensures TakeString(w, PutRun(podId) + rest, POD_ID_CAP).Got? <==> |podId| <= 32 && Utf8(podId)
  {
    hide TakeRun, PutRun, Utf8;
    RunIsTakenExactly(w, podId, POD_ID_CAP, rest);
  }

  lemma RunIsTakenExactly(w: Usize, bytes: seq<Byte>, cap: nat, rest: seq<Byte>)
    requires |bytes| < TWO32
    ensures TakeRun(w, PutRun(bytes) + rest, cap) == if |bytes| > cap then Bad else Got(bytes, rest)
  {
    hide TakeUsize, PutVarint;
    assert PutRun(bytes) + rest == PutVarint(|bytes|) + (bytes + rest);
    UsizeRoundTrip(w, |bytes|, bytes + rest);
    assert (bytes + rest)[..|bytes|] == bytes && (bytes + rest)[|bytes|..] == rest;
  }
}
