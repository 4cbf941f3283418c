/**
 * The audio transport's frames and their two decoders: a `u16` little-endian length prefix, then a
 * Postcard-encoded `StreamFrame`. `DecodeFrame` is the owned decoder; `DecodeInbound` is the
 * hand-walked borrowing one the device uses, which looks only at what the device acts on.
 */
module Wire {
  import opened Bytes
  import opened Postcard

  const AUDIO_PROTOCOL_VERSION: Byte := 3
  const MAX_FRAME_BYTES: nat := 4096
  const MAX_AUDIO_PAYLOAD: nat := 1280
  const POD_ID_CAP: nat := 32

  datatype Codec = S16Le

  datatype ChannelSource = AsrBeam | ConferenceBeam | Stereo | CommunicationBeam

  datatype EndReason = VadRelease | Overrun | InternalError

  /** Four `f32` register values, kept as their sixteen little-endian bytes. */
  datatype TelemetryKind = Azimuths(values: seq<Byte>) | SpEnergy(values: seq<Byte>)

  datatype RawFrame =
    | Hello(version: Byte, podId: seq<Byte>, sampleRateHz: nat, bitsPerSample: Byte, channels: Byte,
            codec: Codec, channelSource: ChannelSource)
    | SegmentStart(segmentId: nat, baseSampleIndex: nat, baseDeviceTsUs: nat, prerollSamples: nat)
    | Audio(segmentId: nat, firstSampleIndex: nat, deviceTsUs: nat, pcm: seq<Byte>)
    | Telemetry(deviceTsUs: nat, kind: TelemetryKind)
    | SegmentEnd(segmentId: nat, deviceTsUs: nat, framesSent: nat, samplesSent: nat, reason: EndReason)
    | EndOfAudio
    | FlushPlayback

  /** What the Rust field types guarantee: integer widths, container capacities, valid UTF-8. */
  predicate InCapacity(f: RawFrame) {
    match f
    case Hello(_, podId, rate, _, _, _, _) => |podId| <= POD_ID_CAP && Utf8(podId) && rate < TWO32
    case SegmentStart(id, base, ts, pre) => id < TWO32 && base < TWO64 && ts < TWO64 && pre < TWO32
    case Audio(id, first, ts, pcm) => id < TWO32 && first < TWO64 && ts < TWO64 && |pcm| <= MAX_AUDIO_PAYLOAD
    case Telemetry(ts, kind) => ts < TWO64 && |kind.values| == 16
    case SegmentEnd(id, ts, frames, samples, _) => id < TWO32 && ts < TWO64 && frames < TWO32 && samples < TWO64
    case EndOfAudio => true
    case FlushPlayback => true
  }

  type StreamFrame = f: RawFrame | InCapacity(f) witness EndOfAudio

  // ---------------------------------------------------------------------------------------------
  // Encoding

  function SourceTag(c: ChannelSource): nat {
    match c case AsrBeam => 0 case ConferenceBeam => 1 case Stereo => 2 case CommunicationBeam => 3
  }

  function ReasonTag(r: EndReason): nat {
    match r case VadRelease => 0 case Overrun => 1 case InternalError => 2
  }

  function Tag(f: RawFrame): nat {
    match f
    case Hello(_, _, _, _, _, _, _) => 0
    case SegmentStart(_, _, _, _) => 1
    case Audio(_, _, _, _) => 2
    case Telemetry(_, _) => 3
    case SegmentEnd(_, _, _, _, _) => 4
    case EndOfAudio => 5
    case FlushPlayback => 6
  }

  /** The fields after the tag, in declaration order. */
  function Body(f: RawFrame): seq<Byte> {
    match f
    case Hello(version, podId, rate, bits, channels, _, source) =>
      [version] + (PutRun(podId) + (PutVarint(rate)
      + ([bits, channels] + (PutVarint(0) + PutVarint(SourceTag(source))))))
    case SegmentStart(id, base, ts, pre) =>
      PutVarint(id) + (PutVarint(base) + (PutVarint(ts) + PutVarint(pre)))
    case Audio(id, first, ts, pcm) =>
      PutVarint(id) + (PutVarint(first) + (PutVarint(ts) + PutRun(pcm)))
    case Telemetry(ts, kind) =>
      PutVarint(ts) + (PutVarint(if kind.Azimuths? then 0 else 1) + kind.values)
    case SegmentEnd(id, ts, frames, samples, reason) =>
      PutVarint(id) + (PutVarint(ts) + (PutVarint(frames) + (PutVarint(samples) + PutVarint(ReasonTag(reason)))))
    case EndOfAudio => []
    case FlushPlayback => []
  }

  function Payload(f: RawFrame): seq<Byte> {
    PutVarint(Tag(f)) + Body(f)
  }

  /** Length prefix, then payload. */
  function Framed(p: seq<Byte>): (s: seq<Byte>)
    requires |p| <= MAX_FRAME_BYTES
    ensures |s| == 2 + |p|
  {
    [|p| % 256, |p| / 256] + p
  }

  /** The framed message of a frame. */
  function FrameBytes(f: StreamFrame): (s: seq<Byte>)
    ensures 3 <= |s| <= MAX_FRAME_BYTES + 2
  {
    PayloadFits(f);
    Framed(Payload(f))
  }

  /** No in-capacity frame comes near the frame limit: the worst case is a full Audio frame. */
  lemma PayloadFits(f: StreamFrame)
    ensures 1 <= |Payload(f)| <= 1311 < 4096 == MAX_FRAME_BYTES
  {
    U32RoundTrip(Tag(f), []);
    match f
    case Hello(_, podId, rate, _, _, _, source) =>
      RunRoundTrip(Usize32, podId, POD_ID_CAP, []);
      U32RoundTrip(rate, []);
      U32RoundTrip(SourceTag(source), []);
    case SegmentStart(id, base, ts, pre) =>
      U32RoundTrip(id, []); U64RoundTrip(base, []); U64RoundTrip(ts, []); U32RoundTrip(pre, []);
    case Audio(id, first, ts, pcm) =>
      U32RoundTrip(id, []); U64RoundTrip(first, []); U64RoundTrip(ts, []);
      RunRoundTrip(Usize32, pcm, MAX_AUDIO_PAYLOAD, []);
    case Telemetry(ts, kind) =>
      U64RoundTrip(ts, []);
    case SegmentEnd(id, ts, frames, samples, reason) =>
      U32RoundTrip(id, []); U64RoundTrip(ts, []); U32RoundTrip(frames, []); U64RoundTrip(samples, []);
      U32RoundTrip(ReasonTag(reason), []);
    case EndOfAudio =>
    case FlushPlayback =>
  }

  datatype EncodeError = BufferTooSmall | PayloadTooLarge | EncodePostcardError

  datatype Result<+T, +E> = Ok(value: T) | Err(error: E)

  /** Encode into the caller's buffer. A buffer with room gets exactly the framed bytes and keeps its
      tail; a short one is refused with its length prefix untouched. */
  method EncodeFrame(f: StreamFrame, buf: array<Byte>) returns (r: Result<nat, EncodeError>)
    modifies buf
    ensures r.Ok? <==> buf.Length >= |FrameBytes(f)|
    ensures r.Ok? ==> r.value == |FrameBytes(f)| && buf[..] == FrameBytes(f) + old(buf[..])[r.value..]
    ensures r.Err? ==> r.error == (if buf.Length < 2 then BufferTooSmall else EncodePostcardError)
    ensures r.Err? ==> buf[..Min(2, buf.Length)] == old(buf[..Min(2, buf.Length)])
  {
    hide Payload;
    PayloadFits(f);
    r := EncodePayload(Payload(f), buf);
  }

  /** The same for any payload, including one over the frame limit. */
  method EncodePayload(p: seq<Byte>, buf: array<Byte>) returns (r: Result<nat, EncodeError>)
    modifies buf
    ensures buf.Length < 2 ==> r == Err(BufferTooSmall)
    ensures 2 <= buf.Length < 2 + |p| ==> r == Err(EncodePostcardError)
    ensures buf.Length >= 2 + |p| && |p| > MAX_FRAME_BYTES ==> r == Err(PayloadTooLarge)
    ensures r.Err? ==> buf[..Min(2, buf.Length)] == old(buf[..Min(2, buf.Length)])
    ensures buf.Length >= 2 + |p| && |p| <= MAX_FRAME_BYTES ==>
              r == Ok(2 + |p|) && buf[..] == Framed(p) + old(buf[..])[2 + |p|..]
  {
    if buf.Length < 2 {
      return Err(BufferTooSmall);
    }
    var fits := Min(|p|, buf.Length - 2);
    forall i | 0 <= i < fits {
      buf[2 + i] := p[i];
    }
    if |p| > buf.Length - 2 {
      return Err(EncodePostcardError);
    }
    if |p| > MAX_FRAME_BYTES {
      return Err(PayloadTooLarge);
    }
    buf[0] := |p| % 256;
    buf[1] := |p| / 256;
    r := Ok(2 + |p|);
  }

  // ---------------------------------------------------------------------------------------------
  // Decoding

  function TakeCodec(s: seq<Byte>): Take<Codec> {
    var (tag, rest) :- TakeU32(s);
    if tag == 0 then Got(S16Le, rest) else Bad
  }

  function TakeSource(s: seq<Byte>): Take<ChannelSource> {
    var (tag, rest) :- TakeU32(s);
    match tag
    case 0 => Got(AsrBeam, rest)
    case 1 => Got(ConferenceBeam, rest)
    case 2 => Got(Stereo, rest)
    case 3 => Got(CommunicationBeam, rest)
    case _ => Bad
  }

  function TakeReason(s: seq<Byte>): Take<EndReason> {
    var (tag, rest) :- TakeU32(s);
    match tag
    case 0 => Got(VadRelease, rest)
    case 1 => Got(Overrun, rest)
    case 2 => Got(InternalError, rest)
    case _ => Bad
  }

  function TakeHello(w: Usize, s: seq<Byte>): (t: Take<StreamFrame>)
    ensures t.Got? ==> t.value.Hello?
  {
    var (version, s1) :- TakeByte(s);
    var (podId, s2) :- TakeString(w, s1, POD_ID_CAP);
    var (rate, s3) :- TakeU32(s2);
    var (bits, s4) :- TakeByte(s3);
    var (channels, s5) :- TakeByte(s4);
    var (codec, s6) :- TakeCodec(s5);
    var (source, s7) :- TakeSource(s6);
    Got(Hello(version, podId, rate, bits, channels, codec, source), s7)
  }

  function TakeSegmentStart(s: seq<Byte>): (t: Take<StreamFrame>)
    ensures t.Got? ==> t.value.SegmentStart?
  {
    var (id, s1) :- TakeU32(s);
    var (base, s2) :- TakeU64(s1);
    var (ts, s3) :- TakeU64(s2);
    var (pre, s4) :- TakeU32(s3);
    Got(SegmentStart(id, base, ts, pre), s4)
  }

  function TakeAudio(w: Usize, s: seq<Byte>): (t: Take<StreamFrame>)
    ensures t.Got? ==> t.value.Audio?
  {
    var (id, s1) :- TakeU32(s);
    var (first, s2) :- TakeU64(s1);
    var (ts, s3) :- TakeU64(s2);
    var (pcm, s4) :- TakeRun(w, s3, MAX_AUDIO_PAYLOAD);
    Got(Audio(id, first, ts, pcm), s4)
  }

  function TakeTelemetry(s: seq<Byte>): (t: Take<StreamFrame>)
    ensures t.Got? ==> t.value.Telemetry?
  {
    var (ts, s1) :- TakeU64(s);
    var (tag, s2) :- TakeU32(s1);
    var (values, s3) :- TakeRaw(s2, 16);
    match tag
    case 0 => Got(Telemetry(ts, Azimuths(values)), s3)
    case 1 => Got(Telemetry(ts, SpEnergy(values)), s3)
    case _ => Bad
  }

  function TakeSegmentEnd(s: seq<Byte>): (t: Take<StreamFrame>)
    ensures t.Got? ==> t.value.SegmentEnd?
  {
    var (id, s1) :- TakeU32(s);
    var (ts, s2) :- TakeU64(s1);
    var (frames, s3) :- TakeU32(s2);
    var (samples, s4) :- TakeU64(s3);
    var (reason, s5) :- TakeReason(s4);
    Got(SegmentEnd(id, ts, frames, samples, reason), s5)
  }

  function TakeFrame(w: Usize, s: seq<Byte>): Take<StreamFrame> {
    var (tag, rest) :- TakeU32(s);
    TakeBody(w, tag, rest)
  }

  function TakeBody(w: Usize, tag: nat, rest: seq<Byte>): Take<StreamFrame> {
    match tag
    case 0 => TakeHello(w, rest)
    case 1 => TakeSegmentStart(rest)
    case 2 => TakeAudio(w, rest)
    case 3 => TakeTelemetry(rest)
    case 4 => TakeSegmentEnd(rest)
    case 5 => Got(EndOfAudio, rest)
    case 6 => Got(FlushPlayback, rest)
    case _ => Bad
  }

  datatype DecodeError = Truncated | OversizeFrame(len: nat) | OversizePcm(len: nat) | DecodePostcardError

  /** The declared payload length of a buffer holding at least the prefix. */
  function DeclaredLength(buf: seq<Byte>): nat
    requires |buf| >= 2
  {
    var hi: nat := buf[1];
    buf[0] + 256 * hi
  }

  function StripPrefix(buf: seq<Byte>): Result<seq<Byte>, DecodeError> {
    if |buf| < 2 then Err(Truncated)
    else if DeclaredLength(buf) > MAX_FRAME_BYTES then Err(OversizeFrame(DeclaredLength(buf)))
    else if |buf| < 2 + DeclaredLength(buf) then Err(Truncated)
    else Ok(buf[2..2 + DeclaredLength(buf)])
  }

  function DecodeFrame(w: Usize, buf: seq<Byte>): Result<StreamFrame, DecodeError> {
    match StripPrefix(buf)
    case Err(e) => Err(e)
    case Ok(payload) =>
      match TakeFrame(w, payload)
      case Bad => Err(DecodePostcardError)
      case Got(f, _) => Ok(f)
  }

  /** What the device's borrowing decoder surfaces. */
  datatype InboundFrame =
    | InAudio(segmentId: nat, firstSampleIndex: nat, deviceTsUs: nat, pcm: seq<Byte>)
    | InHello(version: Byte, format: PlaybackFormat)
    | InEndOfAudio
    | InFlush
    | InOther(tag: nat)

  datatype PlaybackFormat = PlaybackFormat(sampleRateHz: nat, bitsPerSample: Byte, channels: Byte, codec: Codec)

  const DEVICE_PLAYBACK_FORMAT := PlaybackFormat(16_000, 16, 1, S16Le)

  /** The hand-walked Audio body: the PCM length is read as a `u32` whatever the platform's `usize`. */
  function WalkAudio(s: seq<Byte>): Result<InboundFrame, DecodeError> {
    match TakeU32(s)
    case Bad => Err(DecodePostcardError)
    case Got(id, s1) =>
      match TakeU64(s1)
      case Bad => Err(DecodePostcardError)
      case Got(first, s2) =>
        match TakeU64(s2)
        case Bad => Err(DecodePostcardError)
        case Got(ts, s3) =>
          match TakeU32(s3)
          case Bad => Err(DecodePostcardError)
          case Got(n, s4) =>
            if n > MAX_AUDIO_PAYLOAD then Err(OversizePcm(n))
            else if |s4| < n then Err(Truncated)
            else Ok(InAudio(id, first, ts, s4[..n]))
  }

  function WalkBody(w: Usize, tag: nat, rest: seq<Byte>): Result<InboundFrame, DecodeError> {
    if tag == 2 then WalkAudio(rest)
    else match tag
      case 0 =>
        (match TakeHello(w, rest)
         case Bad => Err(DecodePostcardError)
         case Got(h, _) =>
           Ok(InHello(h.version, PlaybackFormat(h.sampleRateHz, h.bitsPerSample, h.channels, h.codec))))
      case 5 => Ok(InEndOfAudio)
      case 6 => Ok(InFlush)
      case 1 => Ok(InOther(tag))
      case 3 => Ok(InOther(tag))
      case 4 => Ok(InOther(tag))
      case _ => Err(DecodePostcardError)
  }

  function DecodeInbound(w: Usize, buf: seq<Byte>): Result<InboundFrame, DecodeError> {
    match StripPrefix(buf)
    case Err(e) => Err(e)
    case Ok(payload) =>
      match TakeU32(payload)
      case Bad => Err(DecodePostcardError)
      case Got(tag, rest) => WalkBody(w, tag, rest)
  }

  /** The part of a frame the device sees. */
  function Project(f: StreamFrame): InboundFrame {
    match f
    case Hello(version, _, rate, bits, channels, codec, _) =>
      InHello(version, PlaybackFormat(rate, bits, channels, codec))
    case Audio(id, first, ts, pcm) => InAudio(id, first, ts, pcm)
    case EndOfAudio => InEndOfAudio
    case FlushPlayback => InFlush
    case _ => InOther(Tag(f))
  }

  datatype FormatField = SampleRateHz | BitsPerSample | Channels

  datatype FormatCheck = Match | Mismatch(field: FormatField, expected: nat, actual: nat)

  /** First differing field in declaration order, with both values. `Codec` has one variant, so its
      comparison, last in the order, never finds a difference. */
  function CheckInboundFormat(expected: PlaybackFormat, declared: PlaybackFormat): (c: FormatCheck)
    ensures c == Match <==> expected == declared
    ensures c.Mismatch? ==> c.expected != c.actual
    ensures c.Mismatch? && c.field == SampleRateHz ==>
              c.expected == expected.sampleRateHz && c.actual == declared.sampleRateHz
    ensures c.Mismatch? && c.field == BitsPerSample ==>
              expected.sampleRateHz == declared.sampleRateHz
              && c.expected == expected.bitsPerSample && c.actual == declared.bitsPerSample
    ensures c.Mismatch? && c.field == Channels ==>
              expected.sampleRateHz == declared.sampleRateHz && expected.bitsPerSample == declared.bitsPerSample
              && c.expected == expected.channels && c.actual == declared.channels
  {
    if declared.sampleRateHz != expected.sampleRateHz then
      Mismatch(SampleRateHz, expected.sampleRateHz, declared.sampleRateHz)
    else if declared.bitsPerSample != expected.bitsPerSample then
      Mismatch(BitsPerSample, expected.bitsPerSample, declared.bitsPerSample)
    else if declared.channels != expected.channels then
      Mismatch(Channels, expected.channels, declared.channels)
    else
      Match
  }
}
