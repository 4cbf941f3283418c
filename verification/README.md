# A model of the pod's audio transport

The `audio-pipeline` crate moves speech between a pod and its host over one byte stream in each direction.
Everything in it is bounded, backpressured and free of I/O of its own: sockets, sinks, clocks and waiters are
handed in. This project models that crate and proves what it is for: a frame is never half-sent on a socket
that is kept, the receiver hears exactly what was sent however the bytes arrive, the playback ring is a FIFO
across both of its wraps and across reconnects, end-of-audio marks ride the audio they end, nothing can wedge,
and the device is handed the samples that were sent.

Every injected party is an adversary. Writer, waiter, clock, socket and sink are arbitrary answer streams; the
producer and the consumer of the ring are arbitrary interleavings of critical sections.

## How it is built

- `Bytes`, `Postcard`, `Wire`, `WireProofs`, `WireLaw`, `Utf8Law`, `FrameStream`: frames, the encoder, both decoders, and their laws.
- `StreamSend`, `BlockingLaw`, `SenderRuns`, `SendMachines`: resumable send: the meaning of an answer list, whole sender runs, and the two forms of the code.
- `Reassembly`, `Conformance`, `InboundPump`: inbound frames: a one-pass reference parser, its laws over encoded frames, and the code.
- `Ring`, `RingRuns`, `RingWrap`, `RingMarks`, `RunLengths`, `StrandedMarks`, `PlaybackRing`: the playback ring: one critical section at a time, whole runs, the counter wrap, the marks, and the code.
- `Playout`, `RingPlayout`, `Preroll`, `PrerollLaw`: expansion to I2S frames, sample alignment, the pre-roll gate.
- `EndToEnd`, `Connections`, `Speaker`, `Transport`, `Liveness`: the composed path, from the sender's frames to the device's bytes, and its progress.
- `Pace`, `HistoryRing`, `Vad`, `Waveform`: catch-up pacing, capture history, voice gate, capture sums.

Code that updates things in place is a class or a method, proved equal to a specification function
(`PlaybackRing.InboundPcmRing.Write` against `Ring.Write`, `InboundPump.ConsumeFrames` against
`Reassembly.Consume`, `SendMachines.WriteEncoded` against `StreamSend.BlockingLoop`); the theorems are about
those functions. `Transport` joins this crate's own sender to its receiver. The host's writer
(`host/crates/speech-pipeline/src/playback.rs`) is another program and is not modelled; `EndToEnd` covers any peer that
leaves whole frames and a torn tail on the wire, and `Connections` any peer at all. Unbounded histories
(the whole stream ever written, a generation per byte, a log of marks with their fates) stand beside the bounded state and say what it means.

## What the proofs found

- **Ring capacity.** The comments at `playback.rs:221-225` and `playback.rs:532-534` say the ring makes no
  `2^32 % cap == 0` demand. It does: `RingWrap.ByteExactIffDividesCounter`. Other capacities are byte-exact
  until 2^32 bytes have been written (`RingRuns.Exact`), and not after. The production capacity is a divisor.
- **Generation check before `advance`.** The ReSpeaker drain leaves unconsumed a run whose generation
  it has not acted on. The Reachy drain (`firmware/devices/reachy-pod/src/playback.rs:461-489`) advances without looking. A reset that
  lands between its generation check and its copy can then make `apply_reset` rewind the tail
  (`RingRuns.UncheckedConsumeRewinds`) and overfill the ring (`RingRuns.UncheckedConsumeOverfills`).
- **Look at the tail before copying.** `copy_run_into` does not stop at a mark exactly at the tail, by design.
  A mark pushed there between `take_mark_at_tail` and the copy, with audio behind it, is passed
  (`RingMarks.SkippedLookStrandsMark` says exactly when, `StrandedMarks.MarkAfterTheLook` shows a run) and then
  hides every later boundary until a reset is applied, newer marks push it out or the counter comes round
  (`StrandedMarks.StrandedHidesEveryMark`).
- **Ring size against the gate.** The size the code asserts at `playback.rs:481-484` keeps a full ring and a waiting gate
  from leaning on the fallback timer; it is exact to within one sample (`Liveness.ReachabilityIsExact`). With less
  nothing wedges for good: the fallback opens the gate (`Liveness.EveryRingDrains`).
- **Length spelling.** The owned decoder reads a PCM length as `usize`, the borrowing one as `u32`. On a 64-bit
  host they part ways on lengths spelt in more than five varint bytes, and on nothing else
  (`WireProofs.BorrowedFollowsOwned`).
- **Format mismatch.** A Hello of the right version and the wrong format leaves `seen_hello` set when the connection
  fails; `Reassembly.Judge` keeps that.

## Hypotheses

- The ring's capacity is below 2^32; the sink's storage is a whole number of samples. Byte-exact results past 2^32
  bytes need the capacity to divide 2^32.
- Drain discipline (`RingRuns.Legal`): a reset is applied only when the generation moved; `advance` is called only
  for the run just copied, only when it carried the generation acted on, and for no more than it held; fewer than
  2^32 resets happen between two consumer passes. This is what
  `firmware/devices/respeaker-pod/src/capture.rs:759-1030` does.
- For the mark results a copy happens with no mark exactly at the tail (`RingMarks.Respects`).
- A writer accepts no more than it was offered, and a reader gives no more than there is room for.
- The Postcard library behaves as the "Wire Format" chapter of the Postcard specification says; strings are UTF-8
  by Table 3-7 of the Unicode Standard.
- For progress, the device takes something of each run it is given, and the producer stands still while its frame is held.
  A ReSpeaker drain iteration (`firmware/devices/respeaker-pod/src/capture.rs:759-1030`) is one or more of the modelled
  passes: it looks at the tail and asks the gate again after a boundary instead of ending there.
- Each ring method is one critical section under one lock, so it is one atomic step; a flush is two.

## Model

| member | source | states |
|---|---|---|
| `Transport.SentIsSpoken` | firmware/crates/audio-pipeline/src/playback.rs:81-131 | The whole line: for any sender run, any writer, any chunking, any interleaving of reads, frames and drain, the I2S bytes handed out up to any moment are the expansion of the samples of the first `j` frames reported sent, without the positions a flush or reconnect superseded: each left out was of a generation moved past, each played under its own |
| `Transport.SentIsPlayed` | firmware/crates/audio-pipeline/src/playback.rs:1302-1470 | Under the same freedom: what was played and every end of audio reported are what the first `j` sent frames mean, and the bytes held or unread are exactly the other sent frames and the torn tail |
| `Transport.SentIsHeard` | firmware/crates/audio-pipeline/src/inbound.rs:591-642 | A receiver never routes a frame the sender did not report sent, routes them in order, and never takes an abandoned frame for a whole one |
| `Transport.WireIsFrames` | firmware/crates/audio-pipeline/src/stream_send.rs:402-417 | Any sender run leaves on the wire whole encodings and at most one strict prefix of an encoding |
| `EndToEnd.SocketToRing` | firmware/crates/audio-pipeline/src/inbound.rs:411-576 | For every list of admitted frames, every arrival of their bytes, every interleaving with the drain and any prior ring state, the ring has been told exactly what the first `j` frames mean (samples, generations, ends of audio) and the encodings of the rest are held or unread |
| `EndToEnd.SocketToDevice` | firmware/crates/audio-pipeline/src/playback.rs:810-1092 | From there to the drain: played bytes are those samples less the superseded positions, each played under its own generation; ends of audio are reported in order, at their own position, at most once, only after every earlier sample was played or dropped, and are lost only to four newer ones or a superseded generation |
| `EndToEnd.NewConnectionIsIsolated` | firmware/crates/audio-pipeline/src/playback.rs:1461-1470 | A connection that opens with a reset: nothing the ring held before it is ever played under its generations |
| `EndToEnd.AllIsPlayed` | firmware/crates/audio-pipeline/src/playback.rs:810-1092 | When a connection without flushes has been taken off the socket and a fresh ring drained, the device has played exactly the samples sent |
| `EndToEnd.PodStallsOnly` | firmware/crates/audio-pipeline/src/inbound.rs:443-471 | The consume loop does nothing only for want of bytes, of room in the ring or, for a flush, of a generation left to tell apart |
| `EndToEnd.StreamIsPcm` | firmware/crates/audio-pipeline/src/inbound.rs:443-471 | The sample stream a list of frames means is the concatenation of their well-formed PCM |
| `Connections.ConnectionsToDevice` | firmware/crates/pod-streamer/src/idle.rs:133-169 | For any list of connections, each with any bytes on its socket, opened by a reset, lost at any point (mid-frame, mid-flush, after a fault) and followed by any draining: the device has played the fold of what got through of each, less what was superseded, ends of audio are reported against it, and a played byte came from the first `k` connections exactly when it was played under a generation they had opened |
| `Connections.BytesToRing` | firmware/crates/audio-pipeline/src/inbound.rs:411-642 | For any bytes at all, any arrival and any interleaving with the drain, the ring has been told an initial part of what the reference hears in them, and after a protocol fault all of it |
| `Connections.FramesMeanTheirCalls` | firmware/crates/audio-pipeline/src/inbound.rs:442-567 | What frames mean to the ring is what their sink calls mean |
| `Connections.ReconnectIsSeamless` | firmware/crates/pod-streamer/src/idle.rs:138-143 | A drop with a reconnect right behind it: once the reset is acted on, the banked tail and every pending mark, the drop's own with them, are gone unreported |
| `Speaker.SpokenIsPlayedExpanded` | firmware/crates/audio-pipeline/src/playback.rs:486-494 | For any bytes on the socket, expanding each consumed run on its own equals expanding everything played at once |
| `Liveness.BackpressureUnblocks` | firmware/crates/audio-pipeline/src/playback.rs:481-484 | A full accumulator holds a whole Audio frame; a production ring that refuses it banks enough for the gate to open at every target the gate can reach after any history, and the drain then gets a non-empty run |
| `Liveness.HeldFrameIsAccepted` | firmware/devices/reachy-pod/src/playback.rs:424-512 | A refused frame is accepted after at most one drain pass per byte of it and one per mark slot, for every ring state, clock, fallback and run length, and however many boundaries re-arm the gate: provided target cap and frame fit the ring together |
| `Liveness.PassMoves` | firmware/devices/reachy-pod/src/playback.rs:424-512 | One pass (catch up with a reset; a boundary at the tail re-arms the gate and ends the pass; an empty ring is noted; the gate decides; runs until one crosses a boundary) makes the load of bytes and marks lighter, finds the ring empty, or is held back by the gate |
| `Liveness.PassLightens` | firmware/devices/reachy-pod/src/playback.rs:424-512 | It makes the load lighter unless fewer bytes are banked than the deepest target, at any clock |
| `Liveness.RoundLightens` | firmware/crates/audio-pipeline/src/playback.rs:181-191 | Passes that span one fallback make the load lighter or find the ring empty, whatever the target and the capacity |
| `Liveness.EveryRingDrains` | firmware/crates/audio-pipeline/src/playback.rs:431-446 | Any ring that can hold the frame at all takes it within one such round per byte and one per mark slot, from every state of ring and gate, for any number and spacing of passes in a round |
| `Liveness.WaitsForFallback` | firmware/crates/audio-pipeline/src/playback.rs:181-191 | A gate whose ring is short of its target lets nothing through until the fallback runs out, however many passes are made |
| `Liveness.HeldFrameIsAcceptedInSamples` | firmware/crates/audio-pipeline/src/playback.rs:472-484 | Without the fallback, a whole-sample drain takes the frame within its bytes and four passes if target cap and frame exceed the ring by at most one sample |
| `Liveness.PulledMoves` | firmware/devices/reachy-pod/src/playback.rs:461-505 | The runs of a pass keep every mark and ring invariant and move at least a byte if there is one |
| `Liveness.FullAccumulatorDrains` | firmware/crates/audio-pipeline/src/inbound.rs:602-637 | A full accumulator over a production ring, with the gate as any history left it, gets its head frame taken and room to read again after 1 284 passes |
| `Liveness.ReachabilityIsExact` | firmware/crates/audio-pipeline/src/playback.rs:472-484 | For every whole-sample capacity and frame: no whole-sample state needs the fallback to get the frame in if and only if the deepest target and the frame together exceed the capacity by at most one sample |
| `Liveness.BoundariesStartOver` | firmware/devices/reachy-pod/src/playback.rs:424-512 | A pass reports at most one end of audio and then leaves a fresh gate; an empty ring is noted; nothing is played that the gate did not let through |
| `Liveness.RunIsNotEmpty` | firmware/crates/audio-pipeline/src/playback.rs:975-1014 | A copied run is empty exactly when the ring is: a mark never shortens a run to nothing |
| `RingRuns.RunKeeps` | firmware/crates/audio-pipeline/src/playback.rs:545-580 | After every interleaving of producer and consumer sections the ring is the unbounded history seen through its wrapped counters: distances, generations, stored bytes, the staged run and the fate of every consumed position |
| `RingRuns.StepKeeps` | firmware/crates/audio-pipeline/src/playback.rs:810-1092 | Each critical section keeps that invariant |
| `RingRuns.RingIsFifo` | firmware/crates/audio-pipeline/src/playback.rs:810-840 | Bounded FIFO over whole runs: unread never exceeds the capacity and is what the wrapped counters say, a write goes in whole or leaves the system as it was, and a copied run is exactly the next bytes of the stream, across the capacity wrap and the counter wrap |
| `RingRuns.ReconnectIsolation` | firmware/crates/audio-pipeline/src/playback.rs:975-1014 | A run that carries the generation acted on holds only bytes written since the reset that opened that generation |
| `RingRuns.ApplyNeverRewinds` | firmware/crates/audio-pipeline/src/playback.rs:1078-1092 | Applying a reset moves the tail to the last reset point, never back and never past the head, whatever resets and writes came between observation and application |
| `RingRuns.PlayedIsStreamMinusDropped` | firmware/crates/audio-pipeline/src/playback.rs:1047-1092 | Conservation: what was played is the stream without its dropped positions, in order and without repeats; a byte is dropped only if a reset acted on superseded it and is played only under its own generation |
| `RingRuns.UncheckedConsumeRewinds` | firmware/devices/reachy-pod/src/playback.rs:461-489 | Consuming a run copied after an unapplied reset without looking at its generation makes the later reset give bytes back if and only if the run reached past the reset point |
| `RingRuns.UncheckedConsumeOverfills` | firmware/devices/reachy-pod/src/playback.rs:461-489 | A concrete such history ends with four bytes unread in a two-byte ring |
| `RingWrap.ByteExactIffDividesCounter` | firmware/crates/audio-pipeline/src/playback.rs:221-227 | For a capacity of whole samples below 2^32, every copied run after every history is the next bytes of the stream if and only if the capacity divides 2^32 |
| `RingWrap.ProductionRingIsByteExact` | firmware/crates/audio-pipeline/src/playback.rs:227-227 | The production capacity 65 536 is byte-exact over every history |
| `RingWrap.MisreadingRun` | firmware/crates/audio-pipeline/src/playback.rs:528-534 | For any other even capacity there is a history whose next copied run is not the next bytes of the stream |
| `Ring.SlotSurvivesWrap` | firmware/crates/audio-pipeline/src/playback.rs:526-532 | With a capacity dividing 2^32 a position keeps its slot across the counter wrap |
| `Ring.PutLands` | firmware/crates/audio-pipeline/src/playback.rs:824-836 | A write split at the end of the buffer puts each byte in the slot of its position |
| `Ring.PutSpares` | firmware/crates/audio-pipeline/src/playback.rs:824-836 | ... and leaves every slot still unread alone |
| `RunLengths.RunIsMaximal` | firmware/crates/audio-pipeline/src/playback.rs:975-1014 | A copied run passes none of its limits and stops only at one of them: budget, staging, end of the buffer, last byte written, or the oldest pending boundary |
| `RunLengths.TwoRunsEmptyTheRing` | firmware/crates/audio-pipeline/src/playback.rs:975-1014 | Two full runs empty any ring without marks, however it is wrapped |
| `RingMarks.MarksOverRuns` | firmware/crates/audio-pipeline/src/playback.rs:591-649 | Over every run: pending marks lie in order between tail and head; each is reported at most once, in push order, exactly when the tail stands at its position; one neither pending nor reported was pushed out as the oldest by the fourth newer one or a later, or belongs to a generation moved past |
| `RingMarks.MarkedRunKeeps` | firmware/crates/audio-pipeline/src/playback.rs:497-580 | The four-slot FIFO is the pending part of an unbounded log of marks after every run |
| `RingMarks.FlushMarkSurvives` | firmware/crates/audio-pipeline/src/playback.rs:1439-1444 | A flush mark survives whatever the consumer does between the reset and the mark, stale marks at the same position, and anything after short of another reset or four more marks: it was reported, or the next look at the tail after acting on the reset reports it |
| `RingMarks.ReportsExactly` | firmware/crates/audio-pipeline/src/playback.rs:1025-1071 | A look at the tail reports a boundary exactly when the oldest pending one is there, and an advance exactly when it lands on it |
| `RingMarks.CopyStopsAtFront` | firmware/crates/audio-pipeline/src/playback.rs:975-1014 | With no mark at the tail a run stops at the oldest pending mark, and says it reached the end of audio exactly then |
| `RingMarks.SkippedLookStrandsMark` | firmware/crates/audio-pipeline/src/playback.rs:986-996 | A non-empty run would carry the tail past a pending mark if and only if a mark sits at the tail when it is copied |
| `StrandedMarks.MissedLookStrands` | firmware/crates/audio-pipeline/src/playback.rs:986-996 | Consuming any part of such a run leaves that mark at the front of the FIFO, behind the tail |
| `StrandedMarks.MarkAfterTheLook` | firmware/devices/respeaker-pod/src/capture.rs:780-795 | A concrete run: look, mark, two bytes, copy, consume, mark; the second boundary is at the tail and the next look misses it |
| `StrandedMarks.StrandedHidesEveryMark` | firmware/crates/audio-pipeline/src/playback.rs:616-626 | From a state whose front mark is behind the tail, no look and no advance reports any mark, over every further run, until a reset is applied, newer marks push it out, or the tail has gone 2^32 bytes past it |
| `StrandedMarks.StrandedBlindsCopy` | firmware/crates/audio-pipeline/src/playback.rs:975-1014 | Nor does any copied run claim to reach an end of audio while fewer than 2^32 bytes were written past it |
| `PlaybackRing.InboundPcmRing.constructor` | firmware/crates/audio-pipeline/src/playback.rs:699-723 | Storage that is a non-empty whole number of samples becomes an empty ring of that capacity, valid when it is below 2^32 bytes |
| `PlaybackRing.InboundPcmRing.FreeTotal` | firmware/crates/audio-pipeline/src/playback.rs:769-776 | Free space is the capacity less the wrapped distance |
| `PlaybackRing.InboundPcmRing.Available` | firmware/crates/audio-pipeline/src/playback.rs:938-945 | Available is the wrapped distance |
| `PlaybackRing.InboundPcmRing.Write` | firmware/crates/audio-pipeline/src/playback.rs:810-840 | All of the data goes in, split at the wrap, or the ring is unchanged and `false` is returned; validity is kept |
| `PlaybackRing.InboundPcmRing.Reset` | firmware/crates/audio-pipeline/src/playback.rs:848-856 | Opens a generation at the current head; moves no byte |
| `PlaybackRing.InboundPcmRing.MarkEndOfAudio` | firmware/crates/audio-pipeline/src/playback.rs:871-901 | Pushes a mark at the head in the live generation; a full FIFO loses its oldest |
| `PlaybackRing.InboundPcmRing.CopyRunInto` | firmware/crates/audio-pipeline/src/playback.rs:975-1014 | Copies the next run, ended by budget, availability, wrap, staging length or the oldest mark ahead, with its generation; changes neither the ring nor the rest of the staging buffer |
| `PlaybackRing.InboundPcmRing.TakeMarkAtTail` | firmware/crates/audio-pipeline/src/playback.rs:1025-1033 | Pops the oldest mark exactly when it sits at the tail |
| `PlaybackRing.InboundPcmRing.Advance` | firmware/crates/audio-pipeline/src/playback.rs:1047-1071 | Moves the tail on by what was available and pops a mark it lands on; validity is kept |
| `PlaybackRing.InboundPcmRing.PopMarkIfAt` | firmware/crates/audio-pipeline/src/playback.rs:616-626 | Pops the oldest mark exactly when it has the given position |
| `PlaybackRing.InboundPcmRing.DiscardDeadGenerationMarks` | firmware/crates/audio-pipeline/src/playback.rs:636-649 | The rotate-and-push-back loop leaves exactly the live generation's marks, in their order |
| `PlaybackRing.InboundPcmRing.ApplyReset` | firmware/crates/audio-pipeline/src/playback.rs:1078-1092 | Drops dead marks and jumps the tail to the last reset; validity is kept when the reset lies within a ring's worth of the head |
| `PlaybackRing.I2sStreamSink.constructor` | firmware/crates/audio-pipeline/src/playback.rs:1286-1299 | Counters start at zero, with or without a ring |
| `PlaybackRing.I2sStreamSink.Accept` | firmware/crates/audio-pipeline/src/playback.rs:1303-1411 | Malformed PCM is discarded uncounted; well-formed PCM is enqueued whole, or refused with the ring untouched; without a ring it is lost and counted; each offer lands in exactly one counter class, and samples are counted only for frames that left the caller |
| `PlaybackRing.OfferIsExact` | firmware/crates/audio-pipeline/src/playback.rs:1303-1411 | An offer is refused exactly when it is a whole non-zero number of samples that does not fit, and fills the ring by its length exactly when it is one that does |
| `PlaybackRing.I2sStreamSink.EndOfAudio` | firmware/crates/audio-pipeline/src/playback.rs:1424-1428 | An end of audio is one mark in the ring |
| `PlaybackRing.I2sStreamSink.FlushPlayback` | firmware/crates/audio-pipeline/src/playback.rs:1439-1444 | A flush is a reset and then a mark, so the mark carries the new generation |
| `PlaybackRing.I2sStreamSink.StreamReset` | firmware/crates/audio-pipeline/src/playback.rs:1461-1470 | A reconnect is a reset of the ring; without a ring it is counted |
| `Playout.ExpandRunInto` | firmware/crates/audio-pipeline/src/playback.rs:81-100 | The first frames are the expansion of the run; bytes past them are untouched |
| `Playout.ExpandRunInPlace` | firmware/crates/audio-pipeline/src/playback.rs:117-131 | High-to-low expansion in place equals the out-of-place expansion of the original bytes for every buffer and count; bytes past it are untouched |
| `Playout.ExpandAt` | firmware/crates/audio-pipeline/src/playback.rs:56-60 | The k-th frame carries the k-th sample in the top half of the left slot and silence elsewhere |
| `Playout.ExpandAppend` | firmware/crates/audio-pipeline/src/playback.rs:81-100 | Expansion goes run by run: cutting between samples changes nothing |
| `Playout.PackPcmS16le` | firmware/crates/audio-pipeline/src/wire.rs:183-199 | Every packed pair of bytes is its sample low byte first, in order, within the capacity |
| `Playout.ExpandUndoesPacking` | firmware/crates/audio-pipeline/src/wire.rs:183-199 | Packing samples and expanding the bytes gives those samples' frames |
| `RingPlayout.CopiedRunIsEven` | firmware/crates/audio-pipeline/src/playback.rs:486-494 | With whole-sample callers no run ends inside a sample: not at the wrap, a mark, the budget or the head |
| `RingPlayout.RunStaysAligned` | firmware/crates/audio-pipeline/src/playback.rs:486-494 | Every position, mark and staged run stays between samples over every run |
| `RingPlayout.DeviceIsGivenTheStream` | firmware/crates/audio-pipeline/src/playback.rs:81-131 | Run-by-run expansion over any history equals expanding the whole stream less its dropped positions |
| `Preroll.ReachableTargets` | firmware/crates/audio-pipeline/src/playback.rs:318-336 | Over every history the target is 7 680, 15 360 or 30 720 bytes |
| `Preroll.TargetCountsUnderruns` | firmware/crates/audio-pipeline/src/playback.rs:405-424 | Which of them is decided by the underruns since the last base re-arm alone |
| `Preroll.FallbackIsExact` | firmware/crates/audio-pipeline/src/playback.rs:181-191 | Once bytes have been seen, a short cushion opens the gate exactly when the fallback has run out, and a full one always does |
| `PrerollLaw.AdmissionIsExact` | firmware/crates/audio-pipeline/src/playback.rs:181-191 | After any history a question is let through if and only if it or an earlier one since the last re-arm found the whole cushion (7 680, 15 360 or 30 720 bytes by underruns) or came a fallback after the first that found bytes |
| `PrerollLaw.EmptyIsUnderrunExactly` | firmware/devices/reachy-pod/src/playback.rs:347-353 | An empty ring is an underrun if and only if the gate had opened and audio was seen since the re-arm |
| `Preroll.PrerollGate.Admit` | firmware/crates/audio-pipeline/src/playback.rs:431-446 | The gate latches the time of the first bytes once and opens once, as its specification does |
| `Preroll.PrerollGate.ArmBase` | firmware/crates/audio-pipeline/src/playback.rs:405-410 | Back to the base target with no memory of the stream before |
| `Preroll.PrerollGate.RearmEscalated` | firmware/crates/audio-pipeline/src/playback.rs:418-424 | Escalated re-arm; answers with the new target |
| `SenderRuns.SenderNeverDesyncs` | firmware/crates/audio-pipeline/src/stream_send.rs:402-417 | Over any sequence of frames sent by either form against any writer, the wire is exactly the encodings of the frames reported sent and then a strict prefix of the one in flight |
| `SenderRuns.GiveUpIsExact` | firmware/crates/audio-pipeline/src/stream_send.rs:635-695 | A deadline give-up at any point of any run adds no byte, reports nothing sent, and keeps the socket exactly when the wire ends on a frame boundary |
| `SenderRuns.AttemptIsExact` | firmware/crates/audio-pipeline/src/stream_send.rs:564-617 | At any point of any run an attempt puts on the wire exactly what was taken, reports the frame sent exactly when that was the last of it, and loses the socket exactly on a fault |
| `SenderRuns.BeginIsExact` | firmware/crates/audio-pipeline/src/stream_send.rs:485-511 | A kept, idle socket takes a frame into flight with nothing yet on the wire |
| `SenderRuns.BlockingGiveUpIsExact` | firmware/crates/audio-pipeline/src/stream_send.rs:207-309 | The blocking form keeps the socket exactly on a whole send or an aligned give-up, and an aligned give-up changes nothing |
| `BlockingLaw.BlockingIsDecided` | firmware/crates/audio-pipeline/src/stream_send.rs:202-309 | The exact law of the blocking send over its three answer streams: it makes another attempt exactly while bytes are left, nothing broke, no wait timed out with no byte since the one before, the clock is short of the ceiling and fewer than 1 024 ready waits in a row brought nothing; the result is decided by the cursor and the last beat; each wait is given 750 ms from the last reset of the budget, within the ceiling |
| `BlockingLaw.GiveUpIsJustified` | firmware/crates/audio-pipeline/src/stream_send.rs:240-306 | A give-up on a sound socket happens if and only if the clock had reached the ceiling, 1 024 ready waits in a row brought no byte, or a wait timed out idle |
| `BlockingLaw.HealthyLinkSends` | firmware/crates/audio-pipeline/src/stream_send.rs:240-309 | A writer that takes something every time, under a clock short of the ceiling, gets the whole frame |
| `StreamSend.FormsAgree` | firmware/crates/audio-pipeline/src/stream_send.rs:564-617 | On the answers the blocking loop used, faults aside, the stepped machine reaches the same cursor and the same resume count at whatever times it is woken |
| `StreamSend.SteppedMeaning` | firmware/crates/audio-pipeline/src/stream_send.rs:564-617 | Cursor and resume count of the stepped machine are those of its answers: a resume is an accepting answer right after a no-byte one |
| `StreamSend.BlockingMeaning` | firmware/crates/audio-pipeline/src/stream_send.rs:207-309 | The same for the blocking loop, with each result tied to where the cursor stands |
| `StreamSend.BlockingLoop` | firmware/crates/audio-pipeline/src/stream_send.rs:240-306 | The loop ends for every writer, waiter and clock, by bytes left, forgivable timeout and remaining ready allowance; it reports a send exactly when every byte was accepted |
| `StreamSend.WaitsNeverPassCeiling` | firmware/crates/audio-pipeline/src/stream_send.rs:335-359 | No wait of the blocking loop is asked to last past the frame's ceiling |
| `StreamSend.BudgetArmedAtLastProgress` | firmware/crates/audio-pipeline/src/stream_send.rs:485-511 | In every reachable state of an unfinished frame the budget stands at 750 ms after the last accepted byte, or the beginning, clamped to the ceiling |
| `StreamSend.DeadlineExactness` | firmware/crates/audio-pipeline/src/stream_send.rs:635-695 | So the deadline check gives up exactly from the announced deadline on, changes nothing, and its verdict is aligned exactly when no byte was accepted |
| `StreamSend.OutcomeIsExact` | firmware/crates/audio-pipeline/src/stream_send.rs:564-617 | Whole, part, nothing or fault: each attempt of any history reports what the answers so far have come to |
| `StreamSend.CountersTellTheHistory` | firmware/crates/audio-pipeline/src/stream_send.rs:536-617 | Attempt, refusal and spin-guard counters are the counts over the history; the guard is tripped exactly from the eighth refusal in a row |
| `SendMachines.WriteFrameClassifiedAt` | firmware/crates/audio-pipeline/src/stream_send.rs:172-309 | The blocking code: result, resume count, wire and answers used are the loop's; a frame that does not fit the buffer touches nothing on the wire; it ends for every link |
| `SendMachines.WriteEncoded` | firmware/crates/audio-pipeline/src/stream_send.rs:240-306 | The write loop over an encoded frame refines the reference loop |
| `SendMachines.WritePass` | firmware/crates/audio-pipeline/src/stream_send.rs:240-306 | One pass of the loop; the wire grows by exactly what the cursor moved over |
| `SendMachines.AwaitWritable` | firmware/crates/audio-pipeline/src/stream_send.rs:335-359 | A wait that timed out after progress re-arms the budget; one without progress stalls |
| `SendMachines.FrameWriteState.BeginAt` | firmware/crates/audio-pipeline/src/stream_send.rs:485-511 | A frame that fits is encoded and a cursor armed over it; one that does not leaves no cursor |
| `SendMachines.FrameWriteState.Step` | firmware/crates/audio-pipeline/src/stream_send.rs:564-617 | One attempt is the reference step, and the wire grows by exactly the bytes the cursor moved over |
| `SendMachines.FrameWriteState.CheckDeadlines` | firmware/crates/audio-pipeline/src/stream_send.rs:635-662 | The deadline check is the reference check on the current state |
| `SendMachines.FrameWriteState.ResetSpinGuard` | firmware/crates/audio-pipeline/src/stream_send.rs:545-547 | Clears the run of refusals and nothing else |
| `Reassembly.ChunkingInvariance` | firmware/crates/audio-pipeline/src/inbound.rs:591-642 | For every byte stream, chunking and refusal pattern, the calls made followed by the reference over the bytes held or unread is the reference over the stream; a protocol fault is the reference's own, after exactly its calls |
| `Reassembly.OutcomeIgnoresChunking` | firmware/crates/audio-pipeline/src/inbound.rs:591-642 | Two connections fed the same stream never disagree: one's calls are a prefix of the other's, and two faults are alike after the same calls |
| `Reassembly.ConsumeIsParse` | firmware/crates/audio-pipeline/src/inbound.rs:411-576 | One consume over part of a stream and the reference over the remainder is the reference over the whole |
| `Reassembly.ConsumeLeavesStuck` | firmware/crates/audio-pipeline/src/inbound.rs:411-576 | Between consumes the head is a strict prefix of a frame or a refused Audio frame |
| `Reassembly.ConsumeAsksExactly` | firmware/crates/audio-pipeline/src/inbound.rs:443-471 | The sink is asked once per Audio frame, in order; every frame routed was one it took; the one it refused is the one left at the head |
| `Reassembly.DrainEndsExactly` | firmware/crates/audio-pipeline/src/inbound.rs:591-642 | With fewer than 4 098 bytes held a drain reads once and ends as the read did, a closed or broken socket leaving the connection as it was; with no room it reads nothing |
| `Reassembly.NoProgressMeansIdle` | firmware/crates/audio-pipeline/src/inbound.rs:346-348 | A drain without progress changed no buffered byte, made no call, and left an incomplete head or an Audio frame just refused |
| `Reassembly.FullMeansRefusedAudio` | firmware/crates/audio-pipeline/src/inbound.rs:293-300 | An accumulator with no room holds a whole Audio frame within the payload cap, after a Hello |
| `Reassembly.HeadIsLocal` | firmware/crates/audio-pipeline/src/inbound.rs:423-442 | A judged head is judged the same whatever arrives behind it |
| `WireLaw.HelloIsGreetedExactly` | firmware/crates/audio-pipeline/src/inbound.rs:472-525 | A Hello is greeted if and only if it says version 3, 16 000 Hz, 16 bit, one channel; otherwise the fault names the version, or the first field that differs with both values |
| `WireLaw.PinnedHelloIsGreeted` | firmware/crates/audio-pipeline/src/wire.rs:725-760 | The pinned Hello is greeted at its twenty-one bytes, little-endian length first |
| `WireLaw.OtherFramesAreJudgedExactly` | firmware/crates/audio-pipeline/src/inbound.rs:443-550 | Which fault each other frame gives before a Hello, and what it asks for after |
| `WireLaw.HeadAgreesWithDecoder` | firmware/crates/audio-pipeline/src/inbound.rs:423-442 | The accumulator waits exactly when the decoder would find its bytes cut short, and bytes behind the frame make no difference |
| `Conformance.ReassemblyOfFrames` | firmware/crates/audio-pipeline/src/inbound.rs:411-576 | For every list of admitted frames, chunking and refusal pattern, the sink was called with the projection of the first `j` frames and the bytes held or unread are exactly the others |
| `Conformance.ParseOfFrames` | firmware/crates/audio-pipeline/src/inbound.rs:411-576 | The reference reads encoded frames back as their projection up to a torn tail, and fails exactly when some frame is not admitted by the handshake |
| `Conformance.FrameAtHead` | firmware/crates/audio-pipeline/src/inbound.rs:442-567 | A whole frame at the head is recognised as itself and refused exactly when the handshake does not admit it |
| `Conformance.CutFrameWaits` | firmware/crates/audio-pipeline/src/inbound.rs:423-438 | A strict prefix of a frame is never mistaken for one |
| `InboundPump.PumpStopsExhausted` | firmware/crates/audio-pipeline/src/inbound.rs:663-677 | A pump that stopped short of its allowance without error left nothing deliverable; one that hit it can resume |
| `InboundPump.PumpGoesOn` | firmware/crates/audio-pipeline/src/inbound.rs:663-677 | The pump stops behind the first drain that is not quiet or neither reads nor routes, with that drain's end, or after the whole allowance; it reports the cap exactly in the second case |
| `InboundPump.PumpStaysOnTrack` | firmware/crates/audio-pipeline/src/inbound.rs:663-677 | A pump only moves along the reference, whatever mix of reads, errors and refusals it met |
| `InboundPump.PumpInbound` | firmware/crates/audio-pipeline/src/inbound.rs:663-677 | The pump loop is the reference pump: connection, unread bytes, end and cap flag |
| `InboundPump.DrainInbound` | firmware/crates/audio-pipeline/src/inbound.rs:591-642 | At most one read, skipped when full, then the consume loop even when nothing was read; EOF and errors leave the buffer as it was |
| `InboundPump.ConsumeFrames` | firmware/crates/audio-pipeline/src/inbound.rs:411-576 | The consume loop is the reference consume: bytes left, handshake flag, sink calls, offers, fault, frames routed and the wrapping frame counter |
| `InboundPump.ConsumeOne` | firmware/crates/audio-pipeline/src/inbound.rs:423-573 | One pass: stop with everything as it was, abort with the buffer emptied, or drop exactly the routed frame |
| `InboundPump.RouteFrame` | firmware/crates/audio-pipeline/src/inbound.rs:442-567 | One whole frame: handshake gate, format check, offer, marks and faults, with the flag a format mismatch leaves set |
| `InboundPump.FrameAccumulator.constructor` | firmware/crates/audio-pipeline/src/inbound.rs:294-300 | Empty, with room for one maximal framed message |
| `InboundPump.FrameAccumulator.HasCompleteFrameHeld` | firmware/crates/audio-pipeline/src/inbound.rs:317-323 | Between drains, true exactly when a whole frame is being held back |
| `InboundPump.FrameAccumulator.Peek` | firmware/crates/audio-pipeline/src/inbound.rs:423-438 | The length prefix tells an incomplete head, an over-limit one, or the extent of a whole frame |
| `InboundPump.FrameAccumulator.Compact` | firmware/crates/audio-pipeline/src/inbound.rs:569-572 | Drops exactly the first `n` bytes and keeps the rest in order |
| `InboundPump.FrameAccumulator.Append` | firmware/crates/audio-pipeline/src/inbound.rs:607-620 | A chunk read lands behind the bytes held |
| `InboundPump.FrameAccumulator.Reset` | firmware/crates/audio-pipeline/src/inbound.rs:325-327 | Holds nothing |
| `InboundPump.InboundConnectionState.Reset` | firmware/crates/audio-pipeline/src/inbound.rs:379-382 | A fresh socket must greet again; its frame count restarts |
| `WireProofs.CodecRoundTrip` | firmware/crates/audio-pipeline/src/wire.rs:285-327 | Both decoders undo the encoder for every in-capacity frame, on 32- and 64-bit platforms, whatever bytes follow |
| `WireProofs.EncodingIsPrefixFree` | firmware/crates/audio-pipeline/src/wire.rs:285-300 | No frame's encoding begins another's |
| `WireProofs.BorrowedFollowsOwned` | firmware/crates/audio-pipeline/src/wire.rs:540-598 | On every byte string the owned decoder accepts, the borrowing one gives the same projection if and only if it is not an Audio frame whose length takes more than five varint bytes |
| `WireProofs.BorrowedFollowsOwnedOnDevice` | firmware/crates/audio-pipeline/src/wire.rs:540-598 | On a 32-bit device there is no exception |
| `WireProofs.HostAcceptsWhatBorrowedRefuses` | firmware/crates/audio-pipeline/src/wire.rs:603-605 | On a 64-bit host there is: a concrete frame one decoder accepts and the other refuses |
| `WireProofs.OwnedFollowsBorrowed` | firmware/crates/audio-pipeline/src/wire.rs:540-598 | Whenever the borrowing decoder accepts Audio or Hello, the owned one does, with that projection |
| `WireProofs.GoldenBytes` | firmware/crates/audio-pipeline/src/wire.rs:801-992 | SegmentStart, EndOfAudio and FlushPlayback have the pinned bytes |
| `WireLaw.GoldenAudio` | firmware/crates/audio-pipeline/src/wire.rs:145-170 | SegmentStart and Audio, field by field in declaration order |
| `WireLaw.GoldenTelemetry` | firmware/crates/audio-pipeline/src/wire.rs:203-225 | Telemetry of both kinds, raw values last |
| `WireLaw.GoldenSegmentEnd` | firmware/crates/audio-pipeline/src/wire.rs:234-262 | SegmentEnd with each reason |
| `WireLaw.GoldenSources` | firmware/crates/audio-pipeline/src/wire.rs:90-142 | Hello with each channel source |
| `WireLaw.PrefixIsExact` | firmware/crates/audio-pipeline/src/wire.rs:318-327 | A prefix strips exactly when a whole payload of at most 4 096 bytes stands behind its little-endian length; longer lengths and cut payloads are told apart |
| `WireLaw.UnknownTagsAreRefused` | firmware/crates/audio-pipeline/src/wire.rs:540-598 | Neither decoder takes a tag above 6 |
| `WireLaw.AudioIsTakenExactly` | firmware/crates/audio-pipeline/src/wire.rs:540-598 | The borrowing decoder takes PCM exactly when the frame claims at most 1 280 bytes and has them; an oversize claim is told apart from a short body |
| `WireLaw.AudioIsOwnedExactly` | firmware/crates/audio-pipeline/src/wire.rs:307-310 | The owned decoder takes it on the same terms |
| `WireLaw.PodIdIsTakenExactly` | firmware/crates/audio-pipeline/src/wire.rs:90-100 | A pod id is decoded exactly when it is at most 32 bytes of UTF-8 |
| `Utf8Law.Utf8IsExact` | firmware/crates/audio-pipeline/src/wire.rs:90-100 | The UTF-8 test accepts exactly the encodings of Unicode scalar values |
| `WireProofs.GoldenHelloBytes` | firmware/crates/audio-pipeline/src/wire.rs:725-760 | The pinned Hello, pod id `pod-aabbcc` included, has the pinned bytes |
| `Wire.PayloadFits` | firmware/crates/audio-pipeline/src/wire.rs:41-48 | No in-capacity frame exceeds 1 311 bytes of payload, under the 4 096 limit |
| `Wire.EncodeFrame` | firmware/crates/audio-pipeline/src/wire.rs:285-300 | A buffer with room gets exactly the framed bytes and keeps its tail; a short one is refused with its first two bytes untouched and the right error |
| `Wire.EncodePayload` | firmware/crates/audio-pipeline/src/wire.rs:285-300 | The same for any payload, including one over the frame limit |
| `Wire.CheckInboundFormat` | firmware/crates/audio-pipeline/src/wire.rs:478-508 | A match exactly for equal formats; otherwise the first differing field in declaration order with both values |
| `Postcard.VarintRoundTrip` | firmware/crates/audio-pipeline/src/wire.rs:603-611 | An encoded varint reads back as itself in any context, within its width |
| `Postcard.VarintInRange` | firmware/crates/audio-pipeline/src/wire.rs:603-611 | An accepted varint fits its type |
| `Postcard.NarrowReadsWide` | firmware/crates/audio-pipeline/src/wire.rs:603-605 | A value that fits is read alike by a narrow and a wide reader exactly when its spelling fits the narrow width |
| `Postcard.RunRoundTrip` | firmware/crates/audio-pipeline/src/wire.rs:161-170 | A length-prefixed run reads back as itself in any context |
| `Pace.WindowBound` | firmware/crates/audio-pipeline/src/pace.rs:84-96 | In any window of a segment the frames number at most its whole periods plus five |
| `Pace.EmissionsSpread` | firmware/crates/audio-pipeline/src/pace.rs:48-96 | Emissions k apart in order are at least k - 4 periods apart in time |
| `Pace.FiveAtOnce` | firmware/crates/audio-pipeline/src/pace.rs:42-96 | The bound is met: after a stall five frames leave at one instant and a sixth is held |
| `Pace.SteadyStreamNeverHeld` | firmware/crates/audio-pipeline/src/pace.rs:48-50 | Frames offered a period or more apart are never held |
| `Pace.ResyncIsExact` | firmware/crates/audio-pipeline/src/pace.rs:84-96 | A schedule is given up exactly when it is more than 20 000 us behind; the next frame is then due 15 000 us before now, otherwise 5 000 us on |
| `Pace.ExactCadence` | firmware/crates/audio-pipeline/src/pace.rs:84-96 | Without a resync the schedule after k frames is exactly the first emission plus k periods |
| `Pace.PaceWaitUs` | firmware/crates/audio-pipeline/src/pace.rs:59-63 | The wait is the least that makes the frame allowed, and there is none exactly when it already is |
| `HistoryRing.SlotsInOrder` | firmware/crates/audio-pipeline/src/ring.rs:307-309 | Samples go into successive slots from slot 0 and round again |
| `HistoryRing.ValidIffIntact` | firmware/crates/audio-pipeline/src/ring.rs:307-333 | An index is valid exactly when no later sample has landed in its slot |
| `HistoryRing.NotOverrunIffAllIntact` | firmware/crates/audio-pipeline/src/ring.rs:352-364 | For a cursor at or before the head: not overrun exactly when everything from it to the head is intact, and that much is available |
| `HistoryRing.PrerollIsTheLastSamples` | firmware/crates/audio-pipeline/src/ring.rs:341-344 | The pre-roll cursor yields exactly the last min(preroll, held) samples, all intact |
| `HistoryRing.CaptureRing.Push` | firmware/crates/audio-pipeline/src/ring.rs:305-333 | After any number of slot-indexed writes every valid index holds its own stream sample |
| `HistoryRing.CaptureRing.Read` | firmware/crates/audio-pipeline/src/ring.rs:352-364 | Samples read from a cursor that is not overrun are the stream's own |
| `Vad.OpenIffHeard` | firmware/crates/audio-pipeline/src/vad.rs:170-212 | Over any trace the gate is open exactly when two consecutive samples were above threshold with no later full quiet spell of max(1, hangover) |
| `Vad.TransitionsAlternate` | firmware/crates/audio-pipeline/src/vad.rs:99-212 | Reported transitions strictly alternate from Opened, and the gate is open exactly when their number is odd |
| `Vad.VadStateMachine.Poll` | firmware/crates/audio-pipeline/src/vad.rs:170-212 | One poll takes the reference step |
| `Waveform.AutocorrelationBound` | firmware/crates/audio-pipeline/src/ring.rs:66-77 | For every window the lag-1 sum never exceeds the sum of squares in magnitude, so the exact ratio lies in [-1, 1] |
| `Waveform.SumsFit` | firmware/crates/audio-pipeline/src/ring.rs:205-220 | Sum of squares and lag sum of any window of fewer than 2^33 samples fit a signed 64-bit integer |
| `Waveform.WaveformAccum.Push` | firmware/crates/audio-pipeline/src/ring.rs:242-256 | The accumulator is its window's summary after any sequence of pushes: extremes, squares, neighbour products, samples at or past 32 700, with the bound kept |

## Left out

- `brenn-bridge` and `device-protocol`: supervision glue, schema and one-branch checks.
- The pod-streamer's segment selection, capture loop and event loop: only their calls into the send machines are
  modelled, as arbitrary event lists.
- `CountingSink`, `StallCountingSink`, `FakeDacSink`, `LogCountdown`, observers, waypoints, the consumer-stall
  watchdog and all log and post-mortem text.
- The mark-overflow warning latch of `mark_end_of_audio`: observability.
- Sockets, `poll`, TLS, lock poisoning, PSRAM storage and the device drain loops: their answers and calls are
  arbitrary, under the hypotheses above.
- Floating point: VAD energies are one above-or-below bit per poll, telemetry values are opaque bytes, and the
  autocorrelation bound is about the exact ratio, not its `f32` cast.
- VAD threshold and hangover setters, tick conversion and settings blobs: the trace results are at a fixed threshold
  and hangover.
- `WaveformStats` beyond the running sums: RMS, defect classification and display.
- `absolute_frames_due`, `paced_drain_us` and `RingIndex::is_continuous`: one-line arithmetic.
- Pacing, history indices, deadlines and send counters are unbounded integers: `u64` and `u32` overflow of those is
  not modelled. Ring counters, generations and frame counters wrap as the code's do.
- Wire.EncodePayload: of a refused buffer only the length prefix is promised untouched; what a failed Postcard
  serialization leaves after it is not specified.
- PlaybackRing.I2sStreamSink.Accept: does not model the consumer-stall watchdog fields and the log countdown, which only
  decide what is logged.
- PlaybackRing.InboundPcmRing.constructor: promises nothing of storage of 2^32 bytes or more, whose fill no `u32` counter
  can tell.
- PlaybackRing.InboundPcmRing.Write: takes the bytes as a value where the code fills slices through a closure.
- Liveness.HeldFrameIsAccepted: progress is per drain pass; that the device keeps making passes is not proved, and a device
  that underruns in mid-pass, which escalates the gate and takes nothing, counts as no pass.
- InboundPump.Sink, InboundPump.Socket and SendMachines.Link stand for the injected parties and model no code.
