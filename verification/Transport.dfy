/** Sender, wire and receiver together: any sender run, any transport chunking, any sink. */
module Transport {
  import opened Bytes
  import opened Postcard
  import opened Wire
  import opened FrameStream
  import opened SenderRuns
  import opened Reassembly
  import opened Conformance
  import RingRuns
  import RingMarks
  import EndToEnd
  import Playout
  import Speaker

  /** What a sender leaves on the wire is whole frames and at most one frame cut short. */
  lemma WireIsFrames(sends: seq<SenderEvent>)
    ensures var s := Ran(sends); s.wire == AllBytes(s.sent) + Tail(s) && Torn(Tail(s))
  {
    hide FrameBytes;
    SenderNeverDesyncs(sends);
  }

  /** A receiver never hears a frame the sender did not report sent, hears them in order, and holds or
      has yet to read exactly the rest — for every writer and every give-up on one side, and every
      chunking and refusal on the other. A frame abandoned mid-way is never taken for a frame. */
  lemma SentIsHeard(w: Usize, sends: seq<SenderEvent>, grants: seq<nat>, ask: nat -> bool) returns (j: nat)
    requires AllAdmitted(Ran(sends).sent, false)
    ensures var s := Ran(sends); At(s.sent, Tail(s), Fed(w, s.wire, grants, ask), j)
  {
    hide Ran, AllBytes, Tail, At, Fed, AllAdmitted, Torn;
    WireIsFrames(sends);
    var s := Ran(sends);
    j := ReassemblyOfFrames(w, s.sent, Tail(s), grants, ask);
  }

  /** The whole line: the far device has played what the first `j` frames reported sent mean, less the
      positions a flush superseded, and has been told where they end. */
  lemma SentIsPlayed(w: Usize, sends: seq<SenderEvent>, m0: RingMarks.Marked, events: seq<EndToEnd.PodEvent>)
    returns (j: nat)
    requires AllAdmitted(Ran(sends).sent, false) && RingMarks.MarksInv(m0) && TWO32 % m0.s.ring.cap == 0
    ensures var s := Ran(sends);
            var p := EndToEnd.Lived(w, m0, s.wire, events);
            && j <= |s.sent|
            && p.acc + p.unread == AllBytes(s.sent[j..]) + Tail(s)
            && var told := EndToEnd.AddAll(EndToEnd.ScoreOf(m0), s.sent[..j]);
               && told.stream == m0.s.h.stream + EndToEnd.Pcm(s.sent[..j])
               && EndToEnd.PlaysTheScore(told, p.m.s) && EndToEnd.ReportsTheEnds(told, p.m)
  {
    hide Ran, AllBytes, Tail, AllAdmitted, Torn, RingMarks.MarksInv, EndToEnd.Lived, EndToEnd.Pcm, EndToEnd.AddAll,
         EndToEnd.PlaysTheScore, EndToEnd.ReportsTheEnds;
    WireIsFrames(sends);
    var s := Ran(sends);
    j := EndToEnd.SocketToDevice(w, s.sent, Tail(s), m0, events);
  }

  /** From the sender's frames to the device's bytes: from any sound ring standing between samples, with a
      drain that works in whole samples, all I2S bytes up to any moment are the expansion of the samples
      given, without the superseded ones: every sample left out was of a generation moved past. */
  lemma SentIsSpoken(w: Usize, sends: seq<SenderEvent>, m0: RingMarks.Marked, events: seq<EndToEnd.PodEvent>)
    returns (j: nat)
    requires AllAdmitted(Ran(sends).sent, false) && Speaker.InOrder(m0) && TWO32 % m0.s.ring.cap == 0
    requires forall i :: 0 <= i < |events| ==> Speaker.InSamples(events[i])
    ensures var s := Ran(sends);
            var fates := EndToEnd.Lived(w, m0, s.wire, events).m.s.h.fates;
            && j <= |s.sent| && |fates| <= |m0.s.h.stream + EndToEnd.Pcm(s.sent[..j])|
            && EndToEnd.PlaysTheScore(EndToEnd.AddAll(EndToEnd.ScoreOf(m0), s.sent[..j]),
                                      EndToEnd.Lived(w, m0, s.wire, events).m.s)
            && Playout.Expand(m0.s.played) + Speaker.Spoken(w, m0, s.wire, events)
               == Playout.Expand(RingRuns.Select(m0.s.h.stream + EndToEnd.Pcm(s.sent[..j]), fates))
  {
    hide Ran, AllBytes, Tail, AllAdmitted, Torn, RingMarks.MarksInv, EndToEnd.Lived, EndToEnd.Pcm, EndToEnd.AddAll,
         EndToEnd.ReportsTheEnds, Speaker.Spoken, RingRuns.Select, Playout.Expand, Speaker.InSamples;
    j := SentIsPlayed(w, sends, m0, events);
    Speaker.SpokenIsPlayedExpanded(w, m0, Ran(sends).wire, events);
  }
}
