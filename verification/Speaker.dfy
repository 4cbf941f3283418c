/** The last stage of the composed path: what the I2S device is handed, run by run. */
module Speaker {
  import opened Bytes
  import opened Postcard
  import opened Reassembly
  import opened Ring
  import opened RingRuns
  import opened RingMarks
  import opened Playout
  import opened RingPlayout
  import opened EndToEnd
  import PlaybackRing

  /** A drain working in whole samples. What arrives from the socket is checked, not assumed. */
  predicate InSamples(e: PodEvent) {
    e.Drain? ==> WholeSamples(e.e)
  }

  /** The bytes an event takes from the ring to play. */
  function Taken(p: Pod, e: PodEvent): seq<Byte> {
    if !p.faulted && Sound(p.m.s.ring) && e.Drain? && e.e.Consume? && Legal(p.m.s, e.e)
    then p.m.s.staged.run.bytes[..e.e.n]
    else []
  }

  /** The device's bytes so far: each consumed run, expanded on its own. */
  function Spoken(w: Usize, m0: Marked, stream: seq<Byte>, events: seq<PodEvent>): seq<Byte> {
    if events == [] then []
    else
      var init := events[..|events| - 1];
      Spoken(w, m0, stream, init) + Expand(Taken(Lived(w, m0, stream, init), events[|events| - 1]))
  }

  /** Between samples, and sound. */
  ghost predicate InOrder(m: Marked) {
    MarksInv(m) && Aligned(m.s)
  }

  lemma StartsInOrder(storage: seq<Byte>)
    requires 0 < |storage| < TWO32 && Even(|storage|)
    ensures InOrder(Marked(Start(storage), EMPTY_LOG))
  {
    StartKeepsMarks(storage);
    hide MarksInv;
  }

  lemma StepInOrder(m: Marked, e: Event)
    requires InOrder(m) && WholeSamples(e)
    ensures InOrder(MarkStep(m, e))
  {
    MarkStepKeeps(m, e);
    assert Counted(m.s) && Sound(m.s.ring);
    hide MarksInv, Counted, Aligned, WholeSamples, Step, Sound;
    if Legal(m.s, e) && Respects(m.s, e) {
      StepStaysAligned(m.s, e);
    }
  }

  lemma EventInOrder(w: Usize, p: Pod, e: PodEvent)
    requires InOrder(p.m) && InSamples(e)
    ensures InOrder(OnEvent(w, p, e).m)
  {
    hide HeadOf, InOrder, MarkStep, Write, Sound;
    StepInOrder(p.m, MarkEnd);
    StepInOrder(p.m, Reconnect);
    if e.Drain? {
      StepInOrder(p.m, e.e);
    }
    var h := HeadOf(w, p.acc, p.hello);
    if h.Whole? && h.act.Offer? && PlaybackRing.IsValidS16lePcm(h.act.pcm) {
      StepInOrder(p.m, Produce(h.act.pcm));
    }
  }

  lemma StepPlays(m: Marked, e: Event)
    ensures MarkStep(m, e).s.played == m.s.played +
            if Sound(m.s.ring) && e.Consume? && Legal(m.s, e) then m.s.staged.run.bytes[..e.n] else []
  {
    assert m.s.played + [] == m.s.played;
  }

  lemma EventPlays(w: Usize, p: Pod, e: PodEvent)
    ensures OnEvent(w, p, e).m.s.played == p.m.s.played + Taken(p, e)
  {
    hide HeadOf, MarkStep, Write, Sound;
    assert p.m.s.played + [] == p.m.s.played;
    StepPlays(p.m, MarkEnd);
    StepPlays(p.m, Reconnect);
    if e.Drain? {
      StepPlays(p.m, e.e);
    }
    var h := HeadOf(w, p.acc, p.hello);
    if h.Whole? && h.act.Offer? {
      StepPlays(p.m, Produce(h.act.pcm));
    }
  }

  lemma {:induction false} LivesInOrder(w: Usize, m0: Marked, stream: seq<Byte>, events: seq<PodEvent>)
    requires InOrder(m0) && forall i :: 0 <= i < |events| ==> InSamples(events[i])
    ensures InOrder(Lived(w, m0, stream, events).m)
  {
    if events != [] {
      hide InOrder, OnEvent;
      var init := events[..|events| - 1];
      LivesInOrder(w, m0, stream, init);
      EventInOrder(w, Lived(w, m0, stream, init), events[|events| - 1]);
    }
  }

  /** Expanding run by run as the runs are consumed is expanding everything played at once, for any bytes
      on the socket: no run is ever cut inside a sample. */
  lemma {:induction false} SpokenIsPlayedExpanded(w: Usize, m0: Marked, stream: seq<Byte>, events: seq<PodEvent>)
    requires InOrder(m0) && forall i :: 0 <= i < |events| ==> InSamples(events[i])
    ensures Expand(m0.s.played) + Spoken(w, m0, stream, events) == Expand(Lived(w, m0, stream, events).m.s.played)
  {
    hide InOrder, OnEvent, Expand, Taken;
    if events == [] {
      assert Expand(m0.s.played) + [] == Expand(m0.s.played);
    } else {
      var init := events[..|events| - 1];
      var p, e := Lived(w, m0, stream, init), events[|events| - 1];
      SpokenIsPlayedExpanded(w, m0, stream, init);
      LivesInOrder(w, m0, stream, init);
      PlayedWhole(p.m);
      EventPlays(w, p, e);
      ExpandAppend(p.m.s.played, Taken(p, e));
    }
  }

  lemma PlayedWhole(m: Marked)
    requires InOrder(m)
    ensures |m.s.played| % 2 == 0
  {
    hide MarksInv;
  }
}
