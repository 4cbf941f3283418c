/** What the pre-roll gate answers, told by its history alone. */
module PrerollLaw {
  import opened Bytes
  import opened Preroll

  predicate Rearms(e: GateEvent) {
    e.Arm? || e.Underrun?
  }

  /** Where the events since the last re-arm begin. */
  function Stretch(events: seq<GateEvent>): (s: nat)
    ensures s <= |events|
  {
    if events == [] then 0
    else if Rearms(events[|events| - 1]) then |events|
    else Stretch(events[..|events| - 1])
  }

  /** The cushion asked for: 240, 480 or 960 ms of audio by the underruns of the stream. */
  function Target(events: seq<GateEvent>): nat {
    if Underruns(events) == 0 then 7_680 else if Underruns(events) == 1 then 15_360 else 30_720
  }

  predicate SawBytes(events: seq<GateEvent>, j: nat) {
    j < |events| && events[j].Ask? && events[j].available > 0
  }

  /** The first question since `s` that found bytes waiting. */
  predicate FirstSaw(events: seq<GateEvent>, s: nat, j: nat) {
    s <= j && SawBytes(events, j) && forall k :: s <= k < j ==> !SawBytes(events, k)
  }

  /** Question `i` comes a fallback after question `j`. */
  predicate RanOut(events: seq<GateEvent>, j: nat, i: nat) {
    && j < |events| && i < |events| && events[j].Ask? && events[i].Ask?
    && Max(0, events[i].now - events[j].now) >= events[i].maxWaitMs
  }

  /** Question `i` since the re-arm found the cushion there, or the fallback run out since the first bytes. */
  ghost predicate Opens(events: seq<GateEvent>, i: nat) {
    && Stretch(events) <= i < |events| && events[i].Ask?
    && (events[i].available >= Target(events)
        || exists j: nat :: j <= i && FirstSaw(events, Stretch(events), j) && RanOut(events, j, i))
  }

  ghost predicate HasOpened(events: seq<GateEvent>) {
    exists i: nat :: Opens(events, i)
  }

  /** Audio was noted since the re-arm and not cleared. */
  predicate NotedAt(events: seq<GateEvent>, j: nat) {
    && Stretch(events) <= j < |events| && events[j] == NoteAudio
    && forall k :: j < k < |events| ==> events[k] != ClearAudio
  }

  ghost predicate AudioSeen(events: seq<GateEvent>) {
    exists j: nat :: NotedAt(events, j)
  }

  // ---------------------------------------------------------------------------------------------
  // One more event

  lemma Extended(events: seq<GateEvent>, e: GateEvent)
    ensures var es := events + [e];
            && Stretch(es) == (if Rearms(e) then |es| else Stretch(events))
            && GateAfter(es) == Gated(GateAfter(events), e)
            && (!Rearms(e) ==> Target(es) == Target(events))
  {
    assert (events + [e])[..|events|] == events;
  }

  lemma SawBefore(events: seq<GateEvent>, e: GateEvent)
    ensures forall j :: 0 <= j < |events| ==> (SawBytes(events + [e], j) <==> SawBytes(events, j))
    ensures forall s: nat, j: nat :: j < |events| ==> (FirstSaw(events + [e], s, j) <==> FirstSaw(events, s, j))
    ensures forall i: nat, j: nat :: i < |events| && j < |events| ==>
              (RanOut(events + [e], j, i) <==> RanOut(events, j, i))
  {
  }

  lemma OpensBefore(events: seq<GateEvent>, e: GateEvent, i: nat)
    requires !Rearms(e) && i < |events|
    ensures Opens(events + [e], i) <==> Opens(events, i)
  {
    Extended(events, e);
    SawBefore(events, e);
    hide Stretch, Target, FirstSaw, RanOut;
    assert (events + [e])[i] == events[i];
    forall j: nat | j <= i
      ensures FirstSaw(events + [e], Stretch(events), j) && RanOut(events + [e], j, i)
              <==> FirstSaw(events, Stretch(events), j) && RanOut(events, j, i)
    {
    }
  }

  /** The gate's clock is the first question since the re-arm that found bytes. */
  ghost predicate ClockAgrees(g: Gate, events: seq<GateEvent>) {
    match g.firstBytesAt
    case Unset => forall j :: Stretch(events) <= j < |events| ==> !SawBytes(events, j)
    case Since(at) => exists j: nat :: FirstSaw(events, Stretch(events), j) && events[j].now == at
  }

  ghost predicate Agrees(events: seq<GateEvent>) {
    var g := GateAfter(events);
    && g.target == Target(events) && ClockAgrees(g, events)
    && (g.pending <==> !HasOpened(events))
    && (g.sawAudio <==> AudioSeen(events))
  }

  lemma ClockStep(events: seq<GateEvent>, e: GateEvent)
    requires ClockAgrees(GateAfter(events), events)
    ensures ClockAgrees(GateAfter(events + [e]), events + [e])
  {
    Extended(events, e);
    SawBefore(events, e);
    var g, es := GateAfter(events), events + [e];
    hide GateAfter, Stretch;
    if !Rearms(e) {
      if g.firstBytesAt.Since? {
        var j: nat :| FirstSaw(events, Stretch(events), j) && events[j].now == g.firstBytesAt.at;
        assert FirstSaw(es, Stretch(es), j) && es[j] == events[j];
      } else if e.Ask? && e.available > 0 {
        assert es[|events|] == e;
        assert FirstSaw(es, Stretch(es), |events|);
      }
    }
  }

  /** A question is answered yes by the gate's state exactly when it opens, or one before it did. */
  lemma AskOpens(events: seq<GateEvent>, e: GateEvent)
    requires e.Ask? && Agrees(events)
    ensures Admitted(GateAfter(events), e.available, e.now, e.maxWaitMs).1
            <==> HasOpened(events) || Opens(events + [e], |events|)
  {
    Extended(events, e);
    ClockStep(events, e);
    var g, es := GateAfter(events), events + [e];
    assert es[|events|] == e;
    var g' := GateAfter(es);
    hide GateAfter, Stretch, Target, HasOpened, AudioSeen;
    if g.pending {
      if g'.firstBytesAt.Since? {
        var j: nat :| FirstSaw(es, Stretch(es), j) && es[j].now == g'.firstBytesAt.at;
        assert forall k: nat :: FirstSaw(es, Stretch(es), k) ==> k == j;
        assert RanOut(es, j, |events|) <==> Max(0, e.now - es[j].now) >= e.maxWaitMs;
      }
    }
  }

  lemma PendingStep(events: seq<GateEvent>, e: GateEvent)
    requires Agrees(events)
    ensures GateAfter(events + [e]).pending <==> !HasOpened(events + [e])
  {
    Extended(events, e);
    var es := events + [e];
    if Rearms(e) {
      assert forall i: nat :: !Opens(es, i);
    } else {
      assert es[|events|] == e;
      if e.Ask? {
        AskOpens(events, e);
      }
      OpenedNext(events, e);
    }
    hide Opens, HasOpened, Stretch, ClockAgrees, AudioSeen, GateAfter;
  }

  lemma OpenedNext(events: seq<GateEvent>, e: GateEvent)
    requires !Rearms(e)
    ensures HasOpened(events + [e]) <==> HasOpened(events) || Opens(events + [e], |events|)
  {
    var es := events + [e];
    forall i: nat | i < |events| ensures Opens(es, i) <==> Opens(events, i) {
      OpensBefore(events, e, i);
    }
    assert forall i: nat :: Opens(es, i) ==> i <= |events|;
    assert forall i: nat :: Opens(events, i) ==> i < |events|;
    hide Opens;
  }

  lemma AudioStep(events: seq<GateEvent>, e: GateEvent)
    requires GateAfter(events).sawAudio <==> AudioSeen(events)
    ensures GateAfter(events + [e]).sawAudio <==> AudioSeen(events + [e])
  {
    Extended(events, e);
    var es := events + [e];
    assert es[|events|] == e;
    hide GateAfter, Stretch;
    if e == NoteAudio {
      assert NotedAt(es, |events|);
    } else if !Rearms(e) && e != ClearAudio {
      forall j: nat ensures NotedAt(es, j) <==> NotedAt(events, j) {
      }
    }
  }

  lemma {:induction false} GateAgrees(events: seq<GateEvent>)
    ensures Agrees(events)
  {
    TargetCountsUnderruns(events);
    if events != [] {
      var init, e := events[..|events| - 1], events[|events| - 1];
      GateAgrees(init);
      assert init + [e] == events;
      hide ClockAgrees, HasOpened, AudioSeen;
      ClockStep(init, e);
      PendingStep(init, e);
      AudioStep(init, e);
    } else {
      assert forall i: nat :: !Opens([], i);
    }
  }

  // ---------------------------------------------------------------------------------------------
  // The laws

  /** After any history the gate lets a question through exactly when this question or an earlier one since the
      last re-arm found the whole cushion, or came the fallback after the first that found bytes. So an armed gate
      holds everything back until then, and a re-arm forgets both bytes and clock. */
  lemma AdmissionIsExact(events: seq<GateEvent>, available: nat, now: nat, maxWaitMs: nat)
    ensures Admitted(GateAfter(events), available, now, maxWaitMs).1
            <==> HasOpened(events + [Ask(available, now, maxWaitMs)])
  {
    hide HasOpened, Opens, GateAfter;
    GateAgrees(events);
    AskOpens(events, Ask(available, now, maxWaitMs));
    OpenedNext(events, Ask(available, now, maxWaitMs));
  }

  /** An empty ring is an underrun exactly when the gate had opened and audio had been seen since the re-arm;
      otherwise only the note of audio is cleared. */
  lemma EmptyIsUnderrunExactly(events: seq<GateEvent>)
    ensures Emptied(GateAfter(events))
            == GateAfter(events + [if HasOpened(events) && AudioSeen(events) then Underrun else ClearAudio])
  {
    GateAgrees(events);
    Extended(events, Underrun);
    Extended(events, ClearAudio);
    hide HasOpened, AudioSeen, ClockAgrees, GateAfter;
  }
}
