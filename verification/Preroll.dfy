/** The pre-roll gate: how much is banked before playing, and when that answer changes. */
module Preroll {
  import opened Bytes

  const PLAYBACK_PREROLL_TARGET_BYTES: nat := 12 * 640
  const PLAYBACK_PREROLL_MAX_TARGET_BYTES: nat := 30_720

  datatype Clock = Unset | Since(at: nat)

  /** `firstBytesAt` is in milliseconds. */
  datatype Gate = Gate(pending: bool, firstBytesAt: Clock, target: nat, sawAudio: bool)

  const NEW_GATE: Gate := Gate(true, Unset, PLAYBACK_PREROLL_TARGET_BYTES, false)

  function NextPrerollTarget(current: nat): nat {
    Min(current * 2, PLAYBACK_PREROLL_MAX_TARGET_BYTES)
  }

  /** The cushion is there, or the fallback has run out since the first bytes. */
  predicate PrerollGateReady(buffered: nat, target: nat, firstBytesAt: Clock, now: nat, maxWaitMs: nat) {
    buffered >= target || (firstBytesAt.Since? && Max(0, now - firstBytesAt.at) >= maxWaitMs)
  }

  /** Re-armed after an underrun: the next target, and no memory of bytes or audio. */
  function Escalated(g: Gate): Gate {
    Gate(true, Unset, NextPrerollTarget(g.target), false)
  }

  /** The ring was found empty: an underrun only if audio had been playing out of it. */
  function Emptied(g: Gate): Gate {
    if g.pending || !g.sawAudio then g.(sawAudio := false) else Escalated(g)
  }

  function Admitted(g: Gate, available: nat, now: nat, maxWaitMs: nat): (Gate, bool) {
    var g' := if available > 0 && g.firstBytesAt.Unset? then g.(firstBytesAt := Since(now)) else g;
    if !g'.pending then (g', true)
    else if PrerollGateReady(available, g'.target, g'.firstBytesAt, now, maxWaitMs) then (g'.(pending := false), true)
    else (g', false)
  }

  datatype GateEvent =
    | Arm
    | Underrun
    | Ask(available: nat, now: nat, maxWaitMs: nat)
    | NoteAudio
    | ClearAudio

  function Gated(g: Gate, e: GateEvent): Gate {
    match e
    case Arm => NEW_GATE
    case Underrun => Escalated(g)
    case Ask(available, now, maxWaitMs) => Admitted(g, available, now, maxWaitMs).0
    case NoteAudio => g.(sawAudio := true)
    case ClearAudio => g.(sawAudio := false)
  }

  function GateAfter(events: seq<GateEvent>): Gate {
    if events == [] then NEW_GATE else Gated(GateAfter(events[..|events| - 1]), events[|events| - 1])
  }

  /** Over every history the gate waits for 240, 480 or 960 ms of audio: two doublings from the base, then
      the cap. */
  lemma {:induction false} ReachableTargets(events: seq<GateEvent>)
    ensures GateAfter(events).target in {7_680, 15_360, 30_720}
  {
    if events != [] {
      ReachableTargets(events[..|events| - 1]);
    }
  }

  /** Underruns since the last base re-arm. */
  function Underruns(events: seq<GateEvent>): nat {
    if events == [] then 0
    else
      var e := events[|events| - 1];
      if e.Arm? then 0 else Underruns(events[..|events| - 1]) + if e.Underrun? then 1 else 0
  }

  /** The target is decided by the underruns of the current stream alone. */
  lemma {:induction false} TargetCountsUnderruns(events: seq<GateEvent>)
    ensures GateAfter(events).target
            == (if Underruns(events) == 0 then 7_680 else if Underruns(events) == 1 then 15_360 else 30_720)
  {
    if events != [] {
      TargetCountsUnderruns(events[..|events| - 1]);
    }
  }

  /** Once audio has been seen waiting, the gate opens at the latest when the fallback runs out, for any
      amount banked; until then only a full cushion opens it. */
  lemma FallbackIsExact(g: Gate, available: nat, t0: nat, later: nat, now: nat, maxWaitMs: nat)
    requires g.pending && g.firstBytesAt == Unset && 0 < available < g.target && 0 < maxWaitMs
    requires t0 <= now
    ensures var (g1, first) := Admitted(g, available, t0, maxWaitMs);
            && !first && g1.pending
            && (later < g.target ==> (Admitted(g1, later, now, maxWaitMs).1 <==> now - t0 >= maxWaitMs))
            && (later >= g.target ==> Admitted(g1, later, now, maxWaitMs).1)
  {
  }

  class PrerollGate {
    var pending: bool
    var firstBytesAt: Clock
    var target: nat
    var sawAudio: bool

    function View(): Gate
      reads this
    {
      Gate(pending, firstBytesAt, target, sawAudio)
    }

    constructor ()
      ensures View() == NEW_GATE
    {
      pending, firstBytesAt, target, sawAudio := true, Unset, PLAYBACK_PREROLL_TARGET_BYTES, false;
    }

    method ArmBase()
      modifies this
      ensures View() == Gated(old(View()), Arm) == NEW_GATE
    {
      pending, firstBytesAt, sawAudio := true, Unset, false;
      target := PLAYBACK_PREROLL_TARGET_BYTES;
    }

    method RearmEscalated() returns (newTarget: nat)
      modifies this
      ensures View() == Gated(old(View()), Underrun) && newTarget == target
    {
      pending, firstBytesAt, sawAudio := true, Unset, false;
      target := NextPrerollTarget(target);
      newTarget := target;
    }

    method Admit(available: nat, now: nat, maxWaitMs: nat) returns (admitted: bool)
      modifies this`firstBytesAt, this`pending
      ensures (View(), admitted) == Admitted(old(View()), available, now, maxWaitMs)
    {
      if available > 0 && firstBytesAt.Unset? {
        firstBytesAt := Since(now);
      }
      if !pending {
        return true;
      }
      if PrerollGateReady(available, target, firstBytesAt, now, maxWaitMs) {
        pending := false;
        return true;
      }
      admitted := false;
    }
  }
}
