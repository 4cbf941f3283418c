/** Real-time pacing of the outbound catch-up drain: clock-free arithmetic on microseconds. */
module Pace {
  import opened Bytes

  const CATCH_UP_PACED_FRAME_US: nat := 5_000
  const MAX_PACE_LAG_PERIODS: nat := 4

  datatype Schedule = Open | Earliest(at: nat)

  predicate PaceAllows(s: Schedule, now: nat) {
    s.Open? || now >= s.at
  }

  datatype Wait = Now | After(us: nat)

  function PaceWaitUs(s: Schedule, now: nat): (w: Wait)
    ensures w.Now? <==> PaceAllows(s, now)
    ensures w.After? ==> w.us > 0 && PaceAllows(s, now + w.us) && !PaceAllows(s, now + w.us - 1)
  {
    if s.Earliest? && now < s.at then After(s.at - now) else Now
  }

  datatype PaceAdvance = PaceAdvance(next: nat, resynced: bool)

  function AdvancePaceUs(s: Schedule, now: nat): PaceAdvance {
    match s
    case Open => PaceAdvance(now + CATCH_UP_PACED_FRAME_US, false)
    case Earliest(at) =>
      var floor := Max(0, now - MAX_PACE_LAG_PERIODS * CATCH_UP_PACED_FRAME_US);
      PaceAdvance(Max(at, floor) + CATCH_UP_PACED_FRAME_US, at < floor)
  }

  /** A schedule is given up exactly when it has fallen more than four periods behind; the next frame is then due
      three periods before now, and otherwise one period on. */
  lemma ResyncIsExact(at: nat, now: nat)
    ensures var a := AdvancePaceUs(Earliest(at), now);
            && (a.resynced <==> now > at + 20_000)
            && a.next == (if now > at + 20_000 then now - 15_000 else at + 5_000)
  {
  }

  /** The schedule after emitting at each of `times` in turn. */
  function Emitted(times: seq<nat>): Schedule {
    if times == [] then Open
    else Earliest(AdvancePaceUs(Emitted(times[..|times| - 1]), times[|times| - 1]).next)
  }

  /** Emission times a segment can have: in order, each allowed by the schedule the earlier ones left. */
  predicate Paced(times: seq<nat>) {
    times == [] ||
    (var init := times[..|times| - 1];
     var t := times[|times| - 1];
     Paced(init) && PaceAllows(Emitted(init), t) && (init != [] ==> init[|init| - 1] <= t))
  }

  /** No emission of the segment found its schedule more than four periods behind. */
  predicate NeverResynced(times: seq<nat>) {
    times == [] ||
    (NeverResynced(times[..|times| - 1])
     && !AdvancePaceUs(Emitted(times[..|times| - 1]), times[|times| - 1]).resynced)
  }

  lemma {:induction false} PacedPrefix(times: seq<nat>, k: nat)
    requires Paced(times) && k <= |times|
    ensures Paced(times[..k])
  {
    if k < |times| {
      PacedPrefix(times[..|times| - 1], k);
      assert times[..|times| - 1][..k] == times[..k];
    } else {
      assert times[..k] == times;
    }
  }

  /** Each emission pushes the schedule on by a whole period, and one at time `t` leaves it no further
      back than three periods before `t`. */
  lemma {:induction false} ScheduleClimbs(times: seq<nat>, i: nat, j: nat)
    requires i < j <= |times|
    ensures Emitted(times[..j]).Earliest?
    ensures Emitted(times[..j]).at >= times[i] - 15_000 + 5_000 * (j - i - 1)
    decreases j - i
  {
    var init := times[..j - 1];
    assert times[..j][..j - 1] == init;
    if i < j - 1 {
      ScheduleClimbs(times, i, j - 1);
    }
  }

  /** Two emissions `j - i` apart in order are at least `j - i - 4` periods apart in time. */
  lemma EmissionsSpread(times: seq<nat>, i: nat, j: nat)
    requires Paced(times) && i < j < |times|
    ensures times[j] >= times[i] - 15_000 + 5_000 * (j - i - 1)
  {
    ScheduleClimbs(times, i, j);
    PacedPrefix(times, j + 1);
    assert times[..j + 1][..j] == times[..j];
  }

  /** In any window of a segment — the emissions from the `i`-th to the `j`-th — there are at most five
      more frames than the window has whole periods. A single instant holds at most five, however long
      the writer was stalled before it. */
  lemma WindowBound(times: seq<nat>, i: nat, j: nat, t0: nat, t1: nat)
    requires Paced(times) && i <= j < |times| && t0 <= times[i] && times[j] <= t1
    ensures t0 <= t1 && j - i + 1 <= (t1 - t0) / 5_000 + 5
  {
    PacedInOrder(times, i, j);
    if i < j {
      EmissionsSpread(times, i, j);
    }
  }

  lemma {:induction false} PacedInOrder(times: seq<nat>, i: nat, j: nat)
    requires Paced(times) && i <= j < |times|
    ensures times[i] <= times[j]
    decreases j
  {
    if i < j {
      PacedInOrder(times, i, j - 1);
      PacedPrefix(times, j + 1);
      assert times[..j + 1][..j][j - 1] == times[j - 1];
    }
  }

  /** The bound is met: after a stall five frames do leave at one instant, and a sixth is held. */
  lemma FiveAtOnce()
    ensures var t := 1_000_000; Paced([0, t, t, t, t, t]) && !PaceAllows(Emitted([0, t, t, t, t, t]), t)
  {
    var t: nat := 1_000_000;
    assert Paced([]) && Emitted([]) == Open;
    hide Paced, Emitted, AdvancePaceUs;
    var s1: seq<nat> := [] + [0];
    var s2, s3 := s1 + [t], s1 + [t] + [t];
    var s4, s5 := s3 + [t], s3 + [t] + [t];
    EmitStep([], 0);
    assert AdvancePaceUs(Open, 0).next == 5_000 by {
      OpenAdvance(0);
    }
    ResyncIsExact(5_000, t);
    ResyncIsExact(985_000, t);
    ResyncIsExact(990_000, t);
    ResyncIsExact(995_000, t);
    ResyncIsExact(1_000_000, t);
    EmitStep(s1, t);
    EmitStep(s2, t);
    EmitStep(s3, t);
    EmitStep(s4, t);
    EmitStep(s5, t);
    assert s5 + [t] == [0, t, t, t, t, t];
  }

  lemma OpenAdvance(now: nat)
    ensures AdvancePaceUs(Open, now) == PaceAdvance(now + 5_000, false)
  {
  }

  lemma EmitStep(times: seq<nat>, t: nat)
    ensures Emitted(times + [t]) == Earliest(AdvancePaceUs(Emitted(times), t).next)
    ensures Paced(times + [t]) <==>
            Paced(times) && PaceAllows(Emitted(times), t) && (times != [] ==> times[|times| - 1] <= t)
  {
    assert (times + [t])[..|times|] == times;
  }

  /** The schedule never runs more than one period ahead of the last emission, so frames offered a
      period or more apart are never held. */
  lemma SteadyStreamNeverHeld(times: seq<nat>, t: nat)
    requires Paced(times) && times != [] && t >= times[|times| - 1] + 5_000
    ensures PaceAllows(Emitted(times), t) && Paced(times + [t])
  {
    assert (times + [t])[..|times|] == times;
  }

  /** Without a resync the cadence is exact: one period per frame from the first. */
  lemma {:induction false} ExactCadence(times: seq<nat>)
    requires NeverResynced(times) && times != []
    ensures Emitted(times) == Earliest(times[0] + 5_000 * |times|)
  {
    if |times| > 1 {
      ExactCadence(times[..|times| - 1]);
    }
  }
}
