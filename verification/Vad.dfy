/** The voice-activity gate. The comparison with the threshold is taken as given, one bit per poll. */
module Vad {
  import opened Bytes

  const VAD_ONSET_COUNT: nat := 2

  datatype State = Closed(consecutiveAbove: nat) | Open(belowTicks: nat)

  datatype Transition = Unchanged | Opened | Released

  function Update(s: State, hangover: nat, above: bool): (State, Transition) {
    match s
    case Closed(c) =>
      if !above then (Closed(0), Unchanged)
      else if c + 1 >= VAD_ONSET_COUNT then (Open(0), Opened)
      else (Closed(c + 1), Unchanged)
    case Open(b) =>
      if above then (Open(0), Unchanged)
      else if b + 1 >= hangover then (Closed(0), Released)
      else (Open(b + 1), Unchanged)
  }

  /** The gate after a trace of polls. */
  function After(hangover: nat, trace: seq<bool>): State {
    if trace == [] then Closed(0)
    else Update(After(hangover, trace[..|trace| - 1]), hangover, trace[|trace| - 1]).0
  }

  /** A hangover of zero still needs one quiet poll to close. */
  function Patience(hangover: nat): (m: nat)
    ensures m > 0
  {
    Max(1, hangover)
  }

  /** `m` consecutive quiet polls from `k`. */
  predicate QuietFrom(trace: seq<bool>, k: nat, m: nat) {
    k + m <= |trace| && forall j :: k <= j < k + m ==> !trace[j]
  }

  /** Two loud polls in a row, the second at `i`, with no full quiet spell since. */
  predicate HeardAt(trace: seq<bool>, m: nat, i: nat) {
    && 1 <= i < |trace| && trace[i - 1] && trace[i]
    && forall k :: i < k <= |trace| ==> !QuietFrom(trace, k, m)
  }

  ghost predicate Heard(trace: seq<bool>, m: nat) {
    exists i: nat :: HeardAt(trace, m, i)
  }

  /** Quiet polls at the end of a trace. */
  function TrailingQuiet(trace: seq<bool>): (n: nat)
    ensures n <= |trace|
    ensures forall j :: |trace| - n <= j < |trace| ==> !trace[j]
    ensures n < |trace| ==> trace[|trace| - n - 1]
  {
    if trace == [] || trace[|trace| - 1] then 0 else 1 + TrailingQuiet(trace[..|trace| - 1])
  }

  /** What each state of the gate remembers. */
  ghost predicate Remembers(s: State, hangover: nat, trace: seq<bool>) {
    match s
    case Closed(c) =>
      && !Heard(trace, Patience(hangover))
      && c == (if trace != [] && trace[|trace| - 1] then 1 else 0)
    case Open(b) =>
      && Heard(trace, Patience(hangover))
      && b == TrailingQuiet(trace) < Patience(hangover)
  }

  /** A quiet spell that ends before the last poll was already there. */
  lemma QuietWithin(trace: seq<bool>, a: bool, k: nat, m: nat)
    requires k + m <= |trace|
    ensures QuietFrom(trace + [a], k, m) <==> QuietFrom(trace, k, m)
  {
    assert forall j :: k <= j < k + m ==> (trace + [a])[j] == trace[j];
  }

  /** One ending on the last poll means the last poll and those just before it were quiet. */
  lemma QuietToTheEnd(trace: seq<bool>, a: bool, k: nat, m: nat)
    requires k + m == |trace| + 1 && m > 0
    ensures QuietFrom(trace + [a], k, m) <==> !a && m <= TrailingQuiet(trace) + 1
  {
    var t := trace + [a];
    var n := TrailingQuiet(trace);
    if !a && m <= n + 1 {
      forall j | k <= j < k + m ensures !t[j] {
        if j < |trace| {
          assert t[j] == trace[j];
        }
      }
    }
    if m > n + 1 {
      var j := |trace| - n - 1;
      assert t[j] == trace[j];
    }
    assert t[|trace|] == a;
  }

  lemma HeardAtAfterLoud(trace: seq<bool>, m: nat, i: nat)
    requires m > 0
    ensures HeardAt(trace + [true], m, i) <==> HeardAt(trace, m, i) || (i == |trace| && i > 0 && trace[i - 1])
  {
    var t := trace + [true];
    forall k | 0 <= k <= |t| ensures QuietFrom(t, k, m) <==> QuietFrom(trace, k, m) {
      if k + m <= |trace| {
        QuietWithin(trace, true, k, m);
      } else if k + m == |t| {
        QuietToTheEnd(trace, true, k, m);
      }
    }
  }

  lemma HeardAtAfterQuiet(trace: seq<bool>, m: nat, i: nat)
    requires m > 0
    ensures HeardAt(trace + [false], m, i) <==> HeardAt(trace, m, i) && TrailingQuiet(trace) + 1 < m
  {
    var t := trace + [false];
    var n := TrailingQuiet(trace);
    if 1 <= i < |trace| && trace[i - 1] && trace[i] {
      if n + 1 >= m {
        QuietToTheEnd(trace, false, |t| - m, m);
        assert i < |t| - m;
      } else {
        forall k | i < k <= |t| ensures QuietFrom(t, k, m) <==> QuietFrom(trace, k, m) {
          if k + m <= |trace| {
            QuietWithin(trace, false, k, m);
          } else if k + m == |t| {
            QuietToTheEnd(trace, false, k, m);
          }
        }
      }
    }
  }

  lemma HeardNext(trace: seq<bool>, a: bool, m: nat)
    requires m > 0
    ensures Heard(trace + [a], m) <==>
            if a then Heard(trace, m) || (trace != [] && trace[|trace| - 1])
            else Heard(trace, m) && TrailingQuiet(trace) + 1 < m
  {
    var t := trace + [a];
    if a {
      forall i: nat
        ensures HeardAt(t, m, i) <==> HeardAt(trace, m, i) || (i == |trace| && i > 0 && trace[i - 1])
      {
        HeardAtAfterLoud(trace, m, i);
      }
      assert trace != [] && trace[|trace| - 1] ==> HeardAt(t, m, |trace|);
    } else {
      forall i: nat ensures HeardAt(t, m, i) <==> HeardAt(trace, m, i) && TrailingQuiet(trace) + 1 < m {
        HeardAtAfterQuiet(trace, m, i);
      }
    }
    hide HeardAt;
  }

  lemma StepRemembers(s: State, hangover: nat, trace: seq<bool>, a: bool)
    requires Remembers(s, hangover, trace)
    ensures Remembers(Update(s, hangover, a).0, hangover, trace + [a])
  {
    hide Heard;
    HeardNext(trace, a, Patience(hangover));
    assert (trace + [a])[..|trace|] == trace;
  }

  lemma {:induction false} GateRemembers(hangover: nat, trace: seq<bool>)
    ensures Remembers(After(hangover, trace), hangover, trace)
  {
    if trace != [] {
      var init := trace[..|trace| - 1];
      assert trace == init + [trace[|trace| - 1]];
      GateRemembers(hangover, init);
      StepRemembers(After(hangover, init), hangover, init, trace[|trace| - 1]);
    }
  }

  /** Over any trace at a fixed threshold and hangover, the gate is open exactly when two loud polls in a
      row were heard and no full quiet spell has passed since. */
  lemma OpenIffHeard(hangover: nat, trace: seq<bool>)
    ensures After(hangover, trace).Open? <==> Heard(trace, Patience(hangover))
  {
    GateRemembers(hangover, trace);
  }

  /** Transitions reported over a trace, without the polls that changed nothing. */
  function Reported(hangover: nat, trace: seq<bool>): seq<Transition> {
    if trace == [] then []
    else
      var init := trace[..|trace| - 1];
      var t := Update(After(hangover, init), hangover, trace[|trace| - 1]).1;
      Reported(hangover, init) + if t == Unchanged then [] else [t]
  }

  /** They strictly alternate from `Opened`, and the gate is open exactly when their number is odd. */
  lemma {:induction false} TransitionsAlternate(hangover: nat, trace: seq<bool>)
    ensures var r := Reported(hangover, trace);
            && (forall i :: 0 <= i < |r| ==> r[i] == if i % 2 == 0 then Opened else Released)
            && (After(hangover, trace).Open? <==> |r| % 2 == 1)
  {
    if trace != [] {
      TransitionsAlternate(hangover, trace[..|trace| - 1]);
    }
  }

  class VadStateMachine {
    var hangoverTicks: nat
    var state: State

    constructor (hangoverTicks: nat)
      ensures this.hangoverTicks == hangoverTicks && state == Closed(0)
    {
      this.hangoverTicks, state := hangoverTicks, Closed(0);
    }

    /** Feed one poll: `above` is the comparison with the threshold. */
    method Poll(above: bool) returns (t: Transition)
      modifies this`state
      ensures (state, t) == Update(old(state), hangoverTicks, above)
    {
      match state {
        case Closed(c) =>
          if above {
            var count := c + 1;
            if count >= VAD_ONSET_COUNT {
              state := Open(0);
              t := Opened;
            } else {
              state := Closed(count);
              t := Unchanged;
            }
          } else {
            state := Closed(0);
            t := Unchanged;
          }
        case Open(b) =>
          if above {
            state := Open(0);
            t := Unchanged;
          } else {
            var ticks := b + 1;
            if ticks >= hangoverTicks {
              state := Closed(0);
              t := Released;
            } else {
              state := Open(ticks);
              t := Unchanged;
            }
          }
      }
    }
  }
}
