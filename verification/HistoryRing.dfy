/** The capture history ring: absolute sample indices over a buffer that is overwritten as it wraps. */
module HistoryRing {
  import opened Bytes

  function Slot(cap: nat, i: nat): (s: nat)
    requires cap > 0
    ensures s < cap
  {
    i % cap
  }

  function Held(cap: nat, writeHead: nat): nat {
    Min(writeHead, cap)
  }

  function Oldest(cap: nat, writeHead: nat): nat {
    writeHead - Held(cap, writeHead)
  }

  predicate IsValid(cap: nat, writeHead: nat, i: nat) {
    Oldest(cap, writeHead) <= i < writeHead
  }

  function PrerollCursor(cap: nat, writeHead: nat, preroll: nat): nat {
    Max(Max(0, writeHead - preroll), Oldest(cap, writeHead))
  }

  predicate IsOverrun(cap: nat, writeHead: nat, cursor: nat) {
    writeHead > cursor + cap
  }

  function Available(writeHead: nat, cursor: nat): nat {
    Max(0, writeHead - cursor)
  }

  /** No later sample has landed in sample `i`'s slot. */
  ghost predicate Intact(cap: nat, writeHead: nat, i: nat)
    requires cap > 0
  {
    i < writeHead && forall j :: i < j < writeHead ==> Slot(cap, j) != Slot(cap, i)
  }

  /** Two indices share a slot only a whole number of laps apart. */
  lemma SameSlotApart(cap: nat, i: nat, j: nat)
    requires cap > 0 && i < j && Slot(cap, i) == Slot(cap, j)
    ensures j - i >= cap
  {
    var laps := j / cap - i / cap;
    assert j - i == laps * cap;
    SignOfMultiple(laps, cap);
    if laps > 0 {
      MultipleAtLeast(cap, laps);
    }
  }

  lemma SignOfMultiple(k: int, cap: nat)
    ensures k <= 0 ==> k * cap <= 0
  {
  }

  lemma NextLap(cap: nat, i: nat)
    requires cap > 0
    ensures Slot(cap, i + cap) == Slot(cap, i)
  {
    DivModUnique(i + cap, cap, i / cap + 1, i % cap);
  }

  /** Samples go into the buffer one slot after another, from slot 0, and from the last slot back to it. */
  lemma SlotsInOrder(cap: nat, i: nat)
    requires cap > 0
    ensures Slot(cap, 0) == 0
    ensures Slot(cap, i + 1) == if Slot(cap, i) + 1 < cap then Slot(cap, i) + 1 else 0
  {
    if i % cap + 1 < cap {
      DivModUnique(i + 1, cap, i / cap, i % cap + 1);
    } else {
      DivModUnique(i + 1, cap, i / cap + 1, 0);
    }
  }

  /** The index test is exactly survival in the buffer. */
  lemma ValidIffIntact(cap: nat, writeHead: nat, i: nat)
    requires cap > 0
    ensures IsValid(cap, writeHead, i) <==> Intact(cap, writeHead, i)
  {
    if IsValid(cap, writeHead, i) {
      forall j | i < j < writeHead ensures Slot(cap, j) != Slot(cap, i) {
        if Slot(cap, i) == Slot(cap, j) {
          SameSlotApart(cap, i, j);
        }
      }
    } else if i < writeHead {
      NextLap(cap, i);
    }
  }

  /** A cursor is not overrun exactly when everything from it to the head is still there. */
  lemma NotOverrunIffAllIntact(cap: nat, writeHead: nat, cursor: nat)
    requires cap > 0 && cursor <= writeHead
    ensures !IsOverrun(cap, writeHead, cursor) <==> forall i :: cursor <= i < writeHead ==> Intact(cap, writeHead, i)
    ensures cursor + Available(writeHead, cursor) == writeHead
  {
    if IsOverrun(cap, writeHead, cursor) {
      ValidIffIntact(cap, writeHead, cursor);
    } else {
      forall i | cursor <= i < writeHead ensures Intact(cap, writeHead, i) {
        ValidIffIntact(cap, writeHead, i);
      }
    }
  }

  /** The pre-roll cursor yields exactly the last `min(preroll, held)` samples, all of them intact. */
  lemma PrerollIsTheLastSamples(cap: nat, writeHead: nat, preroll: nat)
    requires cap > 0
    ensures var c := PrerollCursor(cap, writeHead, preroll);
            && c <= writeHead && Available(writeHead, c) == Min(preroll, Held(cap, writeHead))
            && !IsOverrun(cap, writeHead, c)
            && forall i :: c <= i < writeHead ==> Intact(cap, writeHead, i)
  {
    NotOverrunIffAllIntact(cap, writeHead, PrerollCursor(cap, writeHead, preroll));
  }

  /** Sample storage and its head, with the whole captured stream beside them. */
  class CaptureRing {
    const samples: array<Sample>
    var writeHead: nat
    ghost var stream: seq<Sample>

    ghost predicate Valid()
      reads this, samples
    {
      && samples.Length > 0 && writeHead == |stream|
      && forall i :: 0 <= i < |stream| && IsValid(samples.Length, writeHead, i) ==>
           samples[Slot(samples.Length, i)] == stream[i]
    }

    constructor (capacity: nat)
      requires capacity > 0
      ensures Valid() && stream == [] && samples.Length == capacity && fresh(samples)
    {
      samples := new Sample[capacity];
      writeHead, stream := 0, [];
    }

    /** One captured sample. */
    method Push(x: Sample)
      requires Valid()
      modifies this, samples
      ensures Valid() && stream == old(stream) + [x] && writeHead == old(writeHead) + 1
    {
      ghost var n := writeHead;
      samples[Slot(samples.Length, writeHead)] := x;
      writeHead, stream := writeHead + 1, stream + [x];
      forall i | 0 <= i < n && IsValid(samples.Length, writeHead, i)
        ensures samples[Slot(samples.Length, i)] == stream[i]
      {
        if Slot(samples.Length, i) == Slot(samples.Length, n) {
          SameSlotApart(samples.Length, i, n);
        }
      }
    }

    /** Read `n` samples from a cursor that has not been overrun: they are the stream's own. */
    method Read(cursor: nat, n: nat) returns (out: seq<Sample>)
      requires Valid() && !IsOverrun(samples.Length, writeHead, cursor) && n <= Available(writeHead, cursor)
      ensures |out| == n
      ensures forall k :: 0 <= k < n ==> cursor + k < |stream| && out[k] == stream[cursor + k]
    {
      out := [];
      for k := 0 to n
        invariant |out| == k
        invariant forall i :: 0 <= i < k ==> cursor + i < |stream| && out[i] == stream[cursor + i]
      {
        assert IsValid(samples.Length, writeHead, cursor + k);
        out := out + [samples[Slot(samples.Length, cursor + k)]];
      }
    }
  }
}
