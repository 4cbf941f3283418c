/**
 * The inbound playback ring, one critical section at a time. `head` and `tail` are `u32` counters of
 * bytes ever written and consumed; a byte's slot is its counter value modulo the capacity. Each
 * function is what one method does to the state it holds locked.
 */
module Ring {
  import opened Bytes

  const INBOUND_PCM_RING_BYTES: nat := 65_536
  const RING_EOA_MARK_CAP: nat := 4

  /** An end-of-audio boundary riding the audio, tagged with the generation it was pushed in. */
  datatype Mark = Mark(pos: nat, gen: nat)

  datatype Ring = Ring(
    cap: nat,
    head: nat,
    tail: nat,
    gen: nat,
    headAtReset: nat,
    buf: seq<Byte>,
    marks: seq<Mark>)

  /** Bytes written and not consumed. */
  function Used(r: Ring): nat {
    WrappingSub(r.head, r.tail)
  }

  predicate Sound(r: Ring) {
    && 0 < r.cap < TWO32 && |r.buf| == r.cap
    && r.head < TWO32 && r.tail < TWO32 && r.gen < TWO32 && r.headAtReset < TWO32
    && Used(r) <= r.cap
    && |r.marks| <= RING_EOA_MARK_CAP
  }

  function Fresh(storage: seq<Byte>): Ring {
    Ring(|storage|, 0, 0, 0, 0, storage, [])
  }

  // ---------------------------------------------------------------------------------------------
  // Producer

  /** Copy `data` in at `start`, split at the end of the buffer. */
  function Put(buf: seq<Byte>, start: nat, data: seq<Byte>): (b: seq<Byte>)
    requires start < |buf| && |data| <= |buf|
    ensures |b| == |buf|
  {
    var first := Min(|data|, |buf| - start);
    if first < |data| then
      data[first..] + buf[|data| - first..start] + data[..first]
    else
      buf[..start] + data + buf[start + |data|..]
  }

  /** All of `data`, or none of it when there is not room for all. */
  function Write(r: Ring, data: seq<Byte>): (w: (Ring, bool))
    requires Sound(r)
    ensures w.1 <==> |data| <= r.cap - Used(r)
    ensures !w.1 ==> w.0 == r
  {
    if r.cap - Used(r) < |data| then (r, false)
    else (r.(buf := Put(r.buf, r.head % r.cap, data), head := WrappingAdd(r.head, |data|)), true)
  }

  /** Mark a reconnection boundary. */
  function Reset(r: Ring): Ring {
    r.(gen := WrappingAdd(r.gen, 1), headAtReset := r.head)
  }

  /** Push an end-of-audio mark at the head of write, dropping the oldest when the FIFO is full. */
  function PushMark(r: Ring): Ring {
    var m := Mark(r.head, r.gen);
    r.(marks := (if |r.marks| < RING_EOA_MARK_CAP then r.marks else r.marks[1..]) + [m])
  }

  // ---------------------------------------------------------------------------------------------
  // Consumer

  datatype DrainRun = DrainRun(bytes: seq<Byte>, gen: nat, reachedEndOfAudio: bool)

  /** The natural reach of a run: budget, bytes available, distance to the wrap, staging length. */
  function BaseRun(r: Ring, maxRun: nat, txLen: nat): (n: nat)
    requires Sound(r)
    ensures n <= Used(r) && n <= maxRun && n <= txLen && r.tail % r.cap + n <= r.cap
  {
    Min(Min(Used(r), maxRun), Min(r.cap - r.tail % r.cap, txLen))
  }

  /** Copy out the next contiguous run, ending on the oldest mark when it lies ahead and in reach. */
  function CopyRun(r: Ring, maxRun: nat, txLen: nat): DrainRun
    requires Sound(r)
  {
    var base := BaseRun(r, maxRun, txLen);
    var start := r.tail % r.cap;
    var dist := if r.marks == [] then 0 else WrappingSub(r.marks[0].pos, r.tail);
    if 0 < dist <= base then DrainRun(r.buf[start..start + dist], r.gen, true)
    else DrainRun(r.buf[start..start + base], r.gen, false)
  }

  function PopMarkIfAt(r: Ring, pos: nat): (Ring, bool) {
    if r.marks != [] && r.marks[0].pos == pos then (r.(marks := r.marks[1..]), true) else (r, false)
  }

  /** Consume `n` bytes, popping a mark the tail lands on. */
  function Advance(r: Ring, n: nat): (Ring, bool) {
    var r' := r.(tail := WrappingAdd(r.tail, n));
    PopMarkIfAt(r', r'.tail)
  }

  function TakeMarkAtTail(r: Ring): (Ring, bool) {
    PopMarkIfAt(r, r.tail)
  }

  /** Marks of one generation, in order. */
  function Live(marks: seq<Mark>, gen: nat): (l: seq<Mark>)
    ensures |l| <= |marks|
  {
    if marks == [] then []
    else (if marks[0].gen == gen then [marks[0]] else []) + Live(marks[1..], gen)
  }

  /** Jump past a dead connection's bytes and drop its marks. */
  function ApplyReset(r: Ring): Ring {
    r.(marks := Live(r.marks, r.gen), tail := r.headAtReset)
  }

  // ---------------------------------------------------------------------------------------------
  // Slots

  /** Where position `h + j` lands relative to position `h`. */
  lemma SlotAhead(h: nat, j: nat, cap: nat)
    requires 0 < cap && j < cap
    ensures (h + j) % cap == if h % cap + j < cap then h % cap + j else h % cap + j - cap
  {
    var q, s := h / cap, h % cap;
    if s + j < cap {
      DivModUnique(h + j, cap, q, s + j);
    } else {
      DivModUnique(h + j, cap, q + 1, s + j - cap);
    }
  }

  /** Where position `h - d` lands relative to position `h`. */
  lemma SlotBehind(h: nat, d: nat, cap: nat)
    requires 0 < cap && 0 < d <= cap && d <= h
    ensures (h - d) % cap == if d <= h % cap then h % cap - d else h % cap - d + cap
  {
    var q, s := h / cap, h % cap;
    if d <= s {
      DivModUnique(h - d, cap, q, s - d);
    } else {
      DivModUnique(h - d, cap, q - 1, s - d + cap);
    }
  }

  /** Byte positions keep their slots across the counter's wrap when the capacity divides 2^32. */
  lemma SlotSurvivesWrap(i: nat, cap: nat)
    requires 0 < cap && TWO32 % cap == 0
    ensures (i % TWO32) % cap == i % cap
  {
    var a, b := i / TWO32, i % TWO32;
    var k := TWO32 / cap;
    assert TWO32 == k * cap;
    var q := a * k + b / cap;
    assert i == a * (k * cap) + b == (a * k) * cap + (b / cap) * cap + b % cap == q * cap + b % cap;
    DivModUnique(i, cap, q, b % cap);
  }

  /** A split write puts each byte in the slot of its position... */
  lemma PutLands(buf: seq<Byte>, h: nat, data: seq<Byte>, j: nat)
    requires 0 < |buf| && |data| <= |buf| && j < |data|
    ensures Put(buf, h % |buf|, data)[(h + j) % |buf|] == data[j]
  {
    SlotAhead(h, j, |buf|);
  }

  /** ... and leaves the slots of the positions still unread alone. */
  lemma PutSpares(buf: seq<Byte>, h: nat, data: seq<Byte>, d: nat)
    requires 0 < |buf| && 0 < d <= h && d + |data| <= |buf|
    ensures Put(buf, h % |buf|, data)[(h - d) % |buf|] == buf[(h - d) % |buf|]
  {
    SlotBehind(h, d, |buf|);
  }
}
