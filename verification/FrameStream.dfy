/** Frames back to back on one byte stream. */
module FrameStream {
  import opened Bytes
  import opened Wire

  /** The encodings of a list of frames, back to back. */
  function AllBytes(fs: seq<StreamFrame>): seq<Byte> {
    if fs == [] then [] else FrameBytes(fs[0]) + AllBytes(fs[1..])
  }

  lemma {:induction false} AllBytesAppend(fs: seq<StreamFrame>, gs: seq<StreamFrame>)
    ensures AllBytes(fs + gs) == AllBytes(fs) + AllBytes(gs)
  {
    hide FrameBytes;
    if fs == [] {
      assert fs + gs == gs;
    } else {
      assert (fs + gs)[1..] == fs[1..] + gs;
      AllBytesAppend(fs[1..], gs);
    }
  }

  lemma AllBytesSnoc(fs: seq<StreamFrame>, f: StreamFrame)
    ensures AllBytes(fs + [f]) == AllBytes(fs) + FrameBytes(f)
  {
    hide FrameBytes;
    AllBytesAppend(fs, [f]);
    assert AllBytes([f]) == FrameBytes(f);
  }

  /** What is left of a stream when a frame is cut short: nothing, or a strict prefix of some frame. */
  ghost predicate Torn(p: seq<Byte>) {
    p == [] || exists f: StreamFrame :: p < FrameBytes(f)
  }
}
