/** Cutting a stream of frames into replies at each ReadyForQuery. */
module Replies {
  import opened Bytes
  import opened Framing
  import opened Collectors
  import Seqs

  /** The complete replies of a stream, in order, and the frames after the last of them. */
  function Complete(fs: seq<Frame>): (r: seq<seq<Frame>>)
    decreases |fs|
  {
    if fs == [] then [] else
      var init, last := fs[..|fs| - 1], fs[|fs| - 1];
      if last.tag == READY_FOR_QUERY then Complete(init) + [Partial(init) + [last]] else Complete(init)
  }

  function Partial(fs: seq<Frame>): (r: seq<Frame>)
    ensures NoReady(r)
    decreases |fs|
  {
    if fs == [] then [] else
      var init, last := fs[..|fs| - 1], fs[|fs| - 1];
      if last.tag == READY_FOR_QUERY then [] else Partial(init) + [last]
  }

  function Concat(rs: seq<seq<Frame>>): seq<Frame> {
    if rs == [] then [] else Concat(rs[..|rs| - 1]) + rs[|rs| - 1]
  }

  lemma ConcatLast(rs: seq<seq<Frame>>, r: seq<Frame>)
    ensures Concat(rs + [r]) == Concat(rs) + r
  {
    assert (rs + [r])[..|rs|] == rs;
  }

  lemma ClosesReply(part: seq<Frame>, last: Frame)
    requires NoReady(part) && last.tag == READY_FOR_QUERY && WellFormed(last)
    ensures Segment(part + [last])
  {
    assert (part + [last])[..|part|] == part;
  }

  lemma {:induction false} NothingCutAway(fs: seq<Frame>)
    ensures Concat(Complete(fs)) + Partial(fs) == fs
    decreases |fs|
  {
    if fs != [] {
      var init, last := fs[..|fs| - 1], fs[|fs| - 1];
      NothingCutAway(init);
      Seqs.Assoc(Concat(Complete(init)), Partial(init), [last]);
      if last.tag == READY_FOR_QUERY { ConcatLast(Complete(init), Partial(init) + [last]); }
      assert fs == init + [last];
    }
  }

  /** The cut loses nothing, and its pieces are exactly the replies. */
  lemma {:induction false} CutIsExact(fs: seq<Frame>)
    requires forall f :: f in fs ==> WellFormed(f)
    ensures Concat(Complete(fs)) + Partial(fs) == fs
    ensures forall r :: r in Complete(fs) ==> Segment(r)
    decreases |fs|
  {
    NothingCutAway(fs);
    if fs != [] {
      CutIsExact(fs[..|fs| - 1]);
      if fs[|fs| - 1].tag == READY_FOR_QUERY { ClosesReply(Partial(fs[..|fs| - 1]), fs[|fs| - 1]); }
    }
  }

  lemma Extend(fs: seq<Frame>, f: Frame)
    ensures Complete(fs + [f]) == if f.tag == READY_FOR_QUERY then Complete(fs) + [Partial(fs) + [f]] else Complete(fs)
    ensures Partial(fs + [f]) == if f.tag == READY_FOR_QUERY then [] else Partial(fs) + [f]
  {
    assert (fs + [f])[..|fs|] == fs;
  }

  lemma {:induction false} ExtendQuiet(fs: seq<Frame>, out: seq<Frame>)
    requires NoReady(out)
    ensures Complete(fs + out) == Complete(fs) && Partial(fs + out) == Partial(fs) + out
    decreases |out|
  {
    if out == [] {
      assert fs + out == fs;
    } else {
      var init, last := out[..|out| - 1], out[|out| - 1];
      assert last in out && fs + out == (fs + init) + [last];
      ExtendQuiet(fs, init);
      Extend(fs + init, last);
    }
  }

  lemma ExtendReply(fs: seq<Frame>, out: seq<Frame>)
    requires Segment(out)
    ensures |Complete(fs + out)| == |Complete(fs)| + 1 && Partial(fs + out) == []
  {
    var init, last := out[..|out| - 1], out[|out| - 1];
    ExtendQuiet(fs, init);
    assert fs + out == (fs + init) + [last];
    Extend(fs + init, last);
  }

  /** Replies already complete do not change as the stream grows. */
  lemma {:induction false} CompleteGrows(fs: seq<Frame>, more: seq<Frame>)
    ensures Complete(fs) <= Complete(fs + more)
    decreases |more|
  {
    if more == [] {
      assert fs + more == fs;
    } else {
      var init, last := more[..|more| - 1], more[|more| - 1];
      CompleteGrows(fs, init);
      assert fs + more == (fs + init) + [last];
      Extend(fs + init, last);
    }
  }

  /** The reply that frame `j` of the stream belongs to. */
  function ReplyIndex(fs: seq<Frame>, j: nat): nat
    requires j <= |fs|
  {
    |Complete(fs[..j])|
  }
}
