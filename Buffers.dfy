/** The output-buffer stack: the root buffer writes to the environment's output stream
    and cannot be popped; `ob_start` pushes a user buffer on top of it, `echo` writes to
    the top buffer only, and closing a buffer flushes what it holds into the buffer
    below it (the root's is flushed to the output stream). The stack is the sequence
    from the root (index 0) to the top (the last element). */
module Buffers {
  import opened Common
  import opened Runtime

  /** The shape the environment keeps: the root at the bottom, user buffers above it,
      each buffer's level its position. */
  predicate WellFormed(bs: seq<OutputBuffer>) {
    && |bs| >= 1
    && bs[0].isRoot
    && (forall i :: 0 < i < |bs| ==> !bs[i].isRoot)
    && (forall i :: 0 <= i < |bs| ==> bs[i].level == i)
  }

  /** The text written to the stack and not yet flushed to the output stream, in
      the order it will reach the stream: the bottom buffer's first. */
  function Pending(bs: seq<OutputBuffer>): string {
    if |bs| == 0 then "" else Pending(bs[..|bs| - 1]) + bs[|bs| - 1].content
  }

  /** The root buffer of a new environment. */
  function Root(): (r: OutputBuffer)
    ensures WellFormed([r]) && Pending([r]) == ""
  {
    OutputBuffer(0, true, None, 0, false, "", false)
  }

  /** `pushOutputBuffer`: a user buffer whose level is the number of buffers below it. */
  function Push(bs: seq<OutputBuffer>, callback: Option<Value>, chunkSize: int, erase: bool): (r: seq<OutputBuffer>)
    requires WellFormed(bs)
    ensures WellFormed(r) && |r| == |bs| + 1 && r[..|bs|] == bs
    ensures r[|bs|].level == |bs| && !r[|bs|].isRoot && r[|bs|].content == ""
    ensures Pending(r) == Pending(bs)
  {
    var b := OutputBuffer(|bs|, false, callback, chunkSize, erase, "", false);
    assert (bs + [b])[..|bs|] == bs;
    bs + [b]
  }

  /** `OutputBuffer.write` on the top buffer. */
  function Write(bs: seq<OutputBuffer>, text: string): (r: seq<OutputBuffer>)
    requires |bs| >= 1
    ensures |r| == |bs| && r[..|bs| - 1] == bs[..|bs| - 1]
    ensures r[|bs| - 1] == bs[|bs| - 1].(content := bs[|bs| - 1].content + text)
  {
    bs[..|bs| - 1] + [bs[|bs| - 1].(content := bs[|bs| - 1].content + text)]
  }

  /** `popOutputBuffer`: `None` (the source's null) when the top is the root;
      otherwise the stack without its top, whose content has been flushed into the
      buffer below, and the closed buffer. */
  function Pop(bs: seq<OutputBuffer>): (r: Option<(seq<OutputBuffer>, OutputBuffer)>)
    requires WellFormed(bs)
    ensures r.None? <==> |bs| == 1
    ensures r.Some? ==> WellFormed(r.value.0) && |r.value.0| == |bs| - 1
    ensures r.Some? ==> r.value.0[..|bs| - 2] == bs[..|bs| - 2]
    ensures r.Some? ==> r.value.1.closed && r.value.1.level == |bs| - 1
  {
    if bs[|bs| - 1].isRoot then None
    else
      var top := bs[|bs| - 1];
      var below := bs[|bs| - 2];
      var rest := bs[..|bs| - 2] + [below.(content := below.content + top.content)];
      assert forall i :: 0 <= i < |bs| - 2 ==> rest[i] == bs[i];
      Some((rest, top.(content := "", closed := true)))
  }

  /** `flushAll`'s loop: pop until `popOutputBuffer` returns null. */
  function PopAll(bs: seq<OutputBuffer>): seq<OutputBuffer>
    requires WellFormed(bs)
    decreases |bs|
  {
    match Pop(bs)
    case None => bs
    case Some((rest, _)) => PopAll(rest)
  }

  /** `OutputBuffer.close` on the root: its content goes to the output stream. */
  function CloseRoot(root: OutputBuffer): (r: (OutputBuffer, string))
    ensures r.1 == root.content && r.0.content == "" && r.0.closed
  {
    (root.(content := "", closed := true), root.content)
  }

  /** The pending text of a stack with one more buffer on top. */
  lemma {:induction false} PendingSnoc(bs: seq<OutputBuffer>, b: OutputBuffer)
    ensures Pending(bs + [b]) == Pending(bs) + b.content
  {
    assert (bs + [b])[..|bs|] == bs;
  }

  /** Writing to the stack adds the text at the end of what is pending, because only
      the top buffer grows. */
  lemma {:induction false} WriteAppends(bs: seq<OutputBuffer>, text: string)
    requires |bs| >= 1
    ensures Pending(Write(bs, text)) == Pending(bs) + text
  {
    var init := bs[..|bs| - 1];
    assert bs == init + [bs[|bs| - 1]];
    PendingSnoc(init, bs[|bs| - 1]);
    PendingSnoc(init, bs[|bs| - 1].(content := bs[|bs| - 1].content + text));
  }

  /** Writing leaves the shape of the stack alone. */
  lemma {:induction false} WriteKeepsWellFormed(bs: seq<OutputBuffer>, text: string)
    requires WellFormed(bs)
    ensures WellFormed(Write(bs, text))
  {
    var r := Write(bs, text);
    forall i | 0 <= i < |r|
      ensures r[i].level == i && (r[i].isRoot <==> i == 0)
    {
      if i < |bs| - 1 {
        assert r[i] == r[..|bs| - 1][i];
      }
    }
  }

  /** Popping a user buffer loses no pending text: the popped buffer's content moves,
      in order, to the end of the buffer below. */
  lemma {:induction false} PopPreservesPending(bs: seq<OutputBuffer>)
    requires WellFormed(bs)
    ensures Pop(bs).Some? ==> Pending(Pop(bs).value.0) == Pending(bs)
  {
    if |bs| > 1 {
      var n := |bs|;
      var init := bs[..n - 2];
      var below := bs[n - 2];
      var top := bs[n - 1];
      var merged := below.(content := below.content + top.content);
      assert Pop(bs).value.0 == init + [merged];
      assert bs[..n - 1] == init + [below];
      assert bs == bs[..n - 1] + [top];
      PendingSnoc(init, merged);
      PendingSnoc(init, below);
      PendingSnoc(bs[..n - 1], top);
    }
  }

  /** `flushAll`'s loop leaves only the root, holding every pending byte. */
  lemma {:induction false} PopAllCollapses(bs: seq<OutputBuffer>)
    requires WellFormed(bs)
    ensures PopAll(bs) == [bs[0].(content := Pending(bs))]
    decreases |bs|
  {
    PopPreservesPending(bs);
    match Pop(bs)
    case None =>
      assert bs[..0] == [];
      assert Pending(bs) == bs[0].content;
      assert bs == [bs[0]];
    case Some((rest, _)) =>
      PopAllCollapses(rest);
      assert rest[0] == bs[0].(content := rest[0].content) by {
        if |bs| > 2 {
          assert rest[0] == rest[..|bs| - 2][0];
        }
      }
  }
}
