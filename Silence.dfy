/** The error-mask silencing stack behind PHP's `@` operator: entering a silenced
    expression saves the current mask and disables every error type, leaving it
    restores the saved mask, and throwing out of it forgets every pending level. */
module Silence {
  import opened Common

  /** The current error mask and the saved masks, the most recent last. */
  datatype Mask = Mask(flags: bv32, saved: seq<bv32>)

  /** `__pushSilent`: save the current mask and disable every error type. */
  function Push(m: Mask): (r: Mask)
    ensures r.flags == 0
    ensures |r.saved| == |m.saved| + 1 && r.saved[|m.saved|] == m.flags
  {
    Mask(0, m.saved + [m.flags])
  }

  /** `__popSilent`: restore the most recently saved mask; `None` stands for the
      `EmptyStackException` of a pop with nothing saved, which changes nothing. */
  function Pop(m: Mask): (r: Option<Mask>)
    ensures r.None? <==> |m.saved| == 0
    ensures r.Some? ==> r.value.flags == m.saved[|m.saved| - 1] && |r.value.saved| == |m.saved| - 1
  {
    if |m.saved| == 0 then None
    else Some(Mask(m.saved[|m.saved| - 1], m.saved[..|m.saved| - 1]))
  }

  /** `__clearSilent`: forget every saved mask and restore the one saved first, or
      disable everything when nothing was saved. */
  function Clear(m: Mask): Mask {
    Mask(if |m.saved| == 0 then 0 else m.saved[0], [])
  }

  /** `n` nested silenced expressions entered from `m`. */
  function PushN(m: Mask, n: nat): Mask {
    if n == 0 then m else Push(PushN(m, n - 1))
  }

  /** `n` nested silenced expressions left again, innermost first; `None` when one of
      the pops finds nothing saved. */
  function PopN(m: Mask, n: nat): Option<Mask>
    decreases n
  {
    if n == 0 then Some(m)
    else match Pop(m)
      case None => None
      case Some(p) => PopN(p, n - 1)
  }

  /** Leaving a silenced expression undoes entering it exactly. */
  lemma PopUndoesPush(m: Mask)
    ensures Pop(Push(m)) == Some(m)
  {
    assert (m.saved + [m.flags])[..|m.saved|] == m.saved;
  }

  /** Entering `n` nested silenced expressions saves the `n` masks in force at each
      entry: the original one first, then zeros. */
  lemma {:induction false} PushNSaves(m: Mask, n: nat)
    ensures |PushN(m, n).saved| == |m.saved| + n
    ensures PushN(m, n).saved[..|m.saved|] == m.saved
    ensures n > 0 ==> PushN(m, n).saved[|m.saved|] == m.flags && PushN(m, n).flags == 0
    ensures forall i :: |m.saved| < i < |m.saved| + n ==> PushN(m, n).saved[i] == 0
  {
    if n > 0 {
      PushNSaves(m, n - 1);
      var p := PushN(m, n - 1);
      assert PushN(m, n) == Push(p);
      assert (p.saved + [p.flags])[..|m.saved|] == p.saved[..|m.saved|];
    }
  }

  /** Matched nesting restores the original mask and saved masks, however deep. */
  lemma {:induction false} NestedRestores(m: Mask, n: nat)
    ensures PopN(PushN(m, n), n) == Some(m)
  {
    if n > 0 {
      var inner := PushN(m, n - 1);
      PopUndoesPush(inner);
      assert Pop(PushN(m, n)) == Some(inner);
      PopNAfterPop(inner, PushN(m, n), n - 1);
      NestedRestores(m, n - 1);
    }
  }

  /** Popping `k + 1` times is one pop and then `k`. */
  lemma PopNAfterPop(inner: Mask, outer: Mask, k: nat)
    requires Pop(outer) == Some(inner)
    ensures PopN(outer, k + 1) == PopN(inner, k)
  {
  }

  /** Throwing out of any number of nested silenced expressions restores the mask
      that was in force before the outermost one, and forgets them all. */
  lemma {:induction false} ClearAfterNesting(m: Mask, n: nat)
    requires m.saved == [] && n > 0
    ensures Clear(PushN(m, n)) == Mask(m.flags, [])
  {
    PushNSaves(m, n);
  }
}
