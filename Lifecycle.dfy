/** Shutdown: the shutdown functions, and destructors. The environment keeps a weak reference to every object
    whose class has a destructor; when it finalizes, it first drops the references the
    host has collected and queued, then runs the destructor of every object still
    reachable that was not finalized before, marking it finalized first. */
module Lifecycle {
  import opened Common
  import opened Runtime

  /** Whether the object is still held, its weak reference was cleared by the host, or
      the cleared reference was also placed on the environment's reference queue. */
  datatype Reach = Reachable | Cleared | Enqueued

  /** One weak reference of `gcObjects`. */
  datatype GcEntry = GcEntry(obj: ObjectRef, reach: Reach)

  /** `cleanGcObjects`: the registry without the queued references. */
  function Clean(gc: seq<GcEntry>): (r: seq<GcEntry>)
    ensures |r| <= |gc|
    ensures forall e :: e in r <==> e in gc && e.reach != Enqueued
    decreases |gc|
  {
    if |gc| == 0 then []
    else (if gc[0].reach == Enqueued then [] else [gc[0]]) + Clean(gc[1..])
  }

  /** Whether `finalizeObjects` runs the destructor of this entry's object, given the
      ids of the objects finalized so far. */
  predicate Destructs(e: GcEntry, finalized: set<nat>) {
    e.reach == Reachable && e.obj.reflection.destructor.Some? && e.obj.id !in finalized
  }

  /** The objects whose destructor the loop of `finalizeObjects` runs over `gc`, in
      order; an object is marked finalized before its destructor runs, so one that is
      registered twice is destructed once. */
  function Destructed(gc: seq<GcEntry>, finalized: set<nat>): seq<ObjectRef>
    decreases |gc|
  {
    if |gc| == 0 then []
    else if Destructs(gc[0], finalized) then [gc[0].obj] + Destructed(gc[1..], finalized + {gc[0].obj.id})
    else Destructed(gc[1..], finalized)
  }

  /** The ids finalized after the loop over `gc`. */
  function FinalizedAfter(gc: seq<GcEntry>, finalized: set<nat>): set<nat>
    decreases |gc|
  {
    if |gc| == 0 then finalized
    else if Destructs(gc[0], finalized) then FinalizedAfter(gc[1..], finalized + {gc[0].obj.id})
    else FinalizedAfter(gc[1..], finalized)
  }

  /** Every destructor that runs belongs to a reachable, registered object whose class
      has one and that was not finalized before; no object is destructed twice; and
      the destructed objects are exactly the ones newly marked finalized. */
  lemma {:induction false} DestructedOnce(gc: seq<GcEntry>, finalized: set<nat>)
    ensures forall o :: o in Destructed(gc, finalized) ==>
      GcEntry(o, Reachable) in gc && o.reflection.destructor.Some? && o.id !in finalized
    ensures forall i, j :: 0 <= i < j < |Destructed(gc, finalized)| ==>
      Destructed(gc, finalized)[i].id != Destructed(gc, finalized)[j].id
    ensures FinalizedAfter(gc, finalized) == finalized + set o | o in Destructed(gc, finalized) :: o.id
    decreases |gc|
  {
    if |gc| > 0 {
      var e := gc[0];
      if Destructs(e, finalized) {
        var fin := finalized + {e.obj.id};
        DestructedOnce(gc[1..], fin);
        var rest := Destructed(gc[1..], fin);
        var d := Destructed(gc, finalized);
        assert d == [e.obj] + rest;
        forall i, j | 0 <= i < j < |d| ensures d[i].id != d[j].id {
          assert d[j] == rest[j - 1];
          if i > 0 { assert d[i] == rest[i - 1]; }
        }
        forall o | o in d ensures GcEntry(o, Reachable) in gc && o.reflection.destructor.Some? && o.id !in finalized {
          if o != e.obj { assert o in rest; }
        }
        assert (set o | o in d :: o.id) == {e.obj.id} + set o | o in rest :: o.id;
      } else {
        DestructedOnce(gc[1..], finalized);
        forall o | o in Destructed(gc, finalized) ensures GcEntry(o, Reachable) in gc {
          assert GcEntry(o, Reachable) in gc[1..];
        }
      }
    }
  }

  /** `Destructed` and `FinalizedAfter` for the loop from index `i` on, the form the
      loop of `finalizeObjects` keeps track of. */
  function DestructedFrom(gc: seq<GcEntry>, i: nat, finalized: set<nat>): seq<ObjectRef>
    decreases |gc| - i
  {
    if i >= |gc| then []
    else if Destructs(gc[i], finalized) then [gc[i].obj] + DestructedFrom(gc, i + 1, finalized + {gc[i].obj.id})
    else DestructedFrom(gc, i + 1, finalized)
  }

  function FinalizedFrom(gc: seq<GcEntry>, i: nat, finalized: set<nat>): set<nat>
    decreases |gc| - i
  {
    if i >= |gc| then finalized
    else if Destructs(gc[i], finalized) then FinalizedFrom(gc, i + 1, finalized + {gc[i].obj.id})
    else FinalizedFrom(gc, i + 1, finalized)
  }

  /** The loop from index `i` does what the loop over the rest of the list from `i` does. */
  lemma {:induction false} FromIsRest(gc: seq<GcEntry>, i: nat, finalized: set<nat>)
    requires i <= |gc|
    ensures DestructedFrom(gc, i, finalized) == Destructed(gc[i..], finalized)
    ensures FinalizedFrom(gc, i, finalized) == FinalizedAfter(gc[i..], finalized)
    decreases |gc| - i
  {
    if i < |gc| {
      assert gc[i..][0] == gc[i] && gc[i..][1..] == gc[i + 1..];
      FromIsRest(gc, i + 1, finalized);
      FromIsRest(gc, i + 1, finalized + {gc[i].obj.id});
    }
  }

  /** The loop from the start does what the loop over the whole list does. */
  lemma FromIsWhole(gc: seq<GcEntry>, finalized: set<nat>)
    ensures DestructedFrom(gc, 0, finalized) == Destructed(gc, finalized)
    ensures FinalizedFrom(gc, 0, finalized) == FinalizedAfter(gc, finalized)
  {
    FromIsRest(gc, 0, finalized);
    assert gc[0..] == gc;
  }

  /** Objects collected by the host are never destructed, queued or not. */
  lemma {:induction false} CollectedNotDestructed(gc: seq<GcEntry>, finalized: set<nat>, o: ObjectRef)
    requires GcEntry(o, Reachable) !in gc
    ensures o !in Destructed(Clean(gc), finalized)
  {
    DestructedOnce(Clean(gc), finalized);
  }

  /** Whether running the object's destructor raises. */
  predicate Raises(o: ObjectRef) {
    o.reflection.destructor.Some? && o.reflection.destructor.value.raises
  }

  /** What the loop of `finalizeObjects` did: the objects whose destructor ran, the ids
      finalized, and the failure that ended the loop, if any. */
  datatype Run = Run(destructed: seq<ObjectRef>, finalized: set<nat>, failure: Option<Failure>)

  /** The loop of `finalizeObjects` from index `i` on. An object is marked finalized
      before its frame is pushed; on a call stack broken by excess pops (`broken`) that
      push fails, and a destructor that raises ends the loop once it has run. */
  function RunFrom(gc: seq<GcEntry>, i: nat, finalized: set<nat>, broken: bool): Run
    decreases |gc| - i
  {
    if i >= |gc| then Run([], finalized, None)
    else if !Destructs(gc[i], finalized) then RunFrom(gc, i + 1, finalized, broken)
    else
      var o := gc[i].obj;
      var fin := finalized + {o.id};
      if broken then Run([], fin, Some(ArrayIndexOutOfBounds))
      else if o.reflection.destructor.value.raises then Run([o], fin, Some(UserCode(o.reflection.destructor.value.name)))
      else
        var rest := RunFrom(gc, i + 1, fin, broken);
        Run([o] + rest.destructed, rest.finalized, rest.failure)
  }

  /** The whole loop of `finalizeObjects` over the tracked references. */
  function Finalization(gc: seq<GcEntry>, finalized: set<nat>, broken: bool): Run {
    RunFrom(gc, 0, finalized, broken)
  }

  /** The loop from index `i` destructs a prefix of `DestructedFrom`: all of it, with
      the same ids finalized, when nothing fails. No destructor before the last one
      run raises. With an intact stack a failure comes from the last destructor run,
      and only when it raises. On a broken stack nothing is destructed, and the loop
      fails exactly when there is something to destruct. */
  lemma {:induction false} RunFromIsPrefix(gc: seq<GcEntry>, i: nat, finalized: set<nat>, broken: bool)
    requires i <= |gc|
    ensures RunFrom(gc, i, finalized, broken).destructed <= DestructedFrom(gc, i, finalized)
    ensures var r := RunFrom(gc, i, finalized, broken);
      r.failure.None? ==> r.destructed == DestructedFrom(gc, i, finalized) && r.finalized == FinalizedFrom(gc, i, finalized)
    ensures var r := RunFrom(gc, i, finalized, broken);
      forall j :: 0 <= j < |r.destructed| - 1 ==> !Raises(r.destructed[j])
    ensures var r := RunFrom(gc, i, finalized, broken);
      !broken ==> (r.failure.None? <==> forall o :: o in DestructedFrom(gc, i, finalized) ==> !Raises(o))
    ensures var r := RunFrom(gc, i, finalized, broken);
      !broken && r.failure.Some? ==>
        && |r.destructed| > 0 && Raises(r.destructed[|r.destructed| - 1])
        && r.failure == Some(UserCode(r.destructed[|r.destructed| - 1].reflection.destructor.value.name))
    ensures var r := RunFrom(gc, i, finalized, broken);
      broken ==> r.destructed == [] && (r.failure.None? <==> DestructedFrom(gc, i, finalized) == [])
    decreases |gc| - i
  {
    if i < |gc| {
      var o := gc[i].obj;
      if !Destructs(gc[i], finalized) {
        RunFromIsPrefix(gc, i + 1, finalized, broken);
      } else {
        var fin := finalized + {o.id};
        var d := DestructedFrom(gc, i, finalized);
        assert d == [o] + DestructedFrom(gc, i + 1, fin);
        assert o in d && (Raises(o) <==> o.reflection.destructor.value.raises);
        if !broken && !o.reflection.destructor.value.raises {
          RunFromIsPrefix(gc, i + 1, fin, broken);
          var rest := RunFrom(gc, i + 1, fin, broken);
          var r := RunFrom(gc, i, finalized, broken);
          assert r.destructed == [o] + rest.destructed;
          forall j | 0 <= j < |r.destructed| - 1 ensures !Raises(r.destructed[j]) {
            if j > 0 { assert r.destructed[j] == rest.destructed[j - 1]; }
          }
          if r.failure.Some? {
            assert r.destructed[|r.destructed| - 1] == rest.destructed[|rest.destructed| - 1];
          }
          assert forall x :: x in d <==> x == o || x in DestructedFrom(gc, i + 1, fin);
        }
      }
    }
  }

  /** For the whole list: the destructed objects are a prefix of `Destructed`, all of
      it when nothing fails; the loop fails, with an intact stack, exactly when one of
      those destructors raises, and then it stops right after the first one that does. */
  lemma FinalizationIsPrefix(gc: seq<GcEntry>, finalized: set<nat>, broken: bool)
    ensures var r := Finalization(gc, finalized, broken);
      var d := Destructed(gc, finalized);
      && r.destructed <= d
      && (r.failure.None? ==> r.destructed == d && r.finalized == FinalizedAfter(gc, finalized))
      && (forall j :: 0 <= j < |r.destructed| - 1 ==> !Raises(r.destructed[j]))
      && (!broken ==> (r.failure.None? <==> forall o :: o in d ==> !Raises(o)))
      && (!broken && r.failure.Some? ==>
            && |r.destructed| > 0 && Raises(r.destructed[|r.destructed| - 1])
            && r.failure == Some(UserCode(r.destructed[|r.destructed| - 1].reflection.destructor.value.name)))
      && (broken ==> r.destructed == [] && (r.failure.None? <==> d == []))
  {
    RunFromIsPrefix(gc, 0, finalized, broken);
    FromIsWhole(gc, finalized);
  }

  /** The names of shutdown functions, in order. */
  function Names(hs: seq<ShutdownHandler>): (r: seq<string>)
    ensures |r| == |hs| && forall i :: 0 <= i < |hs| ==> r[i] == hs[i].name
    decreases |hs|
  {
    if |hs| == 0 then [] else [hs[0].name] + Names(hs[1..])
  }

  /** The names of a longer prefix: one more name at the end. */
  lemma NamesOfPrefix(hs: seq<ShutdownHandler>, i: nat)
    requires i < |hs|
    ensures Names(hs[..i + 1]) == Names(hs[..i]) + [hs[i].name]
  {
    assert |Names(hs[..i + 1])| == |Names(hs[..i]) + [hs[i].name]|;
    forall j | 0 <= j < i + 1 ensures Names(hs[..i + 1])[j] == (Names(hs[..i]) + [hs[i].name])[j] {
      if j < i {
        assert hs[..i + 1][j] == hs[..i][j];
      }
    }
  }

  /** The index of the first shutdown function that does not return normally, which
      ends the loop of `doFinal`; `|hs|` if they all do. */
  function Stop(hs: seq<ShutdownHandler>): (r: nat)
    ensures r <= |hs|
    ensures forall j :: 0 <= j < r ==> hs[j].result == Finishes
    ensures r < |hs| ==> hs[r].result != Finishes
    decreases |hs|
  {
    if |hs| == 0 || hs[0].result != Finishes then 0 else 1 + Stop(hs[1..])
  }

  /** The shutdown functions `doFinal` calls: all those up to and including the first
      that does not return normally. */
  function Called(hs: seq<ShutdownHandler>): (r: seq<ShutdownHandler>)
    ensures r <= hs
    ensures |r| == if Stop(hs) < |hs| then Stop(hs) + 1 else |hs|
  {
    if Stop(hs) < |hs| then hs[..Stop(hs) + 1] else hs
  }
}
