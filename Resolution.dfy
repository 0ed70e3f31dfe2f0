/** How the environment resolves the class a call-stack frame runs in. A frame names
    its class (`clazz`) and late-static class (`staticClazz`) and caches the entities
    once they are looked up; resolving is looking at the cache, else looking the class
    up without autoloading and filling the cache with what was found. Every function
    here takes the load state and the frames (bottom first), and returns them updated
    together with the answer. */
module Resolution {
  import opened Common
  import opened Runtime
  import Loading

  /** The frame's object is a closure (`item.object instanceof Closure`). */
  predicate IsClosure(f: Frame) {
    f.self.Some? && f.self.value.closure.Closure?
  }

  /** A frame with its caches emptied: what resolution may not change. */
  function Uncached(f: Frame): Frame {
    f.(classEntity := None, staticClassEntity := None)
  }

  /** `fs1` is `fs` with at most some caches filled. */
  predicate SameFrames(fs: seq<Frame>, fs1: seq<Frame>) {
    |fs1| == |fs| && forall j :: 0 <= j < |fs| ==> Uncached(fs1[j]) == Uncached(fs[j])
  }

  /** Resolving frame `i`'s class: the cached entity (or, when `closures` is asked for
      and the frame's object is a closure, the class of the object it is bound to);
      otherwise the class looked up by name, cached in the frame even when it is
      missing, and then `IllegalStateException`. */
  function ResolveAt(s: Loading.LoadState, user: map<string, ClassEntity>, fs: seq<Frame>, i: nat, closures: bool)
    : (Loading.LoadState, seq<Frame>, Outcome<Option<ClassEntity>>)
    requires i < |fs| && fs[i].clazz.Some?
  {
    var f := fs[i];
    if f.classEntity.Some? then
      (s, fs, if closures && IsClosure(f) then Normal(f.self.value.closure.self) else Normal(f.classEntity))
    else
      var (s1, found) := Loading.Fetch(s, user, Lower(f.clazz.value));
      (s1, fs[i := f.(classEntity := found)], if found.Some? then Normal(found) else Thrown(IllegalState(f.clazz.value)))
  }

  /** `getLateStaticClass()`: for the running frame of a class, the cached late-static
      entity, else the class of the object a closure is bound to, else the class named
      by `staticClazz` (or `clazz`), looked up and cached. */
  function LateStaticClass(s: Loading.LoadState, user: map<string, ClassEntity>, fs: seq<Frame>)
    : (Loading.LoadState, seq<Frame>, Option<ClassEntity>)
  {
    if |fs| == 0 || fs[|fs| - 1].clazz.None? then (s, fs, None)
    else
      var i := |fs| - 1;
      var f := fs[i];
      if f.staticClassEntity.Some? then (s, fs, f.staticClassEntity)
      else if IsClosure(f) then (s, fs, f.self.value.closure.self)
      else
        var (s1, found) := Loading.Fetch(s, user, Lower(f.staticClazz.GetOr(f.clazz.value)));
        (s1, fs[i := f.(staticClassEntity := found)], found)
  }

  /** `__getContextClass(offset)`: the class of the frame `offset` places below the
      top, none when there is no such frame or it runs outside a class. */
  function ContextClass(s: Loading.LoadState, user: map<string, ClassEntity>, fs: seq<Frame>, offset: nat)
    : (Loading.LoadState, seq<Frame>, Outcome<Option<ClassEntity>>)
  {
    if offset >= |fs| || fs[|fs| - 1 - offset].clazz.None? then (s, fs, Normal(None))
    else ResolveAt(s, user, fs, |fs| - 1 - offset, false)
  }

  /** The index of the highest frame below index `n` that runs in a class. */
  function NearestClassFrame(fs: seq<Frame>, n: nat): (r: Option<nat>)
    requires n <= |fs|
    ensures r.Some? ==> r.value < n && fs[r.value].clazz.Some?
    ensures r.Some? ==> forall j :: r.value < j < n ==> fs[j].clazz.None?
    ensures r.None? ==> forall j :: 0 <= j < n ==> fs[j].clazz.None?
    decreases n
  {
    if n == 0 then None
    else if fs[n - 1].clazz.Some? then Some(n - 1)
    else NearestClassFrame(fs, n - 1)
  }

  /** `getLastClassOnStack()`: the class of the nearest frame running in one, looking
      through closures when the entity is cached. */
  function LastClassOnStack(s: Loading.LoadState, user: map<string, ClassEntity>, fs: seq<Frame>)
    : (Loading.LoadState, seq<Frame>, Outcome<Option<ClassEntity>>)
  {
    match NearestClassFrame(fs, |fs|)
    case None => (s, fs, Normal(None))
    case Some(i) => ResolveAt(s, user, fs, i, true)
  }

  /** `fetchMagicClass(name, nameL)`: `self` is the caller's class, falling back to
      the late-static class; `static` is the late-static class; any other name is none. */
  function MagicClass(s: Loading.LoadState, user: map<string, ClassEntity>, fs: seq<Frame>, nameL: string)
    : (Loading.LoadState, seq<Frame>, Outcome<Option<ClassEntity>>)
  {
    if nameL == "self" then
      var (s1, fs1, c) := ContextClass(s, user, fs, 1);
      if c.Thrown? || c.value.Some? then (s1, fs1, c)
      else var (s2, fs2, l) := LateStaticClass(s1, user, fs1); (s2, fs2, Normal(l))
    else if nameL == "static" then
      var (s1, fs1, l) := LateStaticClass(s, user, fs); (s1, fs1, Normal(l))
    else (s, fs, Normal(None))
  }

  /** Looking a class up only loads classes: no loader runs and nothing loaded goes away. */
  lemma FetchOnlyLoads(s: Loading.LoadState, user: map<string, ClassEntity>, nameL: string)
    ensures var (s1, _) := Loading.Fetch(s, user, nameL);
      s1.calls == s.calls && s.loaded.Keys <= s1.loaded.Keys
  {
  }

  /** Resolving one frame only fills that frame's cache and loads classes. */
  lemma ResolveAtOnlyCaches(s: Loading.LoadState, user: map<string, ClassEntity>, fs: seq<Frame>, i: nat, closures: bool)
    requires i < |fs| && fs[i].clazz.Some?
    ensures var (s1, fs1, _) := ResolveAt(s, user, fs, i, closures);
      SameFrames(fs, fs1) && s1.calls == s.calls && s.loaded.Keys <= s1.loaded.Keys
  {
    FetchOnlyLoads(s, user, Lower(fs[i].clazz.value));
  }

  /** The same for the late-static class. */
  lemma LateStaticOnlyCaches(s: Loading.LoadState, user: map<string, ClassEntity>, fs: seq<Frame>)
    ensures var (s1, fs1, _) := LateStaticClass(s, user, fs);
      SameFrames(fs, fs1) && s1.calls == s.calls && s.loaded.Keys <= s1.loaded.Keys
  {
    if |fs| > 0 && fs[|fs| - 1].clazz.Some? {
      var f := fs[|fs| - 1];
      FetchOnlyLoads(s, user, Lower(f.staticClazz.GetOr(f.clazz.value)));
    }
  }

  /** The same for the class of a frame below the top. */
  lemma ContextOnlyCaches(s: Loading.LoadState, user: map<string, ClassEntity>, fs: seq<Frame>, offset: nat)
    ensures var (s1, fs1, _) := ContextClass(s, user, fs, offset);
      SameFrames(fs, fs1) && s1.calls == s.calls && s.loaded.Keys <= s1.loaded.Keys
  {
    if offset < |fs| && fs[|fs| - 1 - offset].clazz.Some? {
      ResolveAtOnlyCaches(s, user, fs, |fs| - 1 - offset, false);
    }
  }

  /** Resolving `self` or `static` only fills caches and loads classes: the frames are
      otherwise the same, no loader runs and no loaded class goes away. */
  lemma MagicOnlyCaches(s: Loading.LoadState, user: map<string, ClassEntity>, fs: seq<Frame>, nameL: string)
    ensures var (s1, fs1, _) := MagicClass(s, user, fs, nameL);
      SameFrames(fs, fs1) && s1.calls == s.calls && s.loaded.Keys <= s1.loaded.Keys
  {
    ContextOnlyCaches(s, user, fs, 1);
    var (s1, fs1, c) := ContextClass(s, user, fs, 1);
    LateStaticOnlyCaches(s1, user, fs1);
    LateStaticOnlyCaches(s, user, fs);
  }

  /** The same for the last class on the stack. */
  lemma LastClassOnlyCaches(s: Loading.LoadState, user: map<string, ClassEntity>, fs: seq<Frame>)
    ensures var (s1, fs1, _) := LastClassOnStack(s, user, fs);
      SameFrames(fs, fs1) && s1.calls == s.calls && s.loaded.Keys <= s1.loaded.Keys
  {
    match NearestClassFrame(fs, |fs|)
    case None =>
    case Some(i) => ResolveAtOnlyCaches(s, user, fs, i, true);
  }

  /** The nearest class frame of a stack with frames below it is found among the top
      frames when they hold one. */
  lemma {:induction false} NearestAbove(below: seq<Frame>, fs: seq<Frame>, n: nat)
    requires n <= |fs|
    ensures NearestClassFrame(below + fs, |below| + n) ==
      match NearestClassFrame(fs, n)
      case Some(i) => Some(|below| + i)
      case None => NearestClassFrame(below + fs, |below|)
    decreases n
  {
    if n > 0 {
      assert (below + fs)[|below| + n - 1] == fs[n - 1];
      NearestAbove(below, fs, n - 1);
    }
  }

  /** The frames below the nearest class frame play no part: with any frames pushed
      underneath, the last class on the stack is the same. */
  lemma LastClassIgnoresFramesBelow(s: Loading.LoadState, user: map<string, ClassEntity>, below: seq<Frame>, fs: seq<Frame>)
    requires exists j :: 0 <= j < |fs| && fs[j].clazz.Some?
    ensures LastClassOnStack(s, user, below + fs).2 == LastClassOnStack(s, user, fs).2
  {
    NearestAbove(below, fs, |fs|);
    var i :| 0 <= i < |fs| && fs[i].clazz.Some?;
    assert NearestClassFrame(fs, |fs|).Some?;
    var k := NearestClassFrame(fs, |fs|).value;
    assert (below + fs)[|below| + k] == fs[k];
  }

  /** With no frame running in a class there is no last class on the stack. */
  lemma NoClassFrameNoClass(s: Loading.LoadState, user: map<string, ClassEntity>, fs: seq<Frame>)
    requires forall j :: 0 <= j < |fs| ==> fs[j].clazz.None?
    ensures LastClassOnStack(s, user, fs) == (s, fs, Normal(None))
  {
  }

  /** Once a context class is found, it is cached: resolving the same frame again gives
      the same class and loads nothing. */
  lemma ContextIsCached(s: Loading.LoadState, user: map<string, ClassEntity>, fs: seq<Frame>, offset: nat)
    requires Loading.KeyedByName(user)
    ensures var (s1, fs1, r) := ContextClass(s, user, fs, offset);
      r.Normal? ==> ContextClass(s1, user, fs1, offset) == (s1, fs1, r)
  {
  }

  /** The late-static class, once found, is cached in the running frame. */
  lemma LateStaticIsCached(s: Loading.LoadState, user: map<string, ClassEntity>, fs: seq<Frame>)
    requires Loading.KeyedByName(user)
    ensures var (s1, fs1, r) := LateStaticClass(s, user, fs);
      r.Some? ==> LateStaticClass(s1, user, fs1) == (s1, fs1, r)
  {
  }
}
