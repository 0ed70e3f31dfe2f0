/** Class lookup and autoloading: a class is found among the classes loaded into the
    environment, else among the user classes of the compile scope (which are then
    initialised for the environment and loaded), else by running the registered
    autoloaders in order until one of them makes the class appear. */
module Loading {
  import opened Common
  import opened Runtime

  /** What lookup and autoloading change: the loaded classes (`classMap`), the classes
      initialised for the environment so far, with how often
      (`ClassEntity.initEnvironment`), and the callbacks of the loaders run so far. */
  datatype LoadState = LoadState(loaded: map<string, ClassEntity>, inits: multiset<ClassEntity>, calls: seq<string>)

  /** `fetchClass(name, nameL, false)`. The scope's class is stored under its own
      lower-case name. */
  function Fetch(s: LoadState, user: map<string, ClassEntity>, nameL: string): (LoadState, Option<ClassEntity>) {
    if nameL in s.loaded then (s, Some(s.loaded[nameL]))
    else if nameL in user then
      var e := user[nameL];
      (s.(loaded := s.loaded[e.lowerName := e], inits := s.inits + multiset{e}), Some(e))
    else (s, None)
  }

  /** `SplClassLoader.load(name)`: the loader's callback runs; it either raises, or
      declares the class it provides for `name`, if any. */
  function RunLoader(s: LoadState, l: Loader, name: string): (LoadState, Completion) {
    var called := s.(calls := s.calls + [l.callback]);
    if l.raises then (called, Threw(UserCode(l.callback)))
    else if name in l.declares then
      var d := l.declares[name];
      (called.(loaded := called.loaded[d.lowerName := d]), Completed)
    else (called, Completed)
  }

  /** The loop of `autoloadCall` over the registered loaders: after each loader, look
      the class up again and stop as soon as it is there. */
  function TryLoaders(s: LoadState, user: map<string, ClassEntity>, ls: seq<Loader>, name: string)
    : (LoadState, Outcome<Option<ClassEntity>>)
    decreases |ls|
  {
    if |ls| == 0 then (s, Normal(None))
    else
      var (s1, c) := RunLoader(s, ls[0], name);
      if c.Threw? then (s1, Thrown(c.failure))
      else
        var (s2, found) := Fetch(s1, user, Lower(name));
        if found.Some? then (s2, Normal(found)) else TryLoaders(s2, user, ls[1..], name)
  }

  /** The search of `autoloadCall` once its guard is taken: the registered loaders,
      then the default loader, then one last lookup. */
  function Autoload(s: LoadState, user: map<string, ClassEntity>, ls: seq<Loader>, default: Option<Loader>,
                    name: string): (LoadState, Outcome<Option<ClassEntity>>)
  {
    var (s1, r) := TryLoaders(s, user, ls, name);
    if r.Thrown? || r.value.Some? then (s1, r)
    else if default.Some? then
      var (s2, c) := RunLoader(s1, default.value, name);
      if c.Threw? then (s2, Thrown(c.failure))
      else var (s3, found) := Fetch(s2, user, Lower(name)); (s3, Normal(found))
    else
      var (s2, found) := Fetch(s1, user, Lower(name)); (s2, Normal(found))
  }

  /** One character of a class name: an ASCII letter, digit or underscore, the
      namespace separator, or any character from 0x7f up. */
  predicate NameChar(c: char) {
    'a' <= c <= 'z' || 'A' <= c <= 'Z' || '0' <= c <= '9' || c == '_' || c == '\\' || c as int >= 0x7f
  }

  /** `StringUtils.isValidClassName`, taken to be PHP's rule for names: not empty, made
      of name characters, not starting with a digit. */
  predicate ValidClassName(name: string) {
    |name| > 0 && !('0' <= name[0] <= '9') && forall i :: 0 <= i < |name| ==> NameChar(name[i])
  }

  /** `autoloadCall(name, lowerName)`: the load state, the guard set and the result.
      An invalid name or one whose guard is held yields null and does nothing; else the
      guard is taken for the search and given back only if the search returns normally. */
  function AutoloadCall(s: LoadState, locks: set<string>, user: map<string, ClassEntity>, ls: seq<Loader>,
                        default: Option<Loader>, name: string, lowerName: string)
    : (LoadState, set<string>, Outcome<Option<ClassEntity>>)
  {
    if !ValidClassName(name) || lowerName in locks then (s, locks, Normal(None))
    else
      var (s1, r) := Autoload(s, user, ls, default, name);
      (s1, if r.Normal? then locks else locks + {lowerName}, r)
  }

  /** The callbacks of a list of loaders. */
  function Callbacks(ls: seq<Loader>): seq<string>
    decreases |ls|
  {
    if |ls| == 0 then [] else [ls[0].callback] + Callbacks(ls[1..])
  }

  /** The user classes of a scope are keyed by their lower-case names. */
  predicate KeyedByName(m: map<string, ClassEntity>) {
    forall k :: k in m ==> m[k].lowerName == k
  }

  /** A lookup finds the class under the name asked for and leaves it loaded there. */
  lemma FetchLoads(s: LoadState, user: map<string, ClassEntity>, nameL: string)
    requires KeyedByName(user)
    ensures var (s1, found) := Fetch(s, user, nameL);
      && (found.Some? <==> nameL in s.loaded || nameL in user)
      && (found.Some? ==> nameL in s1.loaded && s1.loaded[nameL] == found.value)
      && (found.None? ==> s1 == s)
      && s1.calls == s.calls && s.loaded.Keys <= s1.loaded.Keys
  {
  }

  /** Looking up a class that was found again finds the same class and changes
      nothing: the class is now loaded under the name asked for. */
  lemma FetchIsIdempotent(s: LoadState, user: map<string, ClassEntity>, nameL: string)
    requires KeyedByName(user)
    ensures var (s1, found) := Fetch(s, user, nameL);
      found.Some? ==> Fetch(s1, user, nameL) == (s1, found)
  {
  }

  /** With the guard held for the name, or an invalid name, no loader runs; otherwise
      the guard is free again after a normal return and still held after a failure. */
  lemma AutoloadGuard(s: LoadState, locks: set<string>, user: map<string, ClassEntity>, ls: seq<Loader>,
                      default: Option<Loader>, name: string, lowerName: string)
    ensures var (s1, locks1, r) := AutoloadCall(s, locks, user, ls, default, name, lowerName);
      && (!ValidClassName(name) || lowerName in locks ==> s1 == s && locks1 == locks && r == Normal(None))
      && (ValidClassName(name) && lowerName !in locks && r.Normal? ==> locks1 == locks)
      && (ValidClassName(name) && lowerName !in locks && r.Thrown? ==> locks1 == locks + {lowerName})
  {
  }

  /** The callbacks of a prefix of a list: the first one, then those of the prefix of
      the rest. */
  lemma CallbacksOfPrefix(ls: seq<Loader>, k: nat)
    requires k < |ls|
    ensures Callbacks(ls[..k + 1]) == [ls[0].callback] + Callbacks(ls[1..][..k])
  {
    assert ls[..k + 1][1..] == ls[1..][..k];
  }

  /** How many loaders `TryLoaders` runs. */
  function Ran(s: LoadState, user: map<string, ClassEntity>, ls: seq<Loader>, name: string): (k: nat)
    ensures k <= |ls|
    decreases |ls|
  {
    if |ls| == 0 then 0
    else
      var (s1, c) := RunLoader(s, ls[0], name);
      if c.Threw? || Fetch(s1, user, Lower(name)).1.Some? then 1
      else 1 + Ran(Fetch(s1, user, Lower(name)).0, user, ls[1..], name)
  }

  /** When the first loader neither raises nor makes the class appear, the search goes
      on with the rest of the list from the state after it and the lookup. */
  lemma TryLoadersStep(s: LoadState, user: map<string, ClassEntity>, ls: seq<Loader>, name: string)
    requires |ls| > 0
    ensures var (t1, c) := RunLoader(s, ls[0], name);
      var (t2, found) := Fetch(t1, user, Lower(name));
      && t2.calls == s.calls + [ls[0].callback]
      && (c.Threw? || found.Some? ==>
            && Ran(s, user, ls, name) == 1
            && TryLoaders(s, user, ls, name).0.calls == t2.calls
            && TryLoaders(s, user, ls, name).1 != Normal(None))
      && (!c.Threw? && found.None? ==>
            TryLoaders(s, user, ls, name) == TryLoaders(t2, user, ls[1..], name) &&
            Ran(s, user, ls, name) == 1 + Ran(t2, user, ls[1..], name))
  {
  }

  /** The loaders run in list order, from the first: the callbacks called are those of
      a prefix of the list, the whole list when nothing was found and nothing raised. */
  lemma {:induction false} LoadersRunInOrder(s: LoadState, user: map<string, ClassEntity>, ls: seq<Loader>, name: string)
    ensures var (s1, r) := TryLoaders(s, user, ls, name);
      var k := Ran(s, user, ls, name);
      s1.calls == s.calls + Callbacks(ls[..k]) && (r == Normal(None) ==> k == |ls|) && (r != Normal(None) ==> k >= 1)
    decreases |ls|
  {
    if |ls| == 0 {
      assert ls[..0] == [];
    } else {
      TryLoadersStep(s, user, ls, name);
      CallbacksOfPrefix(ls, 0);
      var t2 := Fetch(RunLoader(s, ls[0], name).0, user, Lower(name)).0;
      if !RunLoader(s, ls[0], name).1.Threw? && Fetch(RunLoader(s, ls[0], name).0, user, Lower(name)).1.None? {
        LoadersRunInOrder(t2, user, ls[1..], name);
        CallbacksOfPrefix(ls, Ran(t2, user, ls[1..], name));
      }
    }
  }

  /** A class found by the loaders is loaded under the name asked for, and lookup only
      ever adds loaded classes. */
  lemma {:induction false} LoadersFindLoaded(s: LoadState, user: map<string, ClassEntity>, ls: seq<Loader>, name: string)
    requires KeyedByName(user)
    ensures var (s1, r) := TryLoaders(s, user, ls, name);
      && (r.Normal? && r.value.Some? ==> Lower(name) in s1.loaded && s1.loaded[Lower(name)] == r.value.value)
      && s.loaded.Keys <= s1.loaded.Keys
    decreases |ls|
  {
    if |ls| > 0 {
      var (t1, c) := RunLoader(s, ls[0], name);
      if !c.Threw? {
        FetchLoads(t1, user, Lower(name));
        var t2 := Fetch(t1, user, Lower(name)).0;
        if Fetch(t1, user, Lower(name)).1.None? {
          LoadersFindLoaded(t2, user, ls[1..], name);
        }
      }
    }
  }

  /** The same for the whole search, default loader and last lookup included. */
  lemma AutoloadFindsLoaded(s: LoadState, user: map<string, ClassEntity>, ls: seq<Loader>,
                            default: Option<Loader>, name: string)
    requires KeyedByName(user)
    ensures var (s1, r) := Autoload(s, user, ls, default, name);
      && (r.Normal? && r.value.Some? ==> Lower(name) in s1.loaded && s1.loaded[Lower(name)] == r.value.value)
      && s.loaded.Keys <= s1.loaded.Keys
  {
    LoadersFindLoaded(s, user, ls, name);
    var (s1, r) := TryLoaders(s, user, ls, name);
    if !(r.Thrown? || r.value.Some?) {
      if default.Some? {
        var (s2, c) := RunLoader(s1, default.value, name);
        FetchLoads(s2, user, Lower(name));
      } else {
        FetchLoads(s1, user, Lower(name));
      }
    }
  }
}
