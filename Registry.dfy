/** The environment's registries: the maps of loaded classes, functions and constants,
    keyed by lower-case name, and the list of class autoloaders. */
module Registry {
  import opened Common
  import opened Runtime

  // ---------------------------------------------------------------------------
  // Declaring the entities of a module

  /** The map after `put`ting, in order, the entities of `es` for which `keep` holds,
      each under `key` of it. */
  function PutAll<E>(m: map<string, E>, es: seq<E>, key: E -> string, keep: E -> bool): map<string, E>
    decreases |es|
  {
    if |es| == 0 then m
    else
      var last := es[|es| - 1];
      var before := PutAll(m, es[..|es| - 1], key, keep);
      if keep(last) then before[key(last) := last] else before
  }

  /** Whether the `i`-th entity of `es` is one `registerModule` puts over an existing
      entry, given the entries already put before it. */
  predicate Clashes<E>(m: map<string, E>, es: seq<E>, key: E -> string, keep: E -> bool, i: nat)
    requires i < |es|
  {
    keep(es[i]) && key(es[i]) in PutAll(m, es[..i], key, keep)
  }

  /** No entity of `es` is put over an existing entry. */
  predicate Fresh<E>(m: map<string, E>, es: seq<E>, key: E -> string, keep: E -> bool) {
    forall i :: 0 <= i < |es| ==> !Clashes(m, es, key, keep, i)
  }

  /** What the put entities contribute: every kept entity's key is present, and a key
      that no kept entity has keeps its old entry. */
  lemma {:induction false} PutAllKeys<E>(m: map<string, E>, es: seq<E>, key: E -> string, keep: E -> bool)
    ensures forall i :: 0 <= i < |es| && keep(es[i]) ==> key(es[i]) in PutAll(m, es, key, keep)
    ensures forall k :: k in m && (forall i :: 0 <= i < |es| && keep(es[i]) ==> key(es[i]) != k) ==>
      k in PutAll(m, es, key, keep) && PutAll(m, es, key, keep)[k] == m[k]
    ensures forall k :: k in PutAll(m, es, key, keep) ==>
      k in m || exists i :: 0 <= i < |es| && keep(es[i]) && key(es[i]) == k
    decreases |es|
  {
    if |es| > 0 {
      var init := es[..|es| - 1];
      PutAllKeys(m, init, key, keep);
      forall i | 0 <= i < |init| ensures init[i] == es[i] { }
    }
  }

  /** When nothing clashes, the entries put are exactly the kept entities, each under
      its own key, and the old entries are untouched. */
  lemma {:induction false} PutAllFresh<E>(m: map<string, E>, es: seq<E>, key: E -> string, keep: E -> bool)
    requires Fresh(m, es, key, keep)
    ensures forall k :: k in m ==> k in PutAll(m, es, key, keep) && PutAll(m, es, key, keep)[k] == m[k]
    ensures forall i :: 0 <= i < |es| && keep(es[i]) ==>
      key(es[i]) in PutAll(m, es, key, keep) && PutAll(m, es, key, keep)[key(es[i])] == es[i]
    decreases |es|
  {
    if |es| > 0 {
      var init := es[..|es| - 1];
      forall i | 0 <= i < |init| ensures !Clashes(m, init, key, keep, i) {
        assert init[i] == es[i] && init[..i] == es[..i];
        assert !Clashes(m, es, key, keep, i);
      }
      PutAllFresh(m, init, key, keep);
      assert es[..|es| - 1] == init;
      var last := es[|es| - 1];
      assert !Clashes(m, es, key, keep, |es| - 1);
      PutAllKeys(m, init, key, keep);
      if keep(last) {
        assert key(last) !in PutAll(m, init, key, keep);
        forall i | 0 <= i < |es| && keep(es[i])
          ensures key(es[i]) in PutAll(m, es, key, keep) && PutAll(m, es, key, keep)[key(es[i])] == es[i]
        {
          if i < |es| - 1 {
            assert init[i] == es[i];
            assert key(init[i]) in PutAll(m, init, key, keep);
          }
        }
      } else {
        forall i | 0 <= i < |es| && keep(es[i])
          ensures key(es[i]) in PutAll(m, es, key, keep) && PutAll(m, es, key, keep)[key(es[i])] == es[i]
        {
          assert init[i] == es[i];
        }
      }
    }
  }

  /** `put` in order: a prefix extended by one entity. */
  lemma PutAllStep<E>(m: map<string, E>, es: seq<E>, key: E -> string, keep: E -> bool, i: nat)
    requires i < |es|
    ensures PutAll(m, es[..i + 1], key, keep) ==
      (if keep(es[i]) then PutAll(m, es[..i], key, keep)[key(es[i]) := es[i]] else PutAll(m, es[..i], key, keep))
  {
    assert es[..i + 1][..i] == es[..i];
  }

  /** The first entity from `from` on that `registerModule` puts over an existing entry. */
  function FirstClash<E>(m: map<string, E>, es: seq<E>, key: E -> string, keep: E -> bool, from: nat): (r: Option<nat>)
    requires from <= |es|
    ensures r.Some? ==> from <= r.value < |es| && Clashes(m, es, key, keep, r.value)
    ensures r.Some? ==> forall j :: from <= j < r.value ==> !Clashes(m, es, key, keep, j)
    ensures r.None? ==> forall j :: from <= j < |es| ==> !Clashes(m, es, key, keep, j)
    decreases |es| - from
  {
    if from == |es| then None
    else if Clashes(m, es, key, keep, from) then Some(from)
    else FirstClash(m, es, key, keep, from + 1)
  }

  /** One loop of `registerModule`: the map after putting the kept entities in order,
      stopping right after the first one that replaced an entry (whose index is also
      returned, the error being raised after the put). */
  function Declare<E>(m: map<string, E>, es: seq<E>, key: E -> string, keep: E -> bool): (map<string, E>, Option<nat>) {
    match FirstClash(m, es, key, keep, 0)
    case Some(i) => (PutAll(m, es[..i + 1], key, keep), Some(i))
    case None => (PutAll(m, es, key, keep), None)
  }

  /** A clash is reported for the first entity that replaced an entry, and that entity
      is what the map now holds under its key; without a clash every kept entity is
      registered under its key and the old entries stay. */
  lemma DeclareRegisters<E>(m: map<string, E>, es: seq<E>, key: E -> string, keep: E -> bool)
    ensures var (m1, clash) := Declare(m, es, key, keep);
      && (clash.Some? ==>
            clash.value < |es| && keep(es[clash.value]) && key(es[clash.value]) in m1 &&
            m1[key(es[clash.value])] == es[clash.value])
      && (clash.None? ==>
            Fresh(m, es, key, keep) &&
            (forall k :: k in m ==> k in m1 && m1[k] == m[k]) &&
            (forall i :: 0 <= i < |es| && keep(es[i]) ==> key(es[i]) in m1 && m1[key(es[i])] == es[i]))
  {
    match FirstClash(m, es, key, keep, 0)
    case Some(i) =>
      PutAllStep(m, es, key, keep, i);
    case None =>
      PutAllFresh(m, es, key, keep);
  }

  /** The index of the first clash, once all entities before it are known not to clash. */
  lemma FirstClashIs<E>(m: map<string, E>, es: seq<E>, key: E -> string, keep: E -> bool, i: nat)
    requires i < |es| && Clashes(m, es, key, keep, i)
    requires forall j :: 0 <= j < i ==> !Clashes(m, es, key, keep, j)
    ensures FirstClash(m, es, key, keep, 0) == Some(i)
  {
  }

  function ClassKey(c: ClassEntity): string { c.lowerName }
  function FunctionKey(f: FunctionEntity): string { f.lowerName }
  function ConstantKey(c: ConstantEntity): string { c.lowerName }

  /** Only classes and functions declared at the top level of the module (`isStatic`)
      are registered when the module is; every constant is. */
  predicate ClassKept(c: ClassEntity) { c.isStatic }
  predicate FunctionKept(f: FunctionEntity) { f.isStatic }
  predicate ConstantKept(c: ConstantEntity) { true }

  /** Putting entities never removes a key. */
  lemma {:induction false} PutAllGrows<E>(m: map<string, E>, es: seq<E>, key: E -> string, keep: E -> bool)
    ensures m.Keys <= PutAll(m, es, key, keep).Keys
    decreases |es|
  {
    if |es| > 0 {
      PutAllGrows(m, es[..|es| - 1], key, keep);
    }
  }

  /** Declaring the same entities again, after they were declared without a clash,
      clashes as soon as one of them is kept. */
  lemma DeclareTwiceClashes<E>(m: map<string, E>, es: seq<E>, key: E -> string, keep: E -> bool, i: nat)
    requires Declare(m, es, key, keep).1.None?
    requires i < |es| && keep(es[i])
    ensures Declare(Declare(m, es, key, keep).0, es, key, keep).1.Some?
  {
    var m1 := Declare(m, es, key, keep).0;
    PutAllKeys(m, es, key, keep);
    PutAllGrows(m1, es[..i], key, keep);
    assert Clashes(m1, es, key, keep, i);
  }

  /** The three maps `registerModule` fills. */
  datatype Declared = Declared(
    classes: map<string, ClassEntity>,
    functions: map<string, FunctionEntity>,
    constants: map<string, ConstantEntity>)

  /** The fatal error `registerModule` raises for a redeclared entity. */
  datatype Redeclaration = Redeclaration(trace: TraceInfo, text: Text)

  const REDECLARE_CLASS := "ERR_CANNOT_REDECLARE_CLASS"
  const REDECLARE_FUNCTION := "ERR_CANNOT_REDECLARE_FUNCTION"
  const REDECLARE_CONSTANT := "ERR_CANNOT_REDECLARE_CONSTANT"

  /** `registerModule(module)`: the classes, then the functions, then the constants are
      declared; the first redeclaration ends the registration with its error. */
  function Register(d: Declared, m: ModuleEntity): (r: (Declared, Option<Redeclaration>))
    ensures r.1.Some? ==>
      || (exists c :: c in m.classes && r.1.value == Redeclaration(c.trace, Text(REDECLARE_CLASS, [c.name])))
      || (exists f :: f in m.functions && r.1.value == Redeclaration(f.trace, Text(REDECLARE_FUNCTION, [f.name])))
      || (exists k :: k in m.constants && r.1.value == Redeclaration(k.trace, Text(REDECLARE_CONSTANT, [k.name])))
  {
    var (cm, ci) := Declare(d.classes, m.classes, ClassKey, ClassKept);
    if ci.Some? then
      var e := m.classes[ci.value];
      (d.(classes := cm), Some(Redeclaration(e.trace, Text(REDECLARE_CLASS, [e.name]))))
    else
      var (fm, fi) := Declare(d.functions, m.functions, FunctionKey, FunctionKept);
      if fi.Some? then
        var e := m.functions[fi.value];
        (d.(classes := cm, functions := fm), Some(Redeclaration(e.trace, Text(REDECLARE_FUNCTION, [e.name]))))
      else
        var (km, ki) := Declare(d.constants, m.constants, ConstantKey, ConstantKept);
        if ki.Some? then
          var e := m.constants[ki.value];
          (Declared(cm, fm, km), Some(Redeclaration(e.trace, Text(REDECLARE_CONSTANT, [e.name]))))
        else (Declared(cm, fm, km), None)
  }

  /** A module registered without error leaves every top-level class and function and
      every constant of it registered under its lower-case name, and every entry that
      was there before. A class redeclaration leaves the functions and constants
      alone, a function redeclaration the constants. */
  lemma RegisterDeclaresAll(d: Declared, m: ModuleEntity)
    ensures var (d1, err) := Register(d, m);
      && (err.None? ==>
            && (forall k :: k in d.classes ==> k in d1.classes && d1.classes[k] == d.classes[k])
            && (forall k :: k in d.functions ==> k in d1.functions && d1.functions[k] == d.functions[k])
            && (forall k :: k in d.constants ==> k in d1.constants && d1.constants[k] == d.constants[k])
            && (forall c :: c in m.classes && c.isStatic ==> c.lowerName in d1.classes)
            && (forall f :: f in m.functions && f.isStatic ==> f.lowerName in d1.functions)
            && (forall k :: k in m.constants ==> k.lowerName in d1.constants))
      && (Declare(d.classes, m.classes, ClassKey, ClassKept).1.Some? ==> d1.functions == d.functions && d1.constants == d.constants)
      && ((Declare(d.classes, m.classes, ClassKey, ClassKept).1.None? &&
           Declare(d.functions, m.functions, FunctionKey, FunctionKept).1.Some?) ==> d1.constants == d.constants)
  {
    DeclareRegisters(d.classes, m.classes, ClassKey, ClassKept);
    DeclareRegisters(d.functions, m.functions, FunctionKey, FunctionKept);
    DeclareRegisters(d.constants, m.constants, ConstantKey, ConstantKept);
    PutAllKeys(d.classes, m.classes, ClassKey, ClassKept);
    PutAllKeys(d.functions, m.functions, FunctionKey, FunctionKept);
    PutAllKeys(d.constants, m.constants, ConstantKey, ConstantKept);
  }

  /** Registering a module a second time, after it registered without error, is a
      redeclaration as soon as it declares anything. */
  lemma RegisterTwiceFails(d: Declared, m: ModuleEntity)
    requires Register(d, m).1.None?
    requires (exists i :: 0 <= i < |m.classes| && m.classes[i].isStatic)
          || (exists i :: 0 <= i < |m.functions| && m.functions[i].isStatic) || |m.constants| > 0
    ensures Register(Register(d, m).0, m).1.Some?
  {
    var d1 := Register(d, m).0;
    if i :| 0 <= i < |m.classes| && m.classes[i].isStatic {
      DeclareTwiceClashes(d.classes, m.classes, ClassKey, ClassKept, i);
    } else if i :| 0 <= i < |m.functions| && m.functions[i].isStatic {
      DeclareTwiceClashes(d.functions, m.functions, FunctionKey, FunctionKept, i);
    } else {
      DeclareTwiceClashes(d.constants, m.constants, ConstantKey, ConstantKept, 0);
    }
  }

  // ---------------------------------------------------------------------------
  // Constants

  /** `findConstant(name, nameLower)`: the constant registered under `nameLower`,
      unless it is case-sensitive and `name` is not spelled exactly as it was
      defined; failing that, the compile-time constant named `name`. */
  function FindConstant(constants: map<string, ConstantEntity>, compile: map<string, Value>,
                        name: string, nameLower: string): Option<Value>
  {
    if nameLower in constants && (!constants[nameLower].caseSensitise || name == constants[nameLower].name) then
      Some(constants[nameLower].value)
    else if name in compile then Some(compile[name])
    else None
  }

  /** The entity `defineConstant` stores. */
  function NewConstant(name: string, value: Value, caseSensitise: bool): ConstantEntity {
    ConstantEntity(name, Lower(name), value, caseSensitise, Unknown)
  }

  /** `defineConstant(name, value, caseSensitise)`: whether it defined the constant,
      and the constant map afterwards. */
  function DefineConstant(constants: map<string, ConstantEntity>, compile: map<string, Value>,
                          name: string, value: Value, caseSensitise: bool): (bool, map<string, ConstantEntity>)
  {
    if FindConstant(constants, compile, name, Lower(name)).Some? then (false, constants)
    else (true, constants[Lower(name) := NewConstant(name, value, caseSensitise)])
  }

  /** How a registered constant resolves: under any spelling with its lower-case key,
      unless it is case-sensitive, in which case only its exact name finds it and any
      other spelling falls back to the compile-time constants. */
  lemma ConstantLookupRules(constants: map<string, ConstantEntity>, compile: map<string, Value>,
                            spelling: string)
    requires Lower(spelling) in constants
    ensures var c := constants[Lower(spelling)];
      var r := FindConstant(constants, compile, spelling, Lower(spelling));
      && (!c.caseSensitise ==> r == Some(c.value))
      && (c.caseSensitise && spelling == c.name ==> r == Some(c.value))
      && (c.caseSensitise && spelling != c.name ==> r == (if spelling in compile then Some(compile[spelling]) else None))
  {
  }

  /** A name with no registered constant resolves to the compile-time constant of
      that exact name, if any. */
  lemma UnregisteredConstantFallsBack(constants: map<string, ConstantEntity>, compile: map<string, Value>,
                                      spelling: string)
    requires Lower(spelling) !in constants
    ensures FindConstant(constants, compile, spelling, Lower(spelling)) ==
      (if spelling in compile then Some(compile[spelling]) else None)
  {
  }

  /** `defineConstant` fails, and changes nothing, exactly when the name already
      resolves; otherwise it stores the constant under its lower-case name. */
  lemma DefineFailsIffVisible(constants: map<string, ConstantEntity>, compile: map<string, Value>,
                              name: string, value: Value, caseSensitise: bool)
    ensures var (defined, after) := DefineConstant(constants, compile, name, value, caseSensitise);
      && (!defined <==> FindConstant(constants, compile, name, Lower(name)).Some?)
      && (!defined ==> after == constants)
      && (defined ==> after == constants[Lower(name) := NewConstant(name, value, caseSensitise)])
  {
  }

  /** A constant just defined is what its name, spelled as defined, resolves to, and a
      case-insensitive one resolves under any spelling with the same lower case. */
  lemma DefinedConstantResolves(constants: map<string, ConstantEntity>, compile: map<string, Value>,
                                name: string, value: Value, caseSensitise: bool, spelling: string)
    requires DefineConstant(constants, compile, name, value, caseSensitise).0
    ensures var after := DefineConstant(constants, compile, name, value, caseSensitise).1;
      FindConstant(after, compile, name, Lower(name)) == Some(value)
    ensures var after := DefineConstant(constants, compile, name, value, caseSensitise).1;
      !caseSensitise && Lower(spelling) == Lower(name) ==> FindConstant(after, compile, spelling, Lower(spelling)) == Some(value)
  {
  }

  /** Defining is idempotent in what it promises: once defined, a second definition
      under the same name fails and changes nothing. */
  lemma DefineTwiceFails(constants: map<string, ConstantEntity>, compile: map<string, Value>,
                         name: string, v1: Value, v2: Value, cs1: bool, cs2: bool)
    requires DefineConstant(constants, compile, name, v1, cs1).0
    ensures var after := DefineConstant(constants, compile, name, v1, cs1).1;
      DefineConstant(after, compile, name, v2, cs2) == (false, after)
  {
    DefinedConstantResolves(constants, compile, name, v1, cs1, name);
  }

  /** The map is keyed by lower case only, so a case-sensitive constant is replaced by
      the definition of another case-sensitive constant spelled differently: once
      `first` is defined, defining `second` succeeds exactly when no compile-time
      constant is spelled `second`, and then `second` resolves and `first` no longer
      does. */
  lemma CaseVariantReplacesConstant(constants: map<string, ConstantEntity>, compile: map<string, Value>,
                                    first: string, second: string, v1: Value, v2: Value)
    requires first != second && Lower(first) == Lower(second)
    requires DefineConstant(constants, compile, first, v1, true).0
    ensures var after1 := DefineConstant(constants, compile, first, v1, true).1;
      var (defined, after2) := DefineConstant(after1, compile, second, v2, true);
      && FindConstant(after1, compile, first, Lower(first)) == Some(v1)
      && (defined <==> second !in compile)
      && (defined ==> FindConstant(after2, compile, second, Lower(second)) == Some(v2))
      && (defined ==> FindConstant(after2, compile, first, Lower(first)) == None)
  {
  }

  // ---------------------------------------------------------------------------
  // Autoloaders

  /** No loader appears twice. */
  predicate NoDuplicates(ls: seq<Loader>) {
    forall i, j :: 0 <= i < j < |ls| ==> ls[i] != ls[j]
  }

  /** `registerAutoloader(l, prepend)`: the list with `l` added first or last, or
      unchanged when an equal loader is already registered. */
  function Registered(ls: seq<Loader>, l: Loader, prepend: bool): seq<Loader> {
    if l in ls then ls else if prepend then [l] + ls else ls + [l]
  }

  /** `unRegisterAutoloader(l)`: the list without any loader equal to `l`, the others
      in their order. */
  function Unregistered(ls: seq<Loader>, l: Loader): seq<Loader>
    decreases |ls|
  {
    if |ls| == 0 then []
    else (if ls[0] == l then [] else [ls[0]]) + Unregistered(ls[1..], l)
  }

  /** One step of the loop of `unRegisterAutoloader`: the first loader is kept, unless
      it equals `l`, and the rest is filtered in turn. */
  lemma UnregisteredStep(kept: seq<Loader>, ls: seq<Loader>, l: Loader)
    requires |ls| > 0
    ensures ls[0] == l ==> kept + Unregistered(ls, l) == kept + Unregistered(ls[1..], l)
    ensures ls[0] != l ==> kept + Unregistered(ls, l) == (kept + [ls[0]]) + Unregistered(ls[1..], l)
    ensures l in ls <==> ls[0] == l || l in ls[1..]
  {
    assert ls == [ls[0]] + ls[1..];
  }

  /** Registering never creates a duplicate, always leaves `l` registered, and puts a
      new loader at the requested end. */
  lemma RegisteredKeepsUnique(ls: seq<Loader>, l: Loader, prepend: bool)
    requires NoDuplicates(ls)
    ensures NoDuplicates(Registered(ls, l, prepend))
    ensures l in Registered(ls, l, prepend)
    ensures l !in ls ==> (|Registered(ls, l, prepend)| == |ls| + 1 &&
      if prepend then Registered(ls, l, prepend)[0] == l else Registered(ls, l, prepend)[|ls|] == l)
    ensures forall x :: x in Registered(ls, l, prepend) <==> x in ls || x == l
  {
    var r := Registered(ls, l, prepend);
    if l !in ls {
      if prepend {
        forall i, j | 0 <= i < j < |r| ensures r[i] != r[j] {
          if i > 0 { assert r[i] == ls[i - 1] && r[j] == ls[j - 1]; } else { assert r[j] == ls[j - 1]; }
        }
      } else {
        forall i, j | 0 <= i < j < |r| ensures r[i] != r[j] {
          if j < |ls| { assert r[i] == ls[i] && r[j] == ls[j]; } else { assert r[i] == ls[i]; }
        }
      }
    }
  }

  /** Unregistering removes every loader equal to `l` and nothing else, keeps the
      rest in order, and shortens the list exactly when `l` was registered. */
  lemma {:induction false} UnregisteredRemovesAll(ls: seq<Loader>, l: Loader)
    ensures forall x :: x in Unregistered(ls, l) <==> x in ls && x != l
    ensures |Unregistered(ls, l)| < |ls| <==> l in ls
    ensures |Unregistered(ls, l)| <= |ls|
    ensures l !in ls ==> Unregistered(ls, l) == ls
    decreases |ls|
  {
    if |ls| > 0 {
      UnregisteredRemovesAll(ls[1..], l);
      assert ls == [ls[0]] + ls[1..];
      forall x ensures x in ls <==> x == ls[0] || x in ls[1..] { }
    }
  }

  /** Unregistering keeps a list free of duplicates. */
  lemma {:induction false} UnregisteredKeepsUnique(ls: seq<Loader>, l: Loader)
    requires NoDuplicates(ls)
    ensures NoDuplicates(Unregistered(ls, l))
    decreases |ls|
  {
    if |ls| > 0 {
      assert NoDuplicates(ls[1..]) by {
        forall i, j | 0 <= i < j < |ls[1..]| ensures ls[1..][i] != ls[1..][j] {
          assert ls[1..][i] == ls[i + 1] && ls[1..][j] == ls[j + 1];
        }
      }
      UnregisteredKeepsUnique(ls[1..], l);
      UnregisteredRemovesAll(ls[1..], l);
      var rest := Unregistered(ls[1..], l);
      if ls[0] != l {
        assert ls[0] !in ls[1..];
        var r := [ls[0]] + rest;
        forall i, j | 0 <= i < j < |r| ensures r[i] != r[j] {
          assert r[j] == rest[j - 1];
          if i > 0 { assert r[i] == rest[i - 1]; } else { assert r[j] in rest; }
        }
      } else {
        assert Unregistered(ls, l) == rest;
      }
    }
  }
}
