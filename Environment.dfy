/** The run-time environment of one script execution (`Environment`): its call stack,
    error reporting and silencing, output buffers, configuration, the classes,
    functions and constants loaded into it, module import, and the shutdown sequence.
    The compile scope it draws declarations from is shared and never changed here. */
module Env {
  import opened Common
  import opened Runtime
  import Silence
  import Buffers
  import Config
  import Registry
  import Loading
  import Lifecycle
  import Resolution

  /** The initial capacity of the call-stack array. */
  const CALL_STACK_INIT_SIZE: nat := 255

  /** The output stream under the root buffer. A child environment writes to its
      parent's stream. */
  class Sink {
    var written: string

    constructor ()
      ensures written == ""
    {
      written := "";
    }
  }

  /** How `doFinal` ends: normally, by exiting the process with a code (a shutdown
      function died), or with a failure escaping to the host. */
  datatype FinalResult = Finished | Exited(code: int) | Escaped(failure: Failure)

  /** The environment's shutdown-related state at one moment: what `Ended` relates a
      later state to. */
  datatype ShutdownState = ShutdownState(
    gcObjects: seq<Lifecycle.GcEntry>, finalized: set<nat>, destructed: seq<ObjectRef>,
    uncaught: seq<Failure>, written: string, outputBuffers: seq<OutputBuffer>,
    lastMessage: Option<SystemMessage>, callStack: array<Option<Frame>>, callStackTop: int,
    maxCallStackTop: int, frames: seq<Frame>)

  /** A failure `catchUncaught` reports and swallows: script exceptions and fatal
      errors. Anything else is rethrown to the host. */
  predicate Reportable(f: Failure) {
    f.ScriptException? || f.UserCode? || f.Fatal?
  }

  /** The text after the last namespace separator `\` of a name, the whole name when
      it has none (`__getConstant`'s fallback value). */
  function Unqualified(name: string): string
    decreases |name|
  {
    if |name| == 0 then ""
    else if name[|name| - 1] == '\\' then ""
    else Unqualified(name[..|name| - 1]) + [name[|name| - 1]]
  }

  /** The unqualified name is the longest suffix of the name without a separator: a
      suffix, free of `\\`, and either the whole name or preceded by a `\\`. */
  lemma {:induction false} UnqualifiedIsLastSegment(name: string)
    ensures var r := Unqualified(name);
      && '\\' !in r
      && |r| <= |name| && r == name[|name| - |r|..]
      && (|r| < |name| ==> name[|name| - |r| - 1] == '\\')
    decreases |name|
  {
    if |name| > 0 && name[|name| - 1] != '\\' {
      var init := name[..|name| - 1];
      var c := name[|name| - 1];
      UnqualifiedIsLastSegment(init);
      var u := Unqualified(init);
      assert Unqualified(name) == u + [c];
      assert name == init + [c];
      assert name[|name| - |u| - 1..] == init[|init| - |u|..] + [c];
      if |u| < |init| {
        assert name[|name| - |u| - 2] == init[|init| - |u| - 1];
      }
    } else if |name| > 0 {
      assert name[|name|..] == [];
    }
  }

  // Message templates (`Messages`) and literal messages of the source.
  const NO_CLASS_SCOPE := "Cannot access parent:: when no class scope is active"
  const NO_PARENT := "Cannot access parent:: when current class scope has no parent"
  const UNDEFINED_CONSTANT := "ERR_USE_UNDEFINED_CONSTANT"
  const INCLUDE_FAILED := "ERR_INCLUDE_FAILED"
  const REQUIRE_FAILED := "ERR_REQUIRE_FAILED"

  /** The failure `error(trace, message)` raises: an unhandled fatal `E_ERROR`. */
  function Redeclared(e: Registry.Redeclaration): Failure {
    Fatal(ErrorException(E_ERROR, e.text, Some(e.trace)))
  }

  /** The same as the result of `__getParentClass`. */
  function NoParent(trace: Option<TraceInfo>, text: Text): Outcome<Option<ClassEntity>> {
    Thrown(Fatal(ErrorException(E_ERROR, text, trace)))
  }

  /** The four forms of `__import`. */
  datatype ImportKind = Include | IncludeOnce | Require | RequireOnce {
    /** The function name the frame of the included code carries. */
    function Name(): string {
      match this
      case Include => "include"
      case IncludeOnce => "include_once"
      case Require => "require"
      case RequireOnce => "require_once"
    }

    /** Whether an already compiled file is skipped. */
    predicate Once() {
      this == IncludeOnce || this == RequireOnce
    }

    /** Whether a missing file is a fatal error rather than a warning. */
    predicate Required() {
      this == Require || this == RequireOnce
    }

    function MissingKind(): ErrorType {
      if Required() then E_ERROR else E_WARNING
    }

    function MissingText(path: string): Text {
      if Required() then Text(REQUIRE_FAILED, [Name(), path]) else Text(INCLUDE_FAILED, [Name()])
    }
  }

  /** What the top-level code of a module yields when included. */
  function BodyOutcome(b: BodyResult): Outcome<Value> {
    match b
    case Returns(v) => Normal(v)
    case Raises(origin) => Thrown(UserCode(origin))
  }

  /** How the loop of `doFinal` ends: the result of the first shutdown function that
      does not return normally, `Finishes` when they all do. */
  function StopResult(hs: seq<ShutdownHandler>): ShutdownResult {
    if Lifecycle.Stop(hs) < |hs| then hs[Lifecycle.Stop(hs)].result else Finishes
  }

  class Environment {
    /** The compile scope shared by all environments of the program. */
    const scope: CompileScope
    /** The output stream the root buffer flushes to. */
    const sink: Sink
    /** The modules the module manager can compile, by path. */
    const files: map<string, ModuleEntity>

    // call stack
    var callStack: array<Option<Frame>>
    var callStackTop: int
    var maxCallStackTop: int

    // errors
    var errorFlags: bv32
    var silentFlags: seq<bv32>
    var lastMessage: Option<SystemMessage>
    /** Whether an error report handler is installed (a new environment installs one). */
    var hasReportHandler: bool
    var errorHandler: Option<ErrorHandler>
    var previousErrorHandler: Option<ErrorHandler>
    /** The messages passed to the user error handler, in order. */
    var offered: seq<SystemMessage>
    /** The messages passed to the error report handler, in order. */
    var reported: seq<SystemMessage>

    // output
    var outputBuffers: seq<OutputBuffer>

    // configuration
    var configuration: map<string, Value>
    /** The calls of configuration change handlers, in order. */
    var configChanges: seq<ConfigChange>

    // classes, functions, constants
    var classMap: map<string, ClassEntity>
    var functionMap: map<string, FunctionEntity>
    var constantMap: map<string, ConstantEntity>
    /** The classes initialised for this environment, with how often. */
    var classInits: multiset<ClassEntity>
    var defaultAutoLoader: Option<Loader>
    var classLoaders: seq<Loader>
    /** The callbacks of the class loaders run, in order. */
    var loaderCalls: seq<string>
    var autoloadLocks: set<string>

    // modules
    /** The module manager's cache of compiled modules by path. */
    var moduleCache: map<string, ModuleEntity>
    /** The paths whose top-level code ran, in order. */
    var included: seq<string>

    // shutdown
    var shutdownFunctions: seq<ShutdownHandler>
    /** The shutdown functions called, in order. */
    var shutdownCalls: seq<string>
    /** The failures `catchUncaught` reported, in order. */
    var uncaught: seq<Failure>
    var gcObjects: seq<Lifecycle.GcEntry>
    /** The ids of the objects finalized. */
    var finalized: set<nat>
    /** The objects whose destructor ran, in order. */
    var destructed: seq<ObjectRef>

    // vars
    var statics: map<string, Cell>
    var userValues: map<string, Option<Value>>

    // -------------------------------------------------------------------------
    // Invariants and abstractions

    /** The call stack: an array at least as large as initially allocated, the `top`
        frames at its start, none of them missing. `top` may be negative: popping an
        empty stack still decrements it. */
    predicate StackValid()
      reads this`callStack, this`callStackTop, callStack
    {
      && CALL_STACK_INIT_SIZE <= callStack.Length
      && callStackTop <= callStack.Length
      && forall i :: 0 <= i < callStackTop ==> callStack[i].Some?
    }

    predicate Valid()
      reads this`callStack, this`callStackTop, callStack, this`outputBuffers
    {
      StackValid() && Buffers.WellFormed(outputBuffers)
    }

    /** The frames on the stack, from the bottom. */
    ghost function Frames(): (r: seq<Frame>)
      reads this`callStack, this`callStackTop, callStack
      requires StackValid()
      ensures |r| == if callStackTop < 0 then 0 else callStackTop
    {
      var a := callStack;
      var n := if callStackTop < 0 then 0 else callStackTop;
      seq(n, i requires 0 <= i < n reads a => a[i].GetOr(NewFrame(None, None, [], "", None, None)))
    }

    /** The error mask and the masks saved by silencing. */
    ghost function Mask(): Silence.Mask
      reads this`errorFlags, this`silentFlags
    {
      Silence.Mask(errorFlags, silentFlags)
    }

    /** The maps `registerModule` fills. */
    ghost function Declared(): Registry.Declared
      reads this`classMap, this`functionMap, this`constantMap
    {
      Registry.Declared(classMap, functionMap, constantMap)
    }

    /** What class lookup and autoloading change. */
    ghost function Loads(): Loading.LoadState
      reads this`classMap, this`classInits, this`loaderCalls
    {
      Loading.LoadState(classMap, classInits, loaderCalls)
    }

    // -------------------------------------------------------------------------
    // Construction

    /** `Environment(scope, output)`: an empty call stack, the default error mask, the
        default report handler, the root buffer only, and the scope's functions and
        constants. `defaultAutoLoader` is the loader made from the script function
        `__$jphp_spl_autoload` when the scope defines one. */
    constructor (scope: CompileScope, sink: Sink, files: map<string, ModuleEntity>, defaultAutoLoader: Option<Loader>)
      ensures Valid() && callStackTop == 0 && maxCallStackTop == -1 && Frames() == []
      ensures this.scope == scope && this.sink == sink && this.files == files
      ensures errorFlags == DefaultErrorFlags && silentFlags == [] && lastMessage == None
      ensures hasReportHandler && errorHandler == None && previousErrorHandler == None
      ensures outputBuffers == [Buffers.Root()]
      ensures configuration == map[] && classMap == map[]
      ensures functionMap == scope.functionMap && constantMap == scope.constantMap
      ensures this.defaultAutoLoader == defaultAutoLoader && classLoaders == []
      ensures moduleCache == map[] && gcObjects == [] && shutdownFunctions == []
      ensures offered == [] && reported == [] && configChanges == []
      ensures classInits == multiset{} && loaderCalls == [] && autoloadLocks == {}
      ensures included == [] && shutdownCalls == [] && uncaught == []
      ensures finalized == {} && destructed == [] && statics == map[] && userValues == map[]
    {
      this.scope := scope;
      this.sink := sink;
      this.files := files;
      callStack := new Option<Frame>[CALL_STACK_INIT_SIZE](_ => None);
      callStackTop := 0;
      maxCallStackTop := -1;
      errorFlags := DefaultErrorFlags;
      silentFlags := [];
      lastMessage := None;
      hasReportHandler := true;
      errorHandler := None;
      previousErrorHandler := None;
      offered := [];
      reported := [];
      outputBuffers := [Buffers.Root()];
      configuration := map[];
      configChanges := [];
      classMap := map[];
      functionMap := scope.functionMap;
      constantMap := scope.constantMap;
      classInits := multiset{};
      this.defaultAutoLoader := defaultAutoLoader;
      classLoaders := [];
      loaderCalls := [];
      autoloadLocks := {};
      moduleCache := map[];
      included := [];
      shutdownFunctions := [];
      shutdownCalls := [];
      uncaught := [];
      gcObjects := [];
      finalized := {};
      destructed := [];
      statics := map[];
      userValues := map[];
    }

    /** `Environment(parent)`: a fresh environment on the parent's scope and output
        stream that starts with the parent's configuration, loaded classes (each
        initialised anew for the child), functions, constants and compiled modules.
        Everything else starts as in `Environment(scope, output)`; the default
        autoloader is made from the same scope, so it is the parent's. */
    constructor Child(parent: Environment)
      ensures Valid() && callStackTop == 0 && Frames() == []
      ensures scope == parent.scope && sink == parent.sink && files == parent.files
      ensures configuration == parent.configuration
      ensures classMap == parent.classMap && classInits == multiset(parent.classMap.Values)
      ensures functionMap == parent.scope.functionMap + parent.functionMap
      ensures constantMap == parent.scope.constantMap + parent.constantMap
      ensures moduleCache == parent.moduleCache
      ensures outputBuffers == [Buffers.Root()] && errorFlags == DefaultErrorFlags
      ensures maxCallStackTop == -1 && silentFlags == [] && lastMessage == None
      ensures hasReportHandler && errorHandler == None && previousErrorHandler == None
      ensures defaultAutoLoader == parent.defaultAutoLoader && classLoaders == []
      ensures gcObjects == [] && shutdownFunctions == []
      ensures offered == [] && reported == [] && configChanges == []
      ensures loaderCalls == [] && autoloadLocks == {}
      ensures included == [] && shutdownCalls == [] && uncaught == []
      ensures finalized == {} && destructed == [] && statics == map[] && userValues == map[]
    {
      scope := parent.scope;
      sink := parent.sink;
      files := parent.files;
      callStack := new Option<Frame>[CALL_STACK_INIT_SIZE](_ => None);
      callStackTop := 0;
      maxCallStackTop := -1;
      errorFlags := DefaultErrorFlags;
      silentFlags := [];
      lastMessage := None;
      hasReportHandler := true;
      errorHandler := None;
      previousErrorHandler := None;
      offered := [];
      reported := [];
      outputBuffers := [Buffers.Root()];
      configuration := parent.configuration;
      configChanges := [];
      classMap := parent.classMap;
      functionMap := parent.scope.functionMap + parent.functionMap;
      constantMap := parent.scope.constantMap + parent.constantMap;
      classInits := multiset(parent.classMap.Values);
      defaultAutoLoader := parent.defaultAutoLoader;
      classLoaders := [];
      loaderCalls := [];
      autoloadLocks := {};
      moduleCache := parent.moduleCache;
      included := [];
      shutdownFunctions := [];
      shutdownCalls := [];
      uncaught := [];
      gcObjects := [];
      finalized := {};
      destructed := [];
      statics := map[];
      userValues := map[];
    }

    // -------------------------------------------------------------------------
    // Call stack

    /** The growth step of `pushCall`: a new array twice as large, holding the old
        one's slots at its start and nothing after them. */
    static method Doubled(a: array<Option<Frame>>) returns (b: array<Option<Frame>>)
      ensures fresh(b) && b.Length == 2 * a.Length
      ensures forall j :: 0 <= j < a.Length ==> b[j] == a[j]
      ensures forall j :: a.Length <= j < b.Length ==> b[j].None?
    {
      b := new Option<Frame>[a.Length * 2](_ => None);
      var i := 0;
      while i < a.Length
        invariant 0 <= i <= a.Length
        invariant forall j :: 0 <= j < i ==> b[j] == a[j]
        invariant forall j :: a.Length <= j < b.Length ==> b[j].None?
      {
        b[i] := a[i];
        i := i + 1;
      }
    }

    /** `pushCall(stackItem)`: the frame goes on top, the array doubling first when it
        is full. After excess pops (`top` negative) the store fails with
        `ArrayIndexOutOfBoundsException`, but `top` has already been incremented. */
    method PushCall(f: Frame) returns (c: Completion)
      requires Valid()
      modifies this`callStack, this`callStackTop, this`maxCallStackTop, callStack
      ensures Valid()
      ensures callStackTop == old(callStackTop) + 1
      ensures old(callStackTop) >= 0 ==> c == Completed && Frames() == old(Frames()) + [f] && maxCallStackTop == callStackTop
      ensures old(callStackTop) < 0 ==> c == Threw(ArrayIndexOutOfBounds) && maxCallStackTop == old(maxCallStackTop)
      ensures old(callStackTop) >= old(callStack.Length) ==> fresh(callStack) && callStack.Length == 2 * old(callStack.Length)
      ensures old(callStackTop) < old(callStack.Length) ==> callStack == old(callStack)
      ensures callStack == old(callStack) || fresh(callStack)
    {
      if callStackTop >= callStack.Length {
        callStack := Doubled(callStack);
        assert Frames() == old(Frames());
      }
      if callStackTop < 0 {
        callStackTop := callStackTop + 1;
        return Threw(ArrayIndexOutOfBounds);
      }
      callStack[callStackTop] := Some(f);
      callStackTop := callStackTop + 1;
      maxCallStackTop := callStackTop;
      c := Completed;
    }

    /** `pushCall(trace, self, args, function, clazz, staticClazz)`: the same, with a
        frame that has nothing cached yet (a reused slot is reset by `setParameters`). */
    method PushFrame(trace: Option<TraceInfo>, self: Option<ObjectRef>, args: seq<Value>,
                     functionName: string, clazz: Option<string>, staticClazz: Option<string>)
      returns (c: Completion)
      requires Valid()
      modifies this`callStack, this`callStackTop, this`maxCallStackTop, callStack
      ensures Valid()
      ensures callStackTop == old(callStackTop) + 1
      ensures old(callStackTop) >= 0 ==>
        c == Completed && Frames() == old(Frames()) + [NewFrame(trace, self, args, functionName, clazz, staticClazz)]
      ensures old(callStackTop) < 0 ==> c == Threw(ArrayIndexOutOfBounds)
      ensures maxCallStackTop == if old(callStackTop) >= 0 then callStackTop else old(maxCallStackTop)
      ensures callStack == old(callStack) || fresh(callStack)
    {
      c := PushCall(NewFrame(trace, self, args, functionName, clazz, staticClazz));
    }

    /** `popCall()`: the top frame is released. On an empty stack `top` still goes
        down and `IllegalThreadStateException` is raised. */
    method PopCall() returns (c: Completion)
      requires Valid()
      modifies this`callStackTop, callStack
      ensures Valid()
      ensures callStackTop == old(callStackTop) - 1
      ensures old(callStackTop) <= 0 ==> c == Threw(IllegalThreadState)
      ensures old(callStackTop) > 0 ==> c == Completed && Frames() == old(Frames())[..old(callStackTop) - 1]
    {
      callStackTop := callStackTop - 1;
      if callStackTop < 0 {
        return Threw(IllegalThreadState);
      }
      callStack[callStackTop] := None;
      c := Completed;
    }

    /** `peekCall(depth)`: the frame `depth` places below the top, none past the bottom. */
    function PeekCall(depth: nat): (r: Option<Frame>)
      reads this`callStack, this`callStackTop, callStack
      requires StackValid()
      ensures depth < callStackTop ==> r == Some(Frames()[callStackTop - 1 - depth])
      ensures depth >= callStackTop ==> r == None
    {
      if callStackTop - depth > 0 then callStack[callStackTop - depth - 1] else None
    }

    /** `trace()`: where the running frame is, `UNKNOWN` outside any frame. */
    function Trace(): (r: Option<TraceInfo>)
      reads this`callStack, this`callStackTop, callStack
      requires StackValid()
      ensures callStackTop <= 0 ==> r == Some(Unknown)
      ensures callStackTop > 0 ==> r == Frames()[callStackTop - 1].trace
    {
      if callStackTop <= 0 then Some(Unknown) else PeekCall(0).value.trace
    }

    /** `getCallStackSnapshot()`: copies of the frames, bottom first;
        `IllegalThreadStateException` once `top` has gone negative. */
    method GetCallStackSnapshot() returns (r: Outcome<seq<Frame>>)
      requires Valid()
      ensures callStackTop < 0 ==> r == Thrown(IllegalThreadState)
      ensures callStackTop >= 0 ==> r == Normal(Frames())
    {
      if callStackTop < 0 {
        return Thrown(IllegalThreadState);
      }
      var result: seq<Frame> := [];
      var i := 0;
      while i < callStack.Length && i != callStackTop
        invariant 0 <= i <= callStackTop
        invariant result == Frames()[..i]
      {
        result := result + [callStack[i].value];
        i := i + 1;
      }
      assert i == callStackTop;
      assert result == Frames();
      return Normal(result);
    }

    /** `getLateStatic()`: the late-static-binding class name of the running frame,
        empty outside a class. */
    function GetLateStatic(): (r: string)
      reads this`callStack, this`callStackTop, callStack
      requires StackValid()
      ensures callStackTop <= 0 ==> r == ""
      ensures callStackTop > 0 && Frames()[callStackTop - 1].clazz.None? ==> r == ""
      ensures callStackTop > 0 && Frames()[callStackTop - 1].clazz.Some? ==>
        r == Frames()[callStackTop - 1].staticClazz.GetOr(Frames()[callStackTop - 1].clazz.value)
    {
      match PeekCall(0)
      case None => ""
      case Some(f) =>
        if f.clazz.None? then "" else if f.staticClazz.None? then f.clazz.value else f.staticClazz.value
    }

    /** `getContext()`: the class name of the caller's frame, empty when there is none. */
    function GetContext(): (r: string)
      reads this`callStack, this`callStackTop, callStack
      requires StackValid()
      ensures callStackTop <= 1 ==> r == ""
      ensures callStackTop > 1 ==> r == Frames()[callStackTop - 2].clazz.GetOr("")
    {
      match PeekCall(1)
      case None => ""
      case Some(f) => f.clazz.GetOr("")
    }

    // -------------------------------------------------------------------------
    // Silencing (`@`)

    /** `__pushSilent()`: save the mask and report nothing. */
    method PushSilent()
      modifies this`errorFlags, this`silentFlags
      ensures Mask() == Silence.Push(old(Mask()))
    {
      silentFlags := silentFlags + [errorFlags];
      errorFlags := 0;
    }

    /** `__popSilent()`: restore the last saved mask; `EmptyStackException` when none. */
    method PopSilent() returns (c: Completion)
      modifies this`errorFlags, this`silentFlags
      ensures Silence.Pop(old(Mask())).None? ==> c == Threw(EmptyStack) && Mask() == old(Mask())
      ensures Silence.Pop(old(Mask())).Some? ==> c == Completed && Mask() == Silence.Pop(old(Mask())).value
    {
      if |silentFlags| == 0 {
        return Threw(EmptyStack);
      }
      errorFlags := silentFlags[|silentFlags| - 1];
      silentFlags := silentFlags[..|silentFlags| - 1];
      c := Completed;
    }

    /** `__clearSilent()`: unwind every saved mask, ending at the first one saved. */
    method ClearSilent()
      modifies this`errorFlags, this`silentFlags
      ensures Mask() == Silence.Clear(old(Mask()))
    {
      var flags: bv32 := 0;
      while |silentFlags| > 0
        invariant |silentFlags| <= |old(silentFlags)|
        invariant silentFlags == old(silentFlags)[..|silentFlags|]
        invariant flags == if |silentFlags| == |old(silentFlags)| then 0 else old(silentFlags)[|silentFlags|]
        decreases |silentFlags|
      {
        flags := silentFlags[|silentFlags| - 1];
        silentFlags := silentFlags[..|silentFlags| - 1];
      }
      errorFlags := flags;
    }

    // -------------------------------------------------------------------------
    // Errors

    /** `isHandleErrors(type)`: whether the mask reports this type. A silenced mask
        reports no type that has a bit, and a mask with every bit set reports every
        type. */
    predicate IsHandleErrors(t: ErrorType): (r: bool)
      reads this`errorFlags
      ensures errorFlags == 0 ==> (r <==> t.bit == 0)
      ensures errorFlags == 0xFFFF_FFFF ==> r
    {
      Check(errorFlags, t)
    }

    /** `setErrorFlags(flags)`. */
    method SetErrorFlags(flags: bv32)
      modifies this`errorFlags
      ensures errorFlags == flags
    {
      errorFlags := flags;
    }

    /** `setErrorHandler(handler)`: the handler replaced is kept as the previous one. */
    method SetErrorHandler(h: Option<ErrorHandler>)
      modifies this`errorHandler, this`previousErrorHandler
      ensures errorHandler == h && previousErrorHandler == old(errorHandler)
    {
      previousErrorHandler := errorHandler;
      errorHandler := h;
    }

    /** `setErrorReportHandler(handler)`: install (or remove) the report handler. */
    method SetErrorReportHandler(installed: bool)
      modifies this`hasReportHandler
      ensures hasReportHandler == installed
    {
      hasReportHandler := installed;
    }

    /** Whether `triggerMessage` passes `m` to the report handler: the user handler did
        not take it, a report handler is installed, and the mask reports its type. */
    predicate Reports(m: SystemMessage)
      reads this`errorHandler, this`hasReportHandler, this`errorFlags
    {
      && !(errorHandler.Some? && errorHandler.value.onError(m))
      && hasReportHandler
      && IsHandleErrors(m.kind)
    }

    /** Whether `error` delivers a diagnostic of this type as a message rather than
        raising it: it is not fatal, or it is a fatal type a user handler may take, a
        handler is installed and its flags accept the type. */
    predicate Delivers(t: ErrorType)
      reads this`errorHandler
    {
      !t.isFatal || (t.isHandled && errorHandler.Some? && Check(errorHandler.value.flags, t))
    }

    /** `triggerMessage(message)`: remember it as the last message, offer it to the user
        handler if there is one, and report it unless the handler took it. */
    method TriggerMessage(m: SystemMessage)
      modifies this`lastMessage, this`offered, this`reported
      ensures lastMessage == Some(m)
      ensures offered == old(offered) + (if errorHandler.Some? then [m] else [])
      ensures reported == old(reported) + (if Reports(m) then [m] else [])
    {
      lastMessage := Some(m);
      if errorHandler.Some? {
        offered := offered + [m];
        if errorHandler.value.onError(m) {
          return;
        }
      }
      if hasReportHandler && IsHandleErrors(m.kind) {
        reported := reported + [m];
      }
    }

    /** `triggerError(err)`: a fatal error, or one the mask reports, becomes the last
        message and unwinds; any other is dropped. */
    method TriggerError(err: ErrorException) returns (c: Completion)
      modifies this`lastMessage
      ensures err.kind.isFatal || IsHandleErrors(err.kind) ==>
        c == Threw(Fatal(err)) && lastMessage == Some(SystemMessage(err.kind, err.trace, err.text))
      ensures !(err.kind.isFatal || IsHandleErrors(err.kind)) ==> c == Completed && lastMessage == old(lastMessage)
    {
      if err.kind.isFatal || IsHandleErrors(err.kind) {
        lastMessage := Some(SystemMessage(err.kind, err.trace, err.text));
        return Threw(Fatal(err));
      }
      c := Completed;
    }

    /** `error(trace, type, message, args)`: a diagnostic that `Delivers` goes to
        `triggerMessage`; any other (fatal) one goes to `triggerError` and unwinds. */
    method Error(trace: Option<TraceInfo>, t: ErrorType, text: Text) returns (c: Completion)
      modifies this`lastMessage, this`offered, this`reported
      ensures Delivers(t) ==> (
        var m := SystemMessage(t, trace, text);
        && c == Completed
        && lastMessage == Some(m)
        && offered == old(offered) + (if errorHandler.Some? then [m] else [])
        && reported == old(reported) + (if Reports(m) then [m] else []))
      ensures !Delivers(t) ==>
        && c == Threw(Fatal(ErrorException(t, text, trace)))
        && lastMessage == Some(SystemMessage(t, trace, text))
        && offered == old(offered) && reported == old(reported)
    {
      if t.isFatal {
        if t.isHandled && errorHandler.Some? && Check(errorHandler.value.flags, t) {
          TriggerMessage(SystemMessage(t, trace, text));
          c := Completed;
        } else {
          c := TriggerError(ErrorException(t, text, trace));
        }
      } else {
        TriggerMessage(SystemMessage(t, trace, text));
        c := Completed;
      }
    }

    /** `exception(trace, message)`: silencing is cleared and a script exception
        carrying the message is raised. The variant with arguments passes the
        message on unformatted. */
    method Exception(trace: Option<TraceInfo>, message: string) returns (f: Failure)
      modifies this`errorFlags, this`silentFlags
      ensures f == ScriptException(message, trace)
      ensures Mask() == Silence.Clear(old(Mask()))
    {
      ClearSilent();
      f := ScriptException(message, trace);
    }

    // -------------------------------------------------------------------------
    // Output

    /** `pushOutputBuffer(callback, chunkSize, erase)`: a new buffer on top. */
    method PushOutputBuffer(callback: Option<Value>, chunkSize: int, erase: bool) returns (b: OutputBuffer)
      requires Buffers.WellFormed(outputBuffers)
      modifies this`outputBuffers
      ensures Buffers.WellFormed(outputBuffers)
      ensures outputBuffers == Buffers.Push(old(outputBuffers), callback, chunkSize, erase)
      ensures b == outputBuffers[|outputBuffers| - 1] && b.level == |old(outputBuffers)|
      ensures Buffers.Pending(outputBuffers) == Buffers.Pending(old(outputBuffers))
    {
      outputBuffers := Buffers.Push(outputBuffers, callback, chunkSize, erase);
      b := outputBuffers[|outputBuffers| - 1];
    }

    /** `popOutputBuffer()`: close the top buffer into the one below; none when the top
        is the root. */
    method PopOutputBuffer() returns (r: Option<OutputBuffer>)
      requires Buffers.WellFormed(outputBuffers)
      modifies this`outputBuffers
      ensures Buffers.WellFormed(outputBuffers)
      ensures Buffers.Pop(old(outputBuffers)).None? ==> r == None && outputBuffers == old(outputBuffers)
      ensures Buffers.Pop(old(outputBuffers)).Some? ==>
        outputBuffers == Buffers.Pop(old(outputBuffers)).value.0 && r == Some(Buffers.Pop(old(outputBuffers)).value.1)
      ensures Buffers.Pending(outputBuffers) == Buffers.Pending(old(outputBuffers))
    {
      Buffers.PopPreservesPending(outputBuffers);
      match Buffers.Pop(outputBuffers)
      case None =>
        r := None;
      case Some((rest, closed)) =>
        outputBuffers := rest;
        r := Some(closed);
    }

    /** `peekOutputBuffer()`: the top buffer. */
    function PeekOutputBuffer(): (r: OutputBuffer)
      reads this`outputBuffers
      requires Buffers.WellFormed(outputBuffers)
      ensures r == outputBuffers[|outputBuffers| - 1] && r.level == |outputBuffers| - 1
      ensures r.isRoot <==> |outputBuffers| == 1
    {
      outputBuffers[|outputBuffers| - 1]
    }

    /** `echo(text)`: written to the top buffer, after everything pending. */
    method Echo(text: string)
      requires Buffers.WellFormed(outputBuffers)
      modifies this`outputBuffers
      ensures Buffers.WellFormed(outputBuffers)
      ensures outputBuffers == Buffers.Write(old(outputBuffers), text)
      ensures Buffers.Pending(outputBuffers) == Buffers.Pending(old(outputBuffers)) + text
    {
      Buffers.WriteAppends(outputBuffers, text);
      Buffers.WriteKeepsWellFormed(outputBuffers, text);
      outputBuffers := Buffers.Write(outputBuffers, text);
    }

    /** `echo(memory)`: a value is written as its string form. */
    method EchoValue(v: Value)
      requires Buffers.WellFormed(outputBuffers)
      modifies this`outputBuffers
      ensures Buffers.WellFormed(outputBuffers)
      ensures Buffers.Pending(outputBuffers) == Buffers.Pending(old(outputBuffers)) + v.AsString()
    {
      Echo(v.AsString());
    }

    /** The loop of `flushAll`: pop until only the root is left, which then holds all
        the pending text. */
    method PopUserBuffers()
      requires Buffers.WellFormed(outputBuffers)
      modifies this`outputBuffers
      ensures Buffers.WellFormed(outputBuffers)
      ensures outputBuffers == [old(outputBuffers)[0].(content := Buffers.Pending(old(outputBuffers)))]
    {
      var popped := PopOutputBuffer();
      while popped.Some?
        invariant Buffers.WellFormed(outputBuffers)
        invariant Buffers.PopAll(outputBuffers) == Buffers.PopAll(old(outputBuffers))
        invariant popped.None? ==> Buffers.Pop(outputBuffers).None?
        decreases |outputBuffers|, if popped.Some? then 1 else 0
      {
        popped := PopOutputBuffer();
      }
      Buffers.PopAllCollapses(old(outputBuffers));
    }

    /** `flushAll()`: close every user buffer, then the root: all pending text reaches
        the output stream, in order, and the root is left empty and closed. */
    method FlushAll()
      requires Buffers.WellFormed(outputBuffers)
      modifies this`outputBuffers, sink
      ensures Buffers.WellFormed(outputBuffers)
      ensures sink.written == old(sink.written) + Buffers.Pending(old(outputBuffers))
      ensures outputBuffers == [old(outputBuffers)[0].(content := "", closed := true)]
    {
      PopUserBuffers();
      var (root, text) := Buffers.CloseRoot(outputBuffers[0]);
      outputBuffers := [root];
      sink.written := sink.written + text;
    }

    // Configuration

    /** `getConfigValue(name, default)`: this environment's value, else the scope's,
        else the default. */
    function GetConfigValue(name: string, default: Option<Value>): (r: Option<Value>)
      reads this`configuration
      ensures name in configuration ==> r == Some(configuration[name])
      ensures name !in configuration && scope.configuration.Some? && name in scope.configuration.value ==>
        r == Some(scope.configuration.value[name])
      ensures name !in configuration && !(scope.configuration.Some? && name in scope.configuration.value) ==>
        r == default
    {
      if scope.configuration.None? || name in configuration then
        (if name in configuration then Some(configuration[name]) else default)
      else if name in scope.configuration.value then Some(scope.configuration.value[name])
      else default
    }

    /** The scope's value for `name`, if the scope has a configuration holding it. */
    function ScopeValue(name: string): Option<Value> {
      if scope.configuration.Some? && name in scope.configuration.value then Some(scope.configuration.value[name]) else None
    }

    /** `getConfigValues(prefix, includingGlobal)`: the listed scope values, when asked
        for, overridden by the listed values of this environment. */
    method GetConfigValues(prefix: Option<string>, includingGlobal: bool) returns (r: map<string, Value>)
      ensures r == Config.Listing(scope.configuration, configuration, prefix, includingGlobal)
    {
      r := map[];
      if includingGlobal && scope.configuration.Some? {
        r := ListInto(r, scope.configuration.value, prefix);
      }
      r := ListInto(r, configuration, prefix);
    }

    /** One loop of `getConfigValues`: put each listed entry of `m` into the result. */
    static method ListInto(acc: map<string, Value>, m: map<string, Value>, prefix: Option<string>)
      returns (r: map<string, Value>)
      ensures r == acc + Config.Filter(m, prefix)
    {
      r := acc;
      var keys := m.Keys;
      while keys != {}
        invariant keys <= m.Keys
        invariant forall k :: k in r <==> k in acc || (k in m && k !in keys && Config.Listed(prefix, k))
        invariant forall k :: k in r ==> r[k] == if k in m && k !in keys && Config.Listed(prefix, k) then m[k] else acc[k]
        decreases keys
      {
        var k :| k in keys;
        if Config.Listed(prefix, k) {
          r := r[k := m[k]];
        }
        keys := keys - {k};
      }
      assert r.Keys == (acc + Config.Filter(m, prefix)).Keys;
    }

    /** `setConfigValue(name, value)`: store the value as a string, telling the key's
        change handler first; the previous value of this environment is returned. */
    method SetConfigValue(name: string, value: Value) returns (previous: Option<Value>)
      modifies this`configuration, this`configChanges
      ensures configuration == old(configuration)[name := Config.Coerce(value)]
      ensures previous == if name in old(configuration) then Some(old(configuration)[name]) else None
      ensures configChanges == old(configChanges) +
        (if name in Config.HandledKeys then [ConfigChange(name, Some(Config.Coerce(value)))] else [])
    {
      var v := Config.Coerce(value);
      if name in Config.HandledKeys {
        configChanges := configChanges + [ConfigChange(name, Some(v))];
      }
      previous := if name in configuration then Some(configuration[name]) else None;
      configuration := configuration[name := v];
    }

    /** `restoreConfigValue(name)`: drop this environment's value, telling the change
        handler the value now seen. */
    method RestoreConfigValue(name: string)
      modifies this`configuration, this`configChanges
      ensures configuration == old(configuration) - {name}
      ensures configChanges == old(configChanges) +
        (if name in Config.HandledKeys then [ConfigChange(name, ScopeValue(name))] else [])
    {
      configuration := configuration - {name};
      if name in Config.HandledKeys {
        configChanges := configChanges + [ConfigChange(name, GetConfigValue(name, None))];
      }
    }

    // -------------------------------------------------------------------------
    // Classes and autoloading

    /** `fetchClass(name, nameL, false)`: a loaded class, else the scope's class of
        that name, initialised for this environment and loaded. */
    method LookupClass(name: string, nameL: string) returns (r: Option<ClassEntity>)
      modifies this`classMap, this`classInits
      ensures (Loads(), r) == Loading.Fetch(old(Loads()), scope.userClasses, nameL)
    {
      if nameL in classMap {
        return Some(classMap[nameL]);
      }
      if nameL in scope.userClasses {
        var e := scope.userClasses[nameL];
        classInits := classInits + multiset{e};
        classMap := classMap[e.lowerName := e];
        return Some(e);
      }
      r := None;
    }

    /** `SplClassLoader.load(name)` on one loader. */
    method RunLoader(l: Loader, name: string) returns (c: Completion)
      modifies this`classMap, this`loaderCalls
      ensures (Loads(), c) == Loading.RunLoader(old(Loads()), l, name)
    {
      loaderCalls := loaderCalls + [l.callback];
      if l.raises {
        return Threw(UserCode(l.callback));
      }
      if name in l.declares {
        var d := l.declares[name];
        classMap := classMap[d.lowerName := d];
      }
      c := Completed;
    }

    /** `autoloadCall(name, lowerName)`: guarded against re-entry for the same name,
        the registered loaders are run in order until the class appears, then the
        default loader, then the class is looked up a last time. */
    method AutoloadCall(name: string, lowerName: string) returns (r: Outcome<Option<ClassEntity>>)
      modifies this`classMap, this`classInits, this`loaderCalls, this`autoloadLocks
      ensures (Loads(), autoloadLocks, r) == Loading.AutoloadCall(old(Loads()), old(autoloadLocks),
        scope.userClasses, classLoaders, defaultAutoLoader, name, lowerName)
    {
      if !Loading.ValidClassName(name) || lowerName in autoloadLocks {
        return Normal(None);
      }
      autoloadLocks := autoloadLocks + {lowerName};
      ghost var s0 := Loads();
      var i := 0;
      while i < |classLoaders|
        invariant 0 <= i <= |classLoaders|
        invariant Loading.TryLoaders(s0, scope.userClasses, classLoaders, name) ==
          Loading.TryLoaders(Loads(), scope.userClasses, classLoaders[i..], name)
        invariant autoloadLocks == old(autoloadLocks) + {lowerName}
      {
        assert classLoaders[i..][1..] == classLoaders[i + 1..];
        var c := RunLoader(classLoaders[i], name);
        if c.Threw? {
          return Thrown(c.failure);
        }
        var found := LookupClass(name, Lower(name));
        if found.Some? {
          autoloadLocks := autoloadLocks - {lowerName};
          return Normal(found);
        }
        i := i + 1;
      }
      if defaultAutoLoader.Some? {
        var c := RunLoader(defaultAutoLoader.value, name);
        if c.Threw? {
          return Thrown(c.failure);
        }
      }
      autoloadLocks := autoloadLocks - {lowerName};
      var found := LookupClass(name, Lower(name));
      r := Normal(found);
    }

    /** `fetchClass(name, nameL, autoLoad)`: lookup, then autoloading when asked for
        and the class is not found otherwise. */
    method FetchClass(name: string, nameL: string, autoLoad: bool) returns (r: Outcome<Option<ClassEntity>>)
      modifies this`classMap, this`classInits, this`loaderCalls, this`autoloadLocks
      ensures var (s, found) := Loading.Fetch(old(Loads()), scope.userClasses, nameL);
        found.Some? || !autoLoad ==> Loads() == s && autoloadLocks == old(autoloadLocks) && r == Normal(found)
      ensures var (s, found) := Loading.Fetch(old(Loads()), scope.userClasses, nameL);
        found.None? && autoLoad ==>
          (Loads(), autoloadLocks, r) == Loading.AutoloadCall(old(Loads()), old(autoloadLocks),
            scope.userClasses, classLoaders, defaultAutoLoader, name, nameL)
    {
      var found := LookupClass(name, nameL);
      if found.None? && autoLoad {
        r := AutoloadCall(name, nameL);
      } else {
        r := Normal(found);
      }
    }

    /** `getLateStaticClass()`: resolved on the running frame, whose cache is filled. */
    method GetLateStaticClass() returns (r: Option<ClassEntity>)
      requires StackValid()
      modifies callStack, this`classMap, this`classInits
      ensures StackValid()
      ensures (Loads(), Frames(), r) == Resolution.LateStaticClass(old(Loads()), scope.userClasses, old(Frames()))
    {
      var item := PeekCall(0);
      if item.None? || item.value.clazz.None? {
        return None;
      }
      var f := item.value;
      if f.staticClassEntity.Some? {
        return f.staticClassEntity;
      }
      if f.self.Some? && f.self.value.closure.Closure? {
        return f.self.value.closure.self;
      }
      var n := if f.staticClazz.Some? then f.staticClazz.value else f.clazz.value;
      ghost var fs := Frames();
      r := LookupClass(n, Lower(n));
      callStack[callStackTop - 1] := Some(f.(staticClassEntity := r));
      assert Frames() == fs[callStackTop - 1 := f.(staticClassEntity := r)];
    }

    /** The class of the frame at index `k` from the bottom, which runs in a class:
        its cached entity (through a closure's binding when `closures` is set), else
        looked up by name and cached in the frame. */
    method ResolveFrame(k: nat, closures: bool) returns (r: Outcome<Option<ClassEntity>>)
      requires StackValid() && k < callStackTop && callStack[k].value.clazz.Some?
      modifies callStack, this`classMap, this`classInits
      ensures StackValid()
      ensures (Loads(), Frames(), r) == Resolution.ResolveAt(old(Loads()), scope.userClasses, old(Frames()), k, closures)
    {
      var f := callStack[k].value;
      assert f == Frames()[k];
      if f.classEntity.Some? {
        if closures && f.self.Some? && f.self.value.closure.Closure? {
          return Normal(f.self.value.closure.self);
        }
        return Normal(f.classEntity);
      }
      ghost var fs := Frames();
      var e := LookupClass(f.clazz.value, Lower(f.clazz.value));
      callStack[k] := Some(f.(classEntity := e));
      assert Frames() == fs[k := f.(classEntity := e)];
      r := if e.None? then Thrown(IllegalState(f.clazz.value)) else Normal(e);
    }

    /** `__getContextClass(offset)`; `getContextClass()` is offset 1, the caller. */
    method GetContextClass(offset: nat) returns (r: Outcome<Option<ClassEntity>>)
      requires StackValid()
      modifies callStack, this`classMap, this`classInits
      ensures StackValid()
      ensures (Loads(), Frames(), r) == Resolution.ContextClass(old(Loads()), scope.userClasses, old(Frames()), offset)
    {
      var item := PeekCall(offset);
      if item.None? || item.value.clazz.None? {
        return Normal(None);
      }
      r := ResolveFrame(callStackTop - offset - 1, false);
    }

    /** `fetchMagicClass(name, nameL)`: `self` and `static`. */
    method FetchMagicClass(name: string, nameL: string) returns (r: Outcome<Option<ClassEntity>>)
      requires StackValid()
      modifies callStack, this`classMap, this`classInits
      ensures StackValid()
      ensures (Loads(), Frames(), r) == Resolution.MagicClass(old(Loads()), scope.userClasses, old(Frames()), nameL)
    {
      if nameL == "self" {
        r := GetContextClass(1);
        if r.Thrown? || r.value.Some? {
          return;
        }
        var e := GetLateStaticClass();
        r := Normal(e);
      } else if nameL == "static" {
        var e := GetLateStaticClass();
        r := Normal(e);
      } else {
        r := Normal(None);
      }
    }

    /** `getLastClassOnStack()`: from the top, the first frame running in a class. */
    method GetLastClassOnStack() returns (r: Outcome<Option<ClassEntity>>)
      requires StackValid()
      modifies callStack, this`classMap, this`classInits
      ensures StackValid()
      ensures (Loads(), Frames(), r) == Resolution.LastClassOnStack(old(Loads()), scope.userClasses, old(Frames()))
    {
      var n := callStackTop;
      var i := 0;
      while i < n
        invariant 0 <= i <= if n < 0 then 0 else n
        invariant forall j :: callStackTop - i <= j < callStackTop ==> Frames()[j].clazz.None?
      {
        var item := PeekCall(i);
        if item.value.clazz.Some? {
          assert Resolution.NearestClassFrame(Frames(), |Frames()|) == Some(callStackTop - 1 - i);
          r := ResolveFrame(callStackTop - 1 - i, true);
          return;
        }
        i := i + 1;
      }
      assert Resolution.NearestClassFrame(Frames(), |Frames()|) == None;
      r := Normal(None);
    }

    /** `__getParentClass(trace)`: the parent of the last class on the stack; a fatal
        error when there is no class scope or the class has no parent. */
    method GetParentClass(trace: Option<TraceInfo>) returns (r: Outcome<Option<ClassEntity>>)
      requires StackValid()
      modifies callStack, this`classMap, this`classInits, this`lastMessage, this`offered, this`reported
      ensures StackValid()
      ensures var (s, fs, ctx) := Resolution.LastClassOnStack(old(Loads()), scope.userClasses, old(Frames()));
        && Loads() == s && Frames() == fs && offered == old(offered) && reported == old(reported)
        && (ctx.Thrown? ==> r == ctx && lastMessage == old(lastMessage))
        && (ctx == Normal(None) ==> r == NoParent(trace, Text(NO_CLASS_SCOPE, [])) && lastMessage == Some(SystemMessage(E_ERROR, trace, Text(NO_CLASS_SCOPE, []))))
        && (ctx.Normal? && ctx.value.Some? && ctx.value.value.parent.None? ==>
              r == NoParent(trace, Text(NO_PARENT, [])) && lastMessage == Some(SystemMessage(E_ERROR, trace, Text(NO_PARENT, []))))
        && (ctx.Normal? && ctx.value.Some? && ctx.value.value.parent.Some? ==>
              r == Normal(ctx.value.value.parent) && lastMessage == old(lastMessage))
    {
      var context := GetLastClassOnStack();
      if context.Thrown? {
        return context;
      }
      if context.value.None? {
        var c := Error(trace, E_ERROR, Text(NO_CLASS_SCOPE, []));
        return if c.Threw? then Thrown(c.failure) else Normal(None);
      }
      var parent := context.value.value.parent;
      if parent.None? {
        var c := Error(trace, E_ERROR, Text(NO_PARENT, []));
        return if c.Threw? then Thrown(c.failure) else Normal(None);
      }
      r := Normal(parent);
    }

    /** `registerAutoloader(loader, prepend)`: unless an equal loader is registered,
        add it first or last. */
    method RegisterAutoloader(l: Loader, prepend: bool)
      modifies this`classLoaders
      ensures classLoaders == Registry.Registered(old(classLoaders), l, prepend)
    {
      var i := 0;
      while i < |classLoaders|
        invariant 0 <= i <= |classLoaders|
        invariant l !in classLoaders[..i]
      {
        if classLoaders[i] == l {
          return;
        }
        i := i + 1;
      }
      assert classLoaders[..i] == classLoaders;
      if prepend {
        classLoaders := [l] + classLoaders;
      } else {
        classLoaders := classLoaders + [l];
      }
    }

    /** `unRegisterAutoloader(loader)`: remove every equal loader; whether any was. */
    method UnRegisterAutoloader(l: Loader) returns (removed: bool)
      modifies this`classLoaders
      ensures classLoaders == Registry.Unregistered(old(classLoaders), l)
      ensures removed <==> l in old(classLoaders)
    {
      var rest := classLoaders;
      var kept: seq<Loader> := [];
      removed := false;
      while |rest| > 0
        invariant kept + Registry.Unregistered(rest, l) == Registry.Unregistered(old(classLoaders), l)
        invariant removed || l in rest <==> l in old(classLoaders)
        decreases |rest|
      {
        Registry.UnregisteredStep(kept, rest, l);
        if rest[0] == l {
          removed := true;
        } else {
          kept := kept + [rest[0]];
        }
        rest := rest[1..];
      }
      classLoaders := kept;
    }

    // -------------------------------------------------------------------------
    // Registries

    /** `fetchFunction(name, nameL)`: a registered function, else the scope's user
        function of that name (the scope's index is by lower-case name). */
    function FetchFunction(name: string, nameL: string): (r: Option<FunctionEntity>)
      reads this`functionMap
      ensures r.Some? <==> nameL in functionMap || Lower(name) in scope.userFunctions
      ensures nameL in functionMap ==> r == Some(functionMap[nameL])
      ensures nameL !in functionMap && r.Some? ==> r.value == scope.userFunctions[Lower(name)]
    {
      if nameL in functionMap then Some(functionMap[nameL])
      else if Lower(name) in scope.userFunctions then Some(scope.userFunctions[Lower(name)])
      else None
    }

    /** `registerFunction(entity)`: a function whose lower-case name is taken raises a
        script exception and leaves the map alone. */
    method RegisterFunction(entity: FunctionEntity) returns (c: Completion)
      requires StackValid()
      modifies this`functionMap, this`errorFlags, this`silentFlags
      ensures entity.lowerName in old(functionMap) ==>
        c == Threw(ScriptException("Function '%s' already registered", Trace())) &&
        functionMap == old(functionMap) && Mask() == Silence.Clear(old(Mask()))
      ensures entity.lowerName !in old(functionMap) ==>
        c == Completed && functionMap == old(functionMap)[entity.lowerName := entity] && Mask() == old(Mask())
      ensures c == Completed ==> FetchFunction(entity.name, entity.lowerName) == Some(entity)
    {
      if entity.lowerName in functionMap {
        var f := Exception(Trace(), "Function '%s' already registered");
        return Threw(f);
      }
      functionMap := functionMap[entity.lowerName := entity];
      c := Completed;
    }

    /** `registerClass(entity)`: likewise for classes; a registered class is
        initialised for the environment. */
    method RegisterClass(entity: ClassEntity) returns (c: Completion)
      requires StackValid()
      modifies this`classMap, this`classInits, this`errorFlags, this`silentFlags
      ensures entity.lowerName in old(classMap) ==>
        c == Threw(ScriptException("Class '%s' already registered", Trace())) &&
        classMap == old(classMap) && classInits == old(classInits) && Mask() == Silence.Clear(old(Mask()))
      ensures entity.lowerName !in old(classMap) ==>
        c == Completed && classMap == old(classMap)[entity.lowerName := entity] &&
        classInits == old(classInits) + multiset{entity} && Mask() == old(Mask())
    {
      if entity.lowerName in classMap {
        var f := Exception(Trace(), "Class '%s' already registered");
        return Threw(f);
      }
      classMap := classMap[entity.lowerName := entity];
      classInits := classInits + multiset{entity};
      c := Completed;
    }

    /** `findConstant(name, nameLower)`: a value found is that of the constant
        registered under `nameLower` or, failing that, of the compile-time constant
        spelled `name`; with neither there is none. */
    function FindConstant(name: string, nameLower: string): (r: Option<Value>)
      reads this`constantMap
      ensures r.Some? ==>
        (nameLower in constantMap && r.value == constantMap[nameLower].value) ||
        (name in scope.compileConstants && r.value == scope.compileConstants[name])
      ensures nameLower !in constantMap && name !in scope.compileConstants ==> r.None?
      ensures nameLower in constantMap && !constantMap[nameLower].caseSensitise ==> r == Some(constantMap[nameLower].value)
    {
      Registry.FindConstant(constantMap, scope.compileConstants, name, nameLower)
    }

    /** `defineConstant(name, value, caseSensitise)`. */
    method DefineConstant(name: string, value: Value, caseSensitise: bool) returns (defined: bool)
      modifies this`constantMap
      ensures (defined, constantMap) == Registry.DefineConstant(old(constantMap), scope.compileConstants, name, value, caseSensitise)
    {
      var constant := FindConstant(name, Lower(name));
      if constant.Some? {
        return false;
      }
      constantMap := constantMap[Lower(name) := Registry.NewConstant(name, value, caseSensitise)];
      defined := true;
    }

    /** `__getConstant(name, lowerName, trace)`: the constant's value; an undefined one
        raises a notice and stands for its own name without namespace. */
    method GetConstant(name: string, lowerName: string, trace: Option<TraceInfo>) returns (r: Value)
      modifies this`lastMessage, this`offered, this`reported
      ensures FindConstant(name, lowerName).Some? ==>
        r == FindConstant(name, lowerName).value &&
        lastMessage == old(lastMessage) && offered == old(offered) && reported == old(reported)
      ensures FindConstant(name, lowerName).None? ==> (
        var m := SystemMessage(E_NOTICE, trace, Text(UNDEFINED_CONSTANT, [name, name]));
        && r == Str(Unqualified(name))
        && lastMessage == Some(m)
        && offered == old(offered) + (if errorHandler.Some? then [m] else [])
        && reported == old(reported) + (if Reports(m) then [m] else []))
    {
      var constant := FindConstant(name, lowerName);
      if constant.None? {
        var _ := Error(trace, E_NOTICE, Text(UNDEFINED_CONSTANT, [name, name]));
        return Str(Unqualified(name));
      }
      r := constant.value;
    }

    /** The loop of `registerModule` over the module's classes: each top-level class is
        put in order, up to the first one that replaces an entry, whose index is returned. */
    method DeclareClasses(es: seq<ClassEntity>) returns (clash: Option<nat>)
      modifies this`classMap
      ensures (classMap, clash) == Registry.Declare(old(classMap), es, Registry.ClassKey, Registry.ClassKept)
    {
      var i := 0;
      while i < |es|
        invariant 0 <= i <= |es|
        invariant classMap == Registry.PutAll(old(classMap), es[..i], Registry.ClassKey, Registry.ClassKept)
        invariant forall j :: 0 <= j < i ==> !Registry.Clashes(old(classMap), es, Registry.ClassKey, Registry.ClassKept, j)
      {
        Registry.PutAllStep(old(classMap), es, Registry.ClassKey, Registry.ClassKept, i);
        if es[i].isStatic {
          var had := es[i].lowerName in classMap;
          classMap := classMap[es[i].lowerName := es[i]];
          if had {
            Registry.FirstClashIs(old(classMap), es, Registry.ClassKey, Registry.ClassKept, i);
            return Some(i);
          }
        }
        i := i + 1;
      }
      assert es[..i] == es;
      clash := None;
    }

    /** The same loop over the module's functions. */
    method DeclareFunctions(es: seq<FunctionEntity>) returns (clash: Option<nat>)
      modifies this`functionMap
      ensures (functionMap, clash) == Registry.Declare(old(functionMap), es, Registry.FunctionKey, Registry.FunctionKept)
    {
      var i := 0;
      while i < |es|
        invariant 0 <= i <= |es|
        invariant functionMap == Registry.PutAll(old(functionMap), es[..i], Registry.FunctionKey, Registry.FunctionKept)
        invariant forall j :: 0 <= j < i ==> !Registry.Clashes(old(functionMap), es, Registry.FunctionKey, Registry.FunctionKept, j)
      {
        Registry.PutAllStep(old(functionMap), es, Registry.FunctionKey, Registry.FunctionKept, i);
        if es[i].isStatic {
          var had := es[i].lowerName in functionMap;
          functionMap := functionMap[es[i].lowerName := es[i]];
          if had {
            Registry.FirstClashIs(old(functionMap), es, Registry.FunctionKey, Registry.FunctionKept, i);
            return Some(i);
          }
        }
        i := i + 1;
      }
      assert es[..i] == es;
      clash := None;
    }

    /** The same loop over the module's constants, all of which are put. */
    method DeclareConstants(es: seq<ConstantEntity>) returns (clash: Option<nat>)
      modifies this`constantMap
      ensures (constantMap, clash) == Registry.Declare(old(constantMap), es, Registry.ConstantKey, Registry.ConstantKept)
    {
      var i := 0;
      while i < |es|
        invariant 0 <= i <= |es|
        invariant constantMap == Registry.PutAll(old(constantMap), es[..i], Registry.ConstantKey, Registry.ConstantKept)
        invariant forall j :: 0 <= j < i ==> !Registry.Clashes(old(constantMap), es, Registry.ConstantKey, Registry.ConstantKept, j)
      {
        Registry.PutAllStep(old(constantMap), es, Registry.ConstantKey, Registry.ConstantKept, i);
        var had := es[i].lowerName in constantMap;
        constantMap := constantMap[es[i].lowerName := es[i]];
        if had {
          Registry.FirstClashIs(old(constantMap), es, Registry.ConstantKey, Registry.ConstantKept, i);
          return Some(i);
        }
        i := i + 1;
      }
      assert es[..i] == es;
      clash := None;
    }

    /** `registerModule(module)`: the module's top-level classes, then its top-level
        functions, then its constants are put into the maps in order. The first one
        that replaces an entry has been put, and then raises a fatal redeclaration
        error, which ends the registration. */
    method RegisterModule(entity: ModuleEntity) returns (c: Completion)
      modifies this`classMap, this`functionMap, this`constantMap, this`lastMessage, this`offered, this`reported
      ensures Declared() == Registry.Register(old(Declared()), entity).0
      ensures var err := Registry.Register(old(Declared()), entity).1;
        && (err.Some? ==> c == Threw(Redeclared(err.value)) && lastMessage == Some(SystemMessage(E_ERROR, Some(err.value.trace), err.value.text)))
        && (err.None? ==> c == Completed && lastMessage == old(lastMessage))
      ensures offered == old(offered) && reported == old(reported)
    {
      var ci := DeclareClasses(entity.classes);
      if ci.Some? {
        var e := entity.classes[ci.value];
        c := Error(Some(e.trace), E_ERROR, Text(Registry.REDECLARE_CLASS, [e.name]));
        return;
      }
      var fi := DeclareFunctions(entity.functions);
      if fi.Some? {
        var e := entity.functions[fi.value];
        c := Error(Some(e.trace), E_ERROR, Text(Registry.REDECLARE_FUNCTION, [e.name]));
        return;
      }
      var ki := DeclareConstants(entity.constants);
      if ki.Some? {
        var e := entity.constants[ki.value];
        c := Error(Some(e.trace), E_ERROR, Text(Registry.REDECLARE_CONSTANT, [e.name]));
        return;
      }
      c := Completed;
    }

    /** `__defineFunction(trace, moduleInternalName, index)`: the module's `index`-th
        function is put into the map; replacing one is a fatal error. */
    method DefineFunction(trace: Option<TraceInfo>, moduleName: string, index: int) returns (c: Completion)
      modifies this`functionMap, this`lastMessage
      ensures moduleName !in scope.moduleIndex ==>
        c == Threw(Critical("Cannot find module: " + moduleName)) && functionMap == old(functionMap) && lastMessage == old(lastMessage)
      ensures moduleName in scope.moduleIndex && !(0 <= index < |scope.moduleIndex[moduleName].functions|) ==>
        c == Threw(NullReference) && functionMap == old(functionMap) && lastMessage == old(lastMessage)
      ensures moduleName in scope.moduleIndex && 0 <= index < |scope.moduleIndex[moduleName].functions| ==> (
        var f := scope.moduleIndex[moduleName].functions[index];
        var err := ErrorException(E_ERROR, Text(Registry.REDECLARE_FUNCTION, [f.name]), trace);
        && functionMap == old(functionMap)[f.lowerName := f]
        && (f.lowerName in old(functionMap) ==> c == Threw(Fatal(err)) && lastMessage == Some(SystemMessage(E_ERROR, trace, err.text)))
        && (f.lowerName !in old(functionMap) ==> c == Completed && lastMessage == old(lastMessage)))
    {
      if moduleName !in scope.moduleIndex {
        return Threw(Critical("Cannot find module: " + moduleName));
      }
      var m := scope.moduleIndex[moduleName];
      if !(0 <= index < |m.functions|) {
        return Threw(NullReference);
      }
      var f := m.functions[index];
      var had := f.lowerName in functionMap;
      functionMap := functionMap[f.lowerName := f];
      if had {
        c := TriggerError(ErrorException(E_ERROR, Text(Registry.REDECLARE_FUNCTION, [f.name]), trace));
      } else {
        c := Completed;
      }
    }

    // -------------------------------------------------------------------------
    // Modules

    /** The message of the fatal error raised for a redeclaration. */
    function RedeclaredMessage(e: Registry.Redeclaration): SystemMessage {
      SystemMessage(E_ERROR, Some(e.trace), e.text)
    }

    /** `importModule(context)` and `importCompiledModule(context, ...)`: the scope's
        module of that name if there is one, else the freshly compiled one, registered
        into this environment. */
    method ImportModule(moduleName: Option<string>, compiled: ModuleEntity) returns (r: Outcome<ModuleEntity>)
      modifies this`classMap, this`functionMap, this`constantMap, this`lastMessage, this`offered, this`reported
      ensures var m := if moduleName.Some? && moduleName.value in scope.userModules then scope.userModules[moduleName.value] else compiled;
        var (d, err) := Registry.Register(old(Declared()), m);
        && Declared() == d
        && (err.Some? ==> r == Thrown(Redeclared(err.value)) && lastMessage == Some(RedeclaredMessage(err.value)))
        && (err.None? ==> r == Normal(m) && lastMessage == old(lastMessage))
      ensures offered == old(offered) && reported == old(reported)
    {
      var m := compiled;
      if moduleName.Some? && moduleName.value in scope.userModules {
        m := scope.userModules[moduleName.value];
      }
      var c := RegisterModule(m);
      r := if c.Threw? then Thrown(c.failure) else Normal(m);
    }

    /** The module manager's `fetchCachedModule(path)`: the module cached for the path,
        else the file at the path, compiled, cached and registered; none when there is
        no such file. */
    method FetchCachedModule(path: string) returns (r: Outcome<Option<ModuleEntity>>)
      modifies this`moduleCache, this`classMap, this`functionMap, this`constantMap, this`lastMessage, this`offered, this`reported
      ensures path in old(moduleCache) ==>
        r == Normal(Some(old(moduleCache)[path])) && moduleCache == old(moduleCache) &&
        Declared() == old(Declared()) && lastMessage == old(lastMessage)
      ensures path !in old(moduleCache) && path !in files ==>
        r == Normal(None) && moduleCache == old(moduleCache) && Declared() == old(Declared()) && lastMessage == old(lastMessage)
      ensures path !in old(moduleCache) && path in files ==> (
        var (d, err) := Registry.Register(old(Declared()), files[path]);
        && moduleCache == old(moduleCache)[path := files[path]]
        && Declared() == d
        && (err.Some? ==> r == Thrown(Redeclared(err.value)) && lastMessage == Some(RedeclaredMessage(err.value)))
        && (err.None? ==> r == Normal(Some(files[path])) && lastMessage == old(lastMessage)))
      ensures offered == old(offered) && reported == old(reported)
    {
      if path in moduleCache {
        return Normal(Some(moduleCache[path]));
      }
      if path !in files {
        return Normal(None);
      }
      var m := files[path];
      moduleCache := moduleCache[path := m];
      var c := RegisterModule(m);
      r := if c.Threw? then Thrown(c.failure) else Normal(Some(m));
    }

    /** The part of `__import` that runs a module: its top-level code runs in a frame
        of its own, which names the path as its argument, and the frame is popped again. */
    method RunModule(m: ModuleEntity, path: string, kind: ImportKind, trace: Option<TraceInfo>) returns (r: Outcome<Value>)
      requires Valid()
      modifies this`callStack, this`callStackTop, this`maxCallStackTop, callStack, this`included
      ensures Valid()
      ensures old(callStackTop) < 0 ==>
        r == Thrown(ArrayIndexOutOfBounds) && included == old(included) && callStackTop == old(callStackTop) + 1
      ensures old(callStackTop) >= 0 ==>
        r == BodyOutcome(m.body) && included == old(included) + [path] &&
        callStackTop == old(callStackTop) && Frames() == old(Frames())
      ensures maxCallStackTop == if old(callStackTop) >= 0 && |included| > |old(included)| then old(callStackTop) + 1 else old(maxCallStackTop)
    {
      var pushed := PushFrame(trace, None, [Str(path)], kind.Name(), None, None);
      if pushed.Threw? {
        return Thrown(pushed.failure);
      }
      included := included + [path];
      r := BodyOutcome(m.body);
      var _ := PopCall();
      assert Frames() == old(Frames());
    }

    /** The part of `__import` for a file that does not exist: the form's diagnostic,
        a warning for `include` and a fatal error for `require`, and false. */
    method ImportMissing(kind: ImportKind, path: string, trace: Option<TraceInfo>) returns (r: Outcome<Value>)
      modifies this`lastMessage, this`offered, this`reported
      ensures lastMessage == Some(SystemMessage(kind.MissingKind(), trace, kind.MissingText(path)))
      ensures !kind.Required() ==>
        var m := SystemMessage(kind.MissingKind(), trace, kind.MissingText(path));
        && r == Normal(Bool(false))
        && offered == old(offered) + (if errorHandler.Some? then [m] else [])
        && reported == old(reported) + (if Reports(m) then [m] else [])
      ensures kind.Required() ==>
        r == Thrown(Fatal(ErrorException(E_ERROR, kind.MissingText(path), trace))) &&
        offered == old(offered) && reported == old(reported)
    {
      var c := Error(trace, kind.MissingKind(), kind.MissingText(path));
      r := if c.Threw? then Thrown(c.failure) else Normal(Bool(false));
    }

    /** `__import` past its `_once` check: a missing file raises the form's diagnostic
        and yields false; otherwise the file's module is fetched (compiled and
        registered the first time) and run. */
    method ImportFile(kind: ImportKind, path: string, trace: Option<TraceInfo>) returns (r: Outcome<Value>)
      requires Valid()
      modifies this`moduleCache, this`classMap, this`functionMap, this`constantMap, this`lastMessage,
        this`offered, this`reported, this`callStack, this`callStackTop, this`maxCallStackTop, callStack, this`included
      ensures Valid()
      ensures maxCallStackTop == if old(callStackTop) >= 0 && |included| > |old(included)| then old(callStackTop) + 1 else old(maxCallStackTop)
      ensures path in old(moduleCache) || path in files ==> offered == old(offered) && reported == old(reported)
      ensures path !in old(moduleCache) && path !in files ==>
        && moduleCache == old(moduleCache) && Declared() == old(Declared()) && included == old(included)
        && callStackTop == old(callStackTop) && Frames() == old(Frames())
        && lastMessage == Some(SystemMessage(kind.MissingKind(), trace, kind.MissingText(path)))
      ensures path !in old(moduleCache) && path !in files && !kind.Required() ==>
        var m := SystemMessage(kind.MissingKind(), trace, kind.MissingText(path));
        && r == Normal(Bool(false))
        && offered == old(offered) + (if errorHandler.Some? then [m] else [])
        && reported == old(reported) + (if Reports(m) then [m] else [])
      ensures path !in old(moduleCache) && path !in files && kind.Required() ==>
        r == Thrown(Fatal(ErrorException(E_ERROR, kind.MissingText(path), trace))) &&
        offered == old(offered) && reported == old(reported)
      ensures path in old(moduleCache) ==>
        && moduleCache == old(moduleCache) && Declared() == old(Declared()) && lastMessage == old(lastMessage)
        && (old(callStackTop) < 0 ==>
              r == Thrown(ArrayIndexOutOfBounds) && included == old(included) && callStackTop == old(callStackTop) + 1)
        && (old(callStackTop) >= 0 ==>
              r == BodyOutcome(old(moduleCache)[path].body) && included == old(included) + [path] &&
              callStackTop == old(callStackTop) && Frames() == old(Frames()))
      ensures path !in old(moduleCache) && path in files ==> (
        var (d, err) := Registry.Register(old(Declared()), files[path]);
        && moduleCache == old(moduleCache)[path := files[path]] && Declared() == d
        && (err.Some? ==>
              r == Thrown(Redeclared(err.value)) && lastMessage == Some(RedeclaredMessage(err.value)) &&
              included == old(included) && callStackTop == old(callStackTop) && Frames() == old(Frames()))
        && (err.None? ==> lastMessage == old(lastMessage))
        && (err.None? && old(callStackTop) < 0 ==>
              r == Thrown(ArrayIndexOutOfBounds) && included == old(included) && callStackTop == old(callStackTop) + 1)
        && (err.None? && old(callStackTop) >= 0 ==>
              r == BodyOutcome(files[path].body) && included == old(included) + [path] &&
              callStackTop == old(callStackTop) && Frames() == old(Frames())))
    {
      var fetched := FetchCachedModule(path);
      if fetched.Thrown? {
        return Thrown(fetched.failure);
      }
      if fetched.value.None? {
        r := ImportMissing(kind, path, trace);
        return;
      }
      r := RunModule(fetched.value.value, path, kind, trace);
    }

    /** `__import(path, locals, trace, funcName, once, callback)` in its four forms: an
        already compiled file is skipped by the `_once` forms; any other import is
        `ImportFile`. */
    method Import(kind: ImportKind, path: string, trace: Option<TraceInfo>) returns (r: Outcome<Value>)
      requires Valid()
      modifies this`moduleCache, this`classMap, this`functionMap, this`constantMap, this`lastMessage,
        this`offered, this`reported, this`callStack, this`callStackTop, this`maxCallStackTop, callStack, this`included
      ensures Valid()
      ensures maxCallStackTop == if old(callStackTop) >= 0 && |included| > |old(included)| then old(callStackTop) + 1 else old(maxCallStackTop)
      ensures path in old(moduleCache) || path in files ==> offered == old(offered) && reported == old(reported)
      ensures kind.Once() && path in old(moduleCache) ==>
        && r == Normal(Bool(true)) && moduleCache == old(moduleCache) && Declared() == old(Declared())
        && lastMessage == old(lastMessage) && included == old(included)
        && callStackTop == old(callStackTop) && Frames() == old(Frames())
      ensures path !in old(moduleCache) && path !in files ==>
        && moduleCache == old(moduleCache) && Declared() == old(Declared()) && included == old(included)
        && callStackTop == old(callStackTop) && Frames() == old(Frames())
        && lastMessage == Some(SystemMessage(kind.MissingKind(), trace, kind.MissingText(path)))
      ensures path !in old(moduleCache) && path !in files && !kind.Required() ==>
        var m := SystemMessage(kind.MissingKind(), trace, kind.MissingText(path));
        && r == Normal(Bool(false))
        && offered == old(offered) + (if errorHandler.Some? then [m] else [])
        && reported == old(reported) + (if Reports(m) then [m] else [])
      ensures path !in old(moduleCache) && path !in files && kind.Required() ==>
        r == Thrown(Fatal(ErrorException(E_ERROR, kind.MissingText(path), trace))) &&
        offered == old(offered) && reported == old(reported)
      ensures !kind.Once() && path in old(moduleCache) ==>
        && moduleCache == old(moduleCache) && Declared() == old(Declared()) && lastMessage == old(lastMessage)
        && (old(callStackTop) < 0 ==>
              r == Thrown(ArrayIndexOutOfBounds) && included == old(included) && callStackTop == old(callStackTop) + 1)
        && (old(callStackTop) >= 0 ==>
              r == BodyOutcome(old(moduleCache)[path].body) && included == old(included) + [path] &&
              callStackTop == old(callStackTop) && Frames() == old(Frames()))
      ensures path !in old(moduleCache) && path in files ==> (
        var (d, err) := Registry.Register(old(Declared()), files[path]);
        && moduleCache == old(moduleCache)[path := files[path]] && Declared() == d
        && (err.Some? ==>
              r == Thrown(Redeclared(err.value)) && lastMessage == Some(RedeclaredMessage(err.value)) &&
              included == old(included) && callStackTop == old(callStackTop) && Frames() == old(Frames()))
        && (err.None? ==> lastMessage == old(lastMessage))
        && (err.None? && old(callStackTop) < 0 ==>
              r == Thrown(ArrayIndexOutOfBounds) && included == old(included) && callStackTop == old(callStackTop) + 1)
        && (err.None? && old(callStackTop) >= 0 ==>
              r == BodyOutcome(files[path].body) && included == old(included) + [path] &&
              callStackTop == old(callStackTop) && Frames() == old(Frames())))
    {
      if kind.Once() && path in moduleCache {
        return Normal(Bool(true));
      }
      r := ImportFile(kind, path, trace);
    }

    // -------------------------------------------------------------------------
    // Shutdown

    /** `registerShutdownFunction(handler)`. */
    method RegisterShutdownFunction(h: ShutdownHandler)
      modifies this`shutdownFunctions
      ensures shutdownFunctions == old(shutdownFunctions) + [h]
    {
      shutdownFunctions := shutdownFunctions + [h];
    }

    /** `registerObjectInGC(object)`: an object whose class has a destructor is tracked
        by a new weak reference, after the queued references are dropped. */
    method RegisterObjectInGC(o: ObjectRef)
      modifies this`gcObjects
      ensures o.reflection.destructor.Some? ==> gcObjects == Lifecycle.Clean(old(gcObjects)) + [Lifecycle.GcEntry(o, Lifecycle.Reachable)]
      ensures o.reflection.destructor.None? ==> gcObjects == old(gcObjects)
    {
      if o.reflection.destructor.Some? {
        gcObjects := Lifecycle.Clean(gcObjects) + [Lifecycle.GcEntry(o, Lifecycle.Reachable)];
      }
    }

    /** One step of `finalizeObjects`: the object is marked finalized and its destructor
        runs in a frame of its own, which is popped again whether it raises or not. */
    method Destruct(o: ObjectRef) returns (c: Completion)
      requires Valid() && o.reflection.destructor.Some?
      modifies this`finalized, this`destructed, this`callStack, this`callStackTop, this`maxCallStackTop, callStack
      ensures Valid()
      ensures maxCallStackTop == if old(callStackTop) >= 0 && |destructed| > |old(destructed)| then old(callStackTop) + 1 else old(maxCallStackTop)
      ensures callStack == old(callStack) || fresh(callStack)
      ensures finalized == old(finalized) + {o.id}
      ensures old(callStackTop) < 0 ==>
        c == Threw(ArrayIndexOutOfBounds) && destructed == old(destructed) && callStackTop == old(callStackTop) + 1
      ensures old(callStackTop) >= 0 ==>
        && destructed == old(destructed) + [o]
        && callStackTop == old(callStackTop) && Frames() == old(Frames())
        && c == if o.reflection.destructor.value.raises then Threw(UserCode(o.reflection.destructor.value.name)) else Completed
    {
      var d := o.reflection.destructor.value;
      finalized := finalized + {o.id};
      var pushed := PushFrame(None, Some(o), [], d.name, Some(o.reflection.name), None);
      if pushed.Threw? {
        return pushed;
      }
      destructed := destructed + [o];
      var _ := PopCall();
      assert Frames() == old(Frames());
      c := if d.raises then Threw(UserCode(d.name)) else Completed;
    }

    /** One entry of the loop of `finalizeObjects`: its object is destructed when
        `Destructs` holds for it, and nothing happens otherwise. */
    method FinalizeEntry(e: Lifecycle.GcEntry) returns (c: Completion)
      requires Valid()
      modifies this`finalized, this`destructed, this`callStack, this`callStackTop, this`maxCallStackTop, callStack
      ensures Valid()
      ensures maxCallStackTop == if old(callStackTop) >= 0 && |destructed| > |old(destructed)| then old(callStackTop) + 1 else old(maxCallStackTop)
      ensures callStack == old(callStack) || fresh(callStack)
      ensures finalized == if Lifecycle.Destructs(e, old(finalized)) then old(finalized) + {e.obj.id} else old(finalized)
      ensures old(callStackTop) >= 0 || c.Completed? ==> callStackTop == old(callStackTop) && Frames() == old(Frames())
      ensures c.Completed? ==> destructed == old(destructed) + (if Lifecycle.Destructs(e, old(finalized)) then [e.obj] else [])
      ensures c.Threw? ==> Lifecycle.Destructs(e, old(finalized)) && e.obj.reflection.destructor.Some?
      ensures Lifecycle.Destructs(e, old(finalized)) && old(callStackTop) < 0 ==> c == Threw(ArrayIndexOutOfBounds)
      ensures Lifecycle.Destructs(e, old(finalized)) && old(callStackTop) >= 0 ==>
        c == if e.obj.reflection.destructor.value.raises then Threw(UserCode(e.obj.reflection.destructor.value.name)) else Completed
      ensures c.Threw? && old(callStackTop) < 0 ==>
        c == Threw(ArrayIndexOutOfBounds) && destructed == old(destructed) && callStackTop == old(callStackTop) + 1
      ensures c.Threw? && old(callStackTop) >= 0 ==>
        && destructed == old(destructed) + [e.obj]
        && e.obj.reflection.destructor.value.raises && c == Threw(UserCode(e.obj.reflection.destructor.value.name))
    {
      if Lifecycle.Destructs(e, finalized) {
        c := Destruct(e.obj);
      } else {
        c := Completed;
      }
    }

    /** The loop of `finalizeObjects` over the tracked references, in order; a
        destructor that raises ends it. */
    method DestructAll() returns (c: Completion)
      requires Valid()
      modifies this`finalized, this`destructed, this`callStack, this`callStackTop, this`maxCallStackTop, callStack
      ensures Valid()
      ensures maxCallStackTop == if old(callStackTop) >= 0 && |destructed| > |old(destructed)| then old(callStackTop) + 1 else old(maxCallStackTop)
      ensures callStack == old(callStack) || fresh(callStack)
      ensures old(callStackTop) < 0 ==> callStackTop == old(callStackTop) + (if c.Threw? then 1 else 0)
      ensures old(callStackTop) >= 0 ==> callStackTop == old(callStackTop) && Frames() == old(Frames())
      ensures var run := Lifecycle.Finalization(gcObjects, old(finalized), old(callStackTop) < 0);
        && destructed == old(destructed) + run.destructed
        && finalized == run.finalized
        && c == if run.failure.Some? then Threw(run.failure.value) else Completed
    {
      ghost var broken := callStackTop < 0;
      ghost var run := Lifecycle.RunFrom(gcObjects, 0, finalized, broken);
      ghost var total := old(destructed) + run.destructed;
      ghost var frames0 := Frames();
      var i := 0;
      while i < |gcObjects|
        invariant 0 <= i <= |gcObjects|
        invariant Valid()
        invariant total == destructed + Lifecycle.RunFrom(gcObjects, i, finalized, broken).destructed
        invariant run.finalized == Lifecycle.RunFrom(gcObjects, i, finalized, broken).finalized
        invariant run.failure == Lifecycle.RunFrom(gcObjects, i, finalized, broken).failure
        invariant callStackTop == old(callStackTop) && (old(callStackTop) >= 0 ==> Frames() == frames0)
        invariant callStack == old(callStack) || fresh(callStack)
        invariant |old(destructed)| <= |destructed|
        invariant maxCallStackTop == if old(callStackTop) >= 0 && |destructed| > |old(destructed)| then old(callStackTop) + 1 else old(maxCallStackTop)
      {
        ghost var rest := Lifecycle.RunFrom(gcObjects, i + 1, finalized + {gcObjects[i].obj.id}, broken);
        ghost var fin0 := finalized;
        var d := FinalizeEntry(gcObjects[i]);
        if d.Threw? {
          assert destructed == total;
          return d;
        }
        if Lifecycle.Destructs(gcObjects[i], fin0) {
          assert total == destructed + rest.destructed;
        }
        i := i + 1;
      }
      c := Completed;
    }

    /** The state `finalizeObjects` leaves, given the tracked references `gc0`, the
        finalized ids `fin0` and the destructed objects `destructed0` it started from:
        the run of `Lifecycle.Finalization` over the references not queued, and no
        references left unless a destructor raised. */
    ghost predicate FinalizedAs(gc0: seq<Lifecycle.GcEntry>, fin0: set<nat>, broken: bool, destructed0: seq<ObjectRef>)
      reads this`gcObjects, this`finalized, this`destructed
    {
      var run := Lifecycle.Finalization(Lifecycle.Clean(gc0), fin0, broken);
      && destructed == destructed0 + run.destructed
      && finalized == run.finalized
      && gcObjects == if run.failure.None? then [] else Lifecycle.Clean(gc0)
    }

    /** `finalizeObjects()`: after the queued references are dropped, the destructor of
        every tracked object still reachable and not finalized runs in a frame of its
        own, in registration order; the object is marked finalized first. A destructor
        that raises ends the loop; otherwise the references are all dropped. */
    method FinalizeObjects() returns (c: Completion)
      requires Valid()
      modifies this`gcObjects, this`finalized, this`destructed, this`callStack, this`callStackTop, this`maxCallStackTop, callStack
      ensures Valid()
      ensures maxCallStackTop == if old(callStackTop) >= 0 && |destructed| > |old(destructed)| then old(callStackTop) + 1 else old(maxCallStackTop)
      ensures callStack == old(callStack) || fresh(callStack)
      ensures old(callStackTop) < 0 ==> callStackTop == old(callStackTop) + (if c.Threw? then 1 else 0)
      ensures old(callStackTop) >= 0 ==> callStackTop == old(callStackTop) && Frames() == old(Frames())
      ensures FinalizedAs(old(gcObjects), old(finalized), old(callStackTop) < 0, old(destructed))
      ensures var run := Lifecycle.Finalization(Lifecycle.Clean(old(gcObjects)), old(finalized), old(callStackTop) < 0);
        c == if run.failure.Some? then Threw(run.failure.value) else Completed
      ensures c == Completed ==>
        && destructed == old(destructed) + Lifecycle.Destructed(Lifecycle.Clean(old(gcObjects)), old(finalized))
        && finalized == Lifecycle.FinalizedAfter(Lifecycle.Clean(old(gcObjects)), old(finalized))
    {
      gcObjects := Lifecycle.Clean(gcObjects);
      Lifecycle.FinalizationIsPrefix(gcObjects, finalized, callStackTop < 0);
      c := DestructAll();
      if c == Completed {
        gcObjects := [];
      }
    }

    /** The loop of `doFinal` over the shutdown functions: each is called, in order,
        until one does not return normally; its result is returned. */
    method CallShutdownFunctions() returns (stop: Option<ShutdownResult>)
      modifies this`shutdownCalls
      ensures shutdownCalls == old(shutdownCalls) + Lifecycle.Names(Lifecycle.Called(shutdownFunctions))
      ensures stop == if Lifecycle.Stop(shutdownFunctions) < |shutdownFunctions| then Some(StopResult(shutdownFunctions)) else None
    {
      ghost var hs := shutdownFunctions;
      stop := None;
      var i := 0;
      while i < |shutdownFunctions| && stop.None?
        invariant 0 <= i <= |hs|
        invariant shutdownCalls == old(shutdownCalls) + Lifecycle.Names(hs[..i])
        invariant stop.None? ==> i <= Lifecycle.Stop(hs)
        invariant stop.Some? ==> i == Lifecycle.Stop(hs) + 1 && stop.value == hs[i - 1].result
      {
        Lifecycle.NamesOfPrefix(hs, i);
        shutdownCalls := shutdownCalls + [shutdownFunctions[i].name];
        if shutdownFunctions[i].result != Finishes {
          stop := Some(shutdownFunctions[i].result);
        }
        i := i + 1;
      }
      assert hs[..|hs|] == hs;
      assert hs[..i] == Lifecycle.Called(hs);
    }

    /** The end of `doFinal`: the destructors run; unless one raises, the output is
        flushed and the last message cleared. */
    method Conclude() returns (r: FinalResult)
      requires Valid()
      modifies this`gcObjects, this`finalized, this`destructed, this`callStack, this`callStackTop,
        this`maxCallStackTop, callStack, this`outputBuffers, sink, this`lastMessage
      ensures Valid()
      ensures maxCallStackTop == if old(callStackTop) >= 0 && |destructed| > |old(destructed)| then old(callStackTop) + 1 else old(maxCallStackTop)
      ensures callStack == old(callStack) || fresh(callStack)
      ensures old(callStackTop) < 0 ==> callStackTop == old(callStackTop) + (if r.Escaped? then 1 else 0)
      ensures old(callStackTop) >= 0 ==> callStackTop == old(callStackTop) && Frames() == old(Frames())
      ensures FinalizedAs(old(gcObjects), old(finalized), old(callStackTop) < 0, old(destructed))
      ensures var run := Lifecycle.Finalization(Lifecycle.Clean(old(gcObjects)), old(finalized), old(callStackTop) < 0);
        run.failure.Some? ==>
          && r == Escaped(run.failure.value)
          && sink.written == old(sink.written) && outputBuffers == old(outputBuffers) && lastMessage == old(lastMessage)
      ensures var run := Lifecycle.Finalization(Lifecycle.Clean(old(gcObjects)), old(finalized), old(callStackTop) < 0);
        run.failure.None? ==>
          && r == Finished
          && sink.written == old(sink.written) + Buffers.Pending(old(outputBuffers))
          && outputBuffers == [old(outputBuffers)[0].(content := "", closed := true)]
          && lastMessage == None
    {
      var c := FinalizeObjects();
      if c.Threw? {
        return Escaped(c.failure);
      }
      FlushAll();
      lastMessage := None;
      r := Finished;
    }

    /** The part of the state the end of `doFinal` reads or changes, as it was when
        the loop over the shutdown functions ended. */
    ghost function EndState(): ShutdownState
      reads this`gcObjects, this`finalized, this`destructed, this`uncaught, sink, this`outputBuffers,
        this`lastMessage, this`callStack, this`callStackTop, this`maxCallStackTop, callStack
      requires StackValid()
    {
      ShutdownState(gcObjects, finalized, destructed, uncaught, sink.written, outputBuffers, lastMessage,
        callStack, callStackTop, maxCallStackTop, Frames())
    }

    /** The state the end of `doFinal` leaves, and its result `r`, after the loop ended
        with `res` in state `s0`. A dying function runs the destructors and exits with
        its code unless one raises. A failure `catchUncaught` does not report escapes
        with nothing changed. Otherwise a reported failure is recorded, the destructors
        run and, unless one raises, all pending output reaches the stream and the last
        message is cleared. A sound stack keeps its frames, and its high-water mark is
        one above its depth exactly when a destructor ran; on a broken stack the top
        moves up by one when a destructor's push fails. */
    ghost predicate Ended(res: ShutdownResult, r: FinalResult, s0: ShutdownState)
      reads this`gcObjects, this`finalized, this`destructed, this`uncaught, sink, this`outputBuffers,
        this`lastMessage, this`callStack, this`callStackTop, this`maxCallStackTop, callStack
      requires StackValid() && s0.outputBuffers != []
    {
      var broken := s0.callStackTop < 0;
      var run := Lifecycle.Finalization(Lifecycle.Clean(s0.gcObjects), s0.finalized, broken);
      && (s0.callStackTop >= 0 ==> callStackTop == s0.callStackTop && Frames() == s0.frames)
      && (res.Fails? && !Reportable(res.failure) ==>
            && r == Escaped(res.failure)
            && uncaught == s0.uncaught && gcObjects == s0.gcObjects && finalized == s0.finalized
            && destructed == s0.destructed && sink.written == s0.written
            && outputBuffers == s0.outputBuffers && lastMessage == s0.lastMessage
            && callStack == s0.callStack && callStackTop == s0.callStackTop
            && maxCallStackTop == s0.maxCallStackTop && Frames() == s0.frames)
      && (res.Dies? || res.Finishes? || Reportable(res.failure) ==>
            && FinalizedAs(s0.gcObjects, s0.finalized, broken, s0.destructed)
            && maxCallStackTop == (if !broken && |destructed| > |s0.destructed| then s0.callStackTop + 1 else s0.maxCallStackTop)
            && (broken ==> callStackTop == s0.callStackTop + (if run.failure.Some? then 1 else 0)))
      && (res.Dies? ==>
            && r == (if run.failure.Some? then Escaped(run.failure.value) else Exited(res.exitCode))
            && uncaught == s0.uncaught && sink.written == s0.written
            && outputBuffers == s0.outputBuffers && lastMessage == s0.lastMessage)
      && (res.Finishes? || (res.Fails? && Reportable(res.failure)) ==>
            && uncaught == s0.uncaught + (if res.Fails? then [res.failure] else [])
            && (run.failure.Some? ==>
                  && r == Escaped(run.failure.value)
                  && sink.written == s0.written && outputBuffers == s0.outputBuffers && lastMessage == s0.lastMessage)
            && (run.failure.None? ==>
                  && r == Finished
                  && sink.written == s0.written + Buffers.Pending(s0.outputBuffers)
                  && outputBuffers == [s0.outputBuffers[0].(content := "", closed := true)]
                  && lastMessage == None))
    }

    /** What `doFinal` does once its loop has ended with `stop`, the result of the
        shutdown function that did not return normally, if any. */
    method Finish(stop: Option<ShutdownResult>) returns (r: FinalResult)
      requires stop != Some(Finishes)
      requires Valid()
      modifies this`uncaught, this`gcObjects, this`finalized, this`destructed, this`callStack,
        this`callStackTop, this`maxCallStackTop, callStack, this`outputBuffers, sink, this`lastMessage
      ensures Valid()
      ensures callStack == old(callStack) || fresh(callStack)
      ensures Ended(stop.GetOr(Finishes), r, old(EndState()))
    {
      if stop.Some? && stop.value.Dies? {
        var c := FinalizeObjects();
        if c.Threw? {
          return Escaped(c.failure);
        }
        return Exited(stop.value.exitCode);
      }
      if stop.Some? && stop.value.Fails? {
        if !Reportable(stop.value.failure) {
          return Escaped(stop.value.failure);
        }
        uncaught := uncaught + [stop.value.failure];
      }
      r := Conclude();
    }

    /** `doFinal()`: the shutdown functions are called in order until one of them does
        not return normally. One that dies runs the destructors and exits the process
        with its code. A failure `catchUncaught` reports is recorded; any other escapes.
        Then the destructors run and, unless one raises, the output is flushed and the
        last message cleared. */
    method DoFinal() returns (r: FinalResult)
      requires Valid()
      modifies this`shutdownCalls, this`uncaught, this`gcObjects, this`finalized, this`destructed, this`callStack,
        this`callStackTop, this`maxCallStackTop, callStack, this`outputBuffers, sink, this`lastMessage
      ensures Valid()
      ensures callStack == old(callStack) || fresh(callStack)
      ensures shutdownCalls == old(shutdownCalls) + Lifecycle.Names(Lifecycle.Called(shutdownFunctions))
      ensures Ended(StopResult(shutdownFunctions), r, old(EndState()))
    {
      var stop := CallShutdownFunctions();
      assert stop.GetOr(Finishes) == StopResult(shutdownFunctions);
      assert EndState() == old(EndState());
      r := Finish(stop);
    }

    /** `getOrCreateStatic(name, init)`:
        the static variable's cell, made with the initial value the first time. */
    method GetOrCreateStatic(name: string, init: Value) returns (cell: Cell)
      modifies this`statics
      ensures name in old(statics) ==> cell == old(statics)[name] && statics == old(statics)
      ensures name !in old(statics) ==> fresh(cell) && cell.value == init && statics == old(statics)[name := cell]
    {
      if name in statics {
        return statics[name];
      }
      cell := new Cell(init);
      statics := statics[name := cell];
    }

    /** `getStatic(name)`: the cell, none before it is created. */
    function GetStatic(name: string): (r: Option<Cell>)
      reads this`statics
      ensures r.Some? <==> name in statics
      ensures r.Some? ==> r.value == statics[name]
    {
      if name in statics then Some(statics[name]) else None
    }

    /** `getUserValue(name)`: the value stored under the name; a missing name and a
        stored null read the same. */
    function GetUserValue(name: string): (r: Option<Value>)
      reads this`userValues
      ensures r.Some? <==> name in userValues && userValues[name].Some?
    {
      if name in userValues then userValues[name] else None
    }

    /** `setUserValue(name, value)`. */
    method SetUserValue(name: string, value: Option<Value>)
      modifies this`userValues
      ensures userValues == old(userValues)[name := value]
      ensures GetUserValue(name) == value
      ensures forall n :: n != name ==> GetUserValue(n) == old(GetUserValue(n))
    {
      userValues := userValues[name := value];
    }

    /** `removeUserValue(name)`: whether a non-null value was stored under the name. */
    method RemoveUserValue(name: string) returns (removed: bool)
      modifies this`userValues
      ensures userValues == old(userValues) - {name}
      ensures removed <==> old(GetUserValue(name)).Some?
      ensures GetUserValue(name) == None
    {
      removed := name in userValues && userValues[name].Some?;
      userValues := userValues - {name};
    }
  }
}
