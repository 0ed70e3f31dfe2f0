/** The values the environment stores, passes and returns: boxed script values, trace
    positions, error types and messages, the reflection entities of the shared compile
    scope, call-stack frames, output buffers, and the collaborators (handlers, loaders,
    destructors, module bodies) whose behaviour the environment only observes. */
module Runtime {
  import opened Common

  /** A boxed script value (`Memory`), seen only through the coercions the core uses.
      `Other` stands for numbers, arrays and objects and carries their string form. */
  datatype Value = Null | Bool(b: bool) | Str(s: string) | Other(text: string) {

    /** `Memory.isString()`. */
    predicate IsString() {
      Str?
    }

    /** `Memory.toString()`: PHP's string conversion. */
    function AsString(): string {
      match this
      case Null => ""
      case Bool(b) => if b then "1" else ""
      case Str(s) => s
      case Other(text) => text
    }
  }

  /** A position in a script; `Unknown` is `TraceInfo.UNKNOWN`. */
  datatype TraceInfo = Unknown | At(file: string, line: int, position: int)

  /** An entry of the `ErrorType` enumeration: its bit, and whether it is fatal and
      whether a user error handler may take it. */
  datatype ErrorType = ErrorType(name: string, bit: bv32, isFatal: bool, isHandled: bool)

  const E_ERROR: ErrorType := ErrorType("E_ERROR", 1, true, false)
  const E_WARNING: ErrorType := ErrorType("E_WARNING", 2, false, true)
  const E_NOTICE: ErrorType := ErrorType("E_NOTICE", 8, false, true)
  const E_STRICT: ErrorType := ErrorType("E_STRICT", 2048, false, true)
  const E_DEPRECATED: ErrorType := ErrorType("E_DEPRECATED", 8192, false, true)
  const E_ALL: ErrorType := ErrorType("E_ALL", 32767, false, true)

  /** `ErrorType.check(flags, type)`: every bit of the type is enabled in `flags`. */
  predicate Check(flags: bv32, t: ErrorType) {
    flags & t.bit == t.bit
  }

  /** The mask a new environment starts with: everything but notices, strict-mode
      hints and deprecation warnings. */
  const DefaultErrorFlags: bv32 := E_ALL.bit ^ (E_NOTICE.bit | E_STRICT.bit | E_DEPRECATED.bit)

  /** A message template and its arguments (`Messages.Item` with its `args`). */
  datatype Text = Text(template: string, args: seq<string>)

  /** A diagnostic (`SystemMessage`): its type, where it was raised, and its text. */
  datatype SystemMessage = SystemMessage(kind: ErrorType, trace: Option<TraceInfo>, text: Text)

  /** The payload of a fatal error that unwinds (`ErrorException`). */
  datatype ErrorException = ErrorException(kind: ErrorType, text: Text, trace: Option<TraceInfo>)

  /** The exceptions the modelled operations can raise. */
  datatype Failure =
    | IllegalThreadState                   // popCall on an empty stack, snapshot of a broken one
    | ArrayIndexOutOfBounds                // a push at index -1, after an excess pop
    | EmptyStack                           // __popSilent with no saved mask
    | IllegalState(className: string)      // a frame's class cannot be found
    | ScriptException(message: string, trace: Option<TraceInfo>)  // BaseException from exception()
    | Fatal(error: ErrorException)         // thrown by triggerError
    | Critical(message: string)            // CriticalException
    | NullReference                        // a lookup that found nothing was dereferenced
    | UserCode(origin: string)             // raised by a loader, destructor, handler or module body

  /** The result of an operation that returns a value or raises. */
  datatype Outcome<+T> = Normal(value: T) | Thrown(failure: Failure)

  /** The result of an operation that returns nothing or raises. */
  datatype Completion = Completed | Threw(failure: Failure)

  /** A class's destructor: its method name and whether running it raises. */
  datatype Destructor = Destructor(name: string, raises: bool)

  /** `ClassEntity`: the reflection of a class, as the shared scope owns it. */
  datatype ClassEntity = ClassEntity(
    name: string,
    lowerName: string,
    parent: Option<ClassEntity>,
    destructor: Option<Destructor>,
    isStatic: bool,
    trace: TraceInfo)

  /** `FunctionEntity`. */
  datatype FunctionEntity = FunctionEntity(name: string, lowerName: string, isStatic: bool, trace: TraceInfo)

  /** `ConstantEntity`: a named constant and whether its name is case-sensitive. */
  datatype ConstantEntity = ConstantEntity(
    name: string,
    lowerName: string,
    value: Value,
    caseSensitise: bool,
    trace: TraceInfo)

  /** What running a module's top-level code does. */
  datatype BodyResult = Returns(value: Value) | Raises(origin: string)

  /** `ModuleEntity`: a compiled unit, its declarations and its top-level code. */
  datatype ModuleEntity = ModuleEntity(
    name: string,
    classes: seq<ClassEntity>,
    functions: seq<FunctionEntity>,
    constants: seq<ConstantEntity>,
    body: BodyResult)

  /** `CompileScope`, the declarations shared by every environment of one program. */
  datatype CompileScope = CompileScope(
    userClasses: map<string, ClassEntity>,         // fetchUserClass(lowerName)
    userFunctions: map<string, FunctionEntity>,    // findUserFunction(name)
    functionMap: map<string, FunctionEntity>,      // getFunctionMap()
    constantMap: map<string, ConstantEntity>,      // getConstantMap()
    compileConstants: map<string, Value>,          // findCompileConstant(name)
    configuration: Option<map<string, Value>>,     // scope.configuration, possibly null
    userModules: map<string, ModuleEntity>,        // findUserModule(name)
    moduleIndex: map<string, ModuleEntity>)        // moduleIndexMap

  /** Whether an object is a closure, and if so the class of the object it is bound to
      (`Closure.getSelf()`), when that is an object. */
  datatype ClosureBinding = NotClosure | Closure(self: Option<ClassEntity>)

  /** An object of the script (`IObject`): its identity, its class and whether it is a closure. */
  datatype ObjectRef = ObjectRef(id: nat, reflection: ClassEntity, closure: ClosureBinding)

  /** `CallStackItem`: one frame, with the class entities it caches once resolved. */
  datatype Frame = Frame(
    trace: Option<TraceInfo>,
    self: Option<ObjectRef>,
    args: seq<Value>,
    functionName: string,
    clazz: Option<string>,
    staticClazz: Option<string>,
    classEntity: Option<ClassEntity>,
    staticClassEntity: Option<ClassEntity>)

  /** A frame as `new CallStackItem(trace, self, args, function, clazz, staticClazz)` creates it. */
  function NewFrame(trace: Option<TraceInfo>, self: Option<ObjectRef>, args: seq<Value>,
                    functionName: string, clazz: Option<string>, staticClazz: Option<string>): Frame
  {
    Frame(trace, self, args, functionName, clazz, staticClazz, None, None)
  }

  /** `OutputBuffer`: its nesting level, whether it is the root sink, its options, the
      text written to it and not yet flushed, and whether it was closed. */
  datatype OutputBuffer = OutputBuffer(
    level: nat,
    isRoot: bool,
    callback: Option<Value>,
    chunkSize: int,
    erase: bool,
    content: string,
    closed: bool)

  /** `SplClassLoader`: the classes loading a name declares, and whether the loader
      raises instead; a raising loader declares nothing. */
  datatype Loader = Loader(callback: string, declares: map<string, ClassEntity>, raises: bool)

  /** A user error handler: the types it accepts (`errorHandlerFlags`) and, for each
      message, whether it reports the message handled. */
  datatype ErrorHandler = ErrorHandler(flags: bv32, onError: SystemMessage -> bool)

  /** How a registered shutdown function ends. */
  datatype ShutdownResult = Finishes | Dies(exitCode: int) | Fails(failure: Failure)

  /** `ShutdownHandler`. */
  datatype ShutdownHandler = ShutdownHandler(name: string, result: ShutdownResult)

  /** A call of a configuration change handler, with the value it was given. */
  datatype ConfigChange = ConfigChange(name: string, value: Option<Value>)

  /** A cell of the statics table (`ReferenceMemory`): callers share it by reference. */
  class Cell {
    var value: Value

    constructor (init: Value)
      ensures value == init
    {
      value := init;
    }
  }
}
