# JPHP runtime environment, modelled in Dafny

JPHP runs PHP on the JVM. Each script execution has one `Environment`, which owns the
mutable per-execution state:

- the call stack, with the class each frame runs in;
- the error mask and the silencing stack behind `@`;
- the routing of diagnostics to the user error handler, the report handler or a thrown
  fatal error;
- the output-buffer stack under `ob_start`/`echo`;
- the `ini_set` configuration layer;
- the classes, functions and constants loaded into the execution;
- the class autoloaders;
- `include`/`require` and their `_once` forms;
- static variables and user values;
- the shutdown sequence: shutdown functions, destructors and the final flush.

The tokenizer's `TokenType` enumeration maps its integer token codes back to constants
through a table built by a static loop.

The model keeps the environment's own form. `Env.Environment` is a class with the
source's fields (`callStack` is an `array` that doubles when full; the maps, lists and
sets are `map`/`seq`/`set` fields). Its methods change only what their `modifies`
clauses name, and their contracts state the new value of what they change; the few
places where a contract leaves part of the new state open are listed under
"## Left out". Java exceptions become `Outcome`/
`Completion` results carrying a `Failure`. Effects on collaborators that are not part of
the model are recorded as logs on the environment:

- `offered`: messages passed to the user error handler;
- `reported`: messages passed to the report handler;
- `classInits`: classes initialised for the environment;
- `loaderCalls`: autoloader callbacks run;
- `included`: paths whose top-level code ran;
- `shutdownCalls`: shutdown functions called;
- `destructed`: objects whose destructor ran;
- `configChanges`: calls of configuration change handlers;
- `sink.written`: what reached the output stream.

Each operation is proved against a value-level specification function in a module of
its own, and those functions carry the lemmas:

| module | what it specifies |
|---|---|
| `Silence` | the error-mask stack |
| `Buffers` | the output-buffer stack |
| `Config` | configuration listing and coercion |
| `Registry` | declaring, constants, the autoloader list |
| `Loading` | class lookup and autoloading |
| `Resolution` | frame class resolution |
| `Lifecycle` | shutdown |

`Tokens` models `TokenType`.

## Model

| member | source | states |
|---|---|---|
| Env.Environment.constructor | jphp-runtime/src/php/runtime/env/Environment.java:178-243 | a new environment has an empty call stack of the initial capacity, the default error mask (E_ALL without notices, strict and deprecated), a report handler and no user handler, only the root output buffer, no loaded classes, the scope's functions and constants, and every other field empty (no loaders, tracked objects, shutdown functions, statics, user values or logged effects) |
| Env.Environment.Child | jphp-runtime/src/php/runtime/env/Environment.java:157-176 | a child environment shares the parent's scope and output stream, starts with the parent's configuration, loaded classes (each initialised anew), functions (over the scope's), constants and compiled modules; everything else starts as in a new environment: an empty stack, the default mask with nothing silenced, the default handlers, only a root buffer, the default autoloader of the shared scope, and no loaders, tracked objects, shutdown functions, statics, user values or logged effects |
| Env.Environment.Doubled | jphp-runtime/src/php/runtime/env/Environment.java:315-319 | the grown call-stack array is fresh, twice as long, holds the old slots at the same indices and is empty after them |
| Env.Environment.PushCall | jphp-runtime/src/php/runtime/env/Environment.java:314-323 | the depth grows by exactly one and the new frame is on top with the frames below unchanged; the array doubles exactly when it was full; after excess pops (negative top) the store raises ArrayIndexOutOfBounds although the top was already incremented |
| Env.Environment.PushFrame | jphp-runtime/src/php/runtime/env/Environment.java:325-338 | pushing a frame built from its parts puts that frame, with nothing cached, on top and raises the high-water mark `maxCallStackTop` to the new top; on a broken stack it raises with the mark unchanged |
| Env.Environment.PopCall | jphp-runtime/src/php/runtime/env/Environment.java:348-354 | the top always goes down by one; on an empty stack IllegalThreadStateException is raised afterwards, otherwise the frames are the old ones without the top |
| Env.Environment.PeekCall | jphp-runtime/src/php/runtime/env/Environment.java:356-362 | the frame `depth` places below the top, and none whenever `depth` reaches the depth of the stack |
| Env.Environment.Trace | jphp-runtime/src/php/runtime/env/Environment.java:364-368 | UNKNOWN on an empty stack, else the running frame's trace |
| Env.Environment.GetCallStackSnapshot | jphp-runtime/src/php/runtime/env/Environment.java:378-393 | the frames, exactly `callStackTop` of them, bottom first; IllegalThreadStateException when the top is negative |
| Env.Environment.GetLateStatic | jphp-runtime/src/php/runtime/env/Environment.java:1411-1417 | empty outside a class frame, else the running frame's static class name, falling back to its class name |
| Env.Environment.GetContext | jphp-runtime/src/php/runtime/env/Environment.java:1447-1450 | the class name of the caller's frame, empty when there is no caller or it runs outside a class |
| Env.Environment.PushSilent | jphp-runtime/src/php/runtime/env/Environment.java:1314-1317 | the mask becomes `Silence.Push` of the old one: the current flags are saved and the flags become 0 |
| Env.Environment.PopSilent | jphp-runtime/src/php/runtime/env/Environment.java:1319-1322 | the last saved mask is restored and removed; with nothing saved EmptyStackException is raised and nothing changes |
| Env.Environment.ClearSilent | jphp-runtime/src/php/runtime/env/Environment.java:1324-1331 | the loop leaves the mask `Silence.Clear` of the old one: nothing saved, and the first saved flags restored, or 0 when none were saved |
| Env.Environment.IsHandleErrors | jphp-runtime/src/php/runtime/env/Environment.java:934-936 | a silenced mask (0) reports no type that has a bit, and a mask with every bit set reports every type |
| Env.Environment.SetErrorFlags | jphp-runtime/src/php/runtime/env/Environment.java:738-740 | the mask becomes the given flags and nothing else changes |
| Env.Environment.SetErrorHandler | jphp-runtime/src/php/runtime/env/Environment.java:1561-1564 | the new handler is installed and the one it replaces becomes the previous handler |
| Env.Environment.SetErrorReportHandler | jphp-runtime/src/php/runtime/env/Environment.java:767-769 | the report handler is installed or removed |
| Env.Environment.TriggerMessage | jphp-runtime/src/php/runtime/env/Environment.java:891-900 | the message always becomes the last message; it is offered to the user handler exactly when one is installed; the report handler gets it exactly once, and only when the user handler did not take it, a report handler is installed and the mask reports its type |
| Env.Environment.TriggerError | jphp-runtime/src/php/runtime/env/Environment.java:783-791 | a fatal error, or one the mask reports, becomes the last message and is thrown; any other is dropped without changing the last message |
| Env.Environment.Error | jphp-runtime/src/php/runtime/env/Environment.java:868-889 | a non-fatal diagnostic goes to triggerMessage; a fatal one goes there only when its type is handled and a user handler whose flags accept the type is installed; otherwise it goes to triggerError and unwinds with the last message set and no handler called |
| Env.Environment.Exception | jphp-runtime/src/php/runtime/env/Environment.java:902-909 | silencing is cleared and a script exception carrying the message and trace is raised |
| Env.Environment.PushOutputBuffer | jphp-runtime/src/php/runtime/env/Environment.java:958-967 | the new buffer is the top, its level is the number of buffers before the push, the stack stays well formed and the pending text is unchanged |
| Env.Environment.PopOutputBuffer | jphp-runtime/src/php/runtime/env/Environment.java:969-978 | null and no change when the top is the root; otherwise the top is closed into the buffer below and returned; no pending text is lost |
| Env.Environment.PeekOutputBuffer | jphp-runtime/src/php/runtime/env/Environment.java:990-994 | the top buffer, whose level is its position, which is the root exactly when no user buffer is open |
| Env.Environment.Echo | jphp-runtime/src/php/runtime/env/Environment.java:1020-1030 | only the top buffer is written, so the text is appended to the end of everything pending |
| Env.Environment.EchoValue | jphp-runtime/src/php/runtime/env/Environment.java:1008-1018 | a value is echoed as its string form |
| Env.Environment.PopUserBuffers | jphp-runtime/src/php/runtime/env/Environment.java:1032-1035 | the pop loop of flushAll leaves only the root, holding all the pending text in order |
| Env.Environment.FlushAll | jphp-runtime/src/php/runtime/env/Environment.java:1032-1035 | all pending text reaches the output stream in order, after what was written before, and the root is left empty and closed |
| Env.Environment.GetConfigValue | jphp-runtime/src/php/runtime/env/Environment.java:642-654 | this environment's value when present, else the scope's when the scope has a configuration holding it, else the caller's default |
| Env.Environment.GetConfigValues | jphp-runtime/src/php/runtime/env/Environment.java:660-682 | the result is `Config.Listing`: the listed scope values when asked for, overridden by the listed values of this environment |
| Env.Environment.ListInto | jphp-runtime/src/php/runtime/env/Environment.java:666-679 | each loop of getConfigValues adds exactly the entries whose key has the prefix and a dot (all of them without a prefix) over what the result held |
| Env.Environment.SetConfigValue | jphp-runtime/src/php/runtime/env/Environment.java:684-694 | the value is stored as its string form; the key's change handler, if it has one, is called with that value; the previous value of this environment is returned |
| Env.Environment.RestoreConfigValue | jphp-runtime/src/php/runtime/env/Environment.java:696-702 | the override is removed and then the change handler is called with the value now visible, the scope's |
| Env.Environment.LookupClass | jphp-runtime/src/php/runtime/env/Environment.java:554-571 | fetchClass without autoloading is `Loading.Fetch`: the loaded class, else the scope's class, initialised and loaded, else none |
| Env.Environment.RunLoader | jphp-runtime/src/php/runtime/env/Environment.java:495 | running one loader logs its callback and declares the class it provides, or raises |
| Env.Environment.AutoloadCall | jphp-runtime/src/php/runtime/env/Environment.java:488-514 | the loader loop computes `Loading.AutoloadCall`: no loader runs for an invalid name or a guarded one; the loaders run in order until the class appears, then the default loader, then a last lookup; the guard is released on normal returns only |
| Env.Environment.FetchClass | jphp-runtime/src/php/runtime/env/Environment.java:554-581 | lookup without autoloading when the class is found or autoloading is off; otherwise exactly autoloadCall |
| Env.Environment.GetLateStaticClass | jphp-runtime/src/php/runtime/env/Environment.java:1427-1445 | the result and the new caches are `Resolution.LateStaticClass` of the old frames |
| Env.Environment.ResolveFrame | jphp-runtime/src/php/runtime/env/Environment.java:1456-1464 | resolving one class frame is `Resolution.ResolveAt`: the cached entity (through a closure when asked), else the class looked up and cached, IllegalStateException when missing |
| Env.Environment.GetContextClass | jphp-runtime/src/php/runtime/env/Environment.java:1452-1469 | the result and the new caches are `Resolution.ContextClass` of the old frames |
| Env.Environment.FetchMagicClass | jphp-runtime/src/php/runtime/env/Environment.java:537-552 | the result and the new caches are `Resolution.MagicClass`: `self`, `static`, or none |
| Env.Environment.GetLastClassOnStack | jphp-runtime/src/php/runtime/env/Environment.java:1475-1498 | the scan from the top computes `Resolution.LastClassOnStack`: the class of the nearest frame running in one |
| Env.Environment.GetParentClass | jphp-runtime/src/php/runtime/env/Environment.java:1500-1513 | the parent of the last class on the stack; a fatal error with its message when there is no class scope or the class has no parent; a resolution failure passes through |
| Env.Environment.RegisterAutoloader | jphp-runtime/src/php/runtime/env/Environment.java:1534-1543 | the list becomes `Registry.Registered`: unchanged when an equal loader is there, else the loader first or last |
| Env.Environment.UnRegisterAutoloader | jphp-runtime/src/php/runtime/env/Environment.java:1549-1559 | every equal loader is removed and the rest kept in order; the result is true exactly when one was registered |
| Env.Environment.FetchFunction | jphp-runtime/src/php/runtime/env/Environment.java:587-594 | a function is found exactly when it is registered or the scope has a user function of that name; a registered one takes precedence |
| Env.Environment.RegisterFunction | jphp-runtime/src/php/runtime/env/Environment.java:596-603 | a taken lower-case name raises a script exception with the map unchanged (and silencing cleared); otherwise the function is added and fetchFunction then finds it |
| Env.Environment.RegisterClass | jphp-runtime/src/php/runtime/env/Environment.java:605-613 | a taken lower-case name raises a script exception with nothing registered or initialised; otherwise the class is added and initialised once |
| Env.Environment.FindConstant | jphp-runtime/src/php/runtime/env/Environment.java:615-631 | a value found is that of the constant registered under the lower-case name or of the compile constant of the exact name, none when neither exists, and a case-insensitive registered constant always wins |
| Env.Environment.DefineConstant | jphp-runtime/src/php/runtime/env/Environment.java:633-640 | the result and new map are `Registry.DefineConstant` |
| Env.Environment.GetConstant | jphp-runtime/src/php/runtime/env/Environment.java:1092-1105 | a visible constant's value, leaving the diagnostics alone; an undefined one raises the undefined-constant notice and yields its name without namespace |
| Env.Environment.DeclareClasses | jphp-runtime/src/php/runtime/env/Environment.java:1068-1074 | the class loop of registerModule is `Registry.Declare` over the module's classes |
| Env.Environment.DeclareFunctions | jphp-runtime/src/php/runtime/env/Environment.java:1076-1082 | the function loop of registerModule is `Registry.Declare` over the module's functions |
| Env.Environment.DeclareConstants | jphp-runtime/src/php/runtime/env/Environment.java:1084-1088 | the constant loop of registerModule is `Registry.Declare` over the module's constants |
| Env.Environment.RegisterModule | jphp-runtime/src/php/runtime/env/Environment.java:1067-1089 | the maps become `Registry.Register`; a redeclaration is put and then raises its fatal error, which ends the registration with that message as the last one |
| Env.Environment.DefineFunction | jphp-runtime/src/php/runtime/env/Environment.java:1351-1364 | an unknown module raises CriticalException and an index outside its functions a null dereference, both changing nothing; otherwise the function is put and a replaced one raises the fatal redeclaration error |
| Env.Environment.ImportModule | jphp-runtime/src/php/runtime/env/Environment.java:1037-1065 | the scope's module of that name, else the compiled one, is registered and returned; a redeclaration is raised |
| Env.Environment.FetchCachedModule | jphp-runtime/src/php/runtime/env/Environment.java:1113 | a cached module is returned unchanged; a file not there gives none; otherwise the file's module is cached and registered |
| Env.Environment.RunModule | jphp-runtime/src/php/runtime/env/Environment.java:1120-1125 | the module body runs in a frame naming the path, which is popped again, so the depth and frames are unchanged and the high-water mark is one above the depth; on a broken stack nothing runs and only the top moves up by one |
| Env.Environment.ImportMissing | jphp-runtime/src/php/runtime/env/Environment.java:1115-1118 | a missing file raises a warning and yields false for `include`, and a fatal error for `require` |
| Env.Environment.ImportFile | jphp-runtime/src/php/runtime/env/Environment.java:1113-1125 | a missing file gives the form's diagnostic; otherwise the module (compiled and registered the first time only) runs; on every path the frames are left as they were (a broken stack only gets its top incremented) |
| Env.Environment.Import | jphp-runtime/src/php/runtime/env/Environment.java:1107-1176 | a `_once` form with a compiled path returns true and changes nothing, frames included; the other cases are those of ImportFile, in all four forms |
| Env.Environment.RegisterShutdownFunction | jphp-runtime/src/php/runtime/env/Environment.java:1566-1568 | the handler is added at the end of the list |
| Env.Environment.RegisterObjectInGC | jphp-runtime/src/php/runtime/env/Environment.java:1178-1191 | an object with a destructor is tracked after the queued references are dropped; any other changes nothing |
| Env.Environment.Destruct | jphp-runtime/src/php/runtime/env/Environment.java:289-296 | the object is marked finalized before its destructor runs in a frame of its own, which is popped again if it raises; on a broken stack the push fails, nothing is destructed and the top moves up by one |
| Env.Environment.FinalizeEntry | jphp-runtime/src/php/runtime/env/Environment.java:282-297 | an entry is destructed exactly when it is reachable, its class has a destructor and it is not finalized; it then raises exactly when the destructor raises, or when the stack is broken by excess pops |
| Env.Environment.DestructAll | jphp-runtime/src/php/runtime/env/Environment.java:282-298 | the destructed objects, the finalized ids and the result are exactly those of `Lifecycle.Finalization` over the registry: in order, up to and including the first destructor that raises, whose failure is returned; the frames are kept, and the high-water mark is one above the depth exactly when a destructor ran |
| Env.Environment.FinalizeObjects | jphp-runtime/src/php/runtime/env/Environment.java:280-301 | after the queued references are dropped, the destructed objects, finalized ids and result are those of `Lifecycle.Finalization`; the registry is cleared exactly when no destructor raises, and then all of `Lifecycle.Destructed` ran; the depth is unchanged, except that on a broken stack a failing push leaves it one higher |
| Env.Environment.CallShutdownFunctions | jphp-runtime/src/php/runtime/env/Environment.java:246-263 | the shutdown functions are called in order up to and including the first that does not return normally, whose result is returned |
| Env.Environment.Conclude | jphp-runtime/src/php/runtime/env/Environment.java:265-267 | finalizeObjects always runs, with the state `Lifecycle.Finalization` gives; when no destructor raises, all pending output reaches the stream, the last message is cleared and the result is Finished; otherwise its failure escapes with output and last message untouched; a sound stack keeps its frames |
| Env.Environment.Finish | jphp-runtime/src/php/runtime/env/Environment.java:248-267 | a dying function always runs finalizeObjects and then exits with its code, unless a destructor raises; a reportable failure is recorded and the end of doFinal runs as Conclude states; any other failure escapes with nothing changed, the call stack included; a sound stack keeps its frames in every case, and its high-water mark is one above its depth exactly when a destructor ran (all stated as `Ended` over the state the loop left) |
| Env.Environment.DoFinal | jphp-runtime/src/php/runtime/env/Environment.java:245-268 | the shutdown functions are called in order through the first that stops; then, for its result, exactly what Finish states, so the destructors always run unless an unreported failure escapes first (the same `Ended`, over the state before the shutdown functions, which leave it untouched) |
| Env.Environment.GetOrCreateStatic | jphp-runtime/src/php/runtime/env/Environment.java:708-715 | the existing cell, or a fresh one holding the initial value that is stored under the name |
| Env.Environment.GetStatic | jphp-runtime/src/php/runtime/env/Environment.java:717-719 | the cell exactly when one was created under the name |
| Env.Environment.GetUserValue | jphp-runtime/src/php/runtime/env/Environment.java:722-724 | a value exactly when a non-null one is stored under the name |
| Env.Environment.SetUserValue | jphp-runtime/src/php/runtime/env/Environment.java:726-728 | the name then reads the value and every other name reads as before |
| Env.Environment.RemoveUserValue | jphp-runtime/src/php/runtime/env/Environment.java:730-732 | the entry is gone and the result says whether a non-null value was stored |
| Env.UnqualifiedIsLastSegment | jphp-runtime/src/php/runtime/env/Environment.java:1097-1101 | the fallback name is the longest suffix without a namespace separator: the whole name, or the part after its last separator |
| Silence.Push | jphp-runtime/src/php/runtime/env/Environment.java:1314-1317 | the flags become 0 and the old flags are saved last |
| Silence.Pop | jphp-runtime/src/php/runtime/env/Environment.java:1319-1322 | none exactly when nothing is saved; else the last saved flags are restored and dropped |
| Silence.PopUndoesPush | jphp-runtime/src/php/runtime/env/Environment.java:1314-1322 | leaving a silenced expression restores exactly the mask and saved masks from before it |
| Silence.PushNSaves | jphp-runtime/src/php/runtime/env/Environment.java:1314-1317 | n nested pushes save the original flags first and zeros after them |
| Silence.NestedRestores | jphp-runtime/src/php/runtime/env/Environment.java:1314-1322 | n matched pushes and pops restore the original mask, however deep |
| Silence.ClearAfterNesting | jphp-runtime/src/php/runtime/env/Environment.java:1324-1331 | clearing after any nesting from an unsilenced state restores the original flags with nothing saved |
| Buffers.Root | jphp-runtime/src/php/runtime/env/Environment.java:195-197 | the root buffer alone is a well-formed stack with nothing pending |
| Buffers.Push | jphp-runtime/src/php/runtime/env/Environment.java:958-967 | a user buffer at level the old size, above the unchanged buffers, empty, with the pending text unchanged |
| Buffers.Write | jphp-runtime/src/php/runtime/env/Environment.java:1020-1030 | only the top buffer changes, by having the text appended |
| Buffers.Pop | jphp-runtime/src/php/runtime/env/Environment.java:969-978 | none exactly when the top is the root; otherwise a closed buffer of the top's level and a well-formed stack one shorter, the lower buffers unchanged |
| Buffers.CloseRoot | jphp-runtime/src/php/runtime/env/Environment.java:1032-1035 | closing the root hands its content to the output stream and leaves it empty and closed |
| Buffers.WriteAppends | jphp-runtime/src/php/runtime/env/Environment.java:1020-1030 | an echo appends its text at the end of the pending text |
| Buffers.WriteKeepsWellFormed | jphp-runtime/src/php/runtime/env/Environment.java:1020-1030 | an echo keeps the root at the bottom and every level its position |
| Buffers.PopPreservesPending | jphp-runtime/src/php/runtime/env/Environment.java:969-978 | popping a user buffer loses and reorders no pending text |
| Buffers.PopAllCollapses | jphp-runtime/src/php/runtime/env/Environment.java:1032-1035 | popping until null leaves only the root, holding all pending text |
| Config.Coerce | jphp-runtime/src/php/runtime/env/Environment.java:684-694 | the stored value is a string with the value's string form, and a string is stored as is |
| Config.Filter | jphp-runtime/src/php/runtime/env/Environment.java:666-679 | exactly the entries whose key is listed for the prefix, with their values |
| Config.ListingIsVisibleValues | jphp-runtime/src/php/runtime/env/Environment.java:660-682 | a listed key is in the listing exactly when one of the two levels, the scope's only when asked for, has it, with the value getConfigValue sees |
| Common.LowerIsIdempotent | jphp-runtime/src/php/runtime/env/Environment.java:529-531 | lower-casing a lower-case key changes nothing |
| Common.LowerIgnoresCase | jphp-runtime/src/php/runtime/env/Environment.java:529-531 | names that differ only in ASCII letter case get the same key |
| Registry.PutAllKeys | jphp-runtime/src/php/runtime/env/Environment.java:1067-1089 | after the puts every kept entity's key is present, keys no kept entity has keep their entries, and no other key appears |
| Registry.PutAllFresh | jphp-runtime/src/php/runtime/env/Environment.java:1067-1089 | without clashes the old entries stay and each kept entity is stored under its own key |
| Registry.FirstClash | jphp-runtime/src/php/runtime/env/Environment.java:1070-1071 | the first entity that replaces an entry, when there is one; none before it replaces one |
| Registry.DeclareRegisters | jphp-runtime/src/php/runtime/env/Environment.java:1067-1089 | a reported clash is the entity now stored under its key; without one, every kept entity is registered and the old entries stay |
| Registry.PutAllGrows | jphp-runtime/src/php/runtime/env/Environment.java:1067-1089 | putting never removes a key |
| Registry.DeclareTwiceClashes | jphp-runtime/src/php/runtime/env/Environment.java:1067-1089 | declaring the same entities again clashes as soon as one is kept |
| Registry.Register | jphp-runtime/src/php/runtime/env/Environment.java:1067-1089 | a redeclaration error names a class, function or constant of the module with its trace and message |
| Registry.RegisterDeclaresAll | jphp-runtime/src/php/runtime/env/Environment.java:1067-1089 | after a clean registration the old entries remain and every top-level class and function and every constant is registered; a class clash leaves functions and constants alone, a function clash the constants |
| Registry.RegisterTwiceFails | jphp-runtime/src/php/runtime/env/Environment.java:1067-1089 | registering a module again is a redeclaration as soon as it declares anything |
| Registry.ConstantLookupRules | jphp-runtime/src/php/runtime/env/Environment.java:615-627 | a registered constant is found under any spelling unless it is case-sensitive, when only its exact name finds it and other spellings fall back to the compile constants |
| Registry.UnregisteredConstantFallsBack | jphp-runtime/src/php/runtime/env/Environment.java:615-627 | with no registered constant, the compile constant of that exact name, if any |
| Registry.DefineFailsIffVisible | jphp-runtime/src/php/runtime/env/Environment.java:633-640 | defining fails, changing nothing, exactly when the name already resolves; otherwise the constant is stored under its lower-case name |
| Registry.DefinedConstantResolves | jphp-runtime/src/php/runtime/env/Environment.java:615-640 | a defined constant then resolves under its name, and under any case variant when case-insensitive |
| Registry.DefineTwiceFails | jphp-runtime/src/php/runtime/env/Environment.java:633-640 | a second definition of the same name fails and changes nothing |
| Registry.CaseVariantReplacesConstant | jphp-runtime/src/php/runtime/env/Environment.java:615-640 | for any two different case-sensitive spellings with the same lower case, the second definition succeeds exactly when no compile constant has its spelling, and then it resolves and the first no longer does, because the map is keyed by lower case |
| Registry.RegisteredKeepsUnique | jphp-runtime/src/php/runtime/env/Environment.java:1534-1543 | registering never creates a duplicate, leaves the loader registered, adds nothing else, and puts a new one first when prepending, else last |
| Registry.UnregisteredRemovesAll | jphp-runtime/src/php/runtime/env/Environment.java:1549-1559 | exactly the equal loaders are removed, and the list shrinks exactly when one was there |
| Registry.UnregisteredKeepsUnique | jphp-runtime/src/php/runtime/env/Environment.java:1549-1559 | removing keeps a list free of duplicates |
| Loading.FetchLoads | jphp-runtime/src/php/runtime/env/Environment.java:554-571 | a class is found exactly when loaded or in the scope, and is then loaded under the name asked for; a miss changes nothing; no loader runs |
| Loading.FetchIsIdempotent | jphp-runtime/src/php/runtime/env/Environment.java:554-571 | looking up a found class again finds the same class and changes nothing |
| Loading.AutoloadGuard | jphp-runtime/src/php/runtime/env/Environment.java:488-514 | an invalid or guarded name returns null with nothing run or changed; otherwise the guard is released after a normal return and still held after a failure |
| Loading.LoadersRunInOrder | jphp-runtime/src/php/runtime/env/Environment.java:494-503 | the callbacks run are those of a prefix of the loader list, in order, and the whole list when nothing was found or raised |
| Loading.LoadersFindLoaded | jphp-runtime/src/php/runtime/env/Environment.java:494-503 | a class the loaders find is loaded under the name asked for, and no loaded class goes away |
| Loading.AutoloadFindsLoaded | jphp-runtime/src/php/runtime/env/Environment.java:494-510 | the same for the whole search, with the default loader and the last lookup |
| Resolution.NearestClassFrame | jphp-runtime/src/php/runtime/env/Environment.java:1477-1481 | the highest frame running in a class, no class frame above it, none when there is no class frame |
| Resolution.ResolveAtOnlyCaches | jphp-runtime/src/php/runtime/env/Environment.java:1456-1464 | resolving a frame only fills caches and loads classes: no loader runs |
| Resolution.LateStaticOnlyCaches | jphp-runtime/src/php/runtime/env/Environment.java:1427-1445 | the same for the late-static class |
| Resolution.ContextOnlyCaches | jphp-runtime/src/php/runtime/env/Environment.java:1452-1465 | the same for the context class |
| Resolution.MagicOnlyCaches | jphp-runtime/src/php/runtime/env/Environment.java:537-552 | resolving `self` or `static` only fills caches and loads classes |
| Resolution.LastClassOnlyCaches | jphp-runtime/src/php/runtime/env/Environment.java:1475-1498 | the same for the last class on the stack |
| Resolution.LastClassIgnoresFramesBelow | jphp-runtime/src/php/runtime/env/Environment.java:1475-1498 | frames below the nearest class frame play no part in the last class on the stack |
| Resolution.NoClassFrameNoClass | jphp-runtime/src/php/runtime/env/Environment.java:1475-1498 | with no frame running in a class the result is none and nothing changes |
| Resolution.ContextIsCached | jphp-runtime/src/php/runtime/env/Environment.java:1452-1465 | a context class once resolved is cached: resolving again gives it and changes nothing |
| Resolution.LateStaticIsCached | jphp-runtime/src/php/runtime/env/Environment.java:1427-1445 | a late-static class once resolved is cached in the running frame |
| Lifecycle.Clean | jphp-runtime/src/php/runtime/env/Environment.java:303-312 | exactly the references not on the queue remain |
| Lifecycle.DestructedOnce | jphp-runtime/src/php/runtime/env/Environment.java:280-301 | every destructor run belongs to a reachable tracked object whose class has one and that was not finalized; none runs twice; the objects newly finalized are exactly those destructed |
| Lifecycle.FinalizationIsPrefix | jphp-runtime/src/php/runtime/env/Environment.java:280-301 | the objects the loop destructs are a prefix of `Destructed`, all of it exactly when no destructor raises; none before the last one run raises, and a failure is that of the last one; on a broken stack nothing is destructed |
| Lifecycle.CollectedNotDestructed | jphp-runtime/src/php/runtime/env/Environment.java:282-285 | an object the host collected is never destructed |
| Lifecycle.Names | jphp-runtime/src/php/runtime/env/Environment.java:246-247 | the names of the shutdown functions, one per function, in order |
| Lifecycle.Stop | jphp-runtime/src/php/runtime/env/Environment.java:246-263 | the position of the first shutdown function that does not return normally; all before it do |
| Lifecycle.Called | jphp-runtime/src/php/runtime/env/Environment.java:246-263 | the functions called are the prefix up to and including that one, all of them when none stops |
| Tokens.NamedConstants1 | jphp-core/src/org/develnext/jphp/core/tokenizer/TokenType.java:7-36 | T_REQUIRE_ONCE to T_SL sit at their declaration positions with their codes |
| Tokens.NamedConstants2 | jphp-core/src/org/develnext/jphp/core/tokenizer/TokenType.java:37-66 | T_INSTANCEOF to T_DO likewise |
| Tokens.NamedConstants3 | jphp-core/src/org/develnext/jphp/core/tokenizer/TokenType.java:67-96 | T_WHILE to T_STATIC likewise |
| Tokens.NamedConstants4 | jphp-core/src/org/develnext/jphp/core/tokenizer/TokenType.java:97-126 | T_VAR to T_NAMESPACE likewise |
| Tokens.NamedConstants5 | jphp-core/src/org/develnext/jphp/core/tokenizer/TokenType.java:127-144 | T_NS_C to T_J_BOOLEAN_NOT likewise |
| Tokens.NamedConstants6 | jphp-core/src/org/develnext/jphp/core/tokenizer/TokenType.java:145-157 | T_J_CLASS_FETCH to T_J_BINARY_CAST likewise |
| Tokens.Table | jphp-core/src/org/develnext/jphp/core/tokenizer/TokenType.java:160-166 | every code in the map is mapped to a constant with that code |
| Tokens.ValueOf | jphp-core/src/org/develnext/jphp/core/tokenizer/TokenType.java:172-174 | a constant returned for a code has that code |
| Tokens.BuildTable | jphp-core/src/org/develnext/jphp/core/tokenizer/TokenType.java:162-166 | the static loop builds `Table(values())`, one put per constant in declaration order |
| Tokens.TableLastWins | jphp-core/src/org/develnext/jphp/core/tokenizer/TokenType.java:162-166 | a code is in the table exactly when some constant has it, and it maps to the last constant declared with it |
| Tokens.ValueOfIsLastDeclared | jphp-core/src/org/develnext/jphp/core/tokenizer/TokenType.java:162-174 | `valueOf(n)` is the constant at position k exactly when its code is n and no later constant has code n |
| Tokens.DeclaredCodeRanges | jphp-core/src/org/develnext/jphp/core/tokenizer/TokenType.java:7-174 | `valueOf(n)` is non-null exactly for codes in 258..380 and 1000..1018 |
| Tokens.ShadowedCodes | jphp-core/src/org/develnext/jphp/core/tokenizer/TokenType.java:130-135 | codes 341, 355, 363, 365 and 376 give T_INSTEADOF, T_TRAIT, T_CALLABLE, T_TRAIT_C and T_DOUBLE_COLON |
| Tokens.RoundTrip | jphp-core/src/org/develnext/jphp/core/tokenizer/TokenType.java:90-174 | `valueOf(t.value) == t` holds for a declared constant exactly when it is not one of the five shadowed ones |

## Left out

- Threads: the thread-local current environment, the thread hooks and every `synchronized` block. The model is sequential.
- Id allocation from a shared counter and free-id stack, and `finalize()`. These depend on the JVM garbage collector.
- Weak references and the reference queue. A tracked object is an entry marked reachable, cleared or queued; the host's collection is an input.
- The order of the tracked references. The source keeps them in a hash set, whose iteration order is unspecified; the model iterates them in registration order.
- Compilation. The module manager is modelled as a path-to-module cache filled from a fixed set of compilable files (`files`). `hasModule(path)` is taken to mean "cached", and `fetchCachedModule` as "cached, else compiled, cached and registered". The module manager's source is not part of this model.
- Running a module and loaders, destructors, shutdown functions and handlers. Their effects are data: whether each returns, raises or dies, and which classes a loader declares.
- Include paths, `findInIncludePaths` and the `include_path` change handler's splitting. These use the file system. The handler call itself is kept as a `configChanges` entry.
- Method invocation, closures' construction, generators, `__newObject`, the iterator and exception helpers, locale, charset and shell execution.
- `catchUncaught`'s printing and `die`. A failure it reports is recorded in `uncaught`. With no report handler installed (`setErrorReportHandler(null)`), the source raises a null dereference at Environment.java:812 instead. The model records the failure either way. A shutdown function that dies exits with its code (`Exited`) without the flush that follows the loop.
- Message formatting. A diagnostic carries its template name and arguments (`Text`); `Messages` is not modelled.
- `ErrorType`: only the types used (E_ERROR, E_WARNING, E_NOTICE, E_STRICT, E_DEPRECATED, E_ALL) are defined, with PHP's bit values. E_ERROR is taken to be fatal and not handled; the enumeration's source is not part of this model.
- Loading.ValidClassName: `StringUtils.isValidClassName` is not part of this model, so PHP's naming rule is assumed.
- Env.Environment.FetchFunction: the scope's `findUserFunction(name)` is assumed to look up the lower-case name.
- Env.Environment.LookupClass: a `CriticalException` from `initEnvironment` is not modelled; initialising a class is recorded in `classInits`.
- Env.Environment.Echo and Env.Environment.EchoValue: output is modelled as text appended to the top buffer. Byte arrays, chunking, output callbacks and encodings are not modelled.
- Common.Lower: lower-cases ASCII letters only. Java's `String.toLowerCase()` (Environment.java:530, 584, 630, 638) folds every Unicode letter and depends on the default locale. Class, function and constant names are therefore assumed to be ASCII; a name such as `Äpfel` is keyed differently here.
- Env.Environment.PushCall, Env.Environment.PushFrame and Env.Environment.PopCall: frames are values in the array, not shared `CallStackItem` objects. This model therefore does not capture three things. `pushCall(trace, ...)` reuses the object in a slot below `maxCallStackTop` through `setParameters`. `popCall` clears the popped object in place. `pushCall(item)` stores the caller's own object, which later pops clear and later pushes overwrite. A caller holding a `peekCall` result sees these changes in the source but not here. `CallStackItem` is not part of this model; `setParameters` is assumed to reset the frame's cached classes, so a reused slot starts with nothing cached, like a new one.
- Env.Environment.DefineFunction: `ModuleEntity.findFunction(index)` is not part of this model. It is assumed to return null for an index outside the module's functions, so that the following `getLowerName()` raises a null dereference.
- Env.Environment.PopOutputBuffer: the stack always holds the root, so the source's empty-stack check cannot fire and is not modelled.
- `getOrCreateGlobal`, `getGlobals`, the getters of fields and the `isLoaded*` probes. They only read a field.
- `fetchClass(Class)`: the native class name comes from Java reflection.
- `__getParent`, `getLateObject`, `__getMacroClass`, `__throwException` and its variants. They sit on object and exception plumbing.
