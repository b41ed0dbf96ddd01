# Recovery-method resolution and rate-limited interception (resilience4j), in Dafny

This project models two pieces of resilience4j.

**`FallbackMethod`** is the Spring-side recovery helper. It builds a table of recovery
("fallback") methods for an intercepted method, keyed by the `Throwable` type that each
method's last parameter accepts. A built table is cached under a `MethodMeta` key. On a
failure, the helper selects the handler whose key is nearest on the thrown class's
superclass chain and builds the argument list to invoke it with. If no key covers the
thrown class, the thrown object is rethrown unchanged.

**`RateLimiterMethodInterceptor`** is the Ratpack-side interceptor. It asks a rate limiter
for permission with the limiter's configured timeout, checks for an interrupt, and then
either runs the intercepted method or hands a `RequestNotPermitted` to the recovery
function. It dispatches on the method's declared return type: Promise, Flux, Mono,
CompletionStage or plain value.

Reflection is replaced by explicit data:

- A JVM type is an inductive `Classes.Class`. It is one of `Object`, a class with its
  superclass and interfaces, an interface with its super-interfaces, or a primitive type.
  The superclass walk therefore terminates structurally, and `Class.isAssignableFrom`
  becomes the recursive predicate `Classes.IsAssignableFrom`.
- A `java.lang.reflect.Method` is a record: declaring class, name, parameter types and
  return type.
- Reflective enumeration of an owner class's methods is the parameter
  `enumerate: Class -> seq<Method>`. It yields the methods in the order Spring's
  `doWithMethods` visits them.
- The process-wide cache is a value `map<MethodMeta, map<Class, Method>>`. Each cached
  operation takes the cache as input and returns the updated cache.
- The interceptor's world is the `Env` record: the limiter's answer to the n-th permission
  request, the interrupt flag after the n-th wait, the completion of the n-th call to the
  method, and an opaque recovery function. Each interception returns a trace of the calls
  it made (`Acquire(timeout, granted)`, `Proceed`, `Recover(failure)`) together with its
  reply.

Modules: `Results` (Option/Result), `Classes` (types, assignability, superclass chain),
`Objects` (run-time objects and references),
`MethodCache` (`MethodMeta`, `equals`, `hashCode`, `putIfAbsent`), `HandlerTable`
(candidate filter, table, cached `extractMethods`), `Recovery` (`build`, `fallback`,
argument lists, as written and corrected), `RateLimiterInterceptor`.

The model follows the code in four places where its behaviour is easy to misread:

- On the plain-value path, a failure of the admitted method is not recovered; it
  propagates as is.
- `proceed` drops the first exception and re-runs the method through the admission path,
  instead of recovering from that exception.
- The CompletionStage branch asks for permission but never checks for an interrupt.
- With a one-entry table, `fallback` uses `isAssignableFrom`, while a larger table uses
  the superclass walk. The two agree only for a well-formed hierarchy and a class key
  (`Recovery.SingleEntryAgreesWithWalk`).

## Model

| member | source | states |
|---|---|---|
| Classes.SuperChain | resilience4j-spring/src/main/java/io/github/resilience4j/recovery/FallbackMethod.java:93 | The classes visited by the walk from the thrown class up to, not including, `Object`. Each one is a class to which the thrown class is assignable. The chain starts at the thrown class when that is a class and is empty otherwise. |
| Classes.ClassAssignableIffOnChain | resilience4j-spring/src/main/java/io/github/resilience4j/recovery/FallbackMethod.java:84 | In a well-formed hierarchy, a class key is assignable from a type exactly when it lies on that type's superclass chain. |
| Classes.ThrowableTypesAreClasses | resilience4j-spring/src/main/java/io/github/resilience4j/recovery/FallbackMethod.java:237 | Every parameter type accepted as a `Throwable` is a class with `Throwable` on its chain. |
| MethodCache.ArraysEquals | resilience4j-spring/src/main/java/io/github/resilience4j/recovery/FallbackMethod.java:285 | `Arrays.equals` on `Class[]` holds exactly when the two parameter lists are the same sequence. |
| MethodCache.MetaEquals | resilience4j-spring/src/main/java/io/github/resilience4j/recovery/FallbackMethod.java:278-286 | `MethodMeta.equals` compares the four fields, parameters element by element. It holds exactly when the keys are equal values, so a map keyed by `MethodMeta` behaves like the Java cache. |
| MethodCache.HashCodeConsistent | resilience4j-spring/src/main/java/io/github/resilience4j/recovery/FallbackMethod.java:288-291 | Keys that `equals` identifies have the same `hashCode` (owner-name hash XOR method-name hash, in 32-bit arithmetic). |
| MethodCache.HashCodeIgnoresSignature | resilience4j-spring/src/main/java/io/github/resilience4j/recovery/FallbackMethod.java:289-291 | Overloads share a hash code but are equal keys only when parameter and return types also match. |
| MethodCache.PutIfAbsent | resilience4j-spring/src/main/java/io/github/resilience4j/recovery/FallbackMethod.java:257 | Adds only the new key, never overwrites an existing entry, and stores the table when the key was absent. |
| HandlerTable.QualifiesIffHandlerShape | resilience4j-spring/src/main/java/io/github/resilience4j/recovery/FallbackMethod.java:232-253 | A method is a candidate exactly when all of these hold: its name matches; its return type is assignable to the original one; its parameters are `(t)` or `(originalParams..., t)` with `t` a throwable type. |
| HandlerTable.Table | resilience4j-spring/src/main/java/io/github/resilience4j/recovery/FallbackMethod.java:224-231 | The table succeeds exactly when no two candidates share an exception type. On success it files every candidate under its exception type and holds nothing else. On failure it names an exception type that two candidates share. |
| HandlerTable.UnambiguousIffBag | resilience4j-spring/src/main/java/io/github/resilience4j/recovery/FallbackMethod.java:224-231 | The walk finds no duplicate exactly when the bag of methods meets two conditions: no candidate occurs twice, and distinct candidates have distinct exception types. So the verdict depends only on which methods are visited. |
| HandlerTable.TableOrderIndependent | resilience4j-spring/src/main/java/io/github/resilience4j/recovery/FallbackMethod.java:224-231 | Two walks over the same methods in any order either both report a duplicate or build the same table. The reflective method order therefore does not matter. |
| HandlerTable.ExtractMethods | resilience4j-spring/src/main/java/io/github/resilience4j/recovery/FallbackMethod.java:216-259 | A cached key returns the cached table and leaves the cache unchanged. A miss walks the methods. A duplicate leaves the cache unchanged. A success adds only this key, mapped to the returned table, and existing entries never change. |
| HandlerTable.ExtractionTransparent | resilience4j-spring/src/main/java/io/github/resilience4j/recovery/FallbackMethod.java:216-258 | From a sound cache (every entry equals a fresh build), extraction returns what an uncached walk returns and leaves the cache sound. |
| HandlerTable.ExtractionIdempotent | resilience4j-spring/src/main/java/io/github/resilience4j/recovery/FallbackMethod.java:217-222 | Repeating an extraction with the same key gives the same outcome and the same cache. |
| HandlerTable.CacheHitSkipsEnumeration | resilience4j-spring/src/main/java/io/github/resilience4j/recovery/FallbackMethod.java:218-222 | On a cache hit the result does not depend on the method enumeration: no re-enumeration. |
| HandlerTable.TableKeysAreThrowable | resilience4j-spring/src/main/java/io/github/resilience4j/recovery/FallbackMethod.java:231-253 | Every key of a built table is a throwable type, and its handler has a parameter to receive it. |
| Recovery.Build | resilience4j-spring/src/main/java/io/github/resilience4j/recovery/FallbackMethod.java:196-206 | `NoSuchMethod` exactly when the extracted table is empty. A duplicate error propagates. Otherwise the fallback carries the extracted table, the original return type, the arguments and the target. |
| Recovery.BuildFromSoundCache | resilience4j-spring/src/main/java/io/github/resilience4j/recovery/FallbackMethod.java:196-205 | From a sound cache, `build` succeeds exactly when there is a candidate and no duplicate. It fails with `NoSuchMethod` exactly when there are no candidates and no duplicate. The built table files exactly the candidates, and the cache stays sound. |
| Recovery.Nearest | resilience4j-spring/src/main/java/io/github/resilience4j/recovery/FallbackMethod.java:91-95 | The walk finds nothing exactly when no class on the chain is a key. Otherwise it returns a key on the chain, and every other key on the chain lies above it. |
| Recovery.Select | resilience4j-spring/src/main/java/io/github/resilience4j/recovery/FallbackMethod.java:82-99 | A selected key is in the table and covers the thrown class. A one-entry table selects exactly when its key is assignable from the thrown class. A larger table uses the walk. |
| Recovery.InvokeArgs | resilience4j-spring/src/main/java/io/github/resilience4j/recovery/FallbackMethod.java:128-138 | Corrected argument list: it always ends with the thrown object (see Findings). |
| Recovery.InvokeArgsFitHandler | resilience4j-spring/src/main/java/io/github/resilience4j/recovery/FallbackMethod.java:128-138 | For every candidate handler and original-arity arguments, the list has the handler's arity and ends with the thrown object. The original arguments come first exactly when the handler declares them. |
| Recovery.Fallback | resilience4j-spring/src/main/java/io/github/resilience4j/recovery/FallbackMethod.java:81-102 | `fallback` rethrows the very same thrown object exactly when no key is selected. Otherwise it invokes the selected key's handler on the target, with the corrected argument list (see Findings). |
| Recovery.SingleEntryFallback | resilience4j-spring/src/main/java/io/github/resilience4j/recovery/FallbackMethod.java:82-88 | One entry: the handler runs exactly when its key is the thrown class or a supertype of it. Otherwise the thrown object itself is rethrown. |
| Recovery.NearestHandlerWins | resilience4j-spring/src/main/java/io/github/resilience4j/recovery/FallbackMethod.java:91-101 | Several entries: the selected key is on the thrown class's chain, and every other key covering the thrown class is a superclass of it. The exact class wins whenever it is a key. |
| Recovery.UncoveredFailureRethrown | resilience4j-spring/src/main/java/io/github/resilience4j/recovery/FallbackMethod.java:93-99 | If no key covers the thrown class, the thrown object is rethrown unchanged and no handler runs. |
| Recovery.SingleEntryAgreesWithWalk | resilience4j-spring/src/main/java/io/github/resilience4j/recovery/FallbackMethod.java:82-95 | For a class key in a well-formed hierarchy, the one-entry `isAssignableFrom` check selects exactly what the superclass walk would. |
| Recovery.DocumentedExample | resilience4j-spring/src/main/java/io/github/resilience4j/recovery/FallbackMethod.java:33-40 | With `RuntimeException` and `IllegalArgumentException` handlers, a `NumberFormatException` goes to the `IllegalArgumentException` handler. |
| Recovery.BuiltFallbackInvocable | resilience4j-spring/src/main/java/io/github/resilience4j/recovery/FallbackMethod.java:81-138 | If a build from a sound cache succeeds, the fallback only invokes candidate handlers. The invoked handler's exception parameter accepts the thrown object, and the argument list has the handler's arity. |
| Recovery.InvokeArgsAsWritten | resilience4j-spring/src/main/java/io/github/resilience4j/recovery/FallbackMethod.java:128-138 | As written: no original arguments give `[thrown]`. One argument and a handler whose first parameter is throwable give `[thrown]`. Otherwise the result is the arguments followed by the thrown object. |
| Recovery.AsWrittenDiffersExactly | resilience4j-spring/src/main/java/io/github/resilience4j/recovery/FallbackMethod.java:128-138 | For candidate handlers, the as-written list equals the corrected one except in exactly two cases. The first is a one-parameter handler with two or more arguments. The second is a two-parameter handler with one argument whose declared type is throwable. |
| Recovery.FallbackAsWritten | resilience4j-spring/src/main/java/io/github/resilience4j/recovery/FallbackMethod.java:81-102 | `fallback` as written: the same selection as `Fallback`, and the same rethrow of the very thrown object when nothing is selected. The selected handler receives the argument list that `invoke` builds as written. |
| Recovery.AsWrittenFallbackDiffersOnlyInArguments | resilience4j-spring/src/main/java/io/github/resilience4j/recovery/FallbackMethod.java:81-138 | Take a table of candidates and arguments of the original arity. The as-written and corrected `fallback` then both rethrow, or both invoke the same handler on the same target. Their argument lists differ exactly in the two cases of `AsWrittenDiffersExactly`. |
| Recovery.AsWrittenArityMismatch | resilience4j-spring/src/main/java/io/github/resilience4j/recovery/FallbackMethod.java:128-138 | Two concrete candidate handlers receive an as-written argument list of the wrong length. The corrected list fits both. |
| RateLimiterInterceptor.HandleProceedWithException | resilience4j-ratpack/src/main/java/io/github/resilience4j/ratpack/ratelimiter/RateLimiterMethodInterceptor.java:133-146 | First comes one permission request with the configured timeout. An interrupt then fails with `IllegalStateException` whatever the answer, and nothing else runs. A denial returns the recovery function's result for `RequestNotPermitted(limiter)`, without running the method. A grant returns exactly the method's completion. |
| RateLimiterInterceptor.ProceedWithFallback | resilience4j-ratpack/src/main/java/io/github/resilience4j/ratpack/ratelimiter/RateLimiterMethodInterceptor.java:122-131 | The method runs first. A success, or a non-`Exception` throwable, is returned unchanged and no permission is requested. An `Exception` passes control to the admission path, which may run the method again. |
| RateLimiterInterceptor.ShapeOf | resilience4j-ratpack/src/main/java/io/github/resilience4j/ratpack/ratelimiter/RateLimiterMethodInterceptor.java:84-117 | The shape is the first of Promise, Flux, Mono, CompletionStage that the return type is assignable to. It is a plain value exactly when none matches. |
| RateLimiterInterceptor.Intercept | resilience4j-ratpack/src/main/java/io/github/resilience4j/ratpack/ratelimiter/RateLimiterMethodInterceptor.java:75-120 | Plain values take the admission path directly. A CompletionStage requests permission first: a grant continues with `proceed`, and a denial returns a fresh future failed with `RequestNotPermitted(limiter)` without running the method. Reactive shapes cast the result of `proceed` to `Promise`, `Flux` or `Mono`. A non-null result of that type is wrapped, and null or a thrown failure passes through. An object of any other class fails the cast with a `ClassCastException`. |
| RateLimiterInterceptor.AdmissionDisciplined | resilience4j-ratpack/src/main/java/io/github/resilience4j/ratpack/ratelimiter/RateLimiterMethodInterceptor.java:133-146 | The admission path starts with a permission request and runs the method at most once, only after a grant. Recovery runs only after a denial. |
| RateLimiterInterceptor.ProceedDisciplined | resilience4j-ratpack/src/main/java/io/github/resilience4j/ratpack/ratelimiter/RateLimiterMethodInterceptor.java:122-131 | `proceed` keeps the discipline on its own and after a granted request. |
| RateLimiterInterceptor.InterceptionDisciplined | resilience4j-ratpack/src/main/java/io/github/resilience4j/ratpack/ratelimiter/RateLimiterMethodInterceptor.java:75-146 | This holds for every return type and world. Every permission request uses the configured timeout. The method runs at most twice, and any re-run comes right after a granted request. Recovery runs only right after a denied request, and only on that limiter's `RequestNotPermitted`. |
| RateLimiterInterceptor.DeniedValueCallRecovers | resilience4j-ratpack/src/main/java/io/github/resilience4j/ratpack/ratelimiter/RateLimiterMethodInterceptor.java:141-144 | A denied plain-value call without interrupt returns the recovery of `RequestNotPermitted(limiter)` and never runs the method. |
| RateLimiterInterceptor.InterruptedValueCallFails | resilience4j-ratpack/src/main/java/io/github/resilience4j/ratpack/ratelimiter/RateLimiterMethodInterceptor.java:137-140 | An interrupted wait fails with `IllegalStateException` after one permission request, whatever the answer. |
| RateLimiterInterceptor.AdmittedValueCallPassesFailureThrough | resilience4j-ratpack/src/main/java/io/github/resilience4j/ratpack/ratelimiter/RateLimiterMethodInterceptor.java:145 | An admitted plain-value call that throws rethrows exactly that failure: it is not recovered. |
| RateLimiterInterceptor.WellTypedResultsPassCasts | resilience4j-ratpack/src/main/java/io/github/resilience4j/ratpack/ratelimiter/RateLimiterMethodInterceptor.java:85-104 | Suppose the method and the recovery function only return objects of the declared return type, as the class comment at lines 63-64 requires. Then no cast in a reactive branch fails: a non-null result of `proceed` is wrapped, and anything else passes through. |
| RateLimiterInterceptor.MistypedRecoveryFailsCast | resilience4j-ratpack/src/main/java/io/github/resilience4j/ratpack/ratelimiter/RateLimiterMethodInterceptor.java:85-91 | Take a `Promise` method that throws an `IOException`, a limiter that denies the retry, and a recovery function that returns a `String`. The cast in the Promise branch then throws `ClassCastException` for that `String`. |
| RateLimiterInterceptor.DispatchFirstMatch | resilience4j-ratpack/src/main/java/io/github/resilience4j/ratpack/ratelimiter/RateLimiterMethodInterceptor.java:85-117 | A `Mono` subclass that implements `CompletionStage` dispatches as `Mono`. `CompletableFuture` dispatches as `CompletionStage`. |

## Left out

- Reflective invocation (`Method.invoke`, `makeAccessible`/`setAccessible` and restoring
  accessibility). `fallback` reports which handler runs, on which target, with which
  arguments. It does not model what the handler returns or throws. An exception the
  handler throws reaches the caller wrapped in `InvocationTargetException`, because
  `fallback` never unwraps it. The model leaves this wrapping out.
- The order in which `ReflectionUtils.doWithMethods` visits methods, and which methods it
  visits (overridden methods appear once per declaring class). Both are supplied as the
  `enumerate` input.
- The weak references and concurrency of `ConcurrentReferenceHashMap`: eviction, and a
  race between `get` and `putIfAbsent`. The cache is a plain map, so a miss always
  inserts.
- The message text of `NoSuchMethodException` and `IllegalStateException`. The errors are
  `NoSuchMethod` and `DuplicateFallback(exceptionType)`.
- `getReturnType` is the `returnType` field of the built fallback.
- Guice injection of the registry, default-registry creation, and looking up the limiter
  by annotation name. The limiter is an input.
- The rate limiter's admission algorithm and its answers. These are `Env.permitted`.
- `Thread.interrupted()` as thread state. It is `Env.interrupted`, read once after each
  wait.
- Ratpack `Promise`, Reactor `Flux`/`Mono`, `RateLimiterTransformer`,
  `RateLimiterOperator` and `onErrorResume`. A wrapped reactive result is the opaque
  reply `Decorated(shape, source)`.
- `createRecoveryFunction`, `completeFailedFuture` and `DefaultRecoveryFunction` are not
  part of this model. The recovery function is the opaque `Env.recover`. The denied
  CompletionStage reply is `FailedFuture(RequestNotPermitted(limiter))`.
- Java array types are not among the modelled types. `isAssignableFrom` covers classes,
  interfaces, `Object` and primitive identity.

## Findings

| source | as written | input that shows it | evidently intended | confidence | as-written member | corrected member |
|---|---|---|---|---|---|---|
| resilience4j-spring/src/main/java/io/github/resilience4j/recovery/FallbackMethod.java:128-138 | `invoke` passes only the throwable when there are no arguments, or when there is one argument and the handler's first parameter type is a `Throwable` subtype; otherwise it passes the arguments plus the throwable. The choice ignores the handler's arity. | Original `String m(String, String)` with the accepted candidate `String recover(Throwable)`: three arguments go to a one-parameter method. Original `String m(IOException)` with the accepted candidate `String recover(IOException, Throwable)`: one argument goes to a two-parameter method. Either way reflective invocation fails with a wrong number of arguments. | Pass `[throwable]` exactly when the handler has one parameter; otherwise pass the arguments followed by the throwable. Then every candidate the filter accepts can be invoked. | medium; not executed | Recovery.InvokeArgsAsWritten, Recovery.FallbackAsWritten | Recovery.InvokeArgs, Recovery.Fallback |
