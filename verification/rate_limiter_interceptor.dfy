/**
 * `RateLimiterMethodInterceptor`: admission through a rate limiter around a
 * method call, dispatched on the method's declared return type. The limiter,
 * the thread's interrupt flag, the intercepted method and the recovery
 * function are inputs; each run reports the calls it made as a trace of
 * events together with what it returned or threw.
 */
module RateLimiterInterceptor {
  import opened Classes
  import opened Objects

  /** The rate limiter named by the annotation, with its configured `timeoutDuration`. */
  datatype RateLimiter = RateLimiter(name: string, timeoutDuration: nat)

  /** A throwable the interceptor can see or create. */
  datatype Failure =
    | Raised(obj: Instance)                    // thrown by the intercepted method or the recovery function
    | RequestNotPermitted(limiter: RateLimiter) // admission denied by `limiter`
    | IllegalState(message: string)            // the interrupt check
    | ClassCast(obj: Instance, target: Class)  // a cast in `invoke` rejected `obj`

  const RequestNotPermittedType := ClassOf("io.github.resilience4j.ratelimiter.RequestNotPermitted", RuntimeException, [])

  const InterruptedMessage := "Thread was interrupted during permission wait"

  /** The runtime class of a failure. */
  function ClassOfFailure(f: Failure): Class
  {
    match f
    case Raised(o) => o.cls
    case RequestNotPermitted(_) => RequestNotPermittedType
    case IllegalState(_) => IllegalStateException
    case ClassCast(_, _) => ClassCastException
  }

  /** Caught by `catch (Exception e)`; an `Error` or other throwable is not. */
  predicate IsException(f: Failure)
  {
    IsAssignableFrom(Exception, ClassOfFailure(f))
  }

  /** What a call returned or threw. */
  datatype Completion = Returned(value: Value) | Threw(failure: Failure)

  /**
   * The world of one interception. The n-th `acquirePermission` answers
   * `permitted(n)` and `Thread.interrupted()` after it answers
   * `interrupted(n)`; the n-th `invocation.proceed()` completes with
   * `proceed(n)`; the recovery function maps a failure to its completion.
   */
  datatype Env = Env(
    permitted: nat -> bool,
    interrupted: nat -> bool,
    proceed: nat -> Completion,
    recover: Failure -> Completion)

  /** A call the interceptor makes. */
  datatype Event =
    | Acquire(timeout: nat, granted: bool) // `acquirePermission(timeout)` and its answer
    | Proceed                              // `invocation.proceed()`
    | Recover(failure: Failure)            // `recoveryFunction.apply(failure)`

  /** A completion together with the calls made to reach it. */
  datatype Step = Step(trace: seq<Event>, completion: Completion)

  /**
   * `handleProceedWithException`: wait for permission with the configured
   * timeout; an interrupt during the wait is an `IllegalStateException`
   * whatever the answer; a denial is handed to the recovery function as a
   * `RequestNotPermitted` naming the limiter; a grant runs the method.
   * `acquired` and `calls` count the earlier permission requests and method calls.
   */
  function HandleProceedWithException(rl: RateLimiter, env: Env, acquired: nat, calls: nat): (s: Step)
    ensures |s.trace| > 0 && s.trace[0] == Acquire(rl.timeoutDuration, env.permitted(acquired))
    ensures env.interrupted(acquired) ==>
      s.completion == Threw(IllegalState(InterruptedMessage)) && |s.trace| == 1
    ensures !env.interrupted(acquired) && !env.permitted(acquired) ==>
      s.completion == env.recover(RequestNotPermitted(rl)) &&
      s.trace[1..] == [Recover(RequestNotPermitted(rl))]
    ensures !env.interrupted(acquired) && env.permitted(acquired) ==>
      s.completion == env.proceed(calls) && s.trace[1..] == [Proceed]
  {
    var permission := env.permitted(acquired);
    var wait := [Acquire(rl.timeoutDuration, permission)];
    if env.interrupted(acquired) then
      Step(wait, Threw(IllegalState(InterruptedMessage)))
    else if !permission then
      var t := RequestNotPermitted(rl);
      Step(wait + [Recover(t)], env.recover(t))
    else
      Step(wait + [Proceed], env.proceed(calls))
  }

  /**
   * `proceed`: run the method first, without asking the limiter; only if that
   * throws an `Exception` take the admission path, which may run it again.
   * The first exception itself is dropped.
   */
  function ProceedWithFallback(rl: RateLimiter, env: Env, acquired: nat): (s: Step)
    ensures |s.trace| > 0 && s.trace[0] == Proceed
    ensures !(env.proceed(0).Threw? && IsException(env.proceed(0).failure)) ==>
      s == Step([Proceed], env.proceed(0))
    ensures env.proceed(0).Threw? && IsException(env.proceed(0).failure) ==>
      s.trace[1..] == HandleProceedWithException(rl, env, acquired, 1).trace &&
      s.completion == HandleProceedWithException(rl, env, acquired, 1).completion
  {
    var first := env.proceed(0);
    if first.Threw? && IsException(first.failure) then
      var h := HandleProceedWithException(rl, env, acquired, 1);
      Step([Proceed] + h.trace, h.completion)
    else
      Step([Proceed], first)
  }

  /** The result shapes `invoke` distinguishes. */
  datatype Shape = PromiseShape | FluxShape | MonoShape | CompletionStageShape | ValueShape

  const PromiseType := InterfaceOf("ratpack.exec.Promise", [])
  const Publisher := InterfaceOf("org.reactivestreams.Publisher", [])
  const FluxType := ClassOf("reactor.core.publisher.Flux", Object, [Publisher])
  const MonoType := ClassOf("reactor.core.publisher.Mono", Object, [Publisher])
  const CompletionStageType := InterfaceOf("java.util.concurrent.CompletionStage", [])

  /** The order in which `invoke` tests the declared return type. */
  const DispatchOrder: seq<(Class, Shape)> :=
    [(PromiseType, PromiseShape), (FluxType, FluxShape), (MonoType, MonoShape),
     (CompletionStageType, CompletionStageShape)]

  /** The type `invoke` tests for each shape, which is also the type the reactive branches cast the result to. */
  function DispatchType(s: Shape): Class
  {
    match s
    case PromiseShape => PromiseType
    case FluxShape => FluxType
    case MonoShape => MonoType
    case CompletionStageShape => CompletionStageType
    case ValueShape => Object
  }

  /**
   * The shape of a declared return type: the first entry of `DispatchOrder`
   * the type is assignable to, or a plain value when there is none.
   */
  function ShapeOf(returnType: Class): (s: Shape)
    ensures s == ValueShape <==>
      forall i | 0 <= i < |DispatchOrder| :: !IsAssignableFrom(DispatchOrder[i].0, returnType)
    ensures s != ValueShape ==>
      exists i | 0 <= i < |DispatchOrder| ::
        DispatchOrder[i].1 == s && IsAssignableFrom(DispatchOrder[i].0, returnType) &&
        forall j | 0 <= j < i :: !IsAssignableFrom(DispatchOrder[j].0, returnType)
    ensures s != ValueShape ==> IsAssignableFrom(DispatchType(s), returnType)
  {
    if IsAssignableFrom(PromiseType, returnType) then
      assert DispatchOrder[0] == (PromiseType, PromiseShape);
      PromiseShape
    else if IsAssignableFrom(FluxType, returnType) then
      assert DispatchOrder[1] == (FluxType, FluxShape);
      FluxShape
    else if IsAssignableFrom(MonoType, returnType) then
      assert DispatchOrder[2] == (MonoType, MonoShape);
      MonoShape
    else if IsAssignableFrom(CompletionStageType, returnType) then
      assert DispatchOrder[3] == (CompletionStageType, CompletionStageShape);
      CompletionStageShape
    else
      ValueShape
  }

  /** What `invoke` hands back to the caller. */
  datatype Reply =
    | Done(completion: Completion)
      // returned or thrown as is
    | Decorated(shape: Shape, source: Value)
      // a non-null reactive result wrapped with the limiter's transformer or operator and the recovery function
    | FailedFuture(failure: Failure)
      // a fresh `CompletableFuture` handed, with `failure`, to the recovery machinery

  /** A reply together with the calls made to reach it. */
  datatype Outcome = Outcome(trace: seq<Event>, reply: Reply)

  /**
   * A reactive branch: cast the result of `proceed` to the branch's type, then
   * wrap it if it is not null. A thrown failure and null pass through; an object
   * of another class fails the cast with a `ClassCastException`.
   */
  function Decorate(shape: Shape, c: Completion): (r: Reply)
    ensures r.Decorated? ==> r.source.Ref? && IsAssignableFrom(DispatchType(shape), r.source.obj.cls)
    ensures !r.Decorated? ==>
      r == Done(c) || (c.Returned? && c.value.Ref? && r == Done(Threw(ClassCast(c.value.obj, DispatchType(shape)))))
  {
    if c.Threw? || c.value.Null? then Done(c)
    else if IsAssignableFrom(DispatchType(shape), c.value.obj.cls) then Decorated(shape, c.value)
    else Done(Threw(ClassCast(c.value.obj, DispatchType(shape))))
  }

  /**
   * `invoke`: Promise, Flux and Mono results come from `proceed`, are cast to
   * the branch's type and are wrapped; a CompletionStage is admitted up front and, if denied, replaced by
   * a fresh future failed with `RequestNotPermitted`; any other type takes the
   * admission path directly.
   */
  function Intercept(rl: RateLimiter, env: Env, returnType: Class): (o: Outcome)
    ensures ShapeOf(returnType) == ValueShape ==>
      var h := HandleProceedWithException(rl, env, 0, 0);
      o == Outcome(h.trace, Done(h.completion))
    ensures ShapeOf(returnType) == CompletionStageShape ==>
      && |o.trace| > 0 && o.trace[0] == Acquire(rl.timeoutDuration, env.permitted(0))
      && (!env.permitted(0) ==> o == Outcome([o.trace[0]], FailedFuture(RequestNotPermitted(rl))))
      && (env.permitted(0) ==>
            var p := ProceedWithFallback(rl, env, 1);
            o.trace[1..] == p.trace && o.reply == Done(p.completion))
    ensures ShapeOf(returnType) in {PromiseShape, FluxShape, MonoShape} ==>
      var p := ProceedWithFallback(rl, env, 0);
      o.trace == p.trace && o.reply == Decorate(ShapeOf(returnType), p.completion)
  {
    var shape := ShapeOf(returnType);
    match shape
    case ValueShape =>
      var h := HandleProceedWithException(rl, env, 0, 0);
      Outcome(h.trace, Done(h.completion))
    case CompletionStageShape =>
      var permission := env.permitted(0);
      var wait := Acquire(rl.timeoutDuration, permission);
      if permission then
        var p := ProceedWithFallback(rl, env, 1);
        Outcome([wait] + p.trace, Done(p.completion))
      else
        Outcome([wait], FailedFuture(RequestNotPermitted(rl)))
    case _ =>
      var p := ProceedWithFallback(rl, env, 0);
      Outcome(p.trace, Decorate(shape, p.completion))
  }

  /**
   * The discipline every interception keeps, whatever the return type and the
   * world: permission is always requested with the configured timeout; the
   * method runs at most twice, and after its first step only right after a
   * granted request; recovery runs only right after a denied request and only
   * on that limiter's `RequestNotPermitted`.
   */
  predicate Disciplined(rl: RateLimiter, trace: seq<Event>)
  {
    && (forall i | 0 <= i < |trace| && trace[i].Acquire? :: trace[i].timeout == rl.timeoutDuration)
    && multiset(trace)[Proceed] <= 2
    && (forall i | 0 < i < |trace| && trace[i] == Proceed :: trace[i - 1].Acquire? && trace[i - 1].granted)
    && (forall i | 0 <= i < |trace| && trace[i].Recover? ::
          i > 0 && trace[i - 1].Acquire? && !trace[i - 1].granted &&
          trace[i].failure == RequestNotPermitted(rl))
  }

  /** Two disciplined traces compose when the second does not start with a call the first did not admit. */
  lemma ConcatDisciplined(rl: RateLimiter, x: seq<Event>, y: seq<Event>)
    requires Disciplined(rl, x) && Disciplined(rl, y)
    requires |x| > 0 && |y| > 0 && y[0] == Proceed ==> x[|x| - 1].Acquire? && x[|x| - 1].granted
    requires multiset(x)[Proceed] + multiset(y)[Proceed] <= 2
    ensures Disciplined(rl, x + y)
  {
    var s := x + y;
    assert multiset(s) == multiset(x) + multiset(y);
    forall i | 0 <= i < |s| && s[i].Acquire?
      ensures s[i].timeout == rl.timeoutDuration
    {
      if i < |x| {
        assert s[i] == x[i];
      } else {
        assert s[i] == y[i - |x|];
      }
    }
    forall i | 0 < i < |s| && s[i] == Proceed
      ensures s[i - 1].Acquire? && s[i - 1].granted
    {
      if i < |x| {
        assert s[i] == x[i] && s[i - 1] == x[i - 1];
      } else if i == |x| {
        assert s[i] == y[0] && s[i - 1] == x[|x| - 1];
      } else {
        assert s[i] == y[i - |x|] && s[i - 1] == y[i - |x| - 1];
      }
    }
    forall i | 0 <= i < |s| && s[i].Recover?
      ensures i > 0 && s[i - 1].Acquire? && !s[i - 1].granted && s[i].failure == RequestNotPermitted(rl)
    {
      if i < |x| {
        assert s[i] == x[i] && s[i - 1] == x[i - 1];
      } else if i > |x| {
        assert s[i] == y[i - |x|] && s[i - 1] == y[i - |x| - 1];
      }
    }
  }

  /** The admission path alone is disciplined and runs the method at most once. */
  lemma AdmissionDisciplined(rl: RateLimiter, env: Env, acquired: nat, calls: nat)
    ensures var t := HandleProceedWithException(rl, env, acquired, calls).trace;
      Disciplined(rl, t) && multiset(t)[Proceed] <= 1 && t[0].Acquire?
  {
    var a := Acquire(rl.timeoutDuration, env.permitted(acquired));
    var t := HandleProceedWithException(rl, env, acquired, calls).trace;
    if env.interrupted(acquired) {
      assert t == [a];
    } else if a.granted {
      assert t == [a, Proceed];
    } else {
      assert t == [a, Recover(RequestNotPermitted(rl))];
    }
  }

  /** `proceed` alone is disciplined and starts by running the method. */
  lemma ProceedTraceDisciplined(rl: RateLimiter, env: Env, acquired: nat)
    ensures var t := ProceedWithFallback(rl, env, acquired).trace;
      Disciplined(rl, t) && t[0] == Proceed
  {
    var first := env.proceed(0);
    if first.Threw? && IsException(first.failure) {
      var h := HandleProceedWithException(rl, env, acquired, 1).trace;
      AdmissionDisciplined(rl, env, acquired, 1);
      assert multiset([Proceed])[Proceed] == 1;
      ConcatDisciplined(rl, [Proceed], h);
      assert ProceedWithFallback(rl, env, acquired).trace == [Proceed] + h;
    }
  }

  /** A granted request may precede any disciplined trace. */
  lemma GrantedPrefixDisciplined(rl: RateLimiter, t: seq<Event>)
    requires Disciplined(rl, t)
    ensures Disciplined(rl, [Acquire(rl.timeoutDuration, true)] + t)
  {
    var a := [Acquire(rl.timeoutDuration, true)];
    assert multiset(a)[Proceed] == 0;
    ConcatDisciplined(rl, a, t);
  }

  /** `proceed` is disciplined, and so is a granted request followed by it. */
  lemma ProceedDisciplined(rl: RateLimiter, env: Env, acquired: nat)
    ensures var t := ProceedWithFallback(rl, env, acquired).trace;
      Disciplined(rl, t) && Disciplined(rl, [Acquire(rl.timeoutDuration, true)] + t)
  {
    ProceedTraceDisciplined(rl, env, acquired);
    GrantedPrefixDisciplined(rl, ProceedWithFallback(rl, env, acquired).trace);
  }

  /** Every interception, for every return type and every world, keeps the discipline above. */
  lemma InterceptionDisciplined(rl: RateLimiter, env: Env, returnType: Class)
    ensures Disciplined(rl, Intercept(rl, env, returnType).trace)
  {
    var o := Intercept(rl, env, returnType);
    var shape := ShapeOf(returnType);
    if shape == ValueShape {
      AdmissionDisciplined(rl, env, 0, 0);
    } else if shape == CompletionStageShape {
      if env.permitted(0) {
        ProceedDisciplined(rl, env, 1);
      } else {
        assert o.trace == [Acquire(rl.timeoutDuration, false)];
      }
    } else {
      ProceedDisciplined(rl, env, 0);
    }
  }

  /**
   * A plain-value call that the limiter denies, without interrupt, returns
   * what the recovery function makes of the limiter's `RequestNotPermitted`
   * and never runs the method.
   */
  lemma DeniedValueCallRecovers(rl: RateLimiter, env: Env, returnType: Class)
    requires ShapeOf(returnType) == ValueShape
    requires !env.interrupted(0) && !env.permitted(0)
    ensures var o := Intercept(rl, env, returnType);
      o.reply == Done(env.recover(RequestNotPermitted(rl))) && Proceed !in o.trace
  {
    var h := HandleProceedWithException(rl, env, 0, 0);
    assert h.trace == [Acquire(rl.timeoutDuration, false), Recover(RequestNotPermitted(rl))];
  }

  /**
   * An interrupt during the admission wait of a plain-value call is an
   * `IllegalStateException`, whatever the limiter answered; neither the method
   * nor the recovery function runs.
   */
  lemma InterruptedValueCallFails(rl: RateLimiter, env: Env, returnType: Class)
    requires ShapeOf(returnType) == ValueShape
    requires env.interrupted(0)
    ensures var o := Intercept(rl, env, returnType);
      && o.reply == Done(Threw(IllegalState(InterruptedMessage)))
      && o.trace == [Acquire(rl.timeoutDuration, env.permitted(0))]
  {
  }

  /**
   * On the plain-value path the method's own failure is not recovered: a
   * granted call that throws rethrows exactly that failure.
   */
  lemma AdmittedValueCallPassesFailureThrough(rl: RateLimiter, env: Env, returnType: Class, f: Failure)
    requires ShapeOf(returnType) == ValueShape
    requires !env.interrupted(0) && env.permitted(0) && env.proceed(0) == Threw(f)
    ensures Intercept(rl, env, returnType).reply == Done(Threw(f))
  {
  }

  /** A completion that returns an object returns one assignable to `t`. */
  predicate Conforms(c: Completion, t: Class)
  {
    c.Returned? && c.value.Ref? ==> IsAssignableFrom(t, c.value.obj.cls)
  }

  /** Whatever `proceed` completes with came from the method, the recovery function or the interrupt check. */
  lemma ProceedConforms(rl: RateLimiter, env: Env, acquired: nat, t: Class)
    requires forall n: nat :: Conforms(env.proceed(n), t)
    requires forall f: Failure :: Conforms(env.recover(f), t)
    ensures Conforms(ProceedWithFallback(rl, env, acquired).completion, t)
  {
    var first := env.proceed(0);
    assert Conforms(first, t);
    if first.Threw? && IsException(first.failure) {
      assert Conforms(env.proceed(1), t);
      assert Conforms(env.recover(RequestNotPermitted(rl)), t);
    }
  }

  /**
   * When the method and the recovery function only return objects of the
   * declared return type, as the class comment requires of reactive results,
   * no cast fails: a non-null result is wrapped and anything else passes through.
   */
  lemma WellTypedResultsPassCasts(rl: RateLimiter, env: Env, returnType: Class)
    requires ShapeOf(returnType) in {PromiseShape, FluxShape, MonoShape}
    requires forall n: nat :: Conforms(env.proceed(n), returnType)
    requires forall f: Failure :: Conforms(env.recover(f), returnType)
    ensures var c := ProceedWithFallback(rl, env, 0).completion;
      Intercept(rl, env, returnType).reply ==
        if c.Returned? && c.value.Ref? then Decorated(ShapeOf(returnType), c.value) else Done(c)
  {
    var shape := ShapeOf(returnType);
    var c := ProceedWithFallback(rl, env, 0).completion;
    ProceedConforms(rl, env, 0, returnType);
    if c.Returned? && c.value.Ref? {
      AssignableTransitive(DispatchType(shape), returnType, c.value.obj.cls);
    }
  }

  /**
   * A recovery function that returns a `String` for a `Promise`-returning method
   * makes the cast in the Promise branch throw `ClassCastException`, after the
   * method failed once and the limiter denied the retry.
   */
  lemma MistypedRecoveryFailsCast(rl: RateLimiter)
    ensures var text := Instance(JavaString, 7);
      var env := Env(_ => false, _ => false,
                     _ => Threw(Raised(Instance(IOException, 1))),
                     _ => Returned(Ref(text)));
      Intercept(rl, env, PromiseType).reply == Done(Threw(ClassCast(text, PromiseType)))
  {
    var text := Instance(JavaString, 7);
    var env := Env(_ => false, _ => false,
                   _ => Threw(Raised(Instance(IOException, 1))),
                   _ => Returned(Ref(text)));
    assert IsAssignableFrom(Exception, IOException);
    assert ShapeOf(PromiseType) == PromiseShape;
    assert ProceedWithFallback(rl, env, 0).completion == Returned(Ref(text));
    assert !IsAssignableFrom(PromiseType, Serializable) && !IsAssignableFrom(PromiseType, CharSequence);
    assert JavaString.interfaces == [Serializable, CharSequence];
    assert !IsAssignableFrom(PromiseType, JavaString);
  }

  /** A `Mono` subclass that also implements `CompletionStage` is dispatched as a `Mono`. */
  lemma FutureMonoIsMono(futureMono: Class)
    requires futureMono == ClassOf("com.example.FutureMono", MonoType, [CompletionStageType])
    ensures ShapeOf(futureMono) == MonoShape
  {
    NotAssignableFromParents(PromiseType, Publisher);
    NotAssignableFromParents(FluxType, Publisher);
    NotAssignableFromParents(PromiseType, CompletionStageType);
    NotAssignableFromParents(FluxType, CompletionStageType);
    NotAssignableFromParents(PromiseType, MonoType);
    NotAssignableFromParents(FluxType, MonoType);
    NotAssignableFromParents(PromiseType, futureMono);
    NotAssignableFromParents(FluxType, futureMono);
    assert IsAssignableFrom(MonoType, futureMono.superclass);
  }

  /** `CompletableFuture` reaches none of the reactive types and is dispatched as a `CompletionStage`. */
  lemma CompletableFutureIsCompletionStage(future: Class, completable: Class)
    requires future == InterfaceOf("java.util.concurrent.Future", [])
    requires completable == ClassOf("java.util.concurrent.CompletableFuture", Object, [future, CompletionStageType])
    ensures ShapeOf(completable) == CompletionStageShape
  {
    NotAssignableFromParents(PromiseType, CompletionStageType);
    NotAssignableFromParents(FluxType, CompletionStageType);
    NotAssignableFromParents(MonoType, CompletionStageType);
    NotAssignableFromParents(PromiseType, future);
    NotAssignableFromParents(FluxType, future);
    NotAssignableFromParents(MonoType, future);
    NotAssignableFromParents(PromiseType, completable);
    NotAssignableFromParents(FluxType, completable);
    NotAssignableFromParents(MonoType, completable);
    assert IsAssignableFrom(CompletionStageType, completable.interfaces[1]);
  }

  /**
   * Dispatch takes the first match: a `Mono` subclass that also implements
   * `CompletionStage` is treated as a `Mono`, while `CompletableFuture` is a
   * `CompletionStage`.
   */
  lemma DispatchFirstMatch()
    ensures ShapeOf(ClassOf("com.example.FutureMono", MonoType, [CompletionStageType])) == MonoShape
    ensures ShapeOf(ClassOf("java.util.concurrent.CompletableFuture", Object,
                            [InterfaceOf("java.util.concurrent.Future", []), CompletionStageType]))
            == CompletionStageShape
  {
    FutureMonoIsMono(ClassOf("com.example.FutureMono", MonoType, [CompletionStageType]));
    var future := InterfaceOf("java.util.concurrent.Future", []);
    CompletableFutureIsCompletionStage(future, ClassOf("java.util.concurrent.CompletableFuture", Object, [future, CompletionStageType]));
  }
}
