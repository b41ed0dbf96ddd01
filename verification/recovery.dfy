/**
 * `FallbackMethod`: building the recovery-method table for an intercepted
 * call, choosing the handler for a thrown object, and the argument list the
 * handler is invoked with. Reflective invocation itself is left to the caller:
 * the model answers which handler runs, on which target, with which arguments,
 * or that the thrown object is rethrown unchanged.
 */
module Recovery {
  import opened Results
  import opened Classes
  import opened Objects
  import opened MethodCache
  import opened HandlerTable

  /** A built fallback: the handler table, the original return type, the original arguments and the target. */
  datatype FallbackMethod = FallbackMethod(
    recoveryMethods: map<Class, Method>,
    returnType: Class,
    args: seq<Value>,
    target: Instance)

  /** The configuration `FallbackMethod.Builder` collects. */
  datatype Builder = Builder(recoveryMethodName: string, originalMethod: Method, args: seq<Value>, target: Instance)

  /** The result of `build` and the cache it leaves behind. */
  datatype Built = Built(result: Result<FallbackMethod, BuildError>, cache: Cache)

  /** What `fallback(thrown)` does: invoke a handler, or rethrow the thrown object itself. */
  datatype Resolution =
    | Invoke(handler: Method, target: Instance, arguments: seq<Value>)
    | Rethrow(thrown: Instance)

  /** The cache key `build` looks the table up under. */
  function MetaOf(b: Builder): MethodMeta
  {
    MethodMeta(b.recoveryMethodName, b.originalMethod.params, b.originalMethod.returnType, b.target.cls)
  }

  /**
   * `Builder.build`: extract the table for the original method's parameter and
   * return types on the target's class; an empty table is `NoSuchMethod`.
   */
  function Build(b: Builder, cache: Cache, enumerate: Class -> seq<Method>): (r: Built)
    ensures var e := ExtractMethods(cache, b.recoveryMethodName, b.originalMethod.params,
                                    b.originalMethod.returnType, b.target.cls, enumerate);
      && r.cache == e.cache
      && (r.result == Err(NoSuchMethod) <==> e.outcome == Ok(map[]))
      && (e.outcome.Err? ==> r.result == Err(e.outcome.error))
      && (r.result.Ok? <==> e.outcome.Ok? && |e.outcome.value| > 0)
      && (r.result.Ok? ==>
            r.result.value == FallbackMethod(e.outcome.value, b.originalMethod.returnType, b.args, b.target))
  {
    var e := ExtractMethods(cache, b.recoveryMethodName, b.originalMethod.params,
                            b.originalMethod.returnType, b.target.cls, enumerate);
    match e.outcome
    case Err(err) => Built(Err(err), e.cache)
    case Ok(methods) =>
      if |methods| == 0 then Built(Err(NoSuchMethod), e.cache)
      else Built(Ok(FallbackMethod(methods, b.originalMethod.returnType, b.args, b.target)), e.cache)
  }

  /** A candidate exists among `ms`. */
  predicate SomeCandidate(ms: seq<Method>, meta: MethodMeta)
  {
    exists i | 0 <= i < |ms| :: Qualifies(ms[i], meta)
  }

  /**
   * From a sound cache, `build` succeeds exactly when the target's methods hold
   * at least one candidate and no two candidates share an exception type; the
   * built table files exactly those candidates, and the cache stays sound.
   */
  lemma BuildFromSoundCache(b: Builder, cache: Cache, enumerate: Class -> seq<Method>)
    requires CacheSound(cache, enumerate)
    ensures var r := Build(b, cache, enumerate);
      var ms := enumerate(b.target.cls);
      && CacheSound(r.cache, enumerate)
      && (r.result.Ok? <==> Unambiguous(ms, MetaOf(b)) && SomeCandidate(ms, MetaOf(b)))
      && (r.result == Err(NoSuchMethod) <==> Unambiguous(ms, MetaOf(b)) && !SomeCandidate(ms, MetaOf(b)))
      && (r.result.Ok? ==> Files(ms, MetaOf(b), r.result.value.recoveryMethods))
  {
    var ms := enumerate(b.target.cls);
    var meta := MetaOf(b);
    ExtractionTransparent(cache, b.recoveryMethodName, b.originalMethod.params,
                          b.originalMethod.returnType, b.target.cls, enumerate);
    var t := Table(ms, meta);
    if t.Ok? {
      if SomeCandidate(ms, meta) {
        var i :| 0 <= i < |ms| && Qualifies(ms[i], meta);
        assert ExceptionParam(ms[i]) in t.value;
      }
    }
  }

  /** A map with one entry has exactly one key. */
  lemma SingletonKeys(table: map<Class, Method>)
    requires |table| == 1
    ensures exists k :: table.Keys == {k}
  {
    var k :| k in table.Keys;
    assert |table.Keys - {k}| == 0;
    assert table.Keys == {k};
  }

  /**
   * The walk of `fallback` over a table of several entries: from the thrown
   * class up its superclasses, stopping before `Object`, the first class that
   * is a key. The result is the nearest covering key: every key on the chain
   * lies at or above it.
   */
  function Nearest(table: map<Class, Method>, c: Class): (r: Option<Class>)
    ensures r.Some? ==> r.value in table && r.value in SuperChain(c)
    ensures r.None? <==> forall k | k in SuperChain(c) :: k !in table
    ensures r.Some? ==> forall k | k in table && k in SuperChain(c) :: k in SuperChain(r.value)
    decreases c
  {
    match c
    case ClassOf(_, s, _) => if c in table then Some(c) else Nearest(table, s)
    case _ => None
  }

  /**
   * The key `fallback` selects: a one-entry table is consulted with
   * `isAssignableFrom`, a larger one with the superclass walk. A selected key
   * always covers the thrown class.
   */
  function Select(table: map<Class, Method>, c: Class): (r: Option<Class>)
    ensures r.Some? ==> r.value in table && IsAssignableFrom(r.value, c)
    ensures |table| == 1 ==> (r.Some? <==> exists k | k in table :: IsAssignableFrom(k, c))
    ensures |table| != 1 ==> r == Nearest(table, c)
  {
    if |table| == 1 then
      SingletonKeys(table);
      var k :| table.Keys == {k};
      if IsAssignableFrom(k, c) then Some(k) else None
    else
      var r := Nearest(table, c);
      assert r.Some? ==> r.value in SuperChain(c);
      r
  }

  /**
   * The argument list a handler is invoked with: the thrown object alone for a
   * one-parameter handler, the original arguments followed by the thrown
   * object otherwise.
   */
  function InvokeArgs(args: seq<Value>, handler: Method, thrown: Instance): (r: seq<Value>)
    ensures |r| > 0 && r[|r| - 1] == Ref(thrown)
  {
    if |handler.params| == 1 then [Ref(thrown)] else args + [Ref(thrown)]
  }

  /**
   * For every candidate handler and original arguments of the original
   * arity, the argument list has exactly the handler's arity, passes the
   * original arguments in front when the handler declares them, and the thrown
   * object last.
   */
  lemma InvokeArgsFitHandler(args: seq<Value>, handler: Method, meta: MethodMeta, thrown: Instance)
    requires Qualifies(handler, meta) && |args| == |meta.params|
    ensures var r := InvokeArgs(args, handler, thrown);
      && |r| == |handler.params|
      && r[|r| - 1] == Ref(thrown)
      && r[..|r| - 1] == (if |handler.params| == 1 then [] else args)
  {
    var r := InvokeArgs(args, handler, thrown);
    assert r[..|r| - 1] == (if |handler.params| == 1 then [] else args);
  }

  /**
   * `fallback(thrown)` with the corrected argument list: invoke the selected
   * handler on the target with the argument list above, or rethrow the very object that was thrown.
   */
  function Fallback(fm: FallbackMethod, thrown: Instance): (r: Resolution)
    ensures r.Rethrow? <==> Select(fm.recoveryMethods, thrown.cls).None?
    ensures r.Rethrow? ==> r.thrown == thrown
    ensures r.Invoke? ==>
      var k := Select(fm.recoveryMethods, thrown.cls).value;
      && r.handler == fm.recoveryMethods[k]
      && IsAssignableFrom(k, thrown.cls)
      && r.target == fm.target
      && r.arguments == InvokeArgs(fm.args, r.handler, thrown)
  {
    match Select(fm.recoveryMethods, thrown.cls)
    case Some(k) =>
      var handler := fm.recoveryMethods[k];
      Invoke(handler, fm.target, InvokeArgs(fm.args, handler, thrown))
    case None => Rethrow(thrown)
  }

  /** One entry: the handler runs iff its key is the thrown class or a superclass or interface of it. */
  lemma SingleEntryFallback(fm: FallbackMethod, k: Class, thrown: Instance)
    requires fm.recoveryMethods.Keys == {k}
    ensures Fallback(fm, thrown).Invoke? <==> IsAssignableFrom(k, thrown.cls)
    ensures Fallback(fm, thrown).Invoke? ==> Fallback(fm, thrown).handler == fm.recoveryMethods[k]
    ensures !IsAssignableFrom(k, thrown.cls) ==> Fallback(fm, thrown) == Rethrow(thrown)
  {
    assert |fm.recoveryMethods.Keys| == 1;
  }

  /**
   * Several entries: the handler whose key is nearest on the thrown class's
   * superclass chain runs, and every other key covering the thrown class is a
   * superclass of it; the exact class wins whenever it is a key.
   */
  lemma NearestHandlerWins(fm: FallbackMethod, thrown: Instance)
    requires |fm.recoveryMethods| > 1
    requires WellFormed(thrown.cls)
    requires Fallback(fm, thrown).Invoke?
    ensures var k := Select(fm.recoveryMethods, thrown.cls).value;
      && k in SuperChain(thrown.cls)
      && (forall k' | k' in fm.recoveryMethods && k'.ClassOf? && IsAssignableFrom(k', thrown.cls) ::
            k' in SuperChain(k) && IsAssignableFrom(k', k))
      && (thrown.cls in fm.recoveryMethods ==> k == thrown.cls)
  {
    var table := fm.recoveryMethods;
    var c := thrown.cls;
    var k := Select(table, c).value;
    forall k' | k' in table && k'.ClassOf? && IsAssignableFrom(k', c)
      ensures k' in SuperChain(k) && IsAssignableFrom(k', k)
    {
      ClassAssignableIffOnChain(k', c);
      var j :| 0 <= j < |SuperChain(k)| && SuperChain(k)[j] == k';
    }
    if c in table {
      assert c.ClassOf?;
      assert Nearest(table, c) == Some(c);
    }
  }

  /** With no key covering the thrown class, the thrown object itself is rethrown and no handler runs. */
  lemma UncoveredFailureRethrown(fm: FallbackMethod, thrown: Instance)
    requires forall k | k in fm.recoveryMethods :: !IsAssignableFrom(k, thrown.cls)
    ensures Fallback(fm, thrown) == Rethrow(thrown)
  {
  }

  /**
   * The one-entry special case agrees with the superclass walk whenever the
   * key is a class (every throwable type is one) and the hierarchy is well formed.
   */
  lemma SingleEntryAgreesWithWalk(table: map<Class, Method>, k: Class, c: Class)
    requires table.Keys == {k} && k.ClassOf? && WellFormed(c)
    ensures Select(table, c) == Nearest(table, c)
  {
    assert |table| == 1;
    ClassAssignableIffOnChain(k, c);
  }

  /**
   * The argument list as `invoke` builds it: chosen from the number of
   * original arguments and the type of the handler's first parameter, not
   * from the handler's arity.
   */
  function InvokeArgsAsWritten(args: seq<Value>, handler: Method, thrown: Instance): (r: seq<Value>)
    requires |handler.params| > 0
    ensures |args| == 0 ==> r == [Ref(thrown)]
    ensures |args| == 1 && IsThrowableType(handler.params[0]) ==> r == [Ref(thrown)]
    ensures |args| > 0 && !(|args| == 1 && IsThrowableType(handler.params[0])) ==> r == args + [Ref(thrown)]
  {
    if |args| != 0 then
      if |args| == 1 && IsThrowableType(handler.params[0]) then [Ref(thrown)]
      else args + [Ref(thrown)]
    else [Ref(thrown)]
  }

  /**
   * For a candidate handler and arguments of the original arity, the argument
   * list as written equals the handler-arity one except in exactly two cases:
   * a one-parameter handler for a call with two or more arguments, and a
   * two-parameter handler for a call whose single parameter is itself a
   * throwable type.
   */
  lemma AsWrittenDiffersExactly(args: seq<Value>, handler: Method, meta: MethodMeta, thrown: Instance)
    requires Qualifies(handler, meta) && |args| == |meta.params|
    ensures InvokeArgsAsWritten(args, handler, thrown) == InvokeArgs(args, handler, thrown) <==>
      !(|handler.params| == 1 && |args| >= 2) &&
      !(|handler.params| == 2 && |args| == 1 && IsThrowableType(handler.params[0]))
  {
    var w := InvokeArgsAsWritten(args, handler, thrown);
    var r := InvokeArgs(args, handler, thrown);
    if |handler.params| == 1 && |args| >= 2 {
      assert |w| == |args| + 1 != |r|;
    } else if |handler.params| == 2 && |args| == 1 && IsThrowableType(handler.params[0]) {
      assert |w| == 1 != |r|;
    }
  }

  /**
   * `fallback(thrown)` as written: the same selection, but the handler receives
   * the argument list `invoke` builds. Every handler of a built table has a
   * parameter, which the as-written list inspects.
   */
  function FallbackAsWritten(fm: FallbackMethod, thrown: Instance): (r: Resolution)
    requires forall k | k in fm.recoveryMethods :: |fm.recoveryMethods[k].params| > 0
    ensures r.Rethrow? <==> Select(fm.recoveryMethods, thrown.cls).None?
    ensures r.Rethrow? ==> r.thrown == thrown
    ensures r.Invoke? ==>
      var k := Select(fm.recoveryMethods, thrown.cls).value;
      && r.handler == fm.recoveryMethods[k]
      && IsAssignableFrom(k, thrown.cls)
      && r.target == fm.target
      && r.arguments == InvokeArgsAsWritten(fm.args, r.handler, thrown)
  {
    match Select(fm.recoveryMethods, thrown.cls)
    case Some(k) =>
      var handler := fm.recoveryMethods[k];
      Invoke(handler, fm.target, InvokeArgsAsWritten(fm.args, handler, thrown))
    case None => Rethrow(thrown)
  }

  /**
   * On a table of candidates for the original call, `fallback` as written and
   * corrected pick the same handler or both rethrow; their argument lists
   * differ exactly on the two inputs where the as-written list ignores the
   * handler's arity.
   */
  lemma AsWrittenFallbackDiffersOnlyInArguments(fm: FallbackMethod, meta: MethodMeta, thrown: Instance)
    requires forall k | k in fm.recoveryMethods :: Qualifies(fm.recoveryMethods[k], meta)
    requires |fm.args| == |meta.params|
    ensures forall k | k in fm.recoveryMethods :: |fm.recoveryMethods[k].params| > 0
    ensures var w := FallbackAsWritten(fm, thrown);
      var r := Fallback(fm, thrown);
      && (w.Rethrow? <==> r.Rethrow?)
      && (w.Rethrow? ==> w == r)
      && (w.Invoke? ==>
            && w.handler == r.handler && w.target == r.target
            && (w.arguments == r.arguments <==>
                  !(|w.handler.params| == 1 && |fm.args| >= 2) &&
                  !(|w.handler.params| == 2 && |fm.args| == 1 && IsThrowableType(w.handler.params[0]))))
  {
    var w := FallbackAsWritten(fm, thrown);
    if w.Invoke? {
      AsWrittenDiffersExactly(fm.args, w.handler, meta, thrown);
    }
  }

  /** An owner class for the examples below. */
  const Service := ClassOf("com.example.Service", Object, [])

  /**
   * Two inputs on which the argument list as written does not fit the handler
   * it is passed to, so reflective invocation would fail with a wrong number
   * of arguments; the handler-arity list fits both.
   */
  lemma AsWrittenArityMismatch()
    ensures var meta := MethodMeta("recover", [JavaString, JavaString], JavaString, Service);
      var handler := Method(Service, "recover", [Throwable], JavaString);
      var args := [Ref(Instance(JavaString, 1)), Ref(Instance(JavaString, 2))];
      var thrown := Instance(IOException, 3);
      && Qualifies(handler, meta)
      && |InvokeArgsAsWritten(args, handler, thrown)| == 3 != |handler.params|
      && |InvokeArgs(args, handler, thrown)| == |handler.params|
    ensures var meta := MethodMeta("recover", [IOException], JavaString, Service);
      var handler := Method(Service, "recover", [IOException, Throwable], JavaString);
      var args := [Ref(Instance(IOException, 1))];
      var thrown := Instance(IOException, 2);
      && Qualifies(handler, meta)
      && |InvokeArgsAsWritten(args, handler, thrown)| == 1 != |handler.params|
      && |InvokeArgs(args, handler, thrown)| == |handler.params|
  {
    assert IsThrowableType(Throwable);
    assert IsAssignableFrom(Throwable, Exception);
    assert IsThrowableType(IOException);
  }

  /**
   * The example of the class documentation: with handlers for
   * `RuntimeException` and `IllegalArgumentException`, a
   * `NumberFormatException` is handed to the `IllegalArgumentException` one.
   */
  lemma DocumentedExample(onRuntime: Method, onIllegalArgument: Method, args: seq<Value>, target: Instance, id: nat)
    requires |onIllegalArgument.params| == 2
    ensures var fm := FallbackMethod(
        map[RuntimeException := onRuntime, IllegalArgumentException := onIllegalArgument],
        JavaString, args, target);
      var thrown := Instance(NumberFormatException, id);
      Fallback(fm, thrown) == Invoke(onIllegalArgument, target, args + [Ref(thrown)])
  {
    var table := map[RuntimeException := onRuntime, IllegalArgumentException := onIllegalArgument];
    assert RuntimeException != IllegalArgumentException;
    assert |table.Keys| == 2;
    assert NumberFormatException !in table;
    assert Nearest(table, NumberFormatException) == Some(IllegalArgumentException);
  }

  /**
   * End to end: a fallback built from a sound cache for a call with the
   * original arity invokes only candidate handlers whose exception parameter
   * accepts the thrown object, with an argument list of the handler's arity.
   */
  lemma BuiltFallbackInvocable(b: Builder, cache: Cache, enumerate: Class -> seq<Method>, thrown: Instance)
    requires CacheSound(cache, enumerate)
    requires |b.args| == |b.originalMethod.params|
    ensures var built := Build(b, cache, enumerate).result;
      built.Ok? ==>
        var r := Fallback(built.value, thrown);
        r.Invoke? ==>
          && Qualifies(r.handler, MetaOf(b))
          && IsAssignableFrom(ExceptionParam(r.handler), thrown.cls)
          && |r.arguments| == |r.handler.params|
          && r.arguments[|r.arguments| - 1] == Ref(thrown)
  {
    BuildFromSoundCache(b, cache, enumerate);
    var built := Build(b, cache, enumerate).result;
    if built.Ok? {
      var fm := built.value;
      var r := Fallback(fm, thrown);
      if r.Invoke? {
        var k := Select(fm.recoveryMethods, thrown.cls).value;
        assert ExceptionParam(fm.recoveryMethods[k]) == k;
        InvokeArgsFitHandler(b.args, r.handler, MetaOf(b), thrown);
      }
    }
  }
}
