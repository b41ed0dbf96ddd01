/**
 * Construction of the recovery-method table (`FallbackMethod.extractMethods`):
 * the candidate filter, the table keyed by each candidate's trailing
 * `Throwable` parameter with its duplicate check, and the cache around it.
 * Reflective enumeration is an input: `enumerate(c)` is the sequence of
 * methods that walking `c` and its superclasses yields, in walk order.
 */
module HandlerTable {
  import opened Results
  import opened Classes
  import opened MethodCache

  /** Why a `FallbackMethod` cannot be built. */
  datatype BuildError =
    | NoSuchMethod                          // NoSuchMethodException: no candidate found
    | DuplicateFallback(exceptionType: Class) // IllegalStateException: two candidates cover one exception type

  /** The last parameter type of a method, the key it is filed under. */
  function ExceptionParam(m: Method): Class
    requires |m.params| > 0
  {
    m.params[|m.params| - 1]
  }

  /**
   * The method filter of `extractMethods`, branch for branch: a one-parameter
   * method needs the name, a return type assignable to the original one and a
   * throwable parameter; any other method needs the name, one parameter more
   * than the original, the compatible return type, the original parameter
   * types identically in front and a throwable type last.
   */
  predicate Qualifies(m: Method, meta: MethodMeta)
  {
    if |m.params| == 1 then
      m.name == meta.recoveryMethodName &&
      IsAssignableFrom(meta.returnType, m.returnType) &&
      IsThrowableType(m.params[0])
    else
      m.name == meta.recoveryMethodName &&
      |m.params| == |meta.params| + 1 &&
      IsAssignableFrom(meta.returnType, m.returnType) &&
      (forall i | 0 <= i < |meta.params| :: meta.params[i] == m.params[i]) &&
      IsThrowableType(m.params[|meta.params|])
  }

  /**
   * The filter as a shape: a candidate has the configured name, a compatible
   * return type, and parameters `(t)` or `(originalParams..., t)` with `t` a
   * throwable type.
   */
  lemma QualifiesIffHandlerShape(m: Method, meta: MethodMeta)
    ensures Qualifies(m, meta) <==>
      m.name == meta.recoveryMethodName &&
      IsAssignableFrom(meta.returnType, m.returnType) &&
      |m.params| > 0 && IsThrowableType(ExceptionParam(m)) &&
      (m.params == [ExceptionParam(m)] || m.params == meta.params + [ExceptionParam(m)])
  {
    if |m.params| > 1 && m.params == meta.params + [ExceptionParam(m)] {
      assert forall i | 0 <= i < |meta.params| :: meta.params[i] == m.params[i];
    }
    if |m.params| > 1 && Qualifies(m, meta) {
      assert m.params == meta.params + [ExceptionParam(m)];
    }
  }

  /** No two candidates among `ms` share their exception type. */
  predicate Unambiguous(ms: seq<Method>, meta: MethodMeta)
  {
    forall i, j | 0 <= i < j < |ms| && Qualifies(ms[i], meta) && Qualifies(ms[j], meta) ::
      ExceptionParam(ms[i]) != ExceptionParam(ms[j])
  }

  /** `table` files every candidate of `ms` under its exception type and holds nothing else. */
  predicate Files(ms: seq<Method>, meta: MethodMeta, table: map<Class, Method>)
  {
    (forall i | 0 <= i < |ms| && Qualifies(ms[i], meta) ::
      ExceptionParam(ms[i]) in table && table[ExceptionParam(ms[i])] == ms[i]) &&
    (forall k | k in table ::
      table[k] in ms && Qualifies(table[k], meta) && ExceptionParam(table[k]) == k)
  }

  /** Two candidates of `ms`, in walk order, are both filed under `k`. */
  predicate Collide(ms: seq<Method>, meta: MethodMeta, k: Class)
  {
    exists i, j | 0 <= i < j < |ms| ::
      Qualifies(ms[i], meta) && Qualifies(ms[j], meta) &&
      ExceptionParam(ms[i]) == k && ExceptionParam(ms[j]) == k
  }

  /** Appending a method to an ambiguous walk keeps the collision. */
  lemma CollisionPersists(front: seq<Method>, m: Method, meta: MethodMeta, k: Class)
    requires Collide(front, meta, k)
    ensures Collide(front + [m], meta, k) && !Unambiguous(front + [m], meta)
  {
    var ms := front + [m];
    var i, j :| 0 <= i < j < |front| && Qualifies(front[i], meta) && Qualifies(front[j], meta) &&
      ExceptionParam(front[i]) == k && ExceptionParam(front[j]) == k;
    assert ms[i] == front[i] && ms[j] == front[j];
  }

  /** One step of the walk: how filing the next method `m` extends a consistent table. */
  lemma FileStep(front: seq<Method>, m: Method, meta: MethodMeta, t: map<Class, Method>)
    requires Unambiguous(front, meta) && Files(front, meta, t)
    ensures !Qualifies(m, meta) ==> Unambiguous(front + [m], meta) && Files(front + [m], meta, t)
    ensures Qualifies(m, meta) && ExceptionParam(m) in t ==>
      Collide(front + [m], meta, ExceptionParam(m)) && !Unambiguous(front + [m], meta)
    ensures Qualifies(m, meta) && ExceptionParam(m) !in t ==>
      Unambiguous(front + [m], meta) && Files(front + [m], meta, t[ExceptionParam(m) := m])
  {
    var ms := front + [m];
    var n := |front|;
    assert forall i | 0 <= i < n :: ms[i] == front[i];
    assert ms[n] == m;
    if Qualifies(m, meta) {
      var k := ExceptionParam(m);
      if k in t {
        var i :| 0 <= i < n && front[i] == t[k];
        assert ms[i] == t[k] && ExceptionParam(ms[i]) == k;
      } else {
        forall i, j | 0 <= i < j < |ms| && Qualifies(ms[i], meta) && Qualifies(ms[j], meta)
          ensures ExceptionParam(ms[i]) != ExceptionParam(ms[j])
        {
          if j == n {
            assert ExceptionParam(front[i]) in t;
          }
        }
        var t' := t[k := m];
        forall i | 0 <= i < |ms| && Qualifies(ms[i], meta)
          ensures ExceptionParam(ms[i]) in t' && t'[ExceptionParam(ms[i])] == ms[i]
        {
          if i < n {
            assert ExceptionParam(front[i]) in t;
          }
        }
        forall c | c in t'
          ensures t'[c] in ms && Qualifies(t'[c], meta) && ExceptionParam(t'[c]) == c
        {
          if c != k {
            assert t[c] in front;
          }
        }
      }
    } else {
      forall c | c in t
        ensures t[c] in ms
      {
        assert t[c] in front;
      }
    }
  }

  /**
   * The table `extractMethods` fills while walking `ms` in order: it fails on
   * the first candidate whose exception type is already filed.
   */
  function Table(ms: seq<Method>, meta: MethodMeta): (r: Result<map<Class, Method>, BuildError>)
    ensures r.Ok? <==> Unambiguous(ms, meta)
    ensures r.Ok? ==> Files(ms, meta, r.value)
    ensures r.Err? ==> r.error.DuplicateFallback? && Collide(ms, meta, r.error.exceptionType)
    decreases |ms|
  {
    if |ms| == 0 then Ok(map[])
    else
      var front := ms[..|ms| - 1];
      var m := ms[|ms| - 1];
      assert ms == front + [m];
      match Table(front, meta)
      case Err(e) =>
        CollisionPersists(front, m, meta, e.exceptionType);
        Err(e)
      case Ok(t) =>
        FileStep(front, m, meta, t);
        if !Qualifies(m, meta) then Ok(t)
        else if ExceptionParam(m) in t then Err(DuplicateFallback(ExceptionParam(m)))
        else Ok(t[ExceptionParam(m) := m])
  }

  /** The outcome of `extractMethods` together with the cache it leaves behind. */
  datatype Extraction = Extraction(outcome: Result<map<Class, Method>, BuildError>, cache: Cache)

  /**
   * `extractMethods`: a cached table is returned as is; otherwise the methods
   * of `targetClass` are walked, and a table without duplicates (possibly empty)
   * is inserted if absent. A duplicate throws before anything is cached.
   */
  function ExtractMethods(cache: Cache, name: string, params: seq<Class>, returnType: Class,
                          targetClass: Class, enumerate: Class -> seq<Method>): (e: Extraction)
    ensures var meta := MethodMeta(name, params, returnType, targetClass);
      && (meta in cache ==> e == Extraction(Ok(cache[meta]), cache))
      && (forall k | k in cache :: k in e.cache && e.cache[k] == cache[k])
      && (e.outcome.Err? ==> e.cache == cache)
      && (e.outcome.Ok? ==> e.cache.Keys == cache.Keys + {meta} && e.cache[meta] == e.outcome.value)
      && (meta !in cache ==> e.outcome == Table(enumerate(targetClass), meta))
  {
    var meta := MethodMeta(name, params, returnType, targetClass);
    if meta in cache then Extraction(Ok(cache[meta]), cache)
    else
      match Table(enumerate(targetClass), meta)
      case Err(err) => Extraction(Err(err), cache)
      case Ok(t) => Extraction(Ok(t), PutIfAbsent(cache, meta, t))
  }

  /** Every cached table is the one a fresh walk of its key's owner class would build. */
  predicate CacheSound(cache: Cache, enumerate: Class -> seq<Method>)
  {
    forall meta | meta in cache :: Table(enumerate(meta.targetClass), meta) == Ok(cache[meta])
  }

  /**
   * The cache never changes an answer: from a sound cache, `extractMethods`
   * returns what an uncached walk returns and leaves the cache sound.
   */
  lemma ExtractionTransparent(cache: Cache, name: string, params: seq<Class>, returnType: Class,
                              targetClass: Class, enumerate: Class -> seq<Method>)
    requires CacheSound(cache, enumerate)
    ensures var e := ExtractMethods(cache, name, params, returnType, targetClass, enumerate);
      e.outcome == Table(enumerate(targetClass), MethodMeta(name, params, returnType, targetClass)) &&
      CacheSound(e.cache, enumerate)
  {
    var meta := MethodMeta(name, params, returnType, targetClass);
    var e := ExtractMethods(cache, name, params, returnType, targetClass, enumerate);
    forall k | k in e.cache
      ensures Table(enumerate(k.targetClass), k) == Ok(e.cache[k])
    {
      if k != meta {
        assert k in cache;
      }
    }
  }

  /** A second extraction with the same key is a cache hit for a successful first one, and a repeat failure otherwise. */
  lemma ExtractionIdempotent(cache: Cache, name: string, params: seq<Class>, returnType: Class,
                             targetClass: Class, enumerate: Class -> seq<Method>)
    ensures var e1 := ExtractMethods(cache, name, params, returnType, targetClass, enumerate);
      var e2 := ExtractMethods(e1.cache, name, params, returnType, targetClass, enumerate);
      e2 == e1
  {
  }

  /** A cache hit does not walk the methods: any enumeration gives the same extraction. */
  lemma CacheHitSkipsEnumeration(cache: Cache, name: string, params: seq<Class>, returnType: Class,
                                 targetClass: Class, enumerate: Class -> seq<Method>,
                                 other: Class -> seq<Method>)
    requires MethodMeta(name, params, returnType, targetClass) in cache
    ensures ExtractMethods(cache, name, params, returnType, targetClass, enumerate) ==
            ExtractMethods(cache, name, params, returnType, targetClass, other)
  {
  }

  /** Every key of an extracted table is a throwable type, and each handler has a parameter to receive it. */
  lemma TableKeysAreThrowable(ms: seq<Method>, meta: MethodMeta)
    requires Table(ms, meta).Ok?
    ensures forall k | k in Table(ms, meta).value ::
      IsThrowableType(k) && |Table(ms, meta).value[k].params| > 0
  {
  }

  /** An element counted twice occurs at two positions. */
  lemma {:induction false} TwoPositionsOfRepeat(ms: seq<Method>, m: Method)
    requires multiset(ms)[m] >= 2
    ensures exists i, j | 0 <= i < j < |ms| :: ms[i] == m && ms[j] == m
    decreases |ms|
  {
    assert ms == [ms[0]] + ms[1..];
    if ms[0] == m {
      assert m in multiset(ms[1..]);
      var j :| 0 <= j < |ms[1..]| && ms[1..][j] == m;
      assert ms[j + 1] == m;
    } else {
      TwoPositionsOfRepeat(ms[1..], m);
      var i, j :| 0 <= i < j < |ms[1..]| && ms[1..][i] == m && ms[1..][j] == m;
      assert ms[i + 1] == m && ms[j + 1] == m;
    }
  }

  /** An element at two positions is counted at least twice. */
  lemma RepeatCountedTwice(ms: seq<Method>, i: nat, j: nat)
    requires i < j < |ms| && ms[i] == ms[j]
    ensures multiset(ms)[ms[i]] >= 2
  {
    assert ms == ms[..j] + ms[j..];
    assert ms[..j][i] == ms[i];
    assert ms[j..][0] == ms[i];
    assert multiset(ms) == multiset(ms[..j]) + multiset(ms[j..]);
  }

  /** No candidate is repeated and distinct candidates have distinct exception types, stated on the multiset of methods. */
  predicate UnambiguousBag(bag: multiset<Method>, meta: MethodMeta)
  {
    (forall m | m in bag && Qualifies(m, meta) :: bag[m] == 1) &&
    (forall m1, m2 | m1 in bag && m2 in bag && Qualifies(m1, meta) && Qualifies(m2, meta) && m1 != m2 ::
       ExceptionParam(m1) != ExceptionParam(m2))
  }

  /** Whether the walk finds a duplicate depends only on which methods it visits, not on their order. */
  lemma UnambiguousIffBag(ms: seq<Method>, meta: MethodMeta)
    ensures Unambiguous(ms, meta) <==> UnambiguousBag(multiset(ms), meta)
  {
    var bag := multiset(ms);
    if Unambiguous(ms, meta) {
      forall m | m in bag && Qualifies(m, meta)
        ensures bag[m] == 1
      {
        if bag[m] >= 2 {
          TwoPositionsOfRepeat(ms, m);
          assert false;
        }
      }
      forall m1, m2 | m1 in bag && m2 in bag && Qualifies(m1, meta) && Qualifies(m2, meta) && m1 != m2
        ensures ExceptionParam(m1) != ExceptionParam(m2)
      {
        var i :| 0 <= i < |ms| && ms[i] == m1;
        var j :| 0 <= j < |ms| && ms[j] == m2;
        if i > j {
          assert ExceptionParam(ms[j]) != ExceptionParam(ms[i]);
        }
      }
    }
    if UnambiguousBag(bag, meta) && !Unambiguous(ms, meta) {
      var i, j :| 0 <= i < j < |ms| && Qualifies(ms[i], meta) && Qualifies(ms[j], meta) &&
        ExceptionParam(ms[i]) == ExceptionParam(ms[j]);
      assert ms[i] in bag && ms[j] in bag;
      if ms[i] == ms[j] {
        RepeatCountedTwice(ms, i, j);
      }
      assert false;
    }
  }

  /** Equal multisets have the same elements. */
  lemma SameElements(ms: seq<Method>, ms': seq<Method>)
    requires multiset(ms) == multiset(ms')
    ensures forall m :: m in ms <==> m in ms'
  {
    forall m
      ensures m in ms <==> m in ms'
    {
      assert m in ms <==> m in multiset(ms);
      assert m in ms' <==> m in multiset(ms');
    }
  }

  /** Without duplicates, the methods visited determine the table that files them. */
  lemma FilesDetermined(ms: seq<Method>, ms': seq<Method>, meta: MethodMeta, t: map<Class, Method>, t': map<Class, Method>)
    requires forall m :: m in ms <==> m in ms'
    requires Unambiguous(ms, meta) && Files(ms, meta, t) && Files(ms', meta, t')
    ensures t == t'
  {
    forall k | k in t
      ensures k in t' && t'[k] == t[k]
    {
      assert t[k] in ms';
      var i :| 0 <= i < |ms'| && ms'[i] == t[k];
    }
    forall k | k in t'
      ensures k in t
    {
      assert t'[k] in ms;
      var i :| 0 <= i < |ms| && ms[i] == t'[k];
    }
    assert t == t';
  }

  /**
   * The table does not depend on declaration order: walks over the same
   * methods in any order both fail on a duplicate or both build the same table.
   */
  lemma TableOrderIndependent(ms: seq<Method>, ms': seq<Method>, meta: MethodMeta)
    requires multiset(ms) == multiset(ms')
    ensures Table(ms, meta).Ok? <==> Table(ms', meta).Ok?
    ensures Table(ms, meta).Ok? ==> Table(ms, meta) == Table(ms', meta)
  {
    UnambiguousIffBag(ms, meta);
    UnambiguousIffBag(ms', meta);
    if Table(ms, meta).Ok? {
      SameElements(ms, ms');
      FilesDetermined(ms, ms', meta, Table(ms, meta).value, Table(ms', meta).value);
    }
  }
}
