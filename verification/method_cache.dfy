/**
 * The process-wide cache of recovery-method tables and its key, the nested
 * `MethodMeta` class of FallbackMethod: equality, hash code and insert-if-absent.
 */
module MethodCache {
  import opened Classes

  /** The cache key: recovery method name, original parameter types, original return type, owner class. */
  datatype MethodMeta = MethodMeta(recoveryMethodName: string, params: seq<Class>, returnType: Class, targetClass: Class)

  /** Recovery-method tables keyed by `MethodMeta`; eviction is not modelled. */
  type Cache = map<MethodMeta, map<Class, Method>>

  /** `Arrays.equals` on two `Class[]`: same length, pairwise identical elements. */
  function ArraysEquals(a: seq<Class>, b: seq<Class>): (r: bool)
    ensures r <==> a == b
  {
    |a| == |b| && forall i | 0 <= i < |a| :: a[i] == b[i]
  }

  /**
   * `MethodMeta.equals`: owner class, name and return type equal and the
   * parameter arrays element-wise equal. It coincides with value equality, so
   * a `map` keyed by `MethodMeta` behaves as the Java hash map does.
   */
  function MetaEquals(x: MethodMeta, y: MethodMeta): (r: bool)
    ensures r <==> x == y
  {
    x.targetClass == y.targetClass &&
    x.recoveryMethodName == y.recoveryMethodName &&
    x.returnType == y.returnType &&
    ArraysEquals(x.params, y.params)
  }

  /** The UTF-16 code units of one character: one unit in the basic plane, a surrogate pair above it. */
  function Utf16Units(c: char): (units: seq<int>)
    ensures 1 <= |units| <= 2
    ensures |units| == 1 <==> (c as int) < 0x1_0000
    ensures forall i | 0 <= i < |units| :: 0 <= units[i] < 0x1_0000
    ensures |units| == 2 ==> 0xD800 <= units[0] < 0xDC00 <= units[1] < 0xE000
  {
    var v := c as int;
    if v < 0x1_0000 then [v]
    else
      var w := v - 0x1_0000;
      [0xD800 + w / 0x400, 0xDC00 + w % 0x400]
  }

  /** Folds code units into a hash with Java's `h = 31 * h + unit` in 32-bit wrap-around arithmetic. */
  function HashUnits(h: bv32, units: seq<int>): bv32
    requires forall i | 0 <= i < |units| :: 0 <= units[i] < 0x1_0000
    decreases |units|
  {
    if |units| == 0 then h else HashUnits(h * 31 + units[0] as bv32, units[1..])
  }

  /** `String.hashCode` over the string's UTF-16 code units. */
  function StringHash(s: string): bv32
    decreases |s|
  {
    if |s| == 0 then 0 else HashUnits(StringHash(s[..|s| - 1]), Utf16Units(s[|s| - 1]))
  }

  /** `MethodMeta.hashCode`: owner class name hash XOR recovery method name hash. */
  function HashCode(m: MethodMeta): bv32
  {
    StringHash(Name(m.targetClass)) ^ StringHash(m.recoveryMethodName)
  }

  /** Keys that `equals` identifies have the same hash code. */
  lemma HashCodeConsistent(x: MethodMeta, y: MethodMeta)
    requires MetaEquals(x, y)
    ensures HashCode(x) == HashCode(y)
  {
  }

  /** The hash code ignores the parameter and return types: overloads share a bucket but stay distinct keys. */
  lemma HashCodeIgnoresSignature(x: MethodMeta, y: MethodMeta)
    requires x.targetClass == y.targetClass && x.recoveryMethodName == y.recoveryMethodName
    ensures HashCode(x) == HashCode(y)
    ensures MetaEquals(x, y) <==> x.params == y.params && x.returnType == y.returnType
  {
  }

  /** `putIfAbsent`: inserts `table` under `key` unless the key is present; never overwrites. */
  function PutIfAbsent(cache: Cache, key: MethodMeta, table: map<Class, Method>): (c: Cache)
    ensures c.Keys == cache.Keys + {key}
    ensures forall k | k in cache :: c[k] == cache[k]
    ensures key !in cache ==> c[key] == table
  {
    if key in cache then cache else cache[key := table]
  }
}
