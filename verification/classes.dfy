/**
 * The part of the JVM type system that recovery-method resolution consults:
 * classes with a single superclass and a list of interfaces, interfaces with
 * their super-interfaces, primitive types, and `Class.isAssignableFrom`.
 * Each class value carries its whole superclass chain, so the chain is finite
 * and acyclic by construction and always ends in `Object` for a class.
 */
module Classes {

  datatype Class =
    | Object
    | ClassOf(name: string, superclass: Class, interfaces: seq<Class>)
    | InterfaceOf(name: string, superinterfaces: seq<Class>)
    | Primitive(name: string)

  /** `Class.getName()`. */
  function Name(c: Class): string
  {
    match c
    case Object => "java.lang.Object"
    case ClassOf(n, _, _) => n
    case InterfaceOf(n, _) => n
    case Primitive(n) => n
  }

  /**
   * `java.lang.reflect.Method` as far as recovery-method lookup reads it:
   * the declaring class, the name, the parameter types and the return type.
   */
  datatype Method = Method(declaringClass: Class, name: string, params: seq<Class>, returnType: Class)

  /**
   * `a.isAssignableFrom(b)`: a value of type `b` may be stored in a variable
   * of type `a`. Primitive types are assignable only from themselves; every
   * reference type is assignable to `Object`.
   */
  predicate IsAssignableFrom(a: Class, b: Class)
    decreases b
  {
    a == b ||
    match b
    case Object => false
    case Primitive(_) => false
    case ClassOf(_, s, ifs) =>
      a == Object || IsAssignableFrom(a, s) || exists i | 0 <= i < |ifs| :: IsAssignableFrom(a, ifs[i])
    case InterfaceOf(_, ifs) =>
      a == Object || exists i | 0 <= i < |ifs| :: IsAssignableFrom(a, ifs[i])
  }

  /** Assignability is transitive: a supertype of a supertype is a supertype. */
  lemma {:induction false} AssignableTransitive(a: Class, b: Class, c: Class)
    requires IsAssignableFrom(a, b) && IsAssignableFrom(b, c)
    ensures IsAssignableFrom(a, c)
    decreases c
  {
    if b != c {
      match c
      case ClassOf(_, s, ifs) =>
        if b == Object {
          assert a == Object;
        } else if IsAssignableFrom(b, s) {
          AssignableTransitive(a, b, s);
        } else {
          var i :| 0 <= i < |ifs| && IsAssignableFrom(b, ifs[i]);
          AssignableTransitive(a, b, ifs[i]);
        }
      case InterfaceOf(_, ifs) =>
        if b == Object {
          assert a == Object;
        } else {
          var i :| 0 <= i < |ifs| && IsAssignableFrom(b, ifs[i]);
          AssignableTransitive(a, b, ifs[i]);
        }
    }
  }

  /** `a` is not assignable from `b` when it is neither `b` nor `Object` and reaches none of `b`'s direct supertypes. */
  lemma NotAssignableFromParents(a: Class, b: Class)
    requires a != b && a != Object
    requires b.ClassOf? ==>
      (!IsAssignableFrom(a, b.superclass) && forall i | 0 <= i < |b.interfaces| :: !IsAssignableFrom(a, b.interfaces[i]))
    requires b.InterfaceOf? ==> forall i | 0 <= i < |b.superinterfaces| :: !IsAssignableFrom(a, b.superinterfaces[i])
    ensures !IsAssignableFrom(a, b)
  {
  }

  /**
   * A hierarchy the JVM could have loaded: a class extends `Object` or another
   * class, and only interfaces appear among implemented or extended interfaces.
   */
  predicate WellFormed(c: Class)
    decreases c
  {
    match c
    case Object => true
    case Primitive(_) => true
    case ClassOf(_, s, ifs) =>
      (s.Object? || s.ClassOf?) && WellFormed(s) &&
      forall i | 0 <= i < |ifs| :: ifs[i].InterfaceOf? && WellFormed(ifs[i])
    case InterfaceOf(_, ifs) =>
      forall i | 0 <= i < |ifs| :: ifs[i].InterfaceOf? && WellFormed(ifs[i])
  }

  /**
   * The classes visited by `for (k = c; k != Object.class; k = k.getSuperclass())`:
   * `c` and its superclasses, most specific first, `Object` excluded.
   */
  function SuperChain(c: Class): (chain: seq<Class>)
    ensures forall i | 0 <= i < |chain| :: chain[i].ClassOf? && IsAssignableFrom(chain[i], c)
    ensures c.ClassOf? ==> |chain| > 0 && chain[0] == c
    ensures !c.ClassOf? ==> chain == []
    decreases c
  {
    match c
    case ClassOf(_, s, _) => [c] + SuperChain(s)
    case _ => []
  }

  /** The chain of a class on the chain of `c` is the rest of `c`'s chain. */
  lemma {:induction false} SuperChainSuffix(c: Class, i: nat)
    requires i < |SuperChain(c)|
    ensures SuperChain(SuperChain(c)[i]) == SuperChain(c)[i..]
    decreases c
  {
    if i > 0 {
      SuperChainSuffix(c.superclass, i - 1);
    }
  }

  /** Within a well-formed hierarchy no class is reachable from an interface. */
  lemma {:induction false} InterfacesReachNoClass(a: Class, b: Class)
    requires WellFormed(b) && b.InterfaceOf?
    requires IsAssignableFrom(a, b)
    ensures !a.ClassOf?
    decreases b
  {
    if a != b && a != Object {
      var i :| 0 <= i < |b.superinterfaces| && IsAssignableFrom(a, b.superinterfaces[i]);
      InterfacesReachNoClass(a, b.superinterfaces[i]);
    }
  }

  /**
   * In a well-formed hierarchy a class `k` is assignable from `c` exactly when
   * `k` lies on `c`'s superclass chain: interfaces never lead back to a class.
   */
  lemma {:induction false} ClassAssignableIffOnChain(k: Class, c: Class)
    requires WellFormed(c) && k.ClassOf?
    ensures IsAssignableFrom(k, c) <==> k in SuperChain(c)
    decreases c
  {
    if k in SuperChain(c) {
      var i :| 0 <= i < |SuperChain(c)| && SuperChain(c)[i] == k;
    } else if IsAssignableFrom(k, c) {
      match c
      case ClassOf(_, s, ifs) =>
        if IsAssignableFrom(k, s) {
          ClassAssignableIffOnChain(k, s);
          assert false;
        } else {
          var i :| 0 <= i < |ifs| && IsAssignableFrom(k, ifs[i]);
          InterfacesReachNoClass(k, ifs[i]);
          assert false;
        }
      case InterfaceOf(_, _) =>
        InterfacesReachNoClass(k, c);
        assert false;
    }
  }

  // The JDK classes the model and its examples refer to.
  const Serializable := InterfaceOf("java.io.Serializable", [])
  const Throwable := ClassOf("java.lang.Throwable", Object, [Serializable])
  const Exception := ClassOf("java.lang.Exception", Throwable, [])
  const Error := ClassOf("java.lang.Error", Throwable, [])
  const RuntimeException := ClassOf("java.lang.RuntimeException", Exception, [])
  const IllegalArgumentException := ClassOf("java.lang.IllegalArgumentException", RuntimeException, [])
  const NumberFormatException := ClassOf("java.lang.NumberFormatException", IllegalArgumentException, [])
  const IllegalStateException := ClassOf("java.lang.IllegalStateException", RuntimeException, [])
  const ClassCastException := ClassOf("java.lang.ClassCastException", RuntimeException, [])
  const IOException := ClassOf("java.io.IOException", Exception, [])
  const CharSequence := InterfaceOf("java.lang.CharSequence", [])
  const JavaString := ClassOf("java.lang.String", Object, [Serializable, CharSequence])

  /** A parameter type that `Throwable.class.isAssignableFrom` accepts. */
  predicate IsThrowableType(c: Class)
  {
    IsAssignableFrom(Throwable, c)
  }

  /** In a well-formed hierarchy every throwable type is a class below `Throwable`. */
  lemma ThrowableTypesAreClasses(c: Class)
    requires WellFormed(c) && IsThrowableType(c)
    ensures c.ClassOf? && Throwable in SuperChain(c)
  {
    ClassAssignableIffOnChain(Throwable, c);
  }
}
