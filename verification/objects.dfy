/**
 * Run-time objects as the interceptor and the recovery methods see them:
 * an object is its class and an identity, and a reference is null or an object.
 */
module Objects {
  import opened Classes

  /** An object on the heap: its runtime class and its identity. */
  datatype Instance = Instance(cls: Class, id: nat)

  /** A reference-typed argument or result: null or an object. */
  datatype Value = Null | Ref(obj: Instance)
}
