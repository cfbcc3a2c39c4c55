/**
 * The slice of the Java runtime that the teardown helpers depend on:
 * references that may be null, java.util.Optional, objects with a runtime
 * class, and the two ways a call can end (returning, or throwing).
 */
module Java {

  /** A Java reference: `null`, or an object. */
  datatype Ref<+T> = Null | Ptr(target: T)

  /** java.util.Optional: `Optional.empty()` or `Optional.of(value)`. */
  datatype Optional<+T> = Empty | Of(value: T)

  /** A runtime class: its name and the names of all its supertypes
   *  (superclasses and implemented interfaces, transitively). */
  datatype RuntimeClass = RuntimeClass(name: string, supertypes: set<string>)

  /** `target.isAssignableFrom(c)`: `c` is `target` itself or one of its subtypes. */
  predicate IsAssignableFrom(target: string, c: RuntimeClass)
  {
    target == c.name || target in c.supertypes
  }

  /** An object: its identity, its runtime class, and the string its `toString()` returns. */
  datatype Obj = Obj(id: nat, cls: RuntimeClass, stringForm: string)

  const EXCEPTION := "java.lang.Exception"

  /** Whether a thrown object is caught by `catch (Exception e)`; an `Error`
   *  or any other `Throwable` that is not an `Exception` is not. */
  predicate IsException(thrown: Obj)
  {
    IsAssignableFrom(EXCEPTION, thrown.cls)
  }

  /** How a call with a side effect ends. */
  datatype Outcome = Completed | Threw(thrown: Obj)

  /** How evaluating an expression ends: with a value, or with a throwable
   *  that propagates to the caller. */
  datatype Completion<+T> = Normal(value: T) | Abrupt(thrown: Obj)
}
