/**
 * The few pieces of the Java runtime the lambdaj collection helpers rely on:
 * nullable references, the dynamic shape of a parameter declared `Object`,
 * the exceptions the helpers raise, and the Aggregator interface.
 */
module JavaLang {

  /** A Java reference: `null` or an object. */
  datatype Ref<T> = Null | Obj(value: T)

  /**
   * A non-null object passed where lambdaj declares `Object iterable`:
   * either an Iterable (its items in iteration order) or anything else,
   * known only by what its `toString()` returns.
   */
  datatype Instance<T> = IterableOf(items: seq<T>) | Plain(text: string)

  /** The exceptions the modelled code can raise. */
  datatype Exception =
    | IllegalArgument        // IllegalArgumentException
    | ClassCast              // ClassCastException
    | NullPointer            // NullPointerException
    | NoSuchElement          // NoSuchElementException
    | ArrayIndexOutOfBounds  // ArrayIndexOutOfBoundsException
    | NotUniqueItem          // RuntimeException("Not unique item")
    | NotAnIterable          // RuntimeException(iterable + " is not an iterable")

  /** A value returned normally, or the exception thrown instead. */
  datatype Result<T> = Ok(value: T) | Threw(error: Exception)

  /** How a `void` method ends: normally, or by throwing. */
  datatype Status = Returned | Raised(error: Exception)

  /** The checked cast `(Iterable<T>) o`: null passes, a non-Iterable fails. */
  function AsIterable<T>(o: Ref<Instance<T>>): Result<Ref<seq<T>>>
  {
    match o
    case Null => Ok(Null)
    case Obj(IterableOf(items)) => Ok(Obj(items))
    case Obj(Plain(_)) => Threw(ClassCast)
  }

  /** lambdaj's Aggregator<T>: a neutral starting value and a binary operation. */
  datatype Aggregator<!T> = Aggregator(emptyItem: T, aggregate: (T, T) -> T)

  /** `o` is a non-null Iterable. */
  predicate IsIterable<T>(o: Ref<Instance<T>>)
  {
    o.Obj? && o.value.IterableOf?
  }

  /** `o` is a non-null object that is not an Iterable. */
  predicate IsPlain<T>(o: Ref<Instance<T>>)
  {
    o.Obj? && o.value.Plain?
  }
}
