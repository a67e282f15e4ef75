/** lambdaj's DefaultStringConverter: any object to its string form. */
module StringConverter {
  import opened JavaLang

  /**
   * `convert(from)`: the empty string for null, `toString()` otherwise.
   * `toString` stands for the object's own `toString()`.
   */
  function Convert<T>(from: Ref<T>, toString: T -> string): (s: string)
    ensures from.Null? ==> s == ""
    ensures from.Obj? ==> s == toString(from.value)
  {
    match from
    case Null => ""
    case Obj(x) => toString(x)
  }
}
