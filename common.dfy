/**
 * Small value wrappers shared by every module: an optional value, the
 * TypeScript `T | null | undefined` slot, and what a read of a storage key
 * can yield.
 */
module Common {

  datatype Option<+T> = None | Some(value: T)

  /** A property typed `x?: T | null`: absent (`undefined`), `null`, or a value. */
  datatype Nullable<+T> = Undefined | Null | Given(value: T)

  /**
   * The result of reading one key of the key-value store and parsing it as a
   * JSON list: the key holds nothing (or the empty string), the text does not
   * parse, or it parses to a list.
   */
  datatype Blob<+T> = Missing | Unreadable | Present(items: seq<T>)

  /** The list a reader works with when it treats a missing or unreadable blob as `[]`. */
  function ItemsOrEmpty<T>(b: Blob<T>): seq<T>
  {
    if b.Present? then b.items else []
  }

  /** JavaScript truthiness of an optional string: `undefined`, `null` and `""` are falsy. */
  predicate TruthyString(v: Nullable<string>)
  {
    v.Given? && v.value != ""
  }
}
