/** The optional value used for the source's `T | null` and `T | undefined` fields. */
module Wrappers {

  datatype Option<+T> = None | Some(value: T) {

    /** The value, or `default` when absent (the source's `??` operator). */
    function GetOr(default: T): T
    {
      match this
      case Some(v) => v
      case None => default
    }
  }

  /** What an optional value adds to a list: the value, or nothing (a `push` guarded by a null check). */
  function Listed<T>(o: Option<T>): seq<T>
  {
    if o.Some? then [o.value] else []
  }
}
