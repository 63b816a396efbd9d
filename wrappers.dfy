/** An optional value: the model's stand-in for Kotlin's nullable types and Swift's optionals. */
module Wrappers {

  datatype Option<T> = None | Some(value: T)
  {
    /** The value, or `default` when there is none (Kotlin's `?:`, Swift's `??`). */
    function GetOr(default: T): T
    {
      match this
      case Some(v) => v
      case None => default
    }
  }
}
