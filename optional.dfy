/** The nullable values of the C# source (`long?`, `string?`, a missing dictionary entry). */
module Optional {

  datatype Option<T> = None | Some(value: T) {

    /** The value, or `default` when there is none (the C# `??` operator). */
    function GetOr(default: T): T {
      match this
      case Some(v) => v
      case None => default
    }
  }
}
