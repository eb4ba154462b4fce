// Option type used wherever the C# code returns or stores a nullable value.
module Wrappers {
  datatype Option<+T> = None | Some(value: T)
  {
    predicate IsSome() { this.Some? }

    function GetOr(default: T): T
    {
      match this
      case None => default
      case Some(v) => v
    }
  }
}
