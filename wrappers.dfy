/** The optional value returned where the server's C# code returns null or a failed TryParse. */
module Wrappers {
  datatype Option<+T> = None | Some(value: T)
}
