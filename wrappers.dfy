/** Optional values and the outcome of a Java call that may throw. */
module Wrappers {

  /** A Java reference or string that may be null. */
  datatype Option<T> = None | Some(value: T)

  /** The kinds of exception the modelled code can raise. */
  datatype Exception =
    | NullPointer          // a method called on a null reference
    | MissingJsonKey       // org.json getString/getJSONArray on an absent key
    | IndexOutOfBounds     // String.substring or an array index past the end
    | ResourceNotFound     // the IOException of a missing class-path resource
    | UriSyntax            // the URISyntaxException of java.net.URI on a malformed URL

  /** The outcome of a call that either returns a value or throws. */
  datatype Result<T> = Ok(value: T) | Threw(error: Exception)
}
