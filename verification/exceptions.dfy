/** The Java exceptions the modelled code throws, catches or lets escape. */
module Exceptions {

  datatype Exception =
    | PlainException(message: string)            // `new Exception(message)`
    | SchemaException(message: string)           // thrown by the schema engine
    | NullPointerException                       // a method called on `null`
    | IllegalArgumentException(message: string)
    | InvalidPathException(input: string)        // `Path.of` given a string that is no path
    | IllegalFormatException                     // `String.formatted` given arguments its template does not fit
    | RuntimeException(cause: Exception)         // `new RuntimeException(cause)`

  /** What both the validator and the converter throw for a `null` snippet. */
  const EmptyBody := PlainException("Body input is empty.")
}
