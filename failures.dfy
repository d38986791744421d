/** How constructing a grammar can fail. */
module Failures {
  /**
   * A `SyntaxError` with its message (unparseable grammar text, a rule that is
   * referenced but never defined); any other exception raised while building (a
   * malformed syntax tree, an invalid regular expression); or no answer from the
   * meta-grammar within the fuel given.
   */
  datatype Failure = SyntaxError(message: string) | Exception | NoFuel
}
