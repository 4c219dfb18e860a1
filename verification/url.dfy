/**
 The part of the `url` crate the term model relies on. Its WHATWG parsing and
 serialisation are foreign code, so a parser is a parameter of the model: any
 function from an input string to either a parsed URL or a parse error.
 */
module Url {
  import opened Wrappers

  /** A parsed URL, known to the model only through its serialisation (`Url::to_string`). */
  datatype Url = Url(serialization: string)

  /** `url::ParseError`; its kinds are opaque here. */
  datatype ParseError = ParseError(reason: string)

  /** `Url::parse`. */
  type UrlParser = string -> Result<Url, ParseError>

  /** The parser accepts `s` and serialises it back unchanged. */
  predicate IsFixedPoint(parse: UrlParser, s: string) {
    parse(s) == Ok(Url(s))
  }
}
