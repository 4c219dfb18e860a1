/** `NamedNode` of the newer term model: an IRI as serialised by the URL parser. */
module NamedNodes {
  import opened Wrappers
  import opened Url

  /** Equality (and the derived hash) depend only on `value`. */
  datatype NamedNode = NamedNode(value: string)

  /** The error type the newer model propagates with `?`. */
  datatype GenericError = UrlError(cause: ParseError)

  /** `From<Url>`: total; keeps the URL's serialisation. */
  function FromUrl(u: Url): (n: NamedNode)
    ensures n.value == u.serialization
  {
    NamedNode(u.serialization)
  }

  /** `TryFrom<&str>`: parse, then keep the serialisation rather than the raw input. */
  function TryFrom(parse: UrlParser, s: string): (r: Result<NamedNode, GenericError>)
    ensures r.Ok? <==> parse(s).Ok?
    ensures r.Ok? ==> r.value.value == parse(s).value.serialization
    ensures r.Err? ==> r.error == UrlError(parse(s).error)
  {
    match parse(s)
    case Ok(u) => Ok(FromUrl(u))
    case Err(e) => Err(UrlError(e))
  }

  /** Inputs with the same serialisation give equal nodes, whatever their surface form. */
  lemma TryFromSameSerialization(parse: UrlParser, a: string, b: string)
    requires parse(a).Ok? && parse(b).Ok?
    requires parse(a).value.serialization == parse(b).value.serialization
    ensures TryFrom(parse, a).Ok? && TryFrom(parse, a) == TryFrom(parse, b)
  {
  }

  /** The unit test: a parser that adds the root path makes "https://acme.org" a node for "https://acme.org/". */
  lemma TryFromAcme(parse: UrlParser)
    requires parse("https://acme.org") == Ok(Url("https://acme.org/"))
    ensures TryFrom(parse, "https://acme.org") == Ok(NamedNode("https://acme.org/"))
  {
  }

  /** A fixed point of the parser is stored verbatim. */
  lemma TryFromFixedPoint(parse: UrlParser, s: string)
    requires IsFixedPoint(parse, s)
    ensures TryFrom(parse, s) == Ok(NamedNode(s))
  {
  }
}
