/** `Literal` of the newer term model and its conversions from native values. */
module Literals {
  import opened Wrappers
  import opened Url
  import opened NamedNodes
  import Decimal

  /** The XML Schema namespace, "http://www.w3.org/2001/XMLSchema#". */
  const XsdNamespace: string := "http://www.w3.org/2001/XMLSchema#"
  const XsdString: string := XsdNamespace + "string"
  const XsdInteger: string := XsdNamespace + "integer"
  const XsdBoolean: string := XsdNamespace + "boolean"

  /** Equality compares value, datatype and language tag. */
  datatype Literal = Literal(value: string, dataType: NamedNode, language: Option<string>)

  /**
   The conversions `unwrap()` the parse of the three XSD IRIs; the model assumes
   the parser accepts them and serialises them unchanged.
   */
  predicate FixesXsdConstants(parse: UrlParser) {
    IsFixedPoint(parse, XsdString) && IsFixedPoint(parse, XsdInteger) && IsFixedPoint(parse, XsdBoolean)
  }

  /** The datatype node a conversion builds from one of the constants. */
  function XsdNode(parse: UrlParser, iri: string): (n: NamedNode)
    requires IsFixedPoint(parse, iri)
    ensures n == NamedNode(iri)
  {
    TryFrom(parse, iri).value
  }

  /** `From<&str>`: the text verbatim, typed xsd:string, untagged. */
  function FromStr(parse: UrlParser, s: string): (l: Literal)
    requires FixesXsdConstants(parse)
    ensures l.value == s
    ensures l.dataType.value == XsdString
    ensures l.language.None?
  {
    Literal(s, XsdNode(parse, XsdString), None)
  }

  /** `From<i32>`: the decimal rendering, typed xsd:integer, untagged. */
  function FromI32(parse: UrlParser, i: Decimal.I32): (l: Literal)
    requires FixesXsdConstants(parse)
    ensures Decimal.Canonical(l.value) && Decimal.ParseInt(l.value) == Some(i as int)
    ensures l.dataType.value == XsdInteger
    ensures l.language.None?
  {
    Decimal.ParseIntToString(i);
    Literal(Decimal.I32ToString(i), XsdNode(parse, XsdInteger), None)
  }

  /** `From<bool>`: "true" or "false", typed xsd:boolean, untagged. */
  function FromBool(parse: UrlParser, b: bool): (l: Literal)
    requires FixesXsdConstants(parse)
    ensures l.value == "true" || l.value == "false"
    ensures l.value == "true" <==> b
    ensures l.dataType.value == XsdBoolean
    ensures l.language.None?
  {
    Literal(if b then "true" else "false", XsdNode(parse, XsdBoolean), None)
  }

  /** The unit test: "howard", 42 and true convert to the expected literals. */
  lemma ConversionExamples(parse: UrlParser)
    requires FixesXsdConstants(parse)
    ensures FromStr(parse, "howard") == Literal("howard", NamedNode(XsdString), None)
    ensures FromI32(parse, 42) == Literal("42", NamedNode(XsdInteger), None)
    ensures FromBool(parse, true) == Literal("true", NamedNode(XsdBoolean), None)
  {
    assert Decimal.NatToString(42) == "42";
  }

  /** The datatype keeps equal lexical forms apart. */
  lemma DatatypeSeparatesLexicalForms(parse: UrlParser)
    requires FixesXsdConstants(parse)
    ensures FromStr(parse, "42") != FromI32(parse, 42)
    ensures FromStr(parse, "true") != FromBool(parse, true)
  {
  }

  /** A language-tagged literal never equals an untagged one, whatever its value and datatype. */
  lemma TaggedNeverUntagged(a: Literal, b: Literal)
    requires a.language.Some? && b.language.None?
    ensures a != b
  {
  }

  /** Distinct integers give distinct literals. */
  lemma FromI32Injective(parse: UrlParser, a: Decimal.I32, b: Decimal.I32)
    requires FixesXsdConstants(parse)
    ensures FromI32(parse, a) == FromI32(parse, b) <==> a == b
  {
  }
}
