/**
 The IRIs and lines of the unit tests, each spelled both from its parts
 (scheme, host labels, path; quote, lexical form, datatype) and as one literal.
 */
module Spellings {
  lemma HttpsFooComBar()
    ensures "https" + "://" + "foo" + "." + "com" + "/" + "bar" == "https://foo.com/bar"
  {
  }

  lemma HttpFooComBar()
    ensures "http" + "://" + "foo" + "." + "com" + "/" + "bar" == "http://foo.com/bar"
  {
  }

  lemma HttpsSchemaOrgName()
    ensures "https" + "://" + "schema" + "." + "org" + "/" + "name" == "https://schema.org/name"
  {
  }

  lemma HttpLocalhost()
    ensures "http" + "://" + ("localhost" + "/" + "") == "http://localhost/"
  {
  }

  lemma BracketedHttpsFooComBar()
    ensures "<" + "https://foo.com/bar" + ">" == "<https://foo.com/bar>"
  {
  }

  lemma BracketedHttpFooComBar()
    ensures "<" + "http://foo.com/bar" + ">" == "<http://foo.com/bar>"
  {
  }

  lemma BracketedSchemaOrgName()
    ensures "<" + "https://schema.org/name" + ">" == "<https://schema.org/name>"
  {
  }

  lemma XsdNamespaceSpelled()
    ensures "http" + "://" + "www.w3.org" + "/" + "2001/XMLSchema#" == "http://www.w3.org/2001/XMLSchema#"
  {
  }

  lemma TypedSeparator()
    ensures "\"" + "^^" + "<" == "\"^^<"
  {
  }

  lemma TwentyThree()
    ensures "2" + "3" == "23"
  {
  }

  lemma QuotedTwentyThree()
    ensures "\"" + "23" + "\"^^<" == "\"23\"^^<"
  {
  }

  lemma QuotedTrue()
    ensures "\"" + "true" + "\"^^<" == "\"true\"^^<"
  {
  }

  lemma QuotedProfessor()
    ensures "\"" + "Professor" + "\"" == "\"Professor\""
  {
  }
}
