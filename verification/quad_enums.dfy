/**
 `Quad` of the older model, whose subject and object are the closed variants
 `SubjectTypes` and `ObjectTypes`, and its N-Triples statement line (section 2 of
 RDF 1.1 N-Triples): subject, predicate and object separated by spaces, then " .".
 The graph does not appear in the line.
 */
module QuadEnums {
  import opened Wrappers
  import opened Errors
  import opened NamedNodes
  import opened BlankNodes
  import opened Literals
  import opened Subjects
  import opened Objects
  import opened Quads
  import TermsNamedNode
  import TermsBlankNode
  import Spellings

  /** `Quad::new`: never fails and stores its arguments. */
  function New(s: Subject, p: NamedNodes.NamedNode, o: Object, g: Option<NamedNodes.NamedNode>): (r: Result<Quad, Error>)
    ensures r.Ok?
    ensures r.value.subj == s && r.value.pred == p && r.value.obj == o && r.value.graph == g
  {
    Ok(Quad(s, p, o, g))
  }

  /** The older constructor builds the same quad as the newer one given the identity conversions. */
  lemma NewAgreesWithInto(s: Subject, p: NamedNodes.NamedNode, o: Object, g: Option<NamedNodes.NamedNode>)
    ensures New(s, p, o, g).value == Quads.New(s, x => x, p, o, x => x, g).value
  {
  }

  /** The unit test: quads built from equal terms are equal, and only then. */
  lemma NewEqualIffArgumentsEqual(s1: Subject, p1: NamedNodes.NamedNode, o1: Object, g1: Option<NamedNodes.NamedNode>,
                                  s2: Subject, p2: NamedNodes.NamedNode, o2: Object, g2: Option<NamedNodes.NamedNode>)
    ensures New(s1, p1, o1, g1) == New(s2, p2, o2, g2) <==> s1 == s2 && p1 == p2 && o1 == o2 && g1 == g2
  {
  }

  /**
   A literal as quoted text: `"lex"` for an untagged xsd:string literal,
   `"lex"@tag` for a tagged one and `"lex"^^<datatype>` otherwise. No escaping.
   */
  function RenderLiteral(l: Literals.Literal): (r: string)
    ensures |r| >= |l.value| + 2 && r[..|l.value| + 2] == "\"" + l.value + "\""
    ensures l.language.None? && l.dataType.value != XsdString ==> r[|r| - 1] == '>'
    ensures l.language.None? && l.dataType.value == XsdString ==> |r| == |l.value| + 2
  {
    var quoted := "\"" + l.value + "\"";
    match l.language
    case Some(tag) => quoted + "@" + tag
    case None =>
      if l.dataType.value == XsdString then quoted
      else quoted + "^^" + TermsNamedNode.Display(l.dataType)
  }

  /** A subject as text: `<iri>` or `_:name`, so the first character tells the variant. */
  function RenderSubject(s: Subject): (r: string)
    ensures s.NamedNode? ==> r == "<" + s.namedNode.value + ">"
    ensures s.BlankNode? ==> r == "_:" + s.blankNode.localName
    ensures |r| > 0
    ensures r[0] == '<' <==> s.NamedNode?
    ensures r[0] == '_' <==> s.BlankNode?
  {
    match s
    case NamedNode(n) => TermsNamedNode.Display(n)
    case BlankNode(b) => TermsBlankNode.Display(b)
  }

  /** An object as text: `<iri>`, `_:name` or the quoted literal, so the first character tells the variant. */
  function RenderObject(o: Object): (r: string)
    ensures o.NamedNode? ==> r == "<" + o.namedNode.value + ">"
    ensures o.BlankNode? ==> r == "_:" + o.blankNode.localName
    ensures o.Literal? ==> r == RenderLiteral(o.literal)
    ensures |r| > 0
    ensures r[0] == '<' <==> o.NamedNode?
    ensures r[0] == '_' <==> o.BlankNode?
    ensures r[0] == '"' <==> o.Literal?
  {
    match o
    case NamedNode(n) => TermsNamedNode.Display(n)
    case BlankNode(b) => TermsBlankNode.Display(b)
    case Literal(l) => RenderLiteral(l)
  }

  /** `Display`: "subject predicate object ." */
  function Display(q: Quad): (r: string)
    ensures var rs, rp, ro := RenderSubject(q.subj), TermsNamedNode.Display(q.pred), RenderObject(q.obj);
      && |r| == |rs| + |rp| + |ro| + 4
      && r[..|rs| + 1] == rs + " "
      && r[|rs| + 1..|rs| + |rp| + 2] == rp + " "
      && r[|rs| + |rp| + 2..|r| - 2] == ro
      && r[|r| - 2..] == " ."
  {
    var rs := RenderSubject(q.subj);
    var rp := TermsNamedNode.Display(q.pred);
    var ro := RenderObject(q.obj);
    var r := rs + " " + rp + " " + ro + " .";
    assert r == (rs + " ") + (rp + " ") + ro + " .";
    r
  }

  /** Quads differing only in graph give the same line. */
  lemma DisplayIgnoresGraph(q: Quad, g: Option<NamedNodes.NamedNode>)
    ensures Display(q) == Display(q.(graph := g))
  {
  }

  /** The line starts with '<' or '_' according to the subject's variant. */
  lemma DisplayShowsSubjectVariant(q: Quad)
    ensures Display(q)[0] == '<' <==> q.subj.NamedNode?
    ensures Display(q)[0] == '_' <==> q.subj.BlankNode?
  {
    var rs := RenderSubject(q.subj);
    assert Display(q)[0] == (rs + " ")[0];
  }

  /** Subjects (and objects) of different variants never render alike. */
  lemma VariantsRenderApart(s1: Subject, s2: Subject, o1: Object, o2: Object)
    ensures s1.NamedNode? != s2.NamedNode? ==> RenderSubject(s1) != RenderSubject(s2)
    ensures o1.NamedNode? != o2.NamedNode? ==> RenderObject(o1) != RenderObject(o2)
    ensures o1.BlankNode? != o2.BlankNode? ==> RenderObject(o1) != RenderObject(o2)
    ensures o1.Literal? != o2.Literal? ==> RenderObject(o1) != RenderObject(o2)
  {
  }

  /** A blank node may be a subject or an object, and renders the same in both places. */
  lemma BlankNodeInBothPositions(b: BlankNodes.BlankNode)
    ensures RenderSubject(Subject.BlankNode(b)) == RenderObject(Object.BlankNode(b)) == TermsBlankNode.Display(b)
  {
  }

  /**
   The unit test of `Display`: the line is
   `<http://foo.com/bar> <https://schema.org/name> "bar" .`, written below term by term.
   */
  lemma DisplayExample()
    ensures
      var q := New(Subject.NamedNode(NamedNodes.NamedNode("http://foo.com/bar")), NamedNodes.NamedNode("https://schema.org/name"),
                   Object.Literal(Literals.Literal("bar", NamedNodes.NamedNode(XsdString), None)), None).value;
      Display(q) == "<http://foo.com/bar>" + " " + "<https://schema.org/name>" + " " + "\"bar\"" + " ."
  {
    ExampleSubjectRendered();
    ExamplePredicateRendered();
  }

  lemma ExampleSubjectRendered()
    ensures RenderSubject(Subject.NamedNode(NamedNodes.NamedNode("http://foo.com/bar"))) == "<http://foo.com/bar>"
  {
    Spellings.BracketedHttpFooComBar();
  }

  lemma ExamplePredicateRendered()
    ensures TermsNamedNode.Display(NamedNodes.NamedNode("https://schema.org/name")) == "<https://schema.org/name>"
  {
    Spellings.BracketedSchemaOrgName();
  }

  /** The subject of the `Display` unit test is accepted by `NamedNode::new`. */
  lemma ExampleSubjectValid(w: char -> bool)
    requires TermsNamedNode.IsWordClass(w)
    ensures TermsNamedNode.New("http://foo.com/bar", w) == Ok(NamedNodes.NamedNode("http://foo.com/bar"))
  {
    TermsNamedNode.NewAcceptsTwoLabelHost("http", "foo", "com", "bar", w);
    Spellings.HttpFooComBar();
  }

  /** The predicate of the `Display` unit test is accepted by `NamedNode::new`. */
  lemma ExamplePredicateValid(w: char -> bool)
    requires TermsNamedNode.IsWordClass(w)
    ensures TermsNamedNode.New("https://schema.org/name", w) == Ok(NamedNodes.NamedNode("https://schema.org/name"))
  {
    TermsNamedNode.NewAcceptsTwoLabelHost("https", "schema", "org", "name", w);
    Spellings.HttpsSchemaOrgName();
  }

  /** A typed literal other than xsd:string renders as `"lex"^^<datatype>`. */
  lemma RenderTyped(l: Literals.Literal)
    requires l.language.None? && l.dataType.value != XsdString
    ensures RenderLiteral(l) == "\"" + l.value + "\"^^<" + l.dataType.value + ">"
  {
    var v, d := l.value, l.dataType.value;
    assert "\"" + v + "\"" + "^^" + ("<" + d + ">") == "\"" + v + ("\"" + "^^" + "<") + d + ">";
    Spellings.TypedSeparator();
  }

  /** The typed IRIs of the conversions differ from xsd:string. */
  lemma XsdIrisDiffer()
    ensures XsdInteger != XsdString && XsdBoolean != XsdString
  {
    assert |XsdInteger| != |XsdString| && |XsdBoolean| != |XsdString|;
  }

  /** The canonical lines in the integration test's comments for an integer, a boolean and a string literal. */
  lemma RenderIntegerLiteral(parse: Url.UrlParser)
    requires FixesXsdConstants(parse)
    ensures RenderLiteral(FromI32(parse, 23)) == "\"23\"^^<" + XsdInteger + ">"
  {
    var l := FromI32(parse, 23);
    assert l.value == "23" by {
      assert Decimal.NatToString(2) == "2";
      assert Decimal.NatToString(23) == "2" + "3";
      Spellings.TwentyThree();
    }
    XsdIrisDiffer();
    RenderTyped(l);
    Spellings.QuotedTwentyThree();
  }

  lemma RenderBooleanLiteral(parse: Url.UrlParser)
    requires FixesXsdConstants(parse)
    ensures RenderLiteral(FromBool(parse, true)) == "\"true\"^^<" + XsdBoolean + ">"
  {
    XsdIrisDiffer();
    RenderTyped(FromBool(parse, true));
    Spellings.QuotedTrue();
  }

  lemma RenderStringLiteral(parse: Url.UrlParser)
    requires FixesXsdConstants(parse)
    ensures RenderLiteral(Literals.FromStr(parse, "Professor")) == "\"Professor\""
  {
    Spellings.QuotedProfessor();
  }
}
