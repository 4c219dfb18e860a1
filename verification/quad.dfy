/** `Quad`: subject, predicate, object and an optional graph name (section 4 of RDF 1.1 Concepts and Abstract Syntax). */
module Quads {
  import opened Wrappers
  import opened Url
  import opened NamedNodes
  import opened Subjects
  import opened Objects

  /** `None` graph is the default graph. Equality is field-wise. */
  datatype Quad = Quad(subj: Subject, pred: NamedNode, obj: Object, graph: Option<NamedNode>)

  /**
   `Quad::new<S: Into<Subject>, O: Into<Object>>`: the `Into` conversions are the
   parameters `intoSubject` and `intoObject`. It never fails.
   */
  function New<S, O>(subject: S, intoSubject: S -> Subject, pred: NamedNode,
                     obj: O, intoObject: O -> Object, graph: Option<NamedNode>): (r: Result<Quad, GenericError>)
    ensures r.Ok?
    ensures r.value.subj == intoSubject(subject) && r.value.obj == intoObject(obj)
    ensures r.value.pred == pred && r.value.graph == graph
  {
    Ok(Quad(intoSubject(subject), pred, intoObject(obj), graph))
  }

  /** Two quads are equal iff all four fields are. */
  lemma EqualityFieldwise(a: Quad, b: Quad)
    ensures a == b <==> a.subj == b.subj && a.pred == b.pred && a.obj == b.obj && a.graph == b.graph
  {
  }

  /** A quad in the default graph never equals the same triple in a named graph. */
  lemma DefaultGraphDistinct(s: Subject, p: NamedNode, o: Object, g: NamedNode)
    ensures Quad(s, p, o, None) != Quad(s, p, o, Some(g))
  {
  }

  /**
   The unit test: building from "https://acme.org" and "https://bar.com" gives the
   quad written with "https://acme.org/" and "https://bar.com/", because the parser
   adds the root path and `NamedNode` keeps the serialisation.
   */
  lemma NewNormalizesThroughNamedNode(parse: UrlParser)
    requires parse("https://acme.org") == Ok(Url("https://acme.org/"))
    requires parse("https://acme.org/") == Ok(Url("https://acme.org/"))
    requires parse("https://bar.com") == Ok(Url("https://bar.com/"))
    requires parse("https://bar.com/") == Ok(Url("https://bar.com/"))
    requires parse("https://schema.org/name").Ok?
    ensures
      var name := TryFrom(parse, "https://schema.org/name").value;
      New(TryFrom(parse, "https://acme.org").value, Subjects.FromNamedNode, name,
          TryFrom(parse, "https://bar.com").value, Objects.FromNamedNode, None)
      == Ok(Quad(Subject.NamedNode(TryFrom(parse, "https://acme.org/").value), name,
                 Object.NamedNode(TryFrom(parse, "https://bar.com/").value), None))
  {
  }
}
