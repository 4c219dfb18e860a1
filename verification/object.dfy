/** `Object`: an IRI, a blank node or a literal (section 3.1 of RDF 1.1 Concepts and Abstract Syntax). */
module Objects {
  import opened Wrappers
  import opened NamedNodes
  import opened BlankNodes
  import opened Literals

  datatype Object =
    | NamedNode(namedNode: NamedNodes.NamedNode)
    | BlankNode(blankNode: BlankNodes.BlankNode)
    | Literal(literal: Literals.Literal)

  function AsNamedNode(o: Object): Option<NamedNodes.NamedNode> {
    if o.NamedNode? then Some(o.namedNode) else None
  }

  function AsBlankNode(o: Object): Option<BlankNodes.BlankNode> {
    if o.BlankNode? then Some(o.blankNode) else None
  }

  function AsLiteral(o: Object): Option<Literals.Literal> {
    if o.Literal? then Some(o.literal) else None
  }

  /** `From<NamedNode>`. */
  function FromNamedNode(n: NamedNodes.NamedNode): (o: Object)
    ensures AsNamedNode(o) == Some(n) && AsBlankNode(o).None? && AsLiteral(o).None?
  {
    Object.NamedNode(n)
  }

  /** `From<BlankNode>`. */
  function FromBlankNode(b: BlankNodes.BlankNode): (o: Object)
    ensures AsBlankNode(o) == Some(b) && AsNamedNode(o).None? && AsLiteral(o).None?
  {
    Object.BlankNode(b)
  }

  /** `From<Literal>`. */
  function FromLiteral(l: Literals.Literal): (o: Object)
    ensures AsLiteral(o) == Some(l) && AsNamedNode(o).None? && AsBlankNode(o).None?
  {
    Object.Literal(l)
  }

  /** Objects of different variants are never equal. */
  lemma VariantsDistinct(n: NamedNodes.NamedNode, b: BlankNodes.BlankNode, l: Literals.Literal)
    ensures FromNamedNode(n) != FromBlankNode(b)
    ensures FromNamedNode(n) != FromLiteral(l)
    ensures FromBlankNode(b) != FromLiteral(l)
  {
  }

  /** Within one variant, equality is equality of the wrapped term. */
  lemma ConversionsInjective(n1: NamedNodes.NamedNode, n2: NamedNodes.NamedNode, b1: BlankNodes.BlankNode, b2: BlankNodes.BlankNode, l1: Literals.Literal, l2: Literals.Literal)
    ensures FromNamedNode(n1) == FromNamedNode(n2) <==> n1 == n2
    ensures FromBlankNode(b1) == FromBlankNode(b2) <==> b1 == b2
    ensures FromLiteral(l1) == FromLiteral(l2) <==> l1 == l2
  {
  }
}
