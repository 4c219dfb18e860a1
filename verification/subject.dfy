/** `Subject`: the subject position holds an IRI or a blank node (section 3.1 of RDF 1.1 Concepts and Abstract Syntax). */
module Subjects {
  import opened Wrappers
  import opened NamedNodes
  import opened BlankNodes

  datatype Subject = NamedNode(namedNode: NamedNodes.NamedNode) | BlankNode(blankNode: BlankNodes.BlankNode)

  /** The named node a subject holds, if it holds one. */
  function AsNamedNode(s: Subject): Option<NamedNodes.NamedNode> {
    if s.NamedNode? then Some(s.namedNode) else None
  }

  /** The blank node a subject holds, if it holds one. */
  function AsBlankNode(s: Subject): Option<BlankNodes.BlankNode> {
    if s.BlankNode? then Some(s.blankNode) else None
  }

  /** `From<NamedNode>`. */
  function FromNamedNode(n: NamedNodes.NamedNode): (s: Subject)
    ensures AsNamedNode(s) == Some(n) && AsBlankNode(s).None?
  {
    Subject.NamedNode(n)
  }

  /** `From<BlankNode>`. */
  function FromBlankNode(b: BlankNodes.BlankNode): (s: Subject)
    ensures AsBlankNode(s) == Some(b) && AsNamedNode(s).None?
  {
    Subject.BlankNode(b)
  }

  /** A subject made from a named node never equals one made from a blank node, whatever their strings. */
  lemma VariantsDistinct(n: NamedNodes.NamedNode, b: BlankNodes.BlankNode)
    ensures FromNamedNode(n) != FromBlankNode(b)
  {
  }

  /** Both conversions are injective. */
  lemma ConversionsInjective(n1: NamedNodes.NamedNode, n2: NamedNodes.NamedNode, b1: BlankNodes.BlankNode, b2: BlankNodes.BlankNode)
    ensures FromNamedNode(n1) == FromNamedNode(n2) <==> n1 == n2
    ensures FromBlankNode(b1) == FromBlankNode(b2) <==> b1 == b2
  {
  }
}
