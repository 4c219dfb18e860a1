/** `BlankNode::new` and `Display` of the older term model. */
module TermsBlankNode {
  import opened Wrappers
  import opened Errors
  import opened BlankNodes

  /** `BlankNode::new`: never fails; the identifier is kept verbatim. */
  function New(value: string): (r: Result<BlankNode, Error>)
    ensures r.Ok? && r.value.localName == value
  {
    Ok(BlankNode(value))
  }

  /** `Display`: "_:" then the identifier. */
  function Display(b: BlankNode): (r: string)
    ensures |r| == |b.localName| + 2
    ensures r[..2] == "_:" && r[2..] == b.localName
  {
    "_:" + b.localName
  }

  /** Distinct identifiers render differently. */
  lemma DisplayInjective(a: BlankNode, b: BlankNode)
    ensures Display(a) == Display(b) <==> a == b
  {
  }

  /** The unit test of `Display`. */
  lemma DisplayExample()
    ensures Display(New("b1").value) == "_:b1"
  {
  }

  /** Equality is equality of identifiers, and symmetric. */
  lemma EqualityIsValueEquality(a: BlankNode, b: BlankNode)
    ensures a == b <==> a.localName == b.localName
    ensures a == b ==> b == a
  {
  }
}
