/** `BlankNode` of the newer term model. */
module BlankNodes {

  /** Equal iff the local names are equal. */
  datatype BlankNode = BlankNode(localName: string)

  /** `From<&str>`: total, no validation; the input is the local name verbatim. */
  function FromStr(s: string): (b: BlankNode)
    ensures b.localName == s
  {
    BlankNode(s)
  }

  /** Different strings never give the same blank node. */
  lemma FromStrInjective(a: string, b: string)
    ensures FromStr(a) == FromStr(b) <==> a == b
  {
  }

  /** The unit test: `from("b0")` is the node named "b0"; even "" is accepted. */
  lemma FromStrExamples()
    ensures FromStr("b0") == BlankNode("b0")
    ensures FromStr("").localName == ""
  {
  }
}
