/**
 `XsdType::xsd_type`: the XSD datatype IRI for each native type the older term
 model supports. Each IRI goes through `NamedNode::new(..).unwrap()`.
 */
module TermsXsdType {
  import opened Wrappers
  import opened NamedNodes
  import opened TermsNamedNode
  import opened Literals
  import Spellings

  /** The Rust types with an `XsdType` implementation. */
  datatype NativeType = String | Str | U32 | F32 | F64 | Bool | DateTimeUtc | DateUtc | Time

  /** The table of IRIs, one per implementation: each is the XSD namespace followed by the type's local name. */
  function Iri(t: NativeType): (r: string)
    ensures r == XsdNamespace + LocalName(t)
  {
    match t
    case String => XsdNamespace + "string"
    case Str => XsdNamespace + "string"
    case U32 => XsdNamespace + "integer"
    case F32 => XsdNamespace + "double"
    case F64 => XsdNamespace + "double"
    case Bool => XsdNamespace + "boolean"
    case DateTimeUtc => XsdNamespace + "dateTime"
    case DateUtc => XsdNamespace + "date"
    case Time => XsdNamespace + "time"
  }

  /** The XSD local name each IRI ends in. */
  function LocalName(t: NativeType): string {
    match t
    case String | Str => "string"
    case U32 => "integer"
    case F32 | F64 => "double"
    case Bool => "boolean"
    case DateTimeUtc => "dateTime"
    case DateUtc => "date"
    case Time => "time"
  }

  /** The namespace spelled as scheme, host labels and the path up to the local name. */
  lemma NamespaceSpelled()
    ensures "http" + "://" + Join(["www", "w3", "org"]) + "/" + "2001/XMLSchema#" == XsdNamespace
  {
    assert ["www", "w3", "org"][1..] == ["w3", "org"];
    assert ["w3", "org"][1..] == ["org"];
    assert Join(["www", "w3", "org"]) == "www.w3.org";
    Spellings.XsdNamespaceSpelled();
  }

  lemma IriSpelled(local: string)
    ensures "http" + "://" + Join(["www", "w3", "org"]) + "/" + ("2001/XMLSchema#" + local) == XsdNamespace + local
  {
    NamespaceSpelled();
    var a := "http" + "://" + Join(["www", "w3", "org"]) + "/";
    assert a + ("2001/XMLSchema#" + local) == (a + "2001/XMLSchema#") + local;
  }

  lemma HostLabelsAreWords(w: char -> bool)
    requires IsWordClass(w)
    ensures forall i :: 0 <= i < 3 ==> IsWord(["www", "w3", "org"][i], w)
  {
    assert IsAsciiWordChar('w') && IsAsciiWordChar('3') && IsAsciiWordChar('o') && IsAsciiWordChar('r') && IsAsciiWordChar('g');
    assert IsWord("www", w) && IsWord("w3", w) && IsWord("org", w);
  }

  lemma NoNewlineInTail(t: NativeType)
    ensures '\n' !in "2001/XMLSchema#" + LocalName(t)
  {
  }

  /** Every IRI of the table satisfies the URI pattern, so no `unwrap` in the table can fail. */
  lemma IriAccepted(t: NativeType, w: char -> bool)
    requires IsWordClass(w)
    ensures IsAbsoluteUri(Iri(t), w)
  {
    HostLabelsAreWords(w);
    var tail := "2001/XMLSchema#" + LocalName(t);
    NoNewlineInTail(t);
    AcceptsComposed("http", ["www", "w3", "org"], tail, w);
    IriSpelled(LocalName(t));
  }

  /** `xsd_type()`. */
  function XsdType(t: NativeType, w: char -> bool): (n: NamedNode)
    requires IsWordClass(w)
    ensures n.value == Iri(t)
    ensures IsAbsoluteUri(n.value, w)
    ensures New(n.value, w) == Ok(n)
  {
    IriAccepted(t, w);
    New(Iri(t), w).value
  }

  /** `String` and `&str` both map to xsd:string, the newer model's string datatype. */
  lemma XsdTypeStrings()
    ensures Iri(String) == Iri(Str) == XsdString
  {
  }

  /** `u32` maps to xsd:integer and `bool` to xsd:boolean, as in the newer model. */
  lemma XsdTypeIntegerAndBoolean()
    ensures Iri(U32) == XsdInteger
    ensures Iri(Bool) == XsdBoolean
  {
  }

  /** `f32` and `f64` both map to xsd:double. */
  lemma XsdTypeDoubles()
    ensures Iri(F32) == Iri(F64) == XsdNamespace + "double"
  {
  }

  /** The chrono and time types map to xsd:dateTime, xsd:date and xsd:time. */
  lemma XsdTypeTemporal()
    ensures Iri(DateTimeUtc) == XsdNamespace + "dateTime"
    ensures Iri(DateUtc) == XsdNamespace + "date"
    ensures Iri(Time) == XsdNamespace + "time"
  {
  }

  /** Distinct datatypes in the table are distinct IRIs: the table merges exactly String with &str and f32 with f64. */
  lemma IriMergesOnlyAliases(a: NativeType, b: NativeType)
    ensures Iri(a) == Iri(b) <==> LocalName(a) == LocalName(b)
  {
    if Iri(a) == Iri(b) {
      assert LocalName(a) == Iri(a)[|XsdNamespace|..];
    }
  }
}
