# rdf data-model in Dafny

A model of the RDF data model of the `rdfrs/data-model` Rust crate. It covers both
generations of terms and quads, and the duplicate-free dataset the drafts are building towards.

- **Newer term layer.** `NamedNode` holds an IRI as the URL parser serialises it. `BlankNode`
  holds a local name. `Literal` holds a lexical value, a datatype IRI and an optional language
  tag. The `Subject` and `Object` sum types and their `From` conversions are modelled, as is a
  `Quad` with an optional graph name, as in sections 3.1 and 4 of RDF 1.1 Concepts and Abstract
  Syntax.
- **Dataset.** The naive dataset is a sequence of quads that never holds two equal quads. Its
  operations are `push` (returning the stored equal quad), `length`, `has`, `delete` and
  `match_term`, following `DatasetCore` of the RDF/JS Dataset specification. An indexed refinement
  keeps four per-position maps from term to quads, always equal to what the quad set determines.
  `match_term` over the indexes is proved equal to the filtered set, and the naive `push`,
  `delete`, `has`, `match_term` and `length` are each proved to agree with their indexed
  counterparts.
- **Older generation.** `NamedNode::new` checks the absolute-URI pattern
  `^(?:http|https)://(?:\w+\.)+\w+/.*$`, written as a deterministic string predicate. Terms render
  as in section 2 of RDF 1.1 N-Triples (`<iri>`, `_:id`, `"lex"`, `"lex"^^<dt>`). The quad
  statement line is `s p o .`. The `XsdType` table is proved to produce only IRIs the pattern
  accepts, so none of its `unwrap`s can panic.

Three things the source depends on become parameters:
- The `url` crate is a function `parse: string -> Result<Url, ParseError>`. `Literal`'s
  conversions require that it fixes the three XSD IRIs they `unwrap`.
- The regex class `\w` is a predicate `w: char -> bool`. It must accept ASCII letters, digits and
  `_`, and reject `.`, `/` and newline.
- Rust's `i32` is the subset type `Decimal.I32`. `to_string` is modelled by `Decimal.I32ToString`,
  and `Decimal.ParseInt` together with the `Decimal.Canonical` form is its specification.

## Model

| member | source | states |
|---|---|---|
| NamedNodes.FromUrl | src/named_node.rs:9-15 | total; the node's value is the URL's serialisation |
| NamedNodes.TryFrom | src/named_node.rs:17-25 | succeeds exactly when the parser accepts the input; the value is the parser's serialisation, not the raw input; otherwise the parser's error is returned wrapped |
| NamedNodes.TryFromSameSerialization | src/named_node.rs:4-7 | two inputs that the parser serialises alike give equal nodes |
| NamedNodes.TryFromAcme | src/named_node.rs:33-39 | when the parser adds the root path, "https://acme.org" gives the node "https://acme.org/" |
| NamedNodes.TryFromFixedPoint | src/named_node.rs:20-25 | an input the parser leaves unchanged is stored verbatim |
| BlankNodes.FromStr | src/blank_node.rs:6-12 | total, with no validation; the local name is the input verbatim |
| BlankNodes.FromStrInjective | src/blank_node.rs:1-12 | two blank nodes from `from` are equal iff their strings are |
| BlankNodes.FromStrExamples | src/blank_node.rs:19-27 | `from("b0")` is the node named "b0"; the empty string is accepted too |
| Decimal.NatToString | src/literal.rs:24-32 | a non-empty string of digits; a leading '0' occurs only as the whole string "0" for zero |
| Decimal.ParseNatToString | src/literal.rs:24-32 | reading the digits back gives the number |
| Decimal.I32ToString | src/literal.rs:24-32 | starts with '-' iff the integer is negative, and is canonical: digits after the sign, no leading zero, zero only as "0" |
| Decimal.ParseIntToString | src/literal.rs:24-32 | `ParseInt` inverts the rendering on every `i32` |
| Decimal.ParseNatBounds | src/literal.rs:24-32 | k digits read as less than 10^k, and at least 10^(k-1) without a leading zero |
| Decimal.ParseNatSameLength | src/literal.rs:24-32 | equal-length digit strings with the same value are equal |
| Decimal.NatDigitsUnique | src/literal.rs:24-32 | digit strings without a leading zero are determined by their value |
| Decimal.CanonicalUnique | src/literal.rs:24-32 | a canonical decimal string is determined by the integer it reads as |
| Decimal.I32ToStringCharacterized | src/literal.rs:24-32 | the rendering is the unique canonical string that reads as the integer, as `i32::to_string` produces |
| Decimal.I32ToStringInjective | src/literal.rs:24-32 | distinct integers render to distinct strings |
| Literals.XsdNode | src/literal.rs:3-5 | under the fixed-point assumption, the parsed constant is the node with exactly that IRI |
| Literals.FromStr | src/literal.rs:14-22 | the value is the text verbatim; the datatype is xsd:string; no language tag |
| Literals.FromI32 | src/literal.rs:24-32 | the value is a canonical decimal string that reads back as the integer, which pins it down by `Decimal.CanonicalUnique`; the datatype is xsd:integer; no language tag |
| Literals.FromBool | src/literal.rs:34-42 | the value is "true" exactly for true and "false" otherwise; the datatype is xsd:boolean; no tag |
| Literals.ConversionExamples | src/literal.rs:50-79 | "howard", 42 and true give the three expected literals |
| Literals.DatatypeSeparatesLexicalForms | src/literal.rs:7-42 | `from("42") != from(42)` and `from("true") != from(true)` |
| Literals.TaggedNeverUntagged | src/literal.rs:7-12 | a tagged literal never equals an untagged one |
| Literals.FromI32Injective | src/literal.rs:24-32 | two integers give equal literals iff they are equal |
| Subjects.FromNamedNode | src/subject.rs:10-14 | the subject is the named-node variant holding that node |
| Subjects.FromBlankNode | src/subject.rs:16-20 | the subject is the blank-node variant holding that node |
| Subjects.VariantsDistinct | src/subject.rs:4-8 | a named-node subject never equals a blank-node subject |
| Subjects.ConversionsInjective | src/subject.rs:10-20 | both conversions are injective |
| Objects.FromNamedNode | src/object.rs:12-16 | the object is the named-node variant holding that node |
| Objects.FromBlankNode | src/object.rs:18-22 | the object is the blank-node variant holding that node |
| Objects.FromLiteral | src/object.rs:24-28 | the object is the literal variant holding that literal |
| Objects.VariantsDistinct | src/object.rs:5-10 | objects of different variants are never equal |
| Objects.ConversionsInjective | src/object.rs:12-28 | each of the three conversions is injective |
| Quads.New | src/quad.rs:15-32 | never fails; the fields are the converted subject, the predicate, the converted object and the graph |
| Quads.EqualityFieldwise | src/quad.rs:6-12 | quads are equal iff all four fields are |
| Quads.DefaultGraphDistinct | src/quad.rs:6-12 | a triple in the default graph differs from the same triple in a named graph |
| Quads.NewNormalizesThroughNamedNode | src/quad.rs:39-57 | with a parser that adds the root path, the quad built from "https://acme.org" equals the one written with "https://acme.org/" |
| Datasets.Empty | src/dataset.rs:44-48 | the new dataset is valid and holds nothing |
| Sequences.FirstIndex | src/dataset.rs:55-62 | the position of the first equal element, which no earlier element equals, or None exactly when there is none; the URI pattern uses the same search for '.' and '/' |
| Datasets.Push | src/dataset.rs:53-60 | returns a stored quad equal to the argument; appends an absent quad; leaves the dataset unchanged when it is present; keeps it duplicate-free; the stored set gains exactly the quad |
| Datasets.DistinctCardinality | src/dataset.rs:59-60 | a duplicate-free sequence is as long as the set of quads it holds |
| Datasets.LengthCountsDistinct | src/dataset.rs:71-73 | `Length` is the stored sequence's length (`quads.len()`), and on a valid dataset that is the number of distinct stored quads |
| Datasets.PushLength | src/dataset.rs:55-57 | the length grows by one exactly when the pushed quad was absent |
| Datasets.PushTwiceLengthOne | src/dataset.rs:100-118 | two equal pushes into an empty dataset give length 1 |
| Datasets.PushAllDistinct | src/dataset.rs:53-57 | pushing pairwise-distinct quads stores all of them in order, and the length is their number |
| Datasets.Has | src/dataset.rs:8 | true iff the quad is stored |
| Datasets.Delete | src/dataset.rs:7 | removes the quad iff it was stored; nothing else changes; validity is kept; the length drops by one |
| Datasets.DeleteUndoesPush | src/dataset.rs:5-7 | deleting a quad just pushed into a dataset without it gives back the original dataset |
| Datasets.Filter | src/dataset.rs:9-15 | keeps exactly the quads meeting every constraint, never longer than its input, and without duplicates when the input has none |
| Datasets.MatchTerm | src/dataset.rs:9-15 | returns exactly the stored quads that equal every given term, with no duplicates |
| Datasets.FilterAll | src/dataset.rs:9-15 | with no constraint, every quad is returned in order |
| Datasets.MatchAllReturnsEverything | src/dataset.rs:9-15 | an all-None match returns the whole dataset, and its length is the dataset's length |
| Datasets.MatchIsConjunctive | src/dataset.rs:9-15 | constraints are conjoined, not disjoined |
| Datasets.DraftScan | src/dataset.rs:61-67 | the draft's loop panics iff some stored quad differs from the pushed one; otherwise it ends without a value |
| Datasets.PushAsWritten | src/dataset.rs:54-69 | for an absent quad, the draft agrees with `Push`; for a present quad, it never returns the stored quad, and it panics iff another quad is stored |
| Datasets.PushAsWrittenFailsOnDuplicate | src/dataset.rs:58-67 | the draft panics on a re-push into [a, b] and returns nothing on a re-push into [a], where `Push` returns the stored quad |
| Datasets.BuildDatasetFromScratch | tests/create_dataset.rs:22-62 | the five quads of the integration test give length 5, whatever IRIs the parser produced |
| QuadIndex.Derived | src/dataset.rs:35-38 | an index has a key iff some quad holds it, and each bucket is exactly the quads holding it |
| QuadIndex.DerivedInsert | src/dataset.rs:35-38 | adding a quad to its buckets keeps an index equal to the derived one |
| QuadIndex.DerivedRemove | src/dataset.rs:35-38 | removing a quad from its bucket keeps an index equal to the derived one |
| QuadIndex.FromSet | src/dataset.rs:35-38 | builds a consistent indexed dataset holding exactly the given quads |
| QuadIndex.ConsistentIsUnique | src/dataset.rs:35-38 | the indexes are determined by the quad set |
| QuadIndex.GraphIndexOnlyNamedGraphs | src/dataset.rs:35-38 | the graph index holds only quads with that named graph; default-graph quads are in no graph bucket |
| QuadIndex.Insert | src/dataset.rs:5 | adds the quad; reports whether it was absent; keeps the indexes consistent |
| QuadIndex.Delete | src/dataset.rs:7 | removes the quad; reports whether it was present; keeps the indexes consistent |
| QuadIndex.Has | src/dataset.rs:8 | a lookup in the subject index is exact membership |
| QuadIndex.Len | src/dataset.rs:6 | `length` of the indexed dataset is zero exactly when no quad is stored; `MatchRefines` equates it with the naive length |
| QuadIndex.Meet | src/dataset.rs:9-15 | membership in the meet is membership in every given candidate set |
| QuadIndex.Candidates | src/dataset.rs:9-15 | with no term given there is no constraint; otherwise the result lies inside the bucket of every given term |
| QuadIndex.CandidatesExact | src/dataset.rs:9-15 | the intersection of the selected buckets is exactly the stored quads that match |
| QuadIndex.IndexedMatch | src/dataset.rs:9-15 | bucket intersection equals the set of stored quads that match |
| QuadIndex.EachQuadDiscoverable | src/dataset.rs:9-15 | every stored quad is found by each of its own terms |
| QuadIndex.Abstraction | src/dataset.rs:35-42 | the indexed view of a naive dataset holds exactly the naive dataset's quads, and its indexes are consistent |
| QuadIndex.HasRefines | src/dataset.rs:8 | naive `has` and indexed `has` give the same answer for every quad |
| QuadIndex.PushRefinesInsert | src/dataset.rs:53-57 | naive `push` is indexed `insert`, with the same "was absent" answer |
| QuadIndex.DeleteRefinesDelete | src/dataset.rs:7 | naive `delete` is indexed `delete` on valid datasets |
| QuadIndex.MatchRefines | src/dataset.rs:9-15 | both matchers return the same quads, and the lengths agree |
| TermsNamedNode.Split | src/terms/named_node.rs:11 | at least one label, none containing a dot |
| TermsNamedNode.JoinSplit | src/terms/named_node.rs:11 | joining the labels of a host gives it back |
| TermsNamedNode.SplitJoin | src/terms/named_node.rs:11 | splitting joined dot-free labels gives them back |
| TermsNamedNode.SplitScheme | src/terms/named_node.rs:11 | when present, the scheme is http or https and the input is scheme, "://", rest |
| TermsNamedNode.IsAbsoluteUri | src/terms/named_node.rs:11 | an accepted string starts with "http://" or "https://" and has, after the scheme, a host whose first character is not '/' followed later by a '/'; `AcceptsComposed` and `AcceptedDecomposes` prove it accepts exactly the pattern's language |
| TermsNamedNode.New | src/terms/named_node.rs:14-25 | succeeds iff the input matches the pattern; keeps the input verbatim; the error carries the input |
| TermsNamedNode.AcceptsComposed | src/terms/named_node.rs:11 | every scheme + "://" + two-or-more word labels + "/" + newline-free rest is accepted |
| TermsNamedNode.AcceptedDecomposes | src/terms/named_node.rs:11 | every accepted input has that shape |
| TermsNamedNode.NewAcceptsTwoLabelHost | src/terms/named_node.rs:11-21 | an IRI with a two-label ASCII host is accepted verbatim |
| TermsNamedNode.NewAcceptsExample | src/terms/named_node.rs:56-64 | "https://foo.com/bar" is accepted verbatim |
| TermsNamedNode.NewRejectsExample | src/terms/named_node.rs:66-71 | "foo" is rejected with `InvalidURIError("foo")` |
| TermsNamedNode.NewRejectsMissingSlash | src/terms/named_node.rs:11 | "https://foo.com" is rejected, for lack of a '/' after the host |
| TermsNamedNode.NewRejectsOneLabelHost | src/terms/named_node.rs:11 | a host with a single label is rejected, whatever follows it |
| TermsNamedNode.NewRejectsSingleLabelHost | src/terms/named_node.rs:11 | "http://localhost/" is rejected |
| TermsNamedNode.Display | src/terms/named_node.rs:28-32 | the value between '<' and '>' |
| TermsNamedNode.DisplayInjective | src/terms/named_node.rs:28-32 | nodes render alike iff they are equal |
| TermsNamedNode.DisplayExample | src/terms/named_node.rs:73-78 | "https://foo.com/bar" renders as "<https://foo.com/bar>" |
| TermsNamedNode.EqualityIsValueEquality | src/terms/named_node.rs:38-54 | equality is equality of values, reflexive and symmetric |
| TermsBlankNode.New | src/terms/blank_node.rs:17-23 | never fails; the identifier is kept verbatim |
| TermsBlankNode.Display | src/terms/blank_node.rs:25-29 | "_:" followed by the identifier |
| TermsBlankNode.DisplayInjective | src/terms/blank_node.rs:25-29 | blank nodes render alike iff they are equal |
| TermsBlankNode.DisplayExample | src/terms/blank_node.rs:48-53 | "b1" renders as "_:b1" |
| TermsBlankNode.EqualityIsValueEquality | src/terms/blank_node.rs:35-46 | equality is equality of identifiers, and symmetric |
| TermsXsdType.Iri | src/terms/xsd_type.rs:19-71 | every table entry is the XML Schema namespace followed by the local name of the type's XSD datatype |
| TermsXsdType.IriAccepted | src/terms/xsd_type.rs:19-71 | every table entry matches the absolute-URI pattern |
| TermsXsdType.XsdType | src/terms/xsd_type.rs:15-71 | the node holds the table's IRI, and `NamedNode::new` accepts it, so the `unwrap` cannot panic |
| TermsXsdType.XsdTypeStrings | src/terms/xsd_type.rs:19-29 | `String` and `&str` both map to xsd:string |
| TermsXsdType.XsdTypeIntegerAndBoolean | src/terms/xsd_type.rs:31-53 | `u32` maps to xsd:integer and `bool` to xsd:boolean |
| TermsXsdType.XsdTypeDoubles | src/terms/xsd_type.rs:37-47 | `f32` and `f64` both map to xsd:double |
| TermsXsdType.XsdTypeTemporal | src/terms/xsd_type.rs:55-71 | the chrono and time types map to xsd:dateTime, xsd:date and xsd:time |
| TermsXsdType.IriMergesOnlyAliases | src/terms/xsd_type.rs:19-71 | two types share an IRI iff they share a local name |
| QuadEnums.New | src/quad_enums.rs:26-40 | never fails; the fields are the arguments |
| QuadEnums.NewAgreesWithInto | src/quad_enums.rs:26-40 | builds the same quad as the newer `Quad::new` with identity conversions |
| QuadEnums.NewEqualIffArgumentsEqual | src/quad_enums.rs:87-106 | two built quads are equal iff all four arguments are |
| QuadEnums.RenderLiteral | src/quad_enums.rs:51-55 | the quoted value comes first; an untagged xsd:string literal is just the quoted value; any other untagged literal ends with '>' |
| QuadEnums.RenderSubject | src/quad_enums.rs:44-47 | a named node renders as `<iri>` and a blank node as `_:name`; so the first character is '<' or '_' by variant |
| QuadEnums.RenderObject | src/quad_enums.rs:51-55 | `<iri>`, `_:name`, or the literal's own rendering; so the first character tells the variant: '<', '_' or '"' |
| QuadEnums.Display | src/quad_enums.rs:42-59 | subject, space, predicate, space, object, then " ."; the length is the sum of the parts plus 4 |
| QuadEnums.DisplayIgnoresGraph | src/quad_enums.rs:42-59 | quads that differ only in graph render identically |
| QuadEnums.DisplayShowsSubjectVariant | src/quad_enums.rs:44-47 | the line's first character tells the subject's variant |
| QuadEnums.VariantsRenderApart | src/quad_enums.rs:5-16 | subjects, and objects, of different variants never render alike |
| QuadEnums.BlankNodeInBothPositions | src/terms/blank_node.rs:13-15 | a blank node renders the same as subject and as object |
| QuadEnums.DisplayExample | src/quad_enums.rs:108-122 | the test quad renders as `<http://foo.com/bar> <https://schema.org/name> "bar" .` |
| QuadEnums.ExampleSubjectValid | src/quad_enums.rs:67 | "http://foo.com/bar" is accepted by `NamedNode::new` |
| QuadEnums.ExamplePredicateValid | src/quad_enums.rs:68 | "https://schema.org/name" is accepted by `NamedNode::new` |
| QuadEnums.RenderTyped | tests/create_dataset.rs:11-13 | an untagged literal of a type other than xsd:string renders as `"lex"^^<datatype>` |
| QuadEnums.RenderIntegerLiteral | tests/create_dataset.rs:11 | `from(23)` renders as `"23"^^<…#integer>` |
| QuadEnums.RenderBooleanLiteral | tests/create_dataset.rs:13 | `from(true)` renders as `"true"^^<…#boolean>` |
| QuadEnums.RenderStringLiteral | tests/create_dataset.rs:14 | `from("Professor")` renders as `"Professor"` |

## Left out

- The `url` crate's parsing and serialisation (WHATWG URL) is foreign code. It is the parameter
  `parse`, and only the fixed-point assumption on the three XSD constants is made of it.
- The `regex` engine: the one pattern is written as a predicate. Unicode `\w` is the parameter
  `w`, constrained only on ASCII word characters, '.', '/' and newline.
- Derived `Hash` is not modelled; Dafny's structural equality stands for `PartialEq`/`Eq`.
- chrono and time values appear only as tags of `NativeType`; no dates or times are modelled.
- N-Triples escaping and parsing are not in the code, so no escaping is modelled and no parse
  round-trip is claimed.
- Iterators, laziness and concurrency around a store: `match_term` returns a sequence (naive)
  or a set (indexed).
- QuadIndex.IndexedMatch: the smallest-bucket-first evaluation order is not modelled. It
  affects cost only, so the model intersects all selected buckets.
- Datasets.MatchTerm: the graph constraint is `Option<NamedNode>`, as in the signature at
  src/dataset.rs:9-15. `None` means "any graph", so the default graph alone cannot be selected.
- Datasets.Push: it returns the new dataset together with the stored quad, rather than a
  `Result<&Quad, _>` borrowed from a mutable dataset. No error case exists in the intended
  behaviour.
- QuadEnums.RenderLiteral: the older `Literal` (src/terms/literal.rs) has no `Display`. The
  rendering follows section 2 of RDF 1.1 N-Triples and the canonical lines in the comments of
  tests/create_dataset.rs. The tag form `"lex"@tag` follows the same standard.
- The older generation's `NamedNode` and `BlankNode`, and the outer fields of its `Quad`, have the
  same shape as the newer ones, so the model reuses the newer datatypes and gives the older
  constructors and renderings their own modules.
- QuadEnums: the literal object of the older quad (`ObjectTypes::Literal`, src/quad_enums.rs:15)
  holds `terms::Literal<T>`, which has a generic value and a plain `String` language where ""
  means none (src/terms/literal.rs:5-16). That file does not compile, so the model uses the newer
  `Literals.Literal` record in its place. The tests' `Literal::String(v, None)`, a constructor
  neither literal has, is read as the untagged xsd:string literal with value `v`.
- src/quad_generics.rs and src/quad_trait_obj.rs duplicate the behaviour of src/quad.rs and
  src/quad_enums.rs through Rust type-system designs. Trait-object equality has no defined
  meaning to model.
- src/terms/literal.rs and src/terms.rs are not part of this model. They are drafts that do not
  compile; among other problems, the first maps `String` to xsd:integer.
- src/lib.rs and src/terms/mod.rs are module wiring and marker traits.

## Findings

| source | as written | input that shows it | evidently intended | confidence | as-written member | corrected member |
|---|---|---|---|---|---|---|
| src/dataset.rs:61-67 | The duplicate branch of the draft `push` loops over the stored quads. An equal quad is evaluated and dropped, not returned. Any other quad panics with "should not get here". If the loop ends, no quad is produced. | dataset [a, b] with a != b, then push b (or a): panic. Dataset [a], then push a: no value. | Return the stored quad equal to the argument and leave the dataset unchanged (comment at src/dataset.rs:59-60; test at src/dataset.rs:100-118) | not executed; the draft is commented out and would not compile as written | Datasets.PushAsWritten, Datasets.PushAsWrittenFailsOnDuplicate | Datasets.Push |
