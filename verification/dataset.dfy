/**
 The naive dataset: a vector of quads that never holds two equal quads, with the
 operations of the `DatasetCore` interface of the RDF/JS Dataset specification
 (`add` as `push`, `delete`, `has`, `match`) and `length`.
 */
module Datasets {
  import opened Wrappers
  import opened Sequences
  import opened NamedNodes
  import opened BlankNodes
  import opened Subjects
  import opened Objects
  import opened Quads
  import Url
  import Literals
  import Decimal

  /** No quad occurs twice. */
  predicate NoDuplicates(s: seq<Quad>) {
    forall i, j :: 0 <= i < j < |s| ==> s[i] != s[j]
  }

  /** The set of quads a sequence holds. */
  function Elements(s: seq<Quad>): set<Quad> {
    set q | q in s
  }

  datatype NaiveDataset = NaiveDataset(quads: seq<Quad>) {
    predicate Valid() {
      NoDuplicates(quads)
    }
  }

  /** `NaiveDataset::new`. */
  function Empty(): (ds: NaiveDataset)
    ensures ds.Valid() && Elements(ds.quads) == {}
  {
    NaiveDataset([])
  }

  /** What `push` gives back: the new dataset and the stored quad equal to the argument. */
  datatype Pushed = Pushed(dataset: NaiveDataset, stored: Quad)

  /**
   `push`: an absent quad is appended; a present one leaves the dataset as it was
   and the stored equal quad is returned.
   */
  function Push(ds: NaiveDataset, q: Quad): (r: Pushed)
    ensures r.stored == q && r.stored in r.dataset.quads
    ensures q !in ds.quads ==> r.dataset.quads == ds.quads + [q]
    ensures q in ds.quads ==> r.dataset == ds
    ensures ds.Valid() ==> r.dataset.Valid()
    ensures Elements(r.dataset.quads) == Elements(ds.quads) + {q}
  {
    match FirstIndex(ds.quads, q)
    case None => Pushed(NaiveDataset(ds.quads + [q]), q)
    case Some(i) => Pushed(ds, ds.quads[i])
  }

  /** A distinct sequence is exactly as long as the set it holds. */
  lemma {:induction false} DistinctCardinality(s: seq<Quad>)
    requires NoDuplicates(s)
    ensures |Elements(s)| == |s|
  {
    if |s| > 0 {
      var t := s[..|s| - 1];
      assert NoDuplicates(t);
      DistinctCardinality(t);
      assert s == t + [s[|s| - 1]];
      assert s[|s| - 1] !in t by {
        forall i | 0 <= i < |t| ensures t[i] != s[|s| - 1] {
          assert s[i] != s[|s| - 1];
        }
      }
      assert Elements(s) == Elements(t) + {s[|s| - 1]};
    }
  }

  /** `length`: the number of stored quads. */
  function Length(ds: NaiveDataset): nat {
    |ds.quads|
  }

  /** On a valid dataset the length is the number of distinct quads. */
  lemma LengthCountsDistinct(ds: NaiveDataset)
    requires ds.Valid()
    ensures Length(ds) == |Elements(ds.quads)|
  {
    DistinctCardinality(ds.quads);
  }

  /** Pushing grows the length by one exactly when the quad was absent. */
  lemma PushLength(ds: NaiveDataset, q: Quad)
    ensures Length(Push(ds, q).dataset) == Length(ds) + (if q in ds.quads then 0 else 1)
  {
  }

  /** The unit test: two equal pushes into an empty dataset leave length 1. */
  lemma PushTwiceLengthOne(q: Quad)
    ensures Length(Push(Push(Empty(), q).dataset, q).dataset) == 1
  {
  }

  /** Push each quad in turn. */
  function PushAll(ds: NaiveDataset, qs: seq<Quad>): NaiveDataset
    decreases |qs|
  {
    if |qs| == 0 then ds else PushAll(Push(ds, qs[0]).dataset, qs[1..])
  }

  /** Pushing pairwise-distinct quads into an empty dataset stores all of them, in order. */
  lemma {:induction false} PushAllDistinct(ds: NaiveDataset, qs: seq<Quad>)
    requires ds.Valid() && NoDuplicates(ds.quads + qs)
    ensures PushAll(ds, qs).quads == ds.quads + qs
    ensures PushAll(ds, qs).Valid()
    ensures Length(PushAll(ds, qs)) == |ds.quads| + |qs|
    decreases |qs|
  {
    if |qs| > 0 {
      assert qs[0] !in ds.quads by {
        forall i | 0 <= i < |ds.quads| ensures ds.quads[i] != qs[0] {
          assert (ds.quads + qs)[i] == ds.quads[i];
          assert (ds.quads + qs)[|ds.quads|] == qs[0];
        }
      }
      var next := Push(ds, qs[0]).dataset;
      assert next.quads + qs[1..] == ds.quads + qs;
      PushAllDistinct(next, qs[1..]);
    }
  }

  /** `has`: exact membership, decided by the search. */
  function Has(ds: NaiveDataset, q: Quad): (b: bool)
    ensures b <==> q in ds.quads
  {
    FirstIndex(ds.quads, q).Some?
  }

  /** What `delete` gives back: the new dataset and whether a quad was removed. */
  datatype Deleted = Deleted(dataset: NaiveDataset, removed: bool)

  /** The sequence without its element at `i`. */
  function RemoveAt(s: seq<Quad>, i: nat): (r: seq<Quad>)
    requires i < |s|
    ensures |r| == |s| - 1
  {
    s[..i] + s[i + 1..]
  }

  /** Removing one position keeps every other value and, without duplicates, drops the removed one. */
  lemma RemoveAtMembers(s: seq<Quad>, i: nat)
    requires i < |s|
    ensures forall x :: x != s[i] ==> (x in RemoveAt(s, i) <==> x in s)
    ensures NoDuplicates(s) ==> NoDuplicates(RemoveAt(s, i)) && s[i] !in RemoveAt(s, i)
  {
    var r := RemoveAt(s, i);
    forall x | x != s[i] ensures x in r <==> x in s {
      if x in s {
        var k :| 0 <= k < |s| && s[k] == x;
        if k < i { assert r[k] == x; } else { assert r[k - 1] == x; }
      }
    }
    if NoDuplicates(s) {
      forall a, b | 0 <= a < b < |r| ensures r[a] != r[b] {
        var a', b' := if a < i then a else a + 1, if b < i then b else b + 1;
        assert r[a] == s[a'] && r[b] == s[b'];
      }
      forall m | 0 <= m < |r| ensures r[m] != s[i] {
        if m < i { assert r[m] == s[m]; } else { assert r[m] == s[m + 1]; }
      }
    }
  }

  /** `delete`: removes `q` if present, keeping the order of the rest; otherwise nothing changes. */
  function Delete(ds: NaiveDataset, q: Quad): (r: Deleted)
    ensures r.removed <==> q in ds.quads
    ensures !r.removed ==> r.dataset == ds
    ensures forall x :: x != q ==> (x in r.dataset.quads <==> x in ds.quads)
    ensures ds.Valid() ==> r.dataset.Valid() && q !in r.dataset.quads
    ensures ds.Valid() && r.removed ==> Length(r.dataset) == Length(ds) - 1
  {
    match FirstIndex(ds.quads, q)
    case None => Deleted(ds, false)
    case Some(i) =>
      RemoveAtMembers(ds.quads, i);
      Deleted(NaiveDataset(RemoveAt(ds.quads, i)), true)
  }

  /** Delete after a push of an absent quad gives back the original dataset. */
  lemma DeleteUndoesPush(ds: NaiveDataset, q: Quad)
    requires q !in ds.quads
    ensures Delete(Push(ds, q).dataset, q) == Deleted(ds, true)
  {
    var after := Push(ds, q).dataset.quads;
    assert after[..|ds.quads|] == ds.quads;
  }

  /** A `match_term` pattern: `None` leaves a position unconstrained. */
  datatype Pattern = Pattern(subj: Option<Subject>, pred: Option<NamedNode>, obj: Option<Object>, graph: Option<NamedNode>)

  /** A quad matches when it equals every given constraint (conjunction, not disjunction). */
  predicate Matches(q: Quad, p: Pattern) {
    && (p.subj.Some? ==> q.subj == p.subj.value)
    && (p.pred.Some? ==> q.pred == p.pred.value)
    && (p.obj.Some? ==> q.obj == p.obj.value)
    && (p.graph.Some? ==> q.graph == p.graph)
  }

  /** The quads of `s` matching `p`, in their stored order. */
  function Filter(s: seq<Quad>, p: Pattern): (r: seq<Quad>)
    ensures forall x :: x in r <==> x in s && Matches(x, p)
    ensures |r| <= |s|
    ensures NoDuplicates(s) ==> NoDuplicates(r)
    decreases |s|
  {
    if |s| == 0 then []
    else
      var rest := Filter(s[1..], p);
      assert NoDuplicates(s) ==> s[0] !in s[1..];
      if Matches(s[0], p) then [s[0]] + rest else rest
  }

  /** `match_term(subject?, predicate?, object?, graph?)`. */
  function MatchTerm(ds: NaiveDataset, s: Option<Subject>, p: Option<NamedNode>, o: Option<Object>, g: Option<NamedNode>): (r: seq<Quad>)
    ensures forall x :: x in r <==> x in ds.quads && Matches(x, Pattern(s, p, o, g))
    ensures ds.Valid() ==> NoDuplicates(r)
  {
    Filter(ds.quads, Pattern(s, p, o, g))
  }

  /** With no constraint every stored quad is returned, in order. */
  lemma {:induction false} FilterAll(s: seq<Quad>)
    ensures Filter(s, Pattern(None, None, None, None)) == s
    decreases |s|
  {
    if |s| > 0 {
      FilterAll(s[1..]);
      assert [s[0]] + s[1..] == s;
    }
  }

  lemma MatchAllReturnsEverything(ds: NaiveDataset)
    ensures MatchTerm(ds, None, None, None, None) == ds.quads
    ensures ds.Valid() ==> |MatchTerm(ds, None, None, None, None)| == Length(ds)
  {
    FilterAll(ds.quads);
  }

  /**
   Constraints are conjoined: with (S1, P1, O1, G1) and (S1, P2, O2, default graph)
   stored and P1 != P2, matching subject S1 and predicate P2 returns only the second.
   */
  lemma MatchIsConjunctive(s1: Subject, p1: NamedNode, p2: NamedNode, o1: Object, o2: Object, g1: NamedNode)
    requires p1 != p2
    ensures
      var q1 := Quad(s1, p1, o1, Some(g1));
      var q2 := Quad(s1, p2, o2, None);
      MatchTerm(NaiveDataset([q1, q2]), Some(s1), Some(p2), None, None) == [q2]
  {
    var q1 := Quad(s1, p1, o1, Some(g1));
    var q2 := Quad(s1, p2, o2, None);
    var pat := Pattern(Some(s1), Some(p2), None, None);
    assert [q1, q2][1..] == [q2];
    assert [q2][1..] == [];
    assert Filter([q2], pat) == [q2];
  }

  /**
   The draft `push` as written. Its duplicate branch loops over the stored quads:
   an equal quad is evaluated and dropped (it is not returned), a different one
   panics, and when the loop runs out no quad has been produced.
   */
  datatype DraftPushOutcome = Stored(dataset: NaiveDataset, stored: Quad) | Panicked | Finished

  /** The draft's loop over `s`, looking for `q`. */
  function DraftScan(s: seq<Quad>, q: Quad): (r: DraftPushOutcome)
    ensures r.Panicked? <==> exists i :: 0 <= i < |s| && s[i] != q
    ensures r.Panicked? || r.Finished?
    decreases |s|
  {
    if |s| == 0 then Finished
    else if s[0] == q then
      var r := DraftScan(s[1..], q);
      assert (exists i :: 0 <= i < |s| && s[i] != q) <==> (exists i :: 0 <= i < |s[1..]| && s[1..][i] != q) by {
        if exists i :: 0 <= i < |s| && s[i] != q {
          var i :| 0 <= i < |s| && s[i] != q;
          assert s[1..][i - 1] == s[i];
        }
      }
      r
    else Panicked
  }

  function PushAsWritten(ds: NaiveDataset, q: Quad): (r: DraftPushOutcome)
    ensures q !in ds.quads ==> r == Stored(Push(ds, q).dataset, q)
    ensures q in ds.quads ==> !r.Stored?
    ensures q in ds.quads ==> (r.Panicked? <==> exists x :: x in ds.quads && x != q)
  {
    if q !in ds.quads then Stored(NaiveDataset(ds.quads + [q]), q)
    else
      var r := DraftScan(ds.quads, q);
      assert (exists x :: x in ds.quads && x != q) ==> r.Panicked? by {
        if exists x :: x in ds.quads && x != q {
          var x :| x in ds.quads && x != q;
          var i :| 0 <= i < |ds.quads| && ds.quads[i] == x;
        }
      }
      assert r.Panicked? ==> exists x :: x in ds.quads && x != q by {
        if r.Panicked? {
          var i :| 0 <= i < |ds.quads| && ds.quads[i] != q;
          assert ds.quads[i] in ds.quads;
        }
      }
      r
  }

  /**
   Pushing either of two stored quads again reaches the draft's panic, and pushing
   the only stored quad again produces nothing; `Push` returns the stored quad in
   every case.
   */
  lemma PushAsWrittenFailsOnDuplicate()
    ensures
      var a := Quad(Subject.BlankNode(BlankNodes.BlankNode("b1")), NamedNodes.NamedNode("https://foo.bar/baz"), Object.BlankNode(BlankNodes.BlankNode("b2")), None);
      var b := Quad(Subject.BlankNode(BlankNodes.BlankNode("b2")), NamedNodes.NamedNode("https://foo.bar/baz"), Object.BlankNode(BlankNodes.BlankNode("b1")), None);
      var ds := NaiveDataset([a, b]);
      && ds.Valid()
      && PushAsWritten(ds, a) == Panicked && Push(ds, a) == Pushed(ds, a)
      && PushAsWritten(ds, b) == Panicked && Push(ds, b) == Pushed(ds, b)
      && PushAsWritten(NaiveDataset([a]), a) == Finished && Push(NaiveDataset([a]), a) == Pushed(NaiveDataset([a]), a)
  {
    var a := Quad(Subject.BlankNode(BlankNodes.BlankNode("b1")), NamedNodes.NamedNode("https://foo.bar/baz"), Object.BlankNode(BlankNodes.BlankNode("b2")), None);
    var b := Quad(Subject.BlankNode(BlankNodes.BlankNode("b2")), NamedNodes.NamedNode("https://foo.bar/baz"), Object.BlankNode(BlankNodes.BlankNode("b1")), None);
    assert a != b by { assert a.subj.blankNode.localName[1] != b.subj.blankNode.localName[1]; }
    assert [a, b][0] == a && [a, b][1] == b;
    assert b in [a, b] && a != b;
  }

  /**
   The integration test: four quads about one named subject (an integer, a blank
   node, a boolean and a string object) and one about the blank node give length 5,
   whatever IRIs the parser produced for the subject and the predicates.
   */
  lemma BuildDatasetFromScratch(parse: Url.UrlParser, janeDoe: NamedNode, age: NamedNode, foo: NamedNode,
                                isAlive: NamedNode, jobTitle: NamedNode, bar: NamedNode)
    requires Literals.FixesXsdConstants(parse)
    ensures
      var b0 := BlankNodes.FromStr("b0");
      var qs := [
        New(janeDoe, Subjects.FromNamedNode, age, Literals.FromI32(parse, 23), Objects.FromLiteral, None).value,
        New(janeDoe, Subjects.FromNamedNode, foo, b0, Objects.FromBlankNode, None).value,
        New(janeDoe, Subjects.FromNamedNode, isAlive, Literals.FromBool(parse, true), Objects.FromLiteral, None).value,
        New(janeDoe, Subjects.FromNamedNode, jobTitle, Literals.FromStr(parse, "Professor"), Objects.FromLiteral, None).value,
        New(b0, Subjects.FromBlankNode, bar, Literals.FromI32(parse, 1), Objects.FromLiteral, None).value
      ];
      Length(PushAll(Empty(), qs)) == 5
  {
    var b0 := BlankNodes.FromStr("b0");
    var age23, alive, professor := Literals.FromI32(parse, 23), Literals.FromBool(parse, true), Literals.FromStr(parse, "Professor");
    assert age23.value[0] == '2' by { assert Decimal.NatToString(23) == "23"; }
    assert alive.value[0] == 't';
    assert professor.value[0] == 'P';
    var qs := [
      New(janeDoe, Subjects.FromNamedNode, age, age23, Objects.FromLiteral, None).value,
      New(janeDoe, Subjects.FromNamedNode, foo, b0, Objects.FromBlankNode, None).value,
      New(janeDoe, Subjects.FromNamedNode, isAlive, alive, Objects.FromLiteral, None).value,
      New(janeDoe, Subjects.FromNamedNode, jobTitle, professor, Objects.FromLiteral, None).value,
      New(b0, Subjects.FromBlankNode, bar, Literals.FromI32(parse, 1), Objects.FromLiteral, None).value
    ];
    FiveDistinct(qs);
    assert Empty().quads + qs == qs;
    PushAllDistinct(Empty(), qs);
  }

  /** Five quads that differ pairwise hold no duplicates. */
  lemma FiveDistinct(qs: seq<Quad>)
    requires |qs| == 5
    requires qs[0] != qs[1] && qs[0] != qs[2] && qs[0] != qs[3] && qs[0] != qs[4]
    requires qs[1] != qs[2] && qs[1] != qs[3] && qs[1] != qs[4]
    requires qs[2] != qs[3] && qs[2] != qs[4] && qs[3] != qs[4]
    ensures NoDuplicates(qs)
  {
  }
}
