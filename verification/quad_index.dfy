/**
 The indexed dataset the `QuadIndexedDataset` placeholder is heading for: a
 canonical set of quads plus one index per position, each mapping a term to the
 quads that hold it at that position. The indexes are derived state: they always
 equal what the canonical set determines. Quads in the default graph have no
 graph-index entry.
 */
module QuadIndex {
  import opened Wrappers
  import opened NamedNodes
  import opened Subjects
  import opened Objects
  import opened Quads
  import opened Datasets

  /** The term a quad holds at one position, if any. */
  function SubjectKey(q: Quad): Option<Subject> { Some(q.subj) }
  function PredicateKey(q: Quad): Option<NamedNode> { Some(q.pred) }
  function ObjectKey(q: Quad): Option<Object> { Some(q.obj) }
  function GraphKey(q: Quad): Option<NamedNode> { q.graph }

  /** The quads of `quads` holding `k` at the position `key` reads. */
  function BucketOf<K(==)>(quads: set<Quad>, key: Quad -> Option<K>, k: K): set<Quad> {
    set q | q in quads && key(q) == Some(k)
  }

  /** The terms occurring at the position `key` reads. */
  function KeysOf<K(==)>(quads: set<Quad>, key: Quad -> Option<K>): set<K> {
    set q | q in quads && key(q).Some? :: key(q).value
  }

  /** The index `quads` determines for one position. */
  function Derived<K(==, !new)>(quads: set<Quad>, key: Quad -> Option<K>): (ix: map<K, set<Quad>>)
    ensures forall k :: k in ix <==> BucketOf(quads, key, k) != {}
    ensures forall k :: k in ix ==> ix[k] == BucketOf(quads, key, k)
  {
    var ix := map k | k in KeysOf(quads, key) :: BucketOf(quads, key, k);
    assert forall k :: BucketOf(quads, key, k) != {} ==> k in KeysOf(quads, key) by {
      forall k | BucketOf(quads, key, k) != {} ensures k in KeysOf(quads, key) {
        var q :| q in BucketOf(quads, key, k);
        assert key(q).value == k;
      }
    }
    assert forall k :: k in KeysOf(quads, key) ==> BucketOf(quads, key, k) != {} by {
      forall k | k in KeysOf(quads, key) ensures BucketOf(quads, key, k) != {} {
        var q :| q in quads && key(q).Some? && key(q).value == k;
        assert q in BucketOf(quads, key, k);
      }
    }
    ix
  }

  /** The bucket an index holds for `k`; an absent key has an empty bucket. */
  function Bucket<K(==)>(ix: map<K, set<Quad>>, k: K): set<Quad> {
    if k in ix then ix[k] else {}
  }

  lemma BucketOfDerived<K(!new)>(quads: set<Quad>, key: Quad -> Option<K>, k: K)
    ensures Bucket(Derived(quads, key), k) == BucketOf(quads, key, k)
  {
  }

  /** Index maintenance on insertion of `q`. */
  function AddTo<K(==)>(ix: map<K, set<Quad>>, k: Option<K>, q: Quad): map<K, set<Quad>> {
    match k
    case None => ix
    case Some(k) => ix[k := Bucket(ix, k) + {q}]
  }

  /** Index maintenance on removal of `q`: an emptied bucket loses its key. */
  function RemoveFrom<K(==)>(ix: map<K, set<Quad>>, k: Option<K>, q: Quad): map<K, set<Quad>> {
    match k
    case None => ix
    case Some(k) =>
      var b := Bucket(ix, k) - {q};
      if b == {} then ix - {k} else ix[k := b]
  }

  /** Incremental insertion keeps an index equal to the derived one. */
  lemma DerivedInsert<K(!new)>(quads: set<Quad>, key: Quad -> Option<K>, q: Quad)
    ensures Derived(quads + {q}, key) == AddTo(Derived(quads, key), key(q), q)
  {
    var lhs := Derived(quads + {q}, key);
    var rhs := AddTo(Derived(quads, key), key(q), q);
    forall k ensures k in lhs <==> k in rhs {
      if key(q) == Some(k) {
        assert q in BucketOf(quads + {q}, key, k);
      } else {
        assert BucketOf(quads + {q}, key, k) == BucketOf(quads, key, k);
      }
    }
    forall k | k in lhs ensures lhs[k] == rhs[k] {
      if key(q) == Some(k) {
        assert BucketOf(quads + {q}, key, k) == BucketOf(quads, key, k) + {q};
      } else {
        assert BucketOf(quads + {q}, key, k) == BucketOf(quads, key, k);
      }
    }
  }

  /** Incremental removal keeps an index equal to the derived one. */
  lemma DerivedRemove<K(!new)>(quads: set<Quad>, key: Quad -> Option<K>, q: Quad)
    ensures Derived(quads - {q}, key) == RemoveFrom(Derived(quads, key), key(q), q)
  {
    var lhs := Derived(quads - {q}, key);
    var rhs := RemoveFrom(Derived(quads, key), key(q), q);
    forall k ensures k in lhs <==> k in rhs {
      if key(q) == Some(k) {
        assert BucketOf(quads - {q}, key, k) == BucketOf(quads, key, k) - {q};
      } else {
        assert BucketOf(quads - {q}, key, k) == BucketOf(quads, key, k);
      }
    }
    forall k | k in lhs ensures lhs[k] == rhs[k] {
      if key(q) == Some(k) {
        assert BucketOf(quads - {q}, key, k) == BucketOf(quads, key, k) - {q};
      } else {
        assert BucketOf(quads - {q}, key, k) == BucketOf(quads, key, k);
      }
    }
  }

  datatype IndexedDataset = IndexedDataset(
    quads: set<Quad>,
    bySubject: map<Subject, set<Quad>>,
    byPredicate: map<NamedNode, set<Quad>>,
    byObject: map<Object, set<Quad>>,
    byGraph: map<NamedNode, set<Quad>>)
  {
    /** Every index reflects exactly the canonical set. */
    predicate Consistent() {
      && bySubject == Derived(quads, SubjectKey)
      && byPredicate == Derived(quads, PredicateKey)
      && byObject == Derived(quads, ObjectKey)
      && byGraph == Derived(quads, GraphKey)
    }
  }

  /** The indexed dataset holding exactly `quads`. */
  function FromSet(quads: set<Quad>): (d: IndexedDataset)
    ensures d.Consistent() && d.quads == quads
  {
    IndexedDataset(quads, Derived(quads, SubjectKey), Derived(quads, PredicateKey),
                   Derived(quads, ObjectKey), Derived(quads, GraphKey))
  }

  /** The indexes are determined by the canonical set. */
  lemma ConsistentIsUnique(d1: IndexedDataset, d2: IndexedDataset)
    requires d1.Consistent() && d2.Consistent() && d1.quads == d2.quads
    ensures d1 == d2
  {
  }

  /** Graph-index entries exist only for quads with that named graph. */
  lemma GraphIndexOnlyNamedGraphs(d: IndexedDataset)
    requires d.Consistent()
    ensures forall g, q :: g in d.byGraph && q in d.byGraph[g] ==> q in d.quads && q.graph == Some(g)
    ensures forall q :: q in d.quads && q.graph.None? ==> forall g :: g in d.byGraph ==> q !in d.byGraph[g]
  {
  }

  /** `insert`: adds `q` to the set and to the bucket of each of its terms; true iff it was absent. */
  function Insert(d: IndexedDataset, q: Quad): (r: (IndexedDataset, bool))
    ensures r.0.quads == d.quads + {q}
    ensures r.1 <==> q !in d.quads
    ensures d.Consistent() ==> r.0.Consistent()
  {
    if q in d.quads then
      assert d.quads + {q} == d.quads;
      (d, false)
    else
      var r := IndexedDataset(d.quads + {q},
        AddTo(d.bySubject, SubjectKey(q), q), AddTo(d.byPredicate, PredicateKey(q), q),
        AddTo(d.byObject, ObjectKey(q), q), AddTo(d.byGraph, GraphKey(q), q));
      assert d.Consistent() ==> r.Consistent() by {
        if d.Consistent() {
          DerivedInsert(d.quads, SubjectKey, q);
          DerivedInsert(d.quads, PredicateKey, q);
          DerivedInsert(d.quads, ObjectKey, q);
          DerivedInsert(d.quads, GraphKey, q);
        }
      }
      (r, true)
  }

  /** `delete`: removes `q` from the set and from every bucket; true iff it was present. */
  function Delete(d: IndexedDataset, q: Quad): (r: (IndexedDataset, bool))
    ensures r.0.quads == d.quads - {q}
    ensures r.1 <==> q in d.quads
    ensures d.Consistent() ==> r.0.Consistent()
  {
    if q !in d.quads then
      assert d.quads - {q} == d.quads;
      (d, false)
    else
      var r := IndexedDataset(d.quads - {q},
        RemoveFrom(d.bySubject, SubjectKey(q), q), RemoveFrom(d.byPredicate, PredicateKey(q), q),
        RemoveFrom(d.byObject, ObjectKey(q), q), RemoveFrom(d.byGraph, GraphKey(q), q));
      assert d.Consistent() ==> r.Consistent() by {
        if d.Consistent() {
          DerivedRemove(d.quads, SubjectKey, q);
          DerivedRemove(d.quads, PredicateKey, q);
          DerivedRemove(d.quads, ObjectKey, q);
          DerivedRemove(d.quads, GraphKey, q);
        }
      }
      (r, true)
  }

  /** `has`: looked up through the subject index. */
  function Has(d: IndexedDataset, q: Quad): (b: bool)
    requires d.Consistent()
    ensures b <==> q in d.quads
  {
    BucketOfDerived(d.quads, SubjectKey, q.subj);
    q in Bucket(d.bySubject, q.subj)
  }

  /** `len`: the size of the canonical set, zero exactly when no quad is stored. */
  function Len(d: IndexedDataset): (n: nat)
    ensures n == 0 <==> d.quads == {}
  {
    |d.quads|
  }

  /** The bucket a constraint selects at one position; None when the position is unconstrained. */
  function Select<K(==)>(ix: map<K, set<Quad>>, c: Option<K>): Option<set<Quad>> {
    match c
    case None => None
    case Some(k) => Some(Bucket(ix, k))
  }

  /** Intersection of candidate sets, where None stands for "no constraint yet". */
  function Meet(a: Option<set<Quad>>, b: Option<set<Quad>>): (r: Option<set<Quad>>)
    ensures r.None? <==> a.None? && b.None?
    ensures r.Some? ==> forall x :: x in r.value <==> (a.Some? ==> x in a.value) && (b.Some? ==> x in b.value)
  {
    match (a, b)
    case (None, None) => None
    case (Some(x), None) => Some(x)
    case (None, Some(y)) => Some(y)
    case (Some(x), Some(y)) => Some(x * y)
  }

  /** A selected bucket holds exactly the stored quads meeting that one constraint. */
  lemma SelectDerived<K(!new)>(quads: set<Quad>, key: Quad -> Option<K>, c: Option<K>, x: Quad)
    ensures Select(Derived(quads, key), c).None? <==> c.None?
    ensures c.Some? ==> (x in Select(Derived(quads, key), c).value <==> x in quads && key(x) == c)
  {
  }

  /** The intersection of the buckets selected by the given terms; None when no term is given. */
  function Candidates(d: IndexedDataset, s: Option<Subject>, p: Option<NamedNode>, o: Option<Object>, g: Option<NamedNode>): (r: Option<set<Quad>>)
    ensures r.None? <==> s.None? && p.None? && o.None? && g.None?
    ensures r.Some? && s.Some? ==> r.value <= Bucket(d.bySubject, s.value)
    ensures r.Some? && p.Some? ==> r.value <= Bucket(d.byPredicate, p.value)
    ensures r.Some? && o.Some? ==> r.value <= Bucket(d.byObject, o.value)
    ensures r.Some? && g.Some? ==> r.value <= Bucket(d.byGraph, g.value)
  {
    Meet(Meet(Select(d.bySubject, s), Select(d.byPredicate, p)), Meet(Select(d.byObject, o), Select(d.byGraph, g)))
  }

  /** In a consistent dataset the candidates are exactly the stored quads that match. */
  lemma CandidatesExact(d: IndexedDataset, s: Option<Subject>, p: Option<NamedNode>, o: Option<Object>, g: Option<NamedNode>, x: Quad)
    requires d.Consistent()
    ensures Candidates(d, s, p, o, g).None? <==> s.None? && p.None? && o.None? && g.None?
    ensures Candidates(d, s, p, o, g).Some? ==> (x in Candidates(d, s, p, o, g).value <==> x in d.quads && Matches(x, Pattern(s, p, o, g)))
  {
    SubjectPredicateExact(d, s, p, x);
    ObjectGraphExact(d, o, g, x);
    MeetExact(Select(d.bySubject, s), Select(d.byPredicate, p), Select(d.byObject, o), Select(d.byGraph, g), d.quads, x, Pattern(s, p, o, g));
  }

  /** Combining the two halves of a pattern's candidates. */
  lemma MeetExact(sb: Option<set<Quad>>, pb: Option<set<Quad>>, ob: Option<set<Quad>>, gb: Option<set<Quad>>, quads: set<Quad>, x: Quad, pat: Pattern)
    requires var c := Meet(sb, pb);
      && (c.None? <==> pat.subj.None? && pat.pred.None?)
      && (c.Some? ==> (x in c.value <==> x in quads && (pat.subj.Some? ==> x.subj == pat.subj.value) && (pat.pred.Some? ==> x.pred == pat.pred.value)))
    requires var c := Meet(ob, gb);
      && (c.None? <==> pat.obj.None? && pat.graph.None?)
      && (c.Some? ==> (x in c.value <==> x in quads && (pat.obj.Some? ==> x.obj == pat.obj.value) && (pat.graph.Some? ==> x.graph == pat.graph)))
    ensures Meet(Meet(sb, pb), Meet(ob, gb)).None? <==> pat.subj.None? && pat.pred.None? && pat.obj.None? && pat.graph.None?
    ensures Meet(Meet(sb, pb), Meet(ob, gb)).Some? ==> (x in Meet(Meet(sb, pb), Meet(ob, gb)).value <==> x in quads && Matches(x, pat))
  {
    MeetMember(Meet(sb, pb), Meet(ob, gb), x);
  }

  /** Membership in a meet, for one element. */
  lemma MeetMember(a: Option<set<Quad>>, b: Option<set<Quad>>, x: Quad)
    ensures Meet(a, b).Some? ==> (x in Meet(a, b).value <==> (a.Some? ==> x in a.value) && (b.Some? ==> x in b.value))
  {
  }

  lemma SubjectPredicateExact(d: IndexedDataset, s: Option<Subject>, p: Option<NamedNode>, x: Quad)
    requires d.Consistent()
    ensures var c := Meet(Select(d.bySubject, s), Select(d.byPredicate, p));
      && (c.None? <==> s.None? && p.None?)
      && (c.Some? ==> (x in c.value <==> x in d.quads && (s.Some? ==> x.subj == s.value) && (p.Some? ==> x.pred == p.value)))
  {
    SelectSubject(d, s, x);
    SelectPredicate(d, p, x);
  }

  lemma ObjectGraphExact(d: IndexedDataset, o: Option<Object>, g: Option<NamedNode>, x: Quad)
    requires d.Consistent()
    ensures var c := Meet(Select(d.byObject, o), Select(d.byGraph, g));
      && (c.None? <==> o.None? && g.None?)
      && (c.Some? ==> (x in c.value <==> x in d.quads && (o.Some? ==> x.obj == o.value) && (g.Some? ==> x.graph == g)))
  {
    SelectObject(d, o, x);
    SelectGraph(d, g, x);
  }

  lemma SelectSubject(d: IndexedDataset, s: Option<Subject>, x: Quad)
    requires d.Consistent()
    ensures Select(d.bySubject, s).None? <==> s.None?
    ensures s.Some? ==> (x in Select(d.bySubject, s).value <==> x in d.quads && x.subj == s.value)
  {
    SelectDerived(d.quads, SubjectKey, s, x);
  }

  lemma SelectPredicate(d: IndexedDataset, p: Option<NamedNode>, x: Quad)
    requires d.Consistent()
    ensures Select(d.byPredicate, p).None? <==> p.None?
    ensures p.Some? ==> (x in Select(d.byPredicate, p).value <==> x in d.quads && x.pred == p.value)
  {
    SelectDerived(d.quads, PredicateKey, p, x);
  }

  lemma SelectObject(d: IndexedDataset, o: Option<Object>, x: Quad)
    requires d.Consistent()
    ensures Select(d.byObject, o).None? <==> o.None?
    ensures o.Some? ==> (x in Select(d.byObject, o).value <==> x in d.quads && x.obj == o.value)
  {
    SelectDerived(d.quads, ObjectKey, o, x);
  }

  lemma SelectGraph(d: IndexedDataset, g: Option<NamedNode>, x: Quad)
    requires d.Consistent()
    ensures Select(d.byGraph, g).None? <==> g.None?
    ensures g.Some? ==> (x in Select(d.byGraph, g).value <==> x in d.quads && x.graph == g)
  {
    SelectDerived(d.quads, GraphKey, g, x);
  }

  /**
   `match_term` through the indexes: with no constraint every quad; otherwise the
   intersection of the buckets of the given terms, empty as soon as one term has
   no bucket.
   */
  function IndexedMatch(d: IndexedDataset, s: Option<Subject>, p: Option<NamedNode>, o: Option<Object>, g: Option<NamedNode>): (r: set<Quad>)
    ensures d.Consistent() ==> r == set q | q in d.quads && Matches(q, Pattern(s, p, o, g))
  {
    var c := Candidates(d, s, p, o, g);
    var r := if c.None? then d.quads else c.value;
    assert d.Consistent() ==> r == set q | q in d.quads && Matches(q, Pattern(s, p, o, g)) by {
      if d.Consistent() {
        forall x ensures x in r <==> x in d.quads && Matches(x, Pattern(s, p, o, g)) {
          CandidatesExact(d, s, p, o, g, x);
        }
      }
    }
    r
  }

  /** Every stored quad is found by each of its own terms used as the only constraint. */
  lemma EachQuadDiscoverable(d: IndexedDataset, q: Quad)
    requires d.Consistent() && q in d.quads
    ensures q in IndexedMatch(d, Some(q.subj), None, None, None)
    ensures q in IndexedMatch(d, None, Some(q.pred), None, None)
    ensures q in IndexedMatch(d, None, None, Some(q.obj), None)
    ensures q.graph.Some? ==> q in IndexedMatch(d, None, None, None, q.graph)
  {
  }

  /** The indexed dataset that holds what a naive dataset holds. */
  function Abstraction(ds: NaiveDataset): (d: IndexedDataset)
    ensures d.quads == Elements(ds.quads)
    ensures d.Consistent()
  {
    FromSet(Elements(ds.quads))
  }

  /** `push` on the naive dataset is `insert` on the indexed one, with the same "newly added" answer. */
  lemma PushRefinesInsert(ds: NaiveDataset, q: Quad)
    ensures Abstraction(Push(ds, q).dataset) == Insert(Abstraction(ds), q).0
    ensures Insert(Abstraction(ds), q).1 <==> q !in ds.quads
  {
    ConsistentIsUnique(Abstraction(Push(ds, q).dataset), Insert(Abstraction(ds), q).0);
  }

  /** `has` on the naive dataset answers as `has` on the indexed one. */
  lemma HasRefines(ds: NaiveDataset, q: Quad)
    ensures Datasets.Has(ds, q) == Has(Abstraction(ds), q)
  {
  }

  /** `delete` on a valid naive dataset is `delete` on the indexed one. */
  lemma DeleteRefinesDelete(ds: NaiveDataset, q: Quad)
    requires ds.Valid()
    ensures Abstraction(Datasets.Delete(ds, q).dataset) == Delete(Abstraction(ds), q).0
    ensures Datasets.Delete(ds, q).removed == Delete(Abstraction(ds), q).1
  {
    var after := Datasets.Delete(ds, q).dataset;
    assert Elements(after.quads) == Elements(ds.quads) - {q};
    ConsistentIsUnique(Abstraction(after), Delete(Abstraction(ds), q).0);
  }

  /** Both matchers return the same quads, and the lengths agree. */
  lemma MatchRefines(ds: NaiveDataset, s: Option<Subject>, p: Option<NamedNode>, o: Option<Object>, g: Option<NamedNode>)
    ensures IndexedMatch(Abstraction(ds), s, p, o, g) == Elements(MatchTerm(ds, s, p, o, g))
    ensures ds.Valid() ==> Len(Abstraction(ds)) == Length(ds)
  {
    if ds.Valid() {
      LengthCountsDistinct(ds);
    }
  }
}
