/** Retrieval, concept filtering, set algebra, counting and naming (`FindAll`, `Find`,
    `FilterConcept`, `And`, `Or`, `Count`, `QueryName` in kopl.py). Results that the
    source builds through a Python set are duplicate-free and specified by membership. */
module Retrieval {
  import opened Results
  import opened Seqs
  import opened KnowledgeBase
  import opened Registers
  import Hierarchy

  /** Every id of the table, concepts included. */
  function FindAll(kb: KB): (r: Entities)
    requires Valid(kb)
    ensures Distinct(r.ids) && r.facts.None?
    ensures forall e :: e in r.ids <==> e in kb.table
  {
    Entities(kb.ids, None)
  }

  /** The ids named `name`; an unknown name gives the empty set rather than an error. */
  function Find(kb: KB, name: string): (r: Entities)
    requires Valid(kb)
    ensures Distinct(r.ids) && r.facts.None?
    ensures forall e :: e in r.ids <==> e in kb.table && kb.table[e].name == name
  {
    IdsNamedMembers(kb.ids, kb.table, name);
    Entities(NameLookup(kb, name), None)
  }

  /** `e` has an ancestor, entity or concept, whose name is `conceptName`. */
  ghost predicate InstanceOfNamed(kb: KB, e: string, conceptName: string) {
    exists c :: c in kb.table && kb.table[c].name == conceptName
      && c in Hierarchy.AllConcepts(ParentsOf(kb.table), e)
  }

  /** The union of `concept_to_entity` over the given concept ids. */
  function MembersOfAll(kb: KB, cs: seq<string>): (r: set<string>)
    ensures forall x :: x in r <==> exists c :: c in cs && x in ConceptMembers(kb, c)
  {
    if |cs| == 0 then {}
    else
      var n := |cs| - 1;
      assert forall c :: c in cs <==> c in cs[..n] || c == cs[n];
      MembersOfAll(kb, cs[..n]) + ConceptMembers(kb, cs[n])
  }

  /** The input ids that are instances of some id named `conceptName`. */
  function FilterConcept(kb: KB, input: Entities, conceptName: string): (r: Entities)
    requires Valid(kb)
    ensures Distinct(r.ids) && r.facts.None?
    ensures forall e :: e in r.ids <==> e in input.ids && e in kb.table && InstanceOfNamed(kb, e, conceptName)
  {
    var named := NameLookup(kb, conceptName);
    IdsNamedMembers(kb.ids, kb.table, conceptName);
    var members := MembersOfAll(kb, named);
    assert forall e :: e in members <==> e in kb.table && InstanceOfNamed(kb, e, conceptName) by {
      forall e ensures e in members <==> e in kb.table && InstanceOfNamed(kb, e, conceptName) {
        if e in members {
          var c :| c in named && e in ConceptMembers(kb, c);
          assert c in kb.table && kb.table[c].name == conceptName;
        }
        if e in kb.table && InstanceOfNamed(kb, e, conceptName) {
          var c :| c in kb.table && kb.table[c].name == conceptName
            && c in Hierarchy.AllConcepts(ParentsOf(kb.table), e);
          assert c in named && e in ConceptMembers(kb, c);
        }
      }
    }
    Entities(Dedup(Keep(input.ids, members)), None)
  }

  /** Intersection of the two id lists. */
  function And(l: Entities, r: Entities): (o: Entities)
    ensures Distinct(o.ids) && o.facts.None?
    ensures forall e :: e in o.ids <==> e in l.ids && e in r.ids
  {
    Entities(Dedup(Keep(l.ids, Elems(r.ids))), None)
  }

  /** Union of the two id lists. */
  function Or(l: Entities, r: Entities): (o: Entities)
    ensures Distinct(o.ids) && o.facts.None?
    ensures forall e :: e in o.ids <==> e in l.ids || e in r.ids
  {
    Entities(Dedup(l.ids + r.ids), None)
  }

  /** The raw length of the id list; for a duplicate-free list, the size of the set. */
  function Count(input: Entities): (n: int)
    ensures n == |input.ids|
    ensures n >= |Elems(input.ids)|
    ensures Distinct(input.ids) ==> n == |Elems(input.ids)|
  {
    ElemsCard(input.ids);
    |input.ids|
  }

  /** The name of every input id, in order; an id outside the table raises `KeyError`. */
  function QueryName(kb: KB, input: Entities): (r: Result<seq<string>>)
    ensures r.Ok? <==> forall i :: 0 <= i < |input.ids| ==> input.ids[i] in kb.table
    ensures r.Err? ==> r.error == KeyNotFound
    ensures r.Ok? ==> (|r.value| == |input.ids|
      && forall i :: 0 <= i < |input.ids| ==> r.value[i] == kb.table[input.ids[i]].name)
  {
    if forall i :: 0 <= i < |input.ids| ==> input.ids[i] in kb.table then
      Ok(seq(|input.ids|, i requires 0 <= i < |input.ids| => kb.table[input.ids[i]].name))
    else Err(KeyNotFound)
  }

  // ---------------------------------------------------------------------------
  // Laws of the set operations

  lemma AndCommutative(a: Entities, b: Entities)
    ensures Elems(And(a, b).ids) == Elems(And(b, a).ids)
  {
  }

  lemma OrCommutative(a: Entities, b: Entities)
    ensures Elems(Or(a, b).ids) == Elems(Or(b, a).ids)
  {
  }

  lemma AndOrIdempotent(a: Entities)
    ensures Elems(And(a, a).ids) == Elems(a.ids)
    ensures Elems(Or(a, a).ids) == Elems(a.ids)
  {
  }

  lemma {:induction false} UnionIntersectionCard(a: set<string>, b: set<string>)
    ensures |a + b| + |a * b| == |a| + |b|
    decreases |a|
  {
    if a != {} {
      var x :| x in a;
      UnionIntersectionCard(a - {x}, b);
      if x in b {
        assert a + b == (a - {x}) + b;
        assert a * b == ((a - {x}) * b) + {x};
      } else {
        assert a + b == ((a - {x}) + b) + {x};
        assert a * b == (a - {x}) * b;
      }
    }
  }

  /** Counting the union and the intersection of two registers counts each side once:
      |A ∪ B| + |A ∩ B| = |A| + |B| over the sets of ids. */
  lemma CountInclusionExclusion(a: Entities, b: Entities)
    ensures Count(Or(a, b)) + Count(And(a, b)) == |Elems(a.ids)| + |Elems(b.ids)|
  {
    assert Elems(Or(a, b).ids) == Elems(a.ids) + Elems(b.ids);
    assert Elems(And(a, b).ids) == Elems(a.ids) * Elems(b.ids);
    UnionIntersectionCard(Elems(a.ids), Elems(b.ids));
  }

  /** Naming the result of `Find(name)` gives back `name`, once per id carrying it. */
  lemma FindThenQueryName(kb: KB, name: string)
    requires Valid(kb)
    ensures QueryName(kb, Find(kb, name)).Ok?
    ensures forall i :: 0 <= i < |Find(kb, name).ids| ==> QueryName(kb, Find(kb, name)).value[i] == name
  {
    var ids := Find(kb, name).ids;
    assert forall i :: 0 <= i < |ids| ==> ids[i] in ids;
  }

  /** A concept filter keeps only part of its input and repeats nothing. */
  lemma FilterConceptNarrows(kb: KB, input: Entities, conceptName: string)
    requires Valid(kb)
    ensures Elems(FilterConcept(kb, input, conceptName).ids) <= Elems(input.ids)
    ensures Count(FilterConcept(kb, input, conceptName)) <= |Elems(input.ids)|
  {
    var r := FilterConcept(kb, input, conceptName);
    assert Elems(r.ids) <= Elems(input.ids);
    SubsetCard(Elems(r.ids), Elems(input.ids));
  }

  lemma {:induction false} SubsetCard(a: set<string>, b: set<string>)
    requires a <= b
    ensures |a| <= |b|
    decreases |a|
  {
    if a != {} {
      var x :| x in a;
      SubsetCard(a - {x}, b - {x});
    }
  }
}
