/** The built knowledge base (`KB` in data.py after `__init__`): one table holding both
    entities and concepts, and the indices the operations read. `Valid` is what
    construction guarantees and what every operation relies on. */
module KnowledgeBase {
  import opened Seqs
  import opened Values
  import Hierarchy
  import Indices

  /** Qualifier key -> its values, for one attribute or relation fact. */
  type Qualifiers = map<string, seq<Value>>

  datatype Attr = Attr(key: string, value: Value, qualifiers: Qualifiers)

  datatype Rel = Rel(relation: string, direction: string, obj: string, qualifiers: Qualifiers)

  /** One row of the table: an entity (isA = instanceOf) or a concept (isA = subclassOf). */
  datatype Record = Record(name: string, isA: seq<string>, attributes: seq<Attr>, relations: seq<Rel>)

  datatype KB = KB(
    ids: seq<string>,                                       // table keys, in insertion order
    table: map<string, Record>,
    nameToId: map<string, seq<string>>,
    conceptToEntity: map<string, set<string>>,
    keyType: map<string, string>,
    attrIndex: Indices.FlatIndex<(string, string)>,          // (key, id) -> attribute positions
    relIndex: Indices.FlatIndex<((string, string), string)>, // ((relation, direction), id) -> relation positions
    forwardIndex: Indices.FlatIndex<(string, string)>        // (subject, object) -> relation positions
  )

  /** The hierarchy as the table's `isA` lists. */
  function ParentsOf(table: map<string, Record>): (g: Hierarchy.Parents)
    ensures g.Keys == table.Keys
  {
    map id | id in table :: table[id].isA
  }

  // ---------------------------------------------------------------------------
  // Lookups with the defaults of the source's `defaultdict`s

  /** `name_to_id[name]`: an unknown name reads as `[]`. */
  function NameLookup(kb: KB, name: string): seq<string> {
    if name in kb.nameToId then kb.nameToId[name] else []
  }

  /** `concept_to_entity.get(c, [])`, as a set. */
  function ConceptMembers(kb: KB, c: string): set<string> {
    if c in kb.conceptToEntity then kb.conceptToEntity[c] else {}
  }

  /** `attribute_inv_index[key][id]`. */
  function AttrIndex(kb: KB, key: string, id: string): seq<nat> {
    Indices.Get(kb.attrIndex, (key, id))
  }

  /** `relation_inv_index[(relation, direction)][id]`. */
  function RelIndex(kb: KB, relation: string, direction: string, id: string): seq<nat> {
    Indices.Get(kb.relIndex, ((relation, direction), id))
  }

  /** `forward_relation_index[(subject, object)]`. */
  function ForwardIndex(kb: KB, subject: string, obj: string): seq<nat> {
    Indices.Get(kb.forwardIndex, (subject, obj))
  }

  /** The reference for `name_to_id`: the ids carrying `name`, in table order. */
  function IdsNamed(ids: seq<string>, table: map<string, Record>, name: string): seq<string>
    requires forall e :: e in ids ==> e in table
  {
    if |ids| == 0 then []
    else
      assert forall e :: e in ids[1..] ==> e in ids;
      (if table[ids[0]].name == name then [ids[0]] else []) + IdsNamed(ids[1..], table, name)
  }

  // ---------------------------------------------------------------------------
  // The invariant construction establishes

  ghost predicate TableExact(kb: KB) {
    Distinct(kb.ids) && forall e :: e in kb.ids <==> e in kb.table
  }

  ghost predicate NamesExact(kb: KB)
    requires TableExact(kb)
  {
    forall name :: NameLookup(kb, name) == IdsNamed(kb.ids, kb.table, name)
  }

  ghost predicate ConceptsExact(kb: KB) {
    forall c, e :: e in ConceptMembers(kb, c) <==>
      e in kb.table && c in Hierarchy.AllConcepts(ParentsOf(kb.table), e)
  }

  ghost predicate AttrIndexExact(kb: KB) {
    forall key, e ::
      Indices.StrictlyAscending(AttrIndex(kb, key, e)) &&
      forall i: nat :: i in AttrIndex(kb, key, e) <==>
        e in kb.table && i < |kb.table[e].attributes| && kb.table[e].attributes[i].key == key
  }

  ghost predicate RelIndexExact(kb: KB) {
    forall relation, direction, e ::
      Indices.StrictlyAscending(RelIndex(kb, relation, direction, e)) &&
      forall i: nat :: i in RelIndex(kb, relation, direction, e) <==>
        e in kb.table && i < |kb.table[e].relations|
        && kb.table[e].relations[i].relation == relation
        && kb.table[e].relations[i].direction == direction
  }

  ghost predicate ForwardIndexExact(kb: KB) {
    forall s, o ::
      Indices.StrictlyAscending(ForwardIndex(kb, s, o)) &&
      forall i: nat :: i in ForwardIndex(kb, s, o) <==>
        s in kb.table && i < |kb.table[s].relations|
        && kb.table[s].relations[i].direction == "forward"
        && kb.table[s].relations[i].obj == o
  }

  ghost predicate Valid(kb: KB) {
    && TableExact(kb)
    && NamesExact(kb)
    && ConceptsExact(kb)
    && AttrIndexExact(kb)
    && RelIndexExact(kb)
    && ForwardIndexExact(kb)
    && "year" !in kb.keyType.Values
  }

  lemma AttrIndexFits(kb: KB, key: string, e: string)
    requires Valid(kb)
    ensures |AttrIndex(kb, key, e)| > 0 ==> e in kb.table
    ensures forall j :: 0 <= j < |AttrIndex(kb, key, e)| ==> AttrIndex(kb, key, e)[j] < |kb.table[e].attributes|
  {
    var idx := AttrIndex(kb, key, e);
    if |idx| > 0 {
      assert idx[0] in idx;
    }
    forall j | 0 <= j < |idx| ensures idx[j] < |kb.table[e].attributes| {
      assert idx[j] in idx;
    }
  }

  lemma RelIndexFits(kb: KB, relation: string, direction: string, e: string)
    requires Valid(kb)
    ensures |RelIndex(kb, relation, direction, e)| > 0 ==> e in kb.table
    ensures forall j :: 0 <= j < |RelIndex(kb, relation, direction, e)| ==> RelIndex(kb, relation, direction, e)[j] < |kb.table[e].relations|
  {
    var idx := RelIndex(kb, relation, direction, e);
    if |idx| > 0 {
      assert idx[0] in idx;
    }
    forall j | 0 <= j < |idx| ensures idx[j] < |kb.table[e].relations| {
      assert idx[j] in idx;
    }
  }

  lemma ForwardIndexFits(kb: KB, s: string, o: string)
    requires Valid(kb)
    ensures |ForwardIndex(kb, s, o)| > 0 ==> s in kb.table
    ensures forall j :: 0 <= j < |ForwardIndex(kb, s, o)| ==> ForwardIndex(kb, s, o)[j] < |kb.table[s].relations|
  {
    var idx := ForwardIndex(kb, s, o);
    if |idx| > 0 {
      assert idx[0] in idx;
    }
    forall j | 0 <= j < |idx| ensures idx[j] < |kb.table[s].relations| {
      assert idx[j] in idx;
    }
  }

  /** The attributes an index lists for an entity, in index order. */
  function IndexedAttrs(kb: KB, key: string, e: string): (r: seq<Attr>)
    requires Valid(kb)
    ensures |r| == |AttrIndex(kb, key, e)|
    ensures forall j :: 0 <= j < |r| ==> r[j].key == key
    ensures forall a :: a in r <==> e in kb.table && a in kb.table[e].attributes && a.key == key
  {
    var idx := AttrIndex(kb, key, e);
    AttrIndexFits(kb, key, e);
    var r := seq(|idx|, j requires 0 <= j < |idx| => kb.table[e].attributes[idx[j]]);
    assert forall a :: e in kb.table && a in kb.table[e].attributes && a.key == key ==> a in r by {
      forall a | e in kb.table && a in kb.table[e].attributes && a.key == key
        ensures a in r
      {
        var i :| 0 <= i < |kb.table[e].attributes| && kb.table[e].attributes[i] == a;
        assert (i as nat) in idx;
        var j :| 0 <= j < |idx| && idx[j] == i;
        assert r[j] == a;
      }
    }
    r
  }

  /** The relations an index lists for an entity under (relation, direction), in index order. */
  function IndexedRels(kb: KB, relation: string, direction: string, e: string): (r: seq<Rel>)
    requires Valid(kb)
    ensures |r| == |RelIndex(kb, relation, direction, e)|
    ensures forall j :: 0 <= j < |r| ==> r[j].relation == relation && r[j].direction == direction
    ensures forall x :: x in r <==>
      e in kb.table && x in kb.table[e].relations && x.relation == relation && x.direction == direction
  {
    var idx := RelIndex(kb, relation, direction, e);
    RelIndexFits(kb, relation, direction, e);
    var r := seq(|idx|, j requires 0 <= j < |idx| => kb.table[e].relations[idx[j]]);
    assert forall x :: e in kb.table && x in kb.table[e].relations && x.relation == relation && x.direction == direction ==> x in r by {
      forall x | e in kb.table && x in kb.table[e].relations && x.relation == relation && x.direction == direction
        ensures x in r
      {
        var i :| 0 <= i < |kb.table[e].relations| && kb.table[e].relations[i] == x;
        assert (i as nat) in idx;
        var j :| 0 <= j < |idx| && idx[j] == i;
        assert r[j] == x;
      }
    }
    r
  }

  /** The forward relations from `s` to `o`, in the order the forward index lists them. */
  function ForwardRels(kb: KB, s: string, o: string): (r: seq<Rel>)
    requires Valid(kb)
    ensures |r| == |ForwardIndex(kb, s, o)|
    ensures forall j :: 0 <= j < |r| ==> r[j].direction == "forward" && r[j].obj == o
    ensures forall x :: x in r <==> s in kb.table && x in kb.table[s].relations && x.direction == "forward" && x.obj == o
  {
    var idx := ForwardIndex(kb, s, o);
    ForwardIndexFits(kb, s, o);
    var r := seq(|idx|, j requires 0 <= j < |idx| => kb.table[s].relations[idx[j]]);
    assert forall x :: s in kb.table && x in kb.table[s].relations && x.direction == "forward" && x.obj == o ==> x in r by {
      forall x | s in kb.table && x in kb.table[s].relations && x.direction == "forward" && x.obj == o
        ensures x in r
      {
        var i :| 0 <= i < |kb.table[s].relations| && kb.table[s].relations[i] == x;
        assert (i as nat) in idx;
        var j :| 0 <= j < |idx| && idx[j] == i;
        assert r[j] == x;
      }
    }
    r
  }

  /** `name_to_id[name]` holds each id named `name` once, and nothing else. */
  lemma {:induction false} IdsNamedMembers(ids: seq<string>, table: map<string, Record>, name: string)
    requires forall e :: e in ids ==> e in table
    ensures forall e :: e in IdsNamed(ids, table, name) <==> e in ids && table[e].name == name
    ensures Distinct(ids) ==> Distinct(IdsNamed(ids, table, name))
  {
    if |ids| > 0 {
      assert forall e :: e in ids <==> e == ids[0] || e in ids[1..];
      IdsNamedMembers(ids[1..], table, name);
      if Distinct(ids) {
        assert Distinct(ids[1..]);
        assert ids[0] !in ids[1..];
      }
    }
  }
}
