/** Building the knowledge base from raw records (`KB.__init__` in data.py): merge
    concepts and entities into one table, mirror entity->concept relations onto the
    concepts, parse the raw values, and build every index the operations read. */
module Loading {
  import opened Results
  import opened Seqs
  import opened Values
  import opened Literals
  import opened KnowledgeBase
  import Hierarchy
  import Indices

  // ---------------------------------------------------------------------------
  // Raw records, as the loader hands them over

  /** A raw value: its `type` label, its `value` as text (`str(value["value"])`),
      and for quantities the number already read by `float` and the unit. */
  datatype RawValue = RawValue(kind: string, text: string, amount: real, unit: string)

  type RawQualifiers = map<string, seq<RawValue>>

  datatype RawAttr = RawAttr(key: string, value: RawValue, qualifiers: RawQualifiers)

  datatype RawRel = RawRel(relation: string, direction: string, obj: string, qualifiers: RawQualifiers)

  datatype RawConcept = RawConcept(id: string, name: string, subclassOf: seq<string>)

  datatype RawEntity = RawEntity(id: string, name: string, instanceOf: seq<string>,
                                 attributes: seq<RawAttr>, relations: seq<RawRel>)

  datatype RawKB = RawKB(concepts: seq<RawConcept>, entities: seq<RawEntity>)

  /** A merged table row before its values are parsed. */
  datatype RawRecord = RawRecord(name: string, isA: seq<string>, attributes: seq<RawAttr>, relations: seq<RawRel>)

  function ConceptIds(cs: seq<RawConcept>): (r: seq<string>)
    ensures |r| == |cs| && forall i :: 0 <= i < |cs| ==> r[i] == cs[i].id
  {
    seq(|cs|, i requires 0 <= i < |cs| => cs[i].id)
  }

  function EntityIds(es: seq<RawEntity>): (r: seq<string>)
    ensures |r| == |es| && forall i :: 0 <= i < |es| ==> r[i] == es[i].id
  {
    seq(|es|, i requires 0 <= i < |es| => es[i].id)
  }

  /** The merged table's key order: concepts first, then entities. */
  function TableIds(raw: RawKB): seq<string> {
    ConceptIds(raw.concepts) + EntityIds(raw.entities)
  }

  /** Identifiers are unique across concepts and entities. */
  ghost predicate WellFormed(raw: RawKB) {
    Distinct(TableIds(raw))
  }

  // ---------------------------------------------------------------------------
  // Mirroring entity -> concept relations onto the concept

  /** The copy a concept receives of entity `e`'s relation: direction flipped, `e` as object. */
  function Mirror(e: string, rel: RawRel): (m: RawRel)
    ensures m.relation == rel.relation && m.obj == e && m.qualifiers == rel.qualifiers
    ensures rel.direction == "backward" <==> m.direction == "forward"
  {
    RawRel(rel.relation, if rel.direction == "backward" then "forward" else "backward", e, rel.qualifiers)
  }

  function RelsOf(m: map<string, seq<RawRel>>, c: string): seq<RawRel> {
    if c in m then m[c] else []
  }

  ghost predicate AllDistinct(m: map<string, seq<RawRel>>) {
    forall c :: c in m ==> Distinct(m[c])
  }

  /** `if rel_info_for_con not in relations: relations.append(rel_info_for_con)`. */
  function AddMirror(m: map<string, seq<RawRel>>, concepts: set<string>, e: string, rel: RawRel)
    : (r: map<string, seq<RawRel>>)
    ensures forall c, x :: x in RelsOf(r, c) <==>
      x in RelsOf(m, c) || (c in concepts && rel.obj == c && x == Mirror(e, rel))
    ensures AllDistinct(m) ==> AllDistinct(r)
  {
    if rel.obj in concepts && Mirror(e, rel) !in RelsOf(m, rel.obj) then
      m[rel.obj := RelsOf(m, rel.obj) + [Mirror(e, rel)]]
    else m
  }

  /** True when `x` is the mirror of the `j`-th relation of `e`, pointing at `c`. */
  ghost predicate MirrorOfSome(e: string, rels: seq<RawRel>, c: string, x: RawRel) {
    exists j :: 0 <= j < |rels| && rels[j].obj == c && x == Mirror(e, rels[j])
  }

  function MirrorEntity(m: map<string, seq<RawRel>>, concepts: set<string>, e: string, rels: seq<RawRel>)
    : (r: map<string, seq<RawRel>>)
    ensures forall c, x :: x in RelsOf(r, c) <==>
      x in RelsOf(m, c) || (c in concepts && MirrorOfSome(e, rels, c, x))
    ensures AllDistinct(m) ==> AllDistinct(r)
  {
    if |rels| == 0 then m
    else
      var n := |rels| - 1;
      var prev := MirrorEntity(m, concepts, e, rels[..n]);
      assert forall c, x :: MirrorOfSome(e, rels, c, x) <==>
        MirrorOfSome(e, rels[..n], c, x) || (rels[n].obj == c && x == Mirror(e, rels[n])) by {
        forall c, x ensures MirrorOfSome(e, rels, c, x) ==>
          MirrorOfSome(e, rels[..n], c, x) || (rels[n].obj == c && x == Mirror(e, rels[n])) {
          if MirrorOfSome(e, rels, c, x) {
            var j :| 0 <= j < |rels| && rels[j].obj == c && x == Mirror(e, rels[j]);
            if j < n { assert rels[..n][j] == rels[j]; }
          }
        }
        forall c, x ensures MirrorOfSome(e, rels[..n], c, x) ==> MirrorOfSome(e, rels, c, x) {
          if MirrorOfSome(e, rels[..n], c, x) {
            var j :| 0 <= j < n && rels[..n][j].obj == c && x == Mirror(e, rels[..n][j]);
            assert rels[j] == rels[..n][j];
          }
        }
        forall c, x ensures (rels[n].obj == c && x == Mirror(e, rels[n])) ==> MirrorOfSome(e, rels, c, x) {
        }
      }
      AddMirror(prev, concepts, e, rels[n])
  }

  /** Some entity of `ents` has a relation to `c` whose mirror is `x`. */
  ghost predicate MirroredFrom(ents: seq<RawEntity>, c: string, x: RawRel) {
    exists i :: 0 <= i < |ents| && MirrorOfSome(ents[i].id, ents[i].relations, c, x)
  }

  /** The mirroring loop over all entities, in order. */
  function MirrorAll(concepts: set<string>, ents: seq<RawEntity>): (r: map<string, seq<RawRel>>)
    ensures forall c, x :: x in RelsOf(r, c) <==> c in concepts && MirroredFrom(ents, c, x)
    ensures AllDistinct(r)
  {
    if |ents| == 0 then map[]
    else
      var n := |ents| - 1;
      var prev := MirrorAll(concepts, ents[..n]);
      assert forall c, x :: MirroredFrom(ents, c, x) <==>
        MirroredFrom(ents[..n], c, x) || MirrorOfSome(ents[n].id, ents[n].relations, c, x) by {
        forall c, x ensures MirroredFrom(ents, c, x) ==>
          MirroredFrom(ents[..n], c, x) || MirrorOfSome(ents[n].id, ents[n].relations, c, x) {
          if MirroredFrom(ents, c, x) {
            var i :| 0 <= i < |ents| && MirrorOfSome(ents[i].id, ents[i].relations, c, x);
            if i < n { assert ents[..n][i] == ents[i]; }
          }
        }
        forall c, x ensures MirroredFrom(ents[..n], c, x) ==> MirroredFrom(ents, c, x) {
          if MirroredFrom(ents[..n], c, x) {
            var i :| 0 <= i < n && MirrorOfSome(ents[..n][i].id, ents[..n][i].relations, c, x);
            assert ents[i] == ents[..n][i];
          }
        }
      }
      MirrorEntity(prev, concepts, ents[n].id, ents[n].relations)
  }

  // ---------------------------------------------------------------------------
  // The merged table

  function ConceptRows(cs: seq<RawConcept>, mirrored: map<string, seq<RawRel>>): (r: map<string, RawRecord>)
    requires Distinct(ConceptIds(cs))
    ensures r.Keys == Elems(ConceptIds(cs))
    ensures forall i :: 0 <= i < |cs| ==>
      r[cs[i].id] == RawRecord(cs[i].name, cs[i].subclassOf, [], RelsOf(mirrored, cs[i].id))
  {
    var ids := ConceptIds(cs);
    assert forall i, j :: 0 <= i < |cs| && 0 <= j < |cs| && cs[i].id == cs[j].id ==> i == j by {
      forall i, j | 0 <= i < |cs| && 0 <= j < |cs| && cs[i].id == cs[j].id ensures i == j {
        assert ids[i] == ids[j];
      }
    }
    var r := map i | 0 <= i < |cs| :: cs[i].id := RawRecord(cs[i].name, cs[i].subclassOf, [], RelsOf(mirrored, cs[i].id));
    assert r.Keys == Elems(ids) by {
      forall x ensures x in r.Keys <==> x in ids {
        if x in ids {
          var i :| 0 <= i < |ids| && ids[i] == x;
          assert cs[i].id == x;
        }
      }
    }
    r
  }

  function EntityRows(es: seq<RawEntity>): (r: map<string, RawRecord>)
    requires Distinct(EntityIds(es))
    ensures r.Keys == Elems(EntityIds(es))
    ensures forall i :: 0 <= i < |es| ==>
      r[es[i].id] == RawRecord(es[i].name, es[i].instanceOf, es[i].attributes, es[i].relations)
  {
    var ids := EntityIds(es);
    assert forall i, j :: 0 <= i < |es| && 0 <= j < |es| && es[i].id == es[j].id ==> i == j by {
      forall i, j | 0 <= i < |es| && 0 <= j < |es| && es[i].id == es[j].id ensures i == j {
        assert ids[i] == ids[j];
      }
    }
    var r := map i | 0 <= i < |es| :: es[i].id := RawRecord(es[i].name, es[i].instanceOf, es[i].attributes, es[i].relations);
    assert r.Keys == Elems(ids) by {
      forall x ensures x in r.Keys <==> x in ids {
        if x in ids {
          var i :| 0 <= i < |ids| && ids[i] == x;
          assert es[i].id == x;
        }
      }
    }
    r
  }

  lemma DistinctParts(a: seq<string>, b: seq<string>)
    requires Distinct(a + b)
    ensures Distinct(a) && Distinct(b) && Elems(a) !! Elems(b)
  {
    assert forall i :: 0 <= i < |a| ==> (a + b)[i] == a[i];
    assert forall j :: 0 <= j < |b| ==> (a + b)[|a| + j] == b[j];
  }

  /** The merged table: concept rows (with their mirrored relations) and entity rows. */
  function RawTable(raw: RawKB): (t: map<string, RawRecord>)
    requires WellFormed(raw)
    ensures t.Keys == Elems(TableIds(raw))
  {
    DistinctParts(ConceptIds(raw.concepts), EntityIds(raw.entities));
    var concepts := Elems(ConceptIds(raw.concepts));
    ConceptRows(raw.concepts, MirrorAll(concepts, raw.entities)) + EntityRows(raw.entities)
  }

  /** A concept's relations are exactly the mirrors of entity relations pointing at it, each once. */
  lemma ConceptRelationsMirrored(raw: RawKB, i: nat)
    requires WellFormed(raw) && i < |raw.concepts|
    ensures Distinct(RawTable(raw)[raw.concepts[i].id].relations)
    ensures forall x :: x in RawTable(raw)[raw.concepts[i].id].relations <==>
      MirroredFrom(raw.entities, raw.concepts[i].id, x)
    ensures RawTable(raw)[raw.concepts[i].id].attributes == []
  {
    var cs, es := ConceptIds(raw.concepts), EntityIds(raw.entities);
    DistinctParts(cs, es);
    var c := raw.concepts[i].id;
    assert c in Elems(cs);
    assert c !in Elems(es);
    var m := MirrorAll(Elems(cs), raw.entities);
    assert RawTable(raw)[c] == ConceptRows(raw.concepts, m)[c];
    assert RawTable(raw)[c].relations == RelsOf(m, c);
  }

  // ---------------------------------------------------------------------------
  // Parsing raw values (`_parse_value`)

  /** `_parse_value`: strings and quantities are taken as they are; every other type
      label goes through the date-or-year splitter. */
  function ParseValue(v: RawValue): (r: Result<Value>)
    ensures v.kind == "string" ==> r == Ok(Str(v.text))
    ensures v.kind == "quantity" ==> r == Ok(Quantity(v.amount, v.unit))
    ensures v.kind !in {"string", "quantity"} ==> r == ParseTemporal(v.text)
    ensures r.Err? ==> r.error == ParseFailure
  {
    if v.kind == "string" then Ok(Str(v.text))
    else if v.kind == "quantity" then Ok(Quantity(v.amount, v.unit))
    else ParseTemporal(v.text)
  }

  function ParseValues(vs: seq<RawValue>): (r: Result<seq<Value>>)
    ensures r.Ok? <==> forall i :: 0 <= i < |vs| ==> ParseValue(vs[i]).Ok?
    ensures r.Ok? ==> |r.value| == |vs| && forall i :: 0 <= i < |vs| ==> Ok(r.value[i]) == ParseValue(vs[i])
    ensures r.Err? ==> r.error == ParseFailure
  {
    if |vs| == 0 then Ok([])
    else
      match ParseValue(vs[0])
      case Err(e) => Err(e)
      case Ok(v) =>
        match ParseValues(vs[1..])
        case Err(e) => Err(e)
        case Ok(rest) => Ok([v] + rest)
  }

  predicate QualifiersParse(q: RawQualifiers) {
    forall k :: k in q ==> ParseValues(q[k]).Ok?
  }

  function ParseQualifiers(q: RawQualifiers): (r: Result<Qualifiers>)
    ensures r.Ok? <==> QualifiersParse(q)
    ensures r.Ok? ==> r.value.Keys == q.Keys
    ensures r.Err? ==> r.error == ParseFailure
  {
    if forall k :: k in q ==> ParseValues(q[k]).Ok? then
      Ok(map k | k in q :: ParseValues(q[k]).value)
    else Err(ParseFailure)
  }

  predicate RecordParses(rr: RawRecord) {
    && (forall i :: 0 <= i < |rr.attributes| ==>
          ParseValue(rr.attributes[i].value).Ok? && QualifiersParse(rr.attributes[i].qualifiers))
    && (forall i :: 0 <= i < |rr.relations| ==> QualifiersParse(rr.relations[i].qualifiers))
  }

  /** One row with every value parsed; keys, labels, directions and objects are kept. */
  function ParseRecord(rr: RawRecord): (r: Result<Record>)
    ensures r.Ok? <==> RecordParses(rr)
    ensures r.Ok? ==> r.value.name == rr.name && r.value.isA == rr.isA
    ensures r.Ok? ==> |r.value.attributes| == |rr.attributes| && |r.value.relations| == |rr.relations|
    ensures r.Ok? ==> forall i :: 0 <= i < |rr.attributes| ==>
      r.value.attributes[i].key == rr.attributes[i].key
      && Ok(r.value.attributes[i].value) == ParseValue(rr.attributes[i].value)
    ensures r.Ok? ==> forall i :: 0 <= i < |rr.relations| ==>
      r.value.relations[i].relation == rr.relations[i].relation
      && r.value.relations[i].direction == rr.relations[i].direction
      && r.value.relations[i].obj == rr.relations[i].obj
  {
    if RecordParses(rr) then
      var attrs := seq(|rr.attributes|, i requires 0 <= i < |rr.attributes| =>
        Attr(rr.attributes[i].key, ParseValue(rr.attributes[i].value).value,
             ParseQualifiers(rr.attributes[i].qualifiers).value));
      var rels := seq(|rr.relations|, i requires 0 <= i < |rr.relations| =>
        Rel(rr.relations[i].relation, rr.relations[i].direction, rr.relations[i].obj,
            ParseQualifiers(rr.relations[i].qualifiers).value));
      Ok(Record(rr.name, rr.isA, attrs, rels))
    else Err(ParseFailure)
  }

  function ParseTable(t: map<string, RawRecord>): (r: Result<map<string, Record>>)
    ensures r.Ok? <==> forall id :: id in t ==> RecordParses(t[id])
    ensures r.Ok? ==> r.value.Keys == t.Keys && forall id :: id in t ==> Ok(r.value[id]) == ParseRecord(t[id])
    ensures r.Err? ==> r.error == ParseFailure
  {
    if forall id :: id in t ==> RecordParses(t[id]) then
      Ok(map id | id in t :: ParseRecord(t[id]).value)
    else Err(ParseFailure)
  }

  // ---------------------------------------------------------------------------
  // `key_type`: the last type label seen for each attribute or qualifier key

  /** The type a qualifier map leaves under `k`: that of the last value listed under `k`. */
  function QualifierWrite(q: RawQualifiers, k: string): Option<string> {
    if k in q && |q[k]| > 0 then Some(q[k][|q[k]| - 1].kind) else None
  }

  /** The type one attribute's loop body leaves under `k`: its qualifier writes come after
      the write of its own key. */
  function AttrWrite(a: RawAttr, k: string): Option<string> {
    if QualifierWrite(a.qualifiers, k).Some? then QualifierWrite(a.qualifiers, k)
    else if a.key == k then Some(a.value.kind)
    else None
  }

  /** The position of the last write in a sequence of optional writes, or -1. */
  function LastWriteAt(ws: seq<Option<string>>): (r: int)
    ensures -1 <= r < |ws|
    ensures r >= 0 ==> ws[r].Some?
    ensures forall j :: r < j < |ws| ==> ws[j].None?
  {
    if |ws| == 0 then -1
    else if ws[|ws| - 1].Some? then |ws| - 1
    else
      var r := LastWriteAt(ws[..|ws| - 1]);
      assert forall j :: r < j < |ws| - 1 ==> ws[..|ws| - 1][j] == ws[j];
      r
  }

  /** The value of the last write in a sequence of optional writes. */
  function LastWrite(ws: seq<Option<string>>): (r: Option<string>)
    ensures r.Some? <==> exists i :: 0 <= i < |ws| && ws[i].Some?
    ensures r.Some? ==> exists i :: 0 <= i < |ws| && ws[i] == r && (forall j :: i < j < |ws| ==> ws[j].None?)
  {
    var i := LastWriteAt(ws);
    if i >= 0 then ws[i] else None
  }

  lemma LastWriteSnoc(ws: seq<Option<string>>, w: Option<string>)
    ensures LastWrite(ws + [w]) == if w.Some? then w else LastWrite(ws)
  {
    assert (ws + [w])[..|ws|] == ws;
    assert (ws + [w])[|ws|] == w;
  }

  /** What each attribute of a row writes under `k`, in order. */
  function AttrWrites(attrs: seq<RawAttr>, k: string): (ws: seq<Option<string>>)
    ensures |ws| == |attrs| && forall i :: 0 <= i < |attrs| ==> ws[i] == AttrWrite(attrs[i], k)
  {
    seq(|attrs|, i requires 0 <= i < |attrs| => AttrWrite(attrs[i], k))
  }

  /** What each relation of a row writes under `k`, in order. */
  function RelWrites(rels: seq<RawRel>, k: string): (ws: seq<Option<string>>)
    ensures |ws| == |rels| && forall i :: 0 <= i < |rels| ==> ws[i] == QualifierWrite(rels[i].qualifiers, k)
  {
    seq(|rels|, i requires 0 <= i < |rels| => QualifierWrite(rels[i].qualifiers, k))
  }

  /** The type one row leaves under `k`: its relations are visited after its attributes. */
  function RecordWrite(rr: RawRecord, k: string): Option<string> {
    if LastWrite(RelWrites(rr.relations, k)).Some? then LastWrite(RelWrites(rr.relations, k))
    else LastWrite(AttrWrites(rr.attributes, k))
  }

  /** What each row writes under `k`, in table order. */
  function RecordWrites(ids: seq<string>, t: map<string, RawRecord>, k: string): (ws: seq<Option<string>>)
    ensures |ws| == |ids|
    ensures forall i :: 0 <= i < |ids| ==> ws[i] == if ids[i] in t then RecordWrite(t[ids[i]], k) else None
  {
    seq(|ids|, i requires 0 <= i < |ids| => if ids[i] in t then RecordWrite(t[ids[i]], k) else None)
  }

  /** `r` is `kt` after the write `w` under `k`: the written type when there is one, and
      otherwise whatever `kt` holds under `k`, including nothing. */
  predicate KeyWritten(r: map<string, string>, kt: map<string, string>, k: string, w: Option<string>) {
    && (k in r <==> k in kt || w.Some?)
    && (k in r ==> r[k] == if w.Some? then w.value else kt[k])
  }

  /** Two writes in a row leave the later one, or the earlier when the later writes nothing. */
  lemma KeyWrittenThen(kt: map<string, string>, mid: map<string, string>, r: map<string, string>,
                       k: string, w1: Option<string>, w2: Option<string>)
    requires KeyWritten(mid, kt, k, w1) && KeyWritten(r, mid, k, w2)
    ensures KeyWritten(r, kt, k, if w2.Some? then w2 else w1)
  {
  }

  /** Each qualifier key with at least one value records the type of its last value; every
      other key keeps its type. */
  function QualifierKeyTypes(kt: map<string, string>, q: RawQualifiers): (r: map<string, string>)
    ensures forall k :: KeyWritten(r, kt, k, QualifierWrite(q, k))
  {
    kt + map k | k in q && |q[k]| > 0 :: q[k][|q[k]| - 1].kind
  }

  /** One pass of the attribute loop: the attribute's key, then its qualifier keys. */
  function AttrKeyType(kt: map<string, string>, a: RawAttr): (r: map<string, string>)
    ensures forall k :: KeyWritten(r, kt, k, AttrWrite(a, k))
  {
    QualifierKeyTypes(kt[a.key := a.value.kind], a.qualifiers)
  }

  /** The attribute loop of one row: each key ends with the type of its last write, and keys
      no attribute writes keep their type. */
  function AttrKeyTypes(kt: map<string, string>, attrs: seq<RawAttr>): (r: map<string, string>)
    ensures forall k :: KeyWritten(r, kt, k, LastWrite(AttrWrites(attrs, k)))
  {
    if |attrs| == 0 then kt
    else
      var n := |attrs| - 1;
      var prev := AttrKeyTypes(kt, attrs[..n]);
      var r := AttrKeyType(prev, attrs[n]);
      AttrKeyTypesStep(kt, attrs[..n], attrs[n], prev, r);
      assert attrs == attrs[..n] + [attrs[n]];
      r
  }

  lemma AttrKeyTypesStep(kt: map<string, string>, init: seq<RawAttr>, a: RawAttr, prev: map<string, string>, r: map<string, string>)
    requires forall k :: KeyWritten(prev, kt, k, LastWrite(AttrWrites(init, k)))
    requires forall k :: KeyWritten(r, prev, k, AttrWrite(a, k))
    ensures forall k :: KeyWritten(r, kt, k, LastWrite(AttrWrites(init + [a], k)))
  {
    forall k ensures KeyWritten(r, kt, k, LastWrite(AttrWrites(init + [a], k))) {
      assert AttrWrites(init + [a], k) == AttrWrites(init, k) + [AttrWrite(a, k)];
      LastWriteSnoc(AttrWrites(init, k), AttrWrite(a, k));
      KeyWrittenThen(kt, prev, r, k, LastWrite(AttrWrites(init, k)), AttrWrite(a, k));
    }
  }

  /** The relation loop of one row: each qualifier key ends with the type of its last write. */
  function RelKeyTypes(kt: map<string, string>, rels: seq<RawRel>): (r: map<string, string>)
    ensures forall k :: KeyWritten(r, kt, k, LastWrite(RelWrites(rels, k)))
  {
    if |rels| == 0 then kt
    else
      var n := |rels| - 1;
      var prev := RelKeyTypes(kt, rels[..n]);
      var r := QualifierKeyTypes(prev, rels[n].qualifiers);
      RelKeyTypesStep(kt, rels[..n], rels[n], prev, r);
      assert rels == rels[..n] + [rels[n]];
      r
  }

  lemma RelKeyTypesStep(kt: map<string, string>, init: seq<RawRel>, rel: RawRel, prev: map<string, string>, r: map<string, string>)
    requires forall k :: KeyWritten(prev, kt, k, LastWrite(RelWrites(init, k)))
    requires forall k :: KeyWritten(r, prev, k, QualifierWrite(rel.qualifiers, k))
    ensures forall k :: KeyWritten(r, kt, k, LastWrite(RelWrites(init + [rel], k)))
  {
    forall k ensures KeyWritten(r, kt, k, LastWrite(RelWrites(init + [rel], k))) {
      assert RelWrites(init + [rel], k) == RelWrites(init, k) + [QualifierWrite(rel.qualifiers, k)];
      LastWriteSnoc(RelWrites(init, k), QualifierWrite(rel.qualifiers, k));
      KeyWrittenThen(kt, prev, r, k, LastWrite(RelWrites(init, k)), QualifierWrite(rel.qualifiers, k));
    }
  }

  /** One row of the key-type loop: its attributes, then its relations. */
  function RecordKeyTypes(kt: map<string, string>, rr: RawRecord): (r: map<string, string>)
    ensures forall k :: KeyWritten(r, kt, k, RecordWrite(rr, k))
  {
    var mid := AttrKeyTypes(kt, rr.attributes);
    var r := RelKeyTypes(mid, rr.relations);
    assert forall k :: KeyWritten(r, kt, k, RecordWrite(rr, k)) by {
      forall k ensures KeyWritten(r, kt, k, RecordWrite(rr, k)) {
        KeyWrittenThen(kt, mid, r, k, LastWrite(AttrWrites(rr.attributes, k)), LastWrite(RelWrites(rr.relations, k)));
      }
    }
    r
  }

  /** The key-type loop over the table, before `year` is folded into `date`: exactly the keys
      some row writes, each with the type of its last write. */
  function KeyTypes(ids: seq<string>, t: map<string, RawRecord>): (r: map<string, string>)
    requires forall e :: e in ids ==> e in t
    ensures forall k :: k in r <==> LastWrite(RecordWrites(ids, t, k)).Some?
    ensures forall k :: k in r ==> r[k] == LastWrite(RecordWrites(ids, t, k)).value
  {
    if |ids| == 0 then map[]
    else
      var n := |ids| - 1;
      assert forall e :: e in ids[..n] ==> e in ids;
      var prev := KeyTypes(ids[..n], t);
      var r := RecordKeyTypes(prev, t[ids[n]]);
      KeyTypesStep(ids[..n], ids[n], t, prev, r);
      assert ids == ids[..n] + [ids[n]];
      r
  }

  lemma KeyTypesStep(init: seq<string>, e: string, t: map<string, RawRecord>, prev: map<string, string>, r: map<string, string>)
    requires e in t
    requires forall k :: k in prev <==> LastWrite(RecordWrites(init, t, k)).Some?
    requires forall k :: k in prev ==> prev[k] == LastWrite(RecordWrites(init, t, k)).value
    requires forall k :: KeyWritten(r, prev, k, RecordWrite(t[e], k))
    ensures forall k :: k in r <==> LastWrite(RecordWrites(init + [e], t, k)).Some?
    ensures forall k :: k in r ==> r[k] == LastWrite(RecordWrites(init + [e], t, k)).value
  {
    forall k
      ensures k in r <==> LastWrite(RecordWrites(init + [e], t, k)).Some?
      ensures k in r ==> r[k] == LastWrite(RecordWrites(init + [e], t, k)).value
    {
      var before := LastWrite(RecordWrites(init, t, k));
      RecordWritesSnoc(init, e, t, k);
      LastWriteSnoc(RecordWrites(init, t, k), RecordWrite(t[e], k));
      assert KeyWritten(prev, map[], k, before);
      KeyWrittenThen(map[], prev, r, k, before, RecordWrite(t[e], k));
    }
  }

  lemma RecordWritesSnoc(init: seq<string>, e: string, t: map<string, RawRecord>, k: string)
    requires e in t
    ensures RecordWrites(init + [e], t, k) == RecordWrites(init, t, k) + [RecordWrite(t[e], k)]
  {
    var ws, vs := RecordWrites(init + [e], t, k), RecordWrites(init, t, k) + [RecordWrite(t[e], k)];
    forall i | 0 <= i < |ws| ensures ws[i] == vs[i] {
      if i < |init| {
        assert (init + [e])[i] == init[i];
      }
    }
  }

  /** Every attribute key of a row is written by that row. */
  lemma AttrKeyWritten(rr: RawRecord, i: nat)
    requires i < |rr.attributes|
    ensures RecordWrite(rr, rr.attributes[i].key).Some?
  {
    assert AttrWrites(rr.attributes, rr.attributes[i].key)[i].Some?;
  }

  /** A key typed `year` may also hold dates, so it is recorded as `date`. */
  function NormalizeKeyTypes(kt: map<string, string>): (r: map<string, string>)
    ensures r.Keys == kt.Keys
    ensures "year" !in r.Values
    ensures forall k :: k in kt && kt[k] != "year" ==> r[k] == kt[k]
    ensures forall k :: k in kt && kt[k] == "year" ==> r[k] == "date"
  {
    var r := map k | k in kt :: if kt[k] == "year" then "date" else kt[k];
    assert forall v :: v in r.Values ==> exists k :: k in r && r[k] == v;
    r
  }

  // ---------------------------------------------------------------------------
  // `name_to_id` and `concept_to_entity`

  function NamesOf(m: map<string, seq<string>>, name: string): seq<string> {
    if name in m then m[name] else []
  }

  lemma {:induction false} IdsNamedSnoc(ids: seq<string>, x: string, table: map<string, Record>, name: string)
    requires forall e :: e in ids ==> e in table
    requires x in table
    ensures IdsNamed(ids + [x], table, name) ==
      IdsNamed(ids, table, name) + (if table[x].name == name then [x] else [])
  {
    if |ids| > 0 {
      assert (ids + [x])[1..] == ids[1..] + [x];
      assert forall e :: e in ids[1..] ==> e in ids;
      IdsNamedSnoc(ids[1..], x, table, name);
    }
  }

  /** `name_to_id[name].append(x)`. */
  function AddName(m: map<string, seq<string>>, name: string, x: string): (r: map<string, seq<string>>)
    ensures forall other :: NamesOf(r, other) == NamesOf(m, other) + (if other == name then [x] else [])
  {
    m[name := NamesOf(m, name) + [x]]
  }

  /** `name_to_id[name].append(id)` over the table, in order. */
  function NameIndex(ids: seq<string>, table: map<string, Record>): map<string, seq<string>>
    requires forall e :: e in ids ==> e in table
  {
    if |ids| == 0 then map[]
    else
      assert forall e :: e in ids[..|ids| - 1] ==> e in ids;
      var x := ids[|ids| - 1];
      AddName(NameIndex(ids[..|ids| - 1], table), table[x].name, x)
  }

  /** The index lists, under every name, the ids carrying it, in table order. */
  lemma {:induction false} NameIndexLists(ids: seq<string>, table: map<string, Record>, name: string)
    requires forall e :: e in ids ==> e in table
    ensures NamesOf(NameIndex(ids, table), name) == IdsNamed(ids, table, name)
  {
    if |ids| > 0 {
      var n := |ids| - 1;
      var front := ids[..n];
      var x := ids[n];
      assert forall e :: e in front ==> e in ids;
      assert ids == front + [x];
      NameIndexLists(front, table, name);
      IdsNamedSnoc(front, x, table, name);
    }
  }

  function MembersOf(m: map<string, set<string>>, c: string): set<string> {
    if c in m then m[c] else {}
  }

  /** `for c in get_all_concepts(e): concept_to_entity[c].add(e)`. */
  function AddMember(m: map<string, set<string>>, e: string, cs: set<string>): (r: map<string, set<string>>)
    ensures forall c :: MembersOf(r, c) == MembersOf(m, c) + (if c in cs then {e} else {})
  {
    map c | c in m.Keys + cs :: MembersOf(m, c) + (if c in cs then {e} else {})
  }

  function ConceptIndex(ids: seq<string>, g: Hierarchy.Parents): map<string, set<string>> {
    if |ids| == 0 then map[]
    else AddMember(ConceptIndex(ids[..|ids| - 1], g), ids[|ids| - 1], Hierarchy.AllConcepts(g, ids[|ids| - 1]))
  }

  /** The index lists `e` under `c` exactly when `e` is in the table and `c` is among its
      concepts. */
  lemma {:induction false} ConceptIndexLists(ids: seq<string>, g: Hierarchy.Parents, c: string, e: string)
    ensures e in MembersOf(ConceptIndex(ids, g), c) <==> e in ids && c in Hierarchy.AllConcepts(g, e)
  {
    if |ids| > 0 {
      var n := |ids| - 1;
      var front := ids[..n];
      assert ids == front + [ids[n]];
      assert e in ids <==> e in front || e == ids[n];
      ConceptIndexLists(front, g, c, e);
    }
  }


  // ---------------------------------------------------------------------------
  // The three position indices

  function AttrKeys(e: string, attrs: seq<Attr>): (r: seq<Option<(string, string)>>)
    ensures |r| == |attrs| && forall i :: 0 <= i < |attrs| ==> r[i] == Some((attrs[i].key, e))
  {
    seq(|attrs|, i requires 0 <= i < |attrs| => Some((attrs[i].key, e)))
  }

  function RelKeys(e: string, rels: seq<Rel>): (r: seq<Option<((string, string), string)>>)
    ensures |r| == |rels| && forall i :: 0 <= i < |rels| ==> r[i] == Some(((rels[i].relation, rels[i].direction), e))
  {
    seq(|rels|, i requires 0 <= i < |rels| => Some(((rels[i].relation, rels[i].direction), e)))
  }

  /** Only forward facts are indexed by (subject, object). */
  function ForwardKeys(e: string, rels: seq<Rel>): (r: seq<Option<(string, string)>>)
    ensures |r| == |rels|
    ensures forall i :: 0 <= i < |rels| ==>
      r[i] == if rels[i].direction == "forward" then Some((e, rels[i].obj)) else None
  {
    seq(|rels|, i requires 0 <= i < |rels| =>
      if rels[i].direction == "forward" then Some((e, rels[i].obj)) else None)
  }

  lemma AttrIndexSound(kb: KB)
    requires TableExact(kb)
    requires kb.attrIndex == Indices.Build(kb.ids, map e | e in kb.table :: AttrKeys(e, kb.table[e].attributes))
    ensures AttrIndexExact(kb)
  {
    var keysOf := map e | e in kb.table :: AttrKeys(e, kb.table[e].attributes);
    forall key, e ensures AttrIndex(kb, key, e) ==
      (if e in kb.table then Indices.PositionsOf(keysOf[e], (key, e)) else [])
    {
      Indices.GatherOwned(kb.ids, keysOf, (p: (string, string)) => p.1, (key, e));
    }
  }

  lemma RelIndexSound(kb: KB)
    requires TableExact(kb)
    requires kb.relIndex == Indices.Build(kb.ids, map e | e in kb.table :: RelKeys(e, kb.table[e].relations))
    ensures RelIndexExact(kb)
  {
    var keysOf := map e | e in kb.table :: RelKeys(e, kb.table[e].relations);
    forall relation, direction, e ensures RelIndex(kb, relation, direction, e) ==
      (if e in kb.table then Indices.PositionsOf(keysOf[e], ((relation, direction), e)) else [])
    {
      Indices.GatherOwned(kb.ids, keysOf, (p: ((string, string), string)) => p.1, ((relation, direction), e));
    }
  }

  lemma ForwardIndexSound(kb: KB)
    requires TableExact(kb)
    requires kb.forwardIndex == Indices.Build(kb.ids, map e | e in kb.table :: ForwardKeys(e, kb.table[e].relations))
    ensures ForwardIndexExact(kb)
  {
    var keysOf := map e | e in kb.table :: ForwardKeys(e, kb.table[e].relations);
    forall s, o ensures ForwardIndex(kb, s, o) ==
      (if s in kb.table then Indices.PositionsOf(keysOf[s], (s, o)) else [])
    {
      Indices.GatherOwned(kb.ids, keysOf, (p: (string, string)) => p.0, (s, o));
    }
  }

  // ---------------------------------------------------------------------------
  // `KB.__init__`

  /** Every index built from the parsed table, in table order; `key_type` comes from the raw rows. */
  function Assemble(ids: seq<string>, table: map<string, Record>, rawTable: map<string, RawRecord>): KB
    requires forall e :: e in ids ==> e in table && e in rawTable
  {
    KB(
      ids,
      table,
      NameIndex(ids, table),
      ConceptIndex(ids, ParentsOf(table)),
      NormalizeKeyTypes(KeyTypes(ids, rawTable)),
      Indices.Build(ids, map e | e in table :: AttrKeys(e, table[e].attributes)),
      Indices.Build(ids, map e | e in table :: RelKeys(e, table[e].relations)),
      Indices.Build(ids, map e | e in table :: ForwardKeys(e, table[e].relations)))
  }

  lemma AssembleValid(ids: seq<string>, table: map<string, Record>, rawTable: map<string, RawRecord>)
    requires Distinct(ids)
    requires forall e :: e in ids <==> e in table
    requires forall e :: e in ids ==> e in rawTable
    ensures Valid(Assemble(ids, table, rawTable))
  {
    var kb := Assemble(ids, table, rawTable);
    AssembleTable(ids, table, rawTable);
    AssembleNames(ids, table, rawTable);
    AssembleConcepts(ids, table, rawTable);
    AssembleAttrIndex(ids, table, rawTable);
    AssembleRelIndex(ids, table, rawTable);
    AssembleForwardIndex(ids, table, rawTable);
    assert "year" !in kb.keyType.Values;
  }

  lemma AssembleTable(ids: seq<string>, table: map<string, Record>, rawTable: map<string, RawRecord>)
    requires Distinct(ids)
    requires forall e :: e in ids <==> e in table
    requires forall e :: e in ids ==> e in rawTable
    ensures TableExact(Assemble(ids, table, rawTable))
  {
  }

  lemma AssembleNames(ids: seq<string>, table: map<string, Record>, rawTable: map<string, RawRecord>)
    requires Distinct(ids)
    requires forall e :: e in ids <==> e in table
    requires forall e :: e in ids ==> e in rawTable
    ensures TableExact(Assemble(ids, table, rawTable)) && NamesExact(Assemble(ids, table, rawTable))
  {
    var kb := Assemble(ids, table, rawTable);
    AssembleTable(ids, table, rawTable);
    assert kb.nameToId == NameIndex(kb.ids, kb.table);
    NamesSound(kb);
  }

  lemma AssembleConcepts(ids: seq<string>, table: map<string, Record>, rawTable: map<string, RawRecord>)
    requires Distinct(ids)
    requires forall e :: e in ids <==> e in table
    requires forall e :: e in ids ==> e in rawTable
    ensures ConceptsExact(Assemble(ids, table, rawTable))
  {
    ConceptsSound(Assemble(ids, table, rawTable));
  }

  lemma AssembleAttrIndex(ids: seq<string>, table: map<string, Record>, rawTable: map<string, RawRecord>)
    requires Distinct(ids)
    requires forall e :: e in ids <==> e in table
    requires forall e :: e in ids ==> e in rawTable
    ensures AttrIndexExact(Assemble(ids, table, rawTable))
  {
    AttrIndexSound(Assemble(ids, table, rawTable));
  }

  lemma AssembleRelIndex(ids: seq<string>, table: map<string, Record>, rawTable: map<string, RawRecord>)
    requires Distinct(ids)
    requires forall e :: e in ids <==> e in table
    requires forall e :: e in ids ==> e in rawTable
    ensures RelIndexExact(Assemble(ids, table, rawTable))
  {
    RelIndexSound(Assemble(ids, table, rawTable));
  }

  lemma AssembleForwardIndex(ids: seq<string>, table: map<string, Record>, rawTable: map<string, RawRecord>)
    requires Distinct(ids)
    requires forall e :: e in ids <==> e in table
    requires forall e :: e in ids ==> e in rawTable
    ensures ForwardIndexExact(Assemble(ids, table, rawTable))
  {
    ForwardIndexSound(Assemble(ids, table, rawTable));
  }

  lemma NamesSound(kb: KB)
    requires TableExact(kb)
    requires kb.nameToId == NameIndex(kb.ids, kb.table)
    ensures NamesExact(kb)
  {
    forall name ensures NameLookup(kb, name) == IdsNamed(kb.ids, kb.table, name) {
      NameIndexLists(kb.ids, kb.table, name);
    }
  }

  lemma ConceptsSound(kb: KB)
    requires TableExact(kb)
    requires kb.conceptToEntity == ConceptIndex(kb.ids, ParentsOf(kb.table))
    ensures ConceptsExact(kb)
  {
    forall c, e ensures e in ConceptMembers(kb, c) <==> e in kb.table && c in Hierarchy.AllConcepts(ParentsOf(kb.table), e) {
      ConceptMember(kb, c, e);
    }
  }

  lemma ConceptMember(kb: KB, c: string, e: string)
    requires kb.conceptToEntity == ConceptIndex(kb.ids, ParentsOf(kb.table))
    ensures e in ConceptMembers(kb, c) <==> e in kb.ids && c in Hierarchy.AllConcepts(ParentsOf(kb.table), e)
  {
    assert ConceptMembers(kb, c) == MembersOf(kb.conceptToEntity, c);
    ConceptIndexLists(kb.ids, ParentsOf(kb.table), c, e);
  }


  /** The knowledge base built from raw records; fails only when a value does not parse. */
  function Build(raw: RawKB): (r: Result<KB>)
    requires WellFormed(raw)
    ensures r.Ok? <==> forall id :: id in RawTable(raw) ==> RecordParses(RawTable(raw)[id])
    ensures r.Err? ==> r.error == ParseFailure
    ensures r.Ok? ==> Valid(r.value)
    ensures r.Ok? ==> r.value.ids == TableIds(raw)
    ensures r.Ok? ==> forall id :: id in RawTable(raw) ==> Ok(r.value.table[id]) == ParseRecord(RawTable(raw)[id])
    ensures r.Ok? ==> forall k :: k in r.value.keyType <==> LastWrite(RecordWrites(TableIds(raw), RawTable(raw), k)).Some?
    ensures r.Ok? ==> forall k :: k in r.value.keyType ==>
      r.value.keyType[k] == (var w := LastWrite(RecordWrites(TableIds(raw), RawTable(raw), k)).value; if w == "year" then "date" else w)
  {
    var rawTable := RawTable(raw);
    var ids := TableIds(raw);
    match ParseTable(rawTable)
    case Err(e) => Err(e)
    case Ok(table) =>
      AssembleValid(ids, table, rawTable);
      Ok(Assemble(ids, table, rawTable))
  }
}
