/** Filtering entity sets by attribute values (`_filter_attribute` and its four
    typed front ends), by qualifier values (`_filter_qualifier` and the four `QFilter`
    front ends), and navigating relations (`Relate`). The outputs are parallel lists
    of ids and facts; they are specified as the set of (id, fact) pairs they hold. */
module Filters {
  import opened Results
  import opened Seqs
  import opened Values
  import opened Literals
  import opened KnowledgeBase
  import opened Registers
  import Indices

  // ---------------------------------------------------------------------------
  // Attribute filters

  /** Entity `e` of the input has attribute `f` under `key`, and it satisfies the comparison. */
  ghost predicate AttrSelected(kb: KB, ids: seq<string>, key: string, target: Value, op: string, e: string, f: Fact) {
    e in ids && e in kb.table && f.AttrFact? && f.attr in kb.table[e].attributes
    && f.attr.key == key && Satisfies(f.attr.value, target, op)
  }

  /** Some attribute under `key` of some input entity makes the comparison raise. */
  ghost predicate AttrRaises(kb: KB, ids: seq<string>, key: string, target: Value, op: string) {
    exists e, a :: e in ids && e in kb.table && a in kb.table[e].attributes && a.key == key
      && Raises(a.value, target, op)
  }

  /** The inner loop over one entity's indexed attributes. */
  function ScanAttrs(e: string, attrs: seq<Attr>, target: Value, op: string): (r: Result<seq<(string, Fact)>>)
    ensures r.Ok? <==> forall i :: 0 <= i < |attrs| ==> !Raises(attrs[i].value, target, op)
    ensures r.Err? ==> r.error == CompError(op)
    ensures r.Ok? ==> forall p :: p in r.value <==>
      p.0 == e && p.1.AttrFact? && p.1.attr in attrs && Satisfies(p.1.attr.value, target, op)
  {
    if |attrs| == 0 then Ok([])
    else
      var n := |attrs| - 1;
      var a := attrs[n];
      assert forall x :: x in attrs <==> x in attrs[..n] || x == a;
      assert forall i :: 0 <= i < n ==> attrs[..n][i] == attrs[i];
      RaisesExactly(a.value, target, op);
      var prev :- ScanAttrs(e, attrs[..n], target, op);
      if CanCompare(a.value, target) then
        var hit :- Comp(a.value, target, op);
        Ok(if hit then prev + [(e, AttrFact(a))] else prev)
      else Ok(prev)
  }

  /** The outer loop over the entities, each visited once. */
  function ScanEntities(kb: KB, es: seq<string>, key: string, target: Value, op: string)
    : (r: Result<seq<(string, Fact)>>)
    requires Valid(kb)
    ensures r.Ok? <==> !AttrRaises(kb, es, key, target, op)
    ensures r.Err? ==> r.error == CompError(op)
    ensures r.Ok? ==> forall p :: p in r.value <==> AttrSelected(kb, es, key, target, op, p.0, p.1)
  {
    if |es| == 0 then Ok([])
    else
      var n := |es| - 1;
      var e := es[n];
      assert forall x :: x in es <==> x in es[..n] || x == e;
      var attrs := IndexedAttrs(kb, key, e);
      var cur := ScanAttrs(e, attrs, target, op);
      var prev := ScanEntities(kb, es[..n], key, target, op);
      assert cur.Ok? <==> forall a :: e in kb.table && a in kb.table[e].attributes && a.key == key ==> !Raises(a.value, target, op) by {
        assert forall a :: a in attrs ==> exists i :: 0 <= i < |attrs| && attrs[i] == a;
      }
      assert AttrRaises(kb, es, key, target, op) <==> AttrRaises(kb, es[..n], key, target, op) || !cur.Ok? by {
        if AttrRaises(kb, es, key, target, op) {
          var x, a :| x in es && x in kb.table && a in kb.table[x].attributes && a.key == key && Raises(a.value, target, op);
          if x != e { assert AttrRaises(kb, es[..n], key, target, op); }
        }
        if AttrRaises(kb, es[..n], key, target, op) {
          var x, a :| x in es[..n] && x in kb.table && a in kb.table[x].attributes && a.key == key && Raises(a.value, target, op);
          assert x in es;
        }
      }
      match prev
      case Err(err) => Err(err)
      case Ok(before) =>
        match cur
        case Err(err) => Err(err)
        case Ok(found) => Ok(before + found)
  }

  /** `_filter_attribute`: parse the target with the given type, then keep every
      (entity, attribute) pair under `key` that is comparable with the target and
      satisfies `comp`. Incomparable attributes are skipped, not errors. */
  function FilterAttribute(kb: KB, ids: seq<string>, key: string, value: string, op: string, typ: string)
    : (r: Result<Entities>)
    requires Valid(kb)
    ensures r.Ok? ==> ParseKeyValue(kb.keyType, Some(key), value, Some(typ)).Ok?
    ensures r.Ok? ==> r.value.facts.Some? && |r.value.ids| == |r.value.facts.value|
    ensures r.Ok? ==> forall e, f :: (e, f) in Zip(r.value.ids, r.value.facts.value) <==>
      AttrSelected(kb, ids, key, ParseKeyValue(kb.keyType, Some(key), value, Some(typ)).value, op, e, f)
    ensures r.Err? <==> (ParseKeyValue(kb.keyType, Some(key), value, Some(typ)).Err?
      || AttrRaises(kb, ids, key, ParseKeyValue(kb.keyType, Some(key), value, Some(typ)).value, op))
    ensures r.Err? && ParseKeyValue(kb.keyType, Some(key), value, Some(typ)).Ok? ==> r.error == CompError(op)
  {
    var target :- ParseKeyValue(kb.keyType, Some(key), value, Some(typ));
    var es := Dedup(ids);
    assert forall e, f :: AttrSelected(kb, es, key, target, op, e, f) <==> AttrSelected(kb, ids, key, target, op, e, f);
    assert AttrRaises(kb, es, key, target, op) <==> AttrRaises(kb, ids, key, target, op);
    var pairs :- ScanEntities(kb, es, key, target, op);
    ZipOfUnzip(pairs);
    Ok(Entities(Firsts(pairs), Some(Seconds(pairs))))
  }

  /** `FilterStr`: never raises, and keeps exactly the attributes under `key` whose value
      is the string `value`. */
  function FilterStr(kb: KB, input: Entities, key: string, value: string): (r: Result<Entities>)
    requires Valid(kb)
    ensures r.Ok? && r.value.facts.Some?
    ensures |r.value.ids| == |r.value.facts.value|
    ensures forall e, f :: (e, f) in Zip(r.value.ids, r.value.facts.value) <==>
      e in input.ids && e in kb.table && f.AttrFact? && f.attr in kb.table[e].attributes
      && f.attr.key == key && f.attr.value == Str(value)
  {
    StringEquality(value);
    FilterAttribute(kb, input.ids, key, value, "=", "string")
  }

  /** `FilterNum`: the target is a quantity, so only attributes with the same unit are
      compared; the only errors are an unreadable number and an unknown operator. */
  function FilterNum(kb: KB, input: Entities, key: string, value: string, op: string): (r: Result<Entities>)
    requires Valid(kb)
    ensures op in {"=", "!=", "<", ">"} && ParseQuantity(value).Ok? ==> r.Ok?
    ensures r.Err? ==> r.error in {ParseFailure, IndexOutOfRange, UnsupportedOperator}
    ensures r.Ok? ==> ParseQuantity(value).Ok? && r.value.facts.Some? && |r.value.ids| == |r.value.facts.value|
    ensures r.Ok? ==> forall j :: 0 <= j < |r.value.ids| ==>
      r.value.facts.value[j].AttrFact? && r.value.facts.value[j].attr.value.Quantity?
      && r.value.facts.value[j].attr.value.unit == ParseQuantity(value).value.unit
  {
    var r := FilterAttribute(kb, input.ids, key, value, op, "quantity");
    if r.Ok? then
      var pairs := Zip(r.value.ids, r.value.facts.value);
      assert forall j :: 0 <= j < |r.value.ids| ==> pairs[j] in pairs;
      r
    else r
  }

  /** A readable temporal text under one of the four operators makes no guarded `comp` raise. */
  lemma TemporalTextNeverRaises(text: string, op: string)
    ensures ParseTemporal(text).Ok? && op in {"=", "!=", "<", ">"} ==>
      forall v :: !Raises(v, ParseTemporal(text).value, op)
  {
    if ParseTemporal(text).Ok? && op in {"=", "!=", "<", ">"} {
      TemporalNeverRaises(ParseTemporal(text).value, op);
    }
  }

  /** `FilterYear` and `FilterDate` share the temporal branch of `_parse_key_value`:
      equality with a temporal target is calendar-year containment. */
  function FilterTemporal(kb: KB, input: Entities, key: string, value: string, op: string, typ: string)
    : (r: Result<Entities>)
    requires Valid(kb)
    requires typ !in {"string", "quantity"}
    ensures op in {"=", "!=", "<", ">"} && ParseTemporal(value).Ok? ==> r.Ok?
    ensures r.Err? ==> r.error in {ParseFailure, UnsupportedOperator}
    ensures r.Ok? ==> ParseTemporal(value).Ok? && r.value.facts.Some? && |r.value.ids| == |r.value.facts.value|
    ensures r.Ok? && op == "=" ==> forall j :: 0 <= j < |r.value.ids| ==>
      r.value.facts.value[j].AttrFact?
      && Contains(ParseTemporal(value).value, r.value.facts.value[j].attr.value)
  {
    TemporalTextNeverRaises(value, op);
    var r := FilterAttribute(kb, input.ids, key, value, op, typ);
    if r.Ok? then
      var pairs := Zip(r.value.ids, r.value.facts.value);
      assert forall j :: 0 <= j < |r.value.ids| ==> pairs[j] in pairs;
      r
    else r
  }

  function FilterYear(kb: KB, input: Entities, key: string, value: string, op: string): (r: Result<Entities>)
    requires Valid(kb)
    ensures op in {"=", "!=", "<", ">"} && ParseTemporal(value).Ok? ==> r.Ok?
    ensures r.Err? ==> r.error in {ParseFailure, UnsupportedOperator}
  {
    FilterTemporal(kb, input, key, value, op, "year")
  }

  function FilterDate(kb: KB, input: Entities, key: string, value: string, op: string): (r: Result<Entities>)
    requires Valid(kb)
    ensures op in {"=", "!=", "<", ">"} && ParseTemporal(value).Ok? ==> r.Ok?
    ensures r.Err? ==> r.error in {ParseFailure, UnsupportedOperator}
  {
    FilterTemporal(kb, input, key, value, op, "date")
  }

  /** The type label passed by `FilterYear` and `FilterDate` makes no difference. */
  lemma FilterYearIsFilterDate(kb: KB, input: Entities, key: string, value: string, op: string)
    requires Valid(kb)
    ensures FilterYear(kb, input, key, value, op) == FilterDate(kb, input, key, value, op)
  {
  }

  /** With `=` and a year target, an attribute stored as a year is never kept: `comp`
      reads temporal equality as containment, which year/year pairs never satisfy. */
  lemma FilterYearEqualsSkipsYearValues(kb: KB, input: Entities, key: string, y: int)
    requires Valid(kb)
    ensures FilterYear(kb, input, key, IntText(y), "=").Ok?
    ensures var r := FilterYear(kb, input, key, IntText(y), "=").value;
      forall j :: 0 <= j < |r.ids| ==> r.facts.value[j].AttrFact? && r.facts.value[j].attr.value.DateValue?
  {
    YearTextRoundTrip(y);
    var r := FilterTemporal(kb, input, key, IntText(y), "=", "year");
    assert forall j :: 0 <= j < |r.value.ids| ==>
      Contains(Year(y), r.value.facts.value[j].attr.value);
  }

  // ---------------------------------------------------------------------------
  // Qualifier filters

  /** Whether the qualifier loop over `f` ends in a match. */
  function FactMatch(f: Fact, key: string, target: Value, op: string): Result<bool> {
    QualifierMatch(QualifierValues(QualifiersOf(f), key), target, op)
  }

  /** The loop over `zip(entity_ids, facts)`: the positions whose fact matches, ascending. */
  function MatchingPositions(ps: seq<(string, Fact)>, key: string, target: Value, op: string)
    : (r: Result<seq<nat>>)
    ensures r.Ok? <==> forall i :: 0 <= i < |ps| ==> FactMatch(ps[i].1, key, target, op).Ok?
    ensures r.Err? ==> r.error == CompError(op)
  {
    if |ps| == 0 then Ok([])
    else
      var n := |ps| - 1;
      assert forall i :: 0 <= i < n ==> ps[..n][i] == ps[i];
      var prev :- MatchingPositions(ps[..n], key, target, op);
      var hit :- FactMatch(ps[n].1, key, target, op);
      Ok(if hit then prev + [n] else prev)
  }

  /** The positions found are ascending, in range, and exactly those whose fact matches. */
  lemma {:induction false} MatchingPositionsExact(ps: seq<(string, Fact)>, key: string, target: Value, op: string)
    requires MatchingPositions(ps, key, target, op).Ok?
    ensures var pos := MatchingPositions(ps, key, target, op).value;
      && Indices.StrictlyAscending(pos)
      && (forall j :: 0 <= j < |pos| ==> pos[j] < |ps|)
      && (forall i: nat :: i in pos <==> i < |ps| && FactMatch(ps[i].1, key, target, op) == Ok(true))
  {
    if |ps| > 0 {
      var n := |ps| - 1;
      var front := ps[..n];
      assert forall i :: 0 <= i < n ==> front[i] == ps[i];
      MatchingPositionsLast(ps, key, target, op);
      MatchingPositionsExact(front, key, target, op);
      var prev := MatchingPositions(front, key, target, op).value;
      if FactMatch(ps[n].1, key, target, op) == Ok(true) {
        Indices.AppendAbove(prev, n);
      }
    }
  }

  /** One more pair adds its position when, and only when, its fact matches. */
  lemma MatchingPositionsLast(ps: seq<(string, Fact)>, key: string, target: Value, op: string)
    requires |ps| > 0 && MatchingPositions(ps, key, target, op).Ok?
    ensures MatchingPositions(ps[..|ps| - 1], key, target, op).Ok?
    ensures MatchingPositions(ps, key, target, op).value ==
      MatchingPositions(ps[..|ps| - 1], key, target, op).value
      + (if FactMatch(ps[|ps| - 1].1, key, target, op) == Ok(true) then [|ps| - 1] else [])
  {
  }

  /** `_filter_qualifier`: no facts gives two empty lists; otherwise the (id, fact) pairs of
      `zip(entity_ids, facts)` whose qualifier under `key` matches, in order, each at most once. */
  function FilterQualifier(keyType: map<string, string>, input: Entities, key: string, value: string, op: string, typ: string)
    : (r: Result<Entities>)
    ensures input.facts.None? ==> r == Ok(Entities([], Some([])))
    ensures r.Ok? ==> r.value.facts.Some? && |r.value.ids| == |r.value.facts.value|
    ensures r.Ok? && input.facts.Some? ==>
      ParseKeyValue(keyType, Some(key), value, Some(typ)).Ok?
      && |r.value.ids| <= |Zip(input.ids, input.facts.value)|
      && forall e, f :: (e, f) in Zip(r.value.ids, r.value.facts.value) <==>
           (e, f) in Zip(input.ids, input.facts.value)
           && FactMatch(f, key, ParseKeyValue(keyType, Some(key), value, Some(typ)).value, op) == Ok(true)
    ensures r.Ok? && input.facts.Some? ==>
      var ps := Zip(input.ids, input.facts.value);
      var target := ParseKeyValue(keyType, Some(key), value, Some(typ)).value;
      exists pos: seq<nat> ::
        && Indices.StrictlyAscending(pos)
        && (forall j :: 0 <= j < |pos| ==> pos[j] < |ps|)
        && (forall i: nat :: i in pos <==> i < |ps| && FactMatch(ps[i].1, key, target, op) == Ok(true))
        && Zip(r.value.ids, r.value.facts.value) == KeptAt(ps, pos)
    ensures r.Err? ==> input.facts.Some?
  {
    if input.facts.None? then Ok(Entities([], Some([])))
    else
      var target :- ParseKeyValue(keyType, Some(key), value, Some(typ));
      var ps := Zip(input.ids, input.facts.value);
      var pos :- MatchingPositions(ps, key, target, op);
      MatchingPositionsExact(ps, key, target, op);
      KeptAtMatching(ps, pos, key, target, op);
      var kept := KeptAt(ps, pos);
      ZipOfUnzip(kept);
      Ok(Entities(Firsts(kept), Some(Seconds(kept))))
  }

  /** The pairs at the given positions, in the positions' order. */
  function KeptAt(ps: seq<(string, Fact)>, pos: seq<nat>): (kept: seq<(string, Fact)>)
    requires forall j :: 0 <= j < |pos| ==> pos[j] < |ps|
    ensures |kept| == |pos|
    ensures forall j :: 0 <= j < |pos| ==> kept[j] == ps[pos[j]]
  {
    seq(|pos|, j requires 0 <= j < |pos| => ps[pos[j]])
  }

  /** Keeping the matching positions keeps exactly the matching pairs, and no more of them
      than there were pairs. */
  lemma KeptAtMatching(ps: seq<(string, Fact)>, pos: seq<nat>, key: string, target: Value, op: string)
    requires MatchingPositions(ps, key, target, op) == Ok(pos)
    ensures forall j :: 0 <= j < |pos| ==> pos[j] < |ps|
    ensures |pos| <= |ps|
    ensures forall p :: p in KeptAt(ps, pos) <==> p in ps && FactMatch(p.1, key, target, op) == Ok(true)
  {
    MatchingPositionsExact(ps, key, target, op);
    PositionsFit(pos, |ps|);
    var kept := KeptAt(ps, pos);
    forall p | p in kept ensures p in ps && FactMatch(p.1, key, target, op) == Ok(true) {
      var j :| 0 <= j < |kept| && kept[j] == p;
      assert pos[j] in pos;
    }
    forall p | p in ps && FactMatch(p.1, key, target, op) == Ok(true) ensures p in kept {
      var i :| 0 <= i < |ps| && ps[i] == p;
      assert (i as nat) in pos;
      var j :| 0 <= j < |pos| && pos[j] == i;
      assert kept[j] == p;
    }
  }

  /** A strictly ascending list of positions below `n` has at most `n` entries. */
  lemma {:induction false} PositionsFit(pos: seq<nat>, n: nat)
    requires Indices.StrictlyAscending(pos)
    requires forall j :: 0 <= j < |pos| ==> pos[j] < n
    ensures |pos| <= n
  {
    if |pos| > 0 {
      var last := pos[|pos| - 1];
      var prefix := pos[..|pos| - 1];
      assert Indices.StrictlyAscending(prefix);
      assert forall j :: 0 <= j < |prefix| ==> prefix[j] < last;
      PositionsFit(prefix, last);
    }
  }

  /** `QFilterStr`: `=` never raises, so it always succeeds; without facts it answers two
      empty lists. */
  function QFilterStr(kb: KB, input: Entities, qkey: string, qvalue: string): (r: Result<Entities>)
    ensures r.Ok?
    ensures r.value.facts.Some? && |r.value.ids| == |r.value.facts.value|
    ensures input.facts.Some? ==> forall e, f :: (e, f) in Zip(r.value.ids, r.value.facts.value) <==>
      (e, f) in Zip(input.ids, input.facts.value) && Str(qvalue) in QualifierValues(QualifiersOf(f), qkey)
  {
    StringEquality(qvalue);
    assert forall f :: FactMatch(f, qkey, Str(qvalue), "=") == Ok(true) <==> Str(qvalue) in QualifierValues(QualifiersOf(f), qkey) by {
      forall f ensures FactMatch(f, qkey, Str(qvalue), "=") == Ok(true) <==> Str(qvalue) in QualifierValues(QualifiersOf(f), qkey) {
        var qvs := QualifierValues(QualifiersOf(f), qkey);
        assert Str(qvalue) in qvs <==> exists i :: 0 <= i < |qvs| && Satisfies(qvs[i], Str(qvalue), "=");
      }
    }
    FilterQualifier(kb.keyType, input, qkey, qvalue, "=", "string")
  }

  function QFilterNum(kb: KB, input: Entities, qkey: string, qvalue: string, op: string): (r: Result<Entities>)
    ensures r.Err? ==> input.facts.Some? && r.error in {ParseFailure, IndexOutOfRange, UnsupportedOperator}
  {
    FilterQualifier(kb.keyType, input, qkey, qvalue, op, "quantity")
  }

  function QFilterYear(kb: KB, input: Entities, qkey: string, qvalue: string, op: string): (r: Result<Entities>)
    ensures op in {"=", "!=", "<", ">"} && (input.facts.None? || ParseTemporal(qvalue).Ok?) ==> r.Ok?
    ensures r.Err? ==> input.facts.Some? && r.error in {ParseFailure, UnsupportedOperator}
  {
    QFilterTemporal(kb, input, qkey, qvalue, op, "year")
  }

  function QFilterDate(kb: KB, input: Entities, qkey: string, qvalue: string, op: string): (r: Result<Entities>)
    ensures op in {"=", "!=", "<", ">"} && (input.facts.None? || ParseTemporal(qvalue).Ok?) ==> r.Ok?
    ensures r.Err? ==> input.facts.Some? && r.error in {ParseFailure, UnsupportedOperator}
  {
    QFilterTemporal(kb, input, qkey, qvalue, op, "date")
  }

  function QFilterTemporal(kb: KB, input: Entities, qkey: string, qvalue: string, op: string, typ: string)
    : (r: Result<Entities>)
    requires typ !in {"string", "quantity"}
    ensures op in {"=", "!=", "<", ">"} && (input.facts.None? || ParseTemporal(qvalue).Ok?) ==> r.Ok?
    ensures r.Err? ==> input.facts.Some? && r.error in {ParseFailure, UnsupportedOperator}
  {
    TemporalTextNeverRaises(qvalue, op);
    FilterQualifier(kb.keyType, input, qkey, qvalue, op, typ)
  }

  // ---------------------------------------------------------------------------
  // Relation navigation

  /** Some input entity holds `rel` among its relations. */
  ghost predicate HeldBy(kb: KB, ids: seq<string>, rel: Rel) {
    exists e :: e in ids && e in kb.table && rel in kb.table[e].relations
  }

  function RelatePairs(kb: KB, es: seq<string>, relation: string, direction: string): (r: seq<(string, Fact)>)
    requires Valid(kb)
    ensures forall p :: p in r <==> (p.1.RelFact? && p.0 == p.1.rel.obj
      && p.1.rel.relation == relation && p.1.rel.direction == direction && HeldBy(kb, es, p.1.rel))
  {
    if |es| == 0 then []
    else
      var n := |es| - 1;
      var e := es[n];
      var rels := IndexedRels(kb, relation, direction, e);
      var found := seq(|rels|, j requires 0 <= j < |rels| => (rels[j].obj, RelFact(rels[j])));
      assert forall p :: p in found <==> p.1.RelFact? && p.0 == p.1.rel.obj && p.1.rel in rels by {
        forall p: (string, Fact) | p.1.RelFact? && p.0 == p.1.rel.obj && p.1.rel in rels ensures p in found {
          var j :| 0 <= j < |rels| && rels[j] == p.1.rel;
          assert found[j] == p;
        }
      }
      var prev := RelatePairs(kb, es[..n], relation, direction);
      assert forall rel :: HeldBy(kb, es, rel) <==> HeldBy(kb, es[..n], rel) || (e in kb.table && rel in kb.table[e].relations) by {
        forall rel ensures HeldBy(kb, es, rel) <==> HeldBy(kb, es[..n], rel) || (e in kb.table && rel in kb.table[e].relations) {
          if HeldBy(kb, es, rel) {
            var x :| x in es && x in kb.table && rel in kb.table[x].relations;
            if x != e { assert x in es[..n]; }
          }
          if HeldBy(kb, es[..n], rel) {
            var x :| x in es[..n] && x in kb.table && rel in kb.table[x].relations;
            assert x in es;
          }
        }
      }
      prev + found
  }

  /** `Relate`: from every input entity, follow its relations with the given label and
      direction; the output ids are the objects and the facts are the relations taken. */
  function Relate(kb: KB, input: Entities, relation: string, direction: string): (r: Entities)
    requires Valid(kb)
    ensures r.facts.Some? && |r.ids| == |r.facts.value|
    ensures forall j :: 0 <= j < |r.ids| ==> (r.facts.value[j].RelFact?
      && r.facts.value[j].rel.relation == relation && r.facts.value[j].rel.direction == direction
      && r.ids[j] == r.facts.value[j].rel.obj)
    ensures forall o, f :: (o, f) in Zip(r.ids, r.facts.value) <==>
      f.RelFact? && o == f.rel.obj && f.rel.relation == relation && f.rel.direction == direction
      && HeldBy(kb, input.ids, f.rel)
  {
    var es := Dedup(input.ids);
    var pairs := RelatePairs(kb, es, relation, direction);
    assert forall rel :: HeldBy(kb, es, rel) <==> HeldBy(kb, input.ids, rel);
    assert forall j :: 0 <= j < |pairs| ==> pairs[j] in pairs;
    ZipOfUnzip(pairs);
    Entities(Firsts(pairs), Some(Seconds(pairs)))
  }
}
