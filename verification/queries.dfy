/** Queries over attributes, relations and qualifiers, and the verification
    operations (`QueryAttr`, `QueryAttrUnderCondition`, `_verify` and its four front
    ends, `QueryRelation`, `QueryAttrQualifier`, `QueryRelationQualifier` in kopl.py).
    These iterate the input lists as given, so repeated ids repeat their values; the
    contracts speak of which values occur. */
module Queries {
  import opened Results
  import opened Values
  import opened Literals
  import opened KnowledgeBase
  import opened Registers

  // ---------------------------------------------------------------------------
  // Walking the attribute index

  /** Attribute `a` sits under `key` on some input entity. */
  ghost predicate OwnedUnder(kb: KB, ids: seq<string>, key: string, a: Attr) {
    exists e :: e in ids && e in kb.table && a in kb.table[e].attributes && a.key == key
  }

  /** `for ent_id in entity_ids: for idx in attribute_inv_index[key][ent_id]`. */
  function AttrsUnder(kb: KB, ids: seq<string>, key: string): (r: seq<Attr>)
    requires Valid(kb)
    ensures forall a :: a in r <==> OwnedUnder(kb, ids, key, a)
  {
    if |ids| == 0 then []
    else
      var n := |ids| - 1;
      var prev := AttrsUnder(kb, ids[..n], key);
      var cur := IndexedAttrs(kb, key, ids[n]);
      assert forall a :: OwnedUnder(kb, ids, key, a) <==> OwnedUnder(kb, ids[..n], key, a) || a in cur by {
        forall a ensures OwnedUnder(kb, ids, key, a) <==> OwnedUnder(kb, ids[..n], key, a) || a in cur {
          if OwnedUnder(kb, ids, key, a) {
            var e :| e in ids && e in kb.table && a in kb.table[e].attributes && a.key == key;
            if e != ids[n] { assert e in ids[..n]; }
          }
          if OwnedUnder(kb, ids[..n], key, a) {
            var e :| e in ids[..n] && e in kb.table && a in kb.table[e].attributes && a.key == key;
            assert e in ids;
          }
        }
      }
      prev + cur
  }

  /** The attributes of `attrs` that `keep` accepts, in order. */
  function Select(attrs: seq<Attr>, keep: Attr -> bool): (r: seq<Attr>)
    ensures forall a :: a in r <==> a in attrs && keep(a)
  {
    if |attrs| == 0 then []
    else
      var n := |attrs| - 1;
      assert forall a :: a in attrs <==> a in attrs[..n] || a == attrs[n];
      Select(attrs[..n], keep) + (if keep(attrs[n]) then [attrs[n]] else [])
  }

  /** `res += qvs` for every item: the qualifier values under `qkey`, item by item. */
  function GatherQualifiers<X(!new)>(xs: seq<X>, qualifiers: X -> Qualifiers, qkey: string): (r: seq<Value>)
    ensures forall v :: v in r <==> exists x :: x in xs && v in QualifierValues(qualifiers(x), qkey)
  {
    if |xs| == 0 then []
    else
      var n := |xs| - 1;
      assert forall x :: x in xs <==> x in xs[..n] || x == xs[n];
      GatherQualifiers(xs[..n], qualifiers, qkey) + QualifierValues(qualifiers(xs[n]), qkey)
  }

  function ValuesOf(attrs: seq<Attr>): (r: seq<Value>)
    ensures |r| == |attrs|
    ensures forall v :: v in r <==> exists a :: a in attrs && a.value == v
  {
    var r := seq(|attrs|, i requires 0 <= i < |attrs| => attrs[i].value);
    assert forall a :: a in attrs ==> exists i :: 0 <= i < |attrs| && attrs[i] == a && r[i] == a.value;
    r
  }

  // ---------------------------------------------------------------------------
  // Attribute queries

  /** `QueryAttr`: every value held under `key` by an input entity. */
  function QueryAttr(kb: KB, input: Entities, key: string): (r: seq<Value>)
    requires Valid(kb)
    ensures forall v :: v in r <==> exists a :: OwnedUnder(kb, input.ids, key, a) && a.value == v
  {
    ValuesOf(AttrsUnder(kb, input.ids, key))
  }

  /** Some qualifier value under `qkey` of the attribute equals the target (in the sense of `comp`). */
  predicate QualifiedBy(a: Attr, qkey: string, target: Value) {
    var qvs := QualifierValues(a.qualifiers, qkey);
    exists i :: 0 <= i < |qvs| && Satisfies(qvs[i], target, "=")
  }

  /** `v` is the value of an attribute under `key` of an input entity, and that attribute
      carries a qualifier under `qkey` equal to `target`. */
  ghost predicate ConditionedValue(kb: KB, ids: seq<string>, key: string, qkey: string, target: Value, v: Value) {
    exists a :: OwnedUnder(kb, ids, key, a) && a.value == v && QualifiedBy(a, qkey, target)
  }

  /** `QueryAttrUnderCondition`: the condition's text is read with the qualifier key's
      recorded type, and the values kept are those whose attribute carries a matching
      qualifier. Only that reading can fail; `=` itself never raises. */
  function QueryAttrUnderCondition(kb: KB, input: Entities, key: string, qkey: string, qvalue: string)
    : (r: Result<seq<Value>>)
    requires Valid(kb)
    ensures r.Err? <==> ParseKeyValue(kb.keyType, Some(qkey), qvalue, None).Err?
    ensures qkey !in kb.keyType ==> r == Err(KeyNotFound)
    ensures r.Ok? ==> forall v :: v in r.value <==>
      ConditionedValue(kb, input.ids, key, qkey, ParseKeyValue(kb.keyType, Some(qkey), qvalue, None).value, v)
  {
    var target :- ParseKeyValue(kb.keyType, Some(qkey), qvalue, None);
    Ok(ValuesOf(Select(AttrsUnder(kb, input.ids, key), (a: Attr) => QualifiedBy(a, qkey, target))))
  }

  /** `v` is a qualifier value under `qkey` of an attribute under `key`, of an input
      entity, whose value equals `target`. */
  ghost predicate QualifierOfMatching(kb: KB, ids: seq<string>, key: string, target: Value, qkey: string, v: Value) {
    exists a :: OwnedUnder(kb, ids, key, a) && Satisfies(a.value, target, "=") && v in QualifierValues(a.qualifiers, qkey)
  }

  /** `QueryAttrQualifier`: the attribute value's text is read with the key's recorded type;
      for every attribute under `key` equal to it, its qualifier values under `qkey`. */
  function QueryAttrQualifier(kb: KB, input: Entities, key: string, value: string, qkey: string)
    : (r: Result<seq<Value>>)
    requires Valid(kb)
    ensures r.Err? <==> ParseKeyValue(kb.keyType, Some(key), value, None).Err?
    ensures key !in kb.keyType ==> r == Err(KeyNotFound)
    ensures r.Ok? ==> forall v :: v in r.value <==>
      QualifierOfMatching(kb, input.ids, key, ParseKeyValue(kb.keyType, Some(key), value, None).value, qkey, v)
  {
    var target :- ParseKeyValue(kb.keyType, Some(key), value, None);
    var matching := Select(AttrsUnder(kb, input.ids, key), (a: Attr) => Satisfies(a.value, target, "="));
    Ok(GatherQualifiers(matching, (a: Attr) => a.qualifiers, qkey))
  }

  // ---------------------------------------------------------------------------
  // Verification

  ghost predicate AllSatisfy(values: seq<Value>, target: Value, op: string) {
    forall i :: 0 <= i < |values| ==> Satisfies(values[i], target, op)
  }

  ghost predicate NoneSatisfy(values: seq<Value>, target: Value, op: string) {
    forall i :: 0 <= i < |values| ==> !Satisfies(values[i], target, op)
  }

  ghost predicate SomeRaises(values: seq<Value>, target: Value, op: string) {
    exists i :: 0 <= i < |values| && Raises(values[i], target, op)
  }

  /** `sum(match)`: how many values satisfy the test; a raise aborts the count. */
  function CountMatches(values: seq<Value>, target: Value, op: string): (r: Result<nat>)
    ensures r.Ok? <==> !SomeRaises(values, target, op)
    ensures r.Err? ==> r.error == CompError(op)
    ensures r.Ok? ==> r.value <= |values|
    ensures r.Ok? ==> (r.value == |values| <==> AllSatisfy(values, target, op))
    ensures r.Ok? ==> (r.value == 0 <==> NoneSatisfy(values, target, op))
  {
    if |values| == 0 then Ok(0)
    else
      var n := |values| - 1;
      var v := values[n];
      assert forall i :: 0 <= i < n ==> values[..n][i] == values[i];
      RaisesExactly(v, target, op);
      assert SomeRaises(values, target, op) <==> SomeRaises(values[..n], target, op) || Raises(v, target, op) by {
        if SomeRaises(values, target, op) {
          var i :| 0 <= i < |values| && Raises(values[i], target, op);
          if i < n { assert Raises(values[..n][i], target, op); }
        }
      }
      var prev :- CountMatches(values[..n], target, op);
      if CanCompare(v, target) then
        var hit :- Comp(v, target, op);
        Ok(if hit then prev + 1 else prev)
      else Ok(prev)
  }

  /** `_verify`: "yes" when the list is non-empty and every value matches, "no" when none
      does (the empty list included), "not sure" otherwise. */
  function Verify(keyType: map<string, string>, values: seq<Value>, t: string, op: string, typ: string)
    : (r: Result<string>)
    ensures r.Err? <==> (ParseKeyValue(keyType, None, t, Some(typ)).Err?
      || SomeRaises(values, ParseKeyValue(keyType, None, t, Some(typ)).value, op))
    ensures r.Ok? ==> r.value in {"yes", "no", "not sure"}
    ensures r.Ok? ==> (r.value == "yes" <==>
      |values| > 0 && AllSatisfy(values, ParseKeyValue(keyType, None, t, Some(typ)).value, op))
    ensures r.Ok? ==> (r.value == "no" <==> NoneSatisfy(values, ParseKeyValue(keyType, None, t, Some(typ)).value, op))
  {
    var target :- ParseKeyValue(keyType, None, t, Some(typ));
    var matches :- CountMatches(values, target, op);
    Ok(if matches >= 1 && matches == |values| then "yes" else if matches == 0 then "no" else "not sure")
  }

  /** `VerifyStr`: never raises; "yes" iff every value (of at least one) is the string `t`,
      "no" iff none is. */
  function VerifyStr(kb: KB, values: seq<Value>, t: string): (r: Result<string>)
    ensures r.Ok?
    ensures r.value == "yes" <==> |values| > 0 && forall i :: 0 <= i < |values| ==> values[i] == Str(t)
    ensures r.value == "no" <==> Str(t) !in values
  {
    StringEquality(t);
    Verify(kb.keyType, values, t, "=", "string")
  }

  function VerifyNum(kb: KB, values: seq<Value>, t: string, op: string): (r: Result<string>)
    ensures op in {"=", "!=", "<", ">"} && ParseQuantity(t).Ok? ==> r.Ok?
    ensures r.Err? ==> r.error in {ParseFailure, IndexOutOfRange, UnsupportedOperator}
  {
    var r := Verify(kb.keyType, values, t, op, "quantity");
    assert ParseQuantity(t).Ok? && op in {"=", "!=", "<", ">"} ==> !SomeRaises(values, ParseQuantity(t).value, op);
    r
  }

  function VerifyYear(kb: KB, values: seq<Value>, t: string, op: string): (r: Result<string>)
    ensures op in {"=", "!=", "<", ">"} && ParseTemporal(t).Ok? ==> r.Ok?
    ensures r.Err? ==> r.error in {ParseFailure, UnsupportedOperator}
  {
    VerifyTemporal(kb, values, t, op, "year")
  }

  function VerifyDate(kb: KB, values: seq<Value>, t: string, op: string): (r: Result<string>)
    ensures op in {"=", "!=", "<", ">"} && ParseTemporal(t).Ok? ==> r.Ok?
    ensures r.Err? ==> r.error in {ParseFailure, UnsupportedOperator}
  {
    VerifyTemporal(kb, values, t, op, "date")
  }

  function VerifyTemporal(kb: KB, values: seq<Value>, t: string, op: string, typ: string): (r: Result<string>)
    requires typ !in {"string", "quantity"}
    ensures op in {"=", "!=", "<", ">"} && ParseTemporal(t).Ok? ==> r.Ok?
    ensures r.Err? ==> r.error in {ParseFailure, UnsupportedOperator}
  {
    if ParseTemporal(t).Ok? && op in {"=", "!=", "<", ">"} then
      TemporalNeverRaises(ParseTemporal(t).value, op);
      Verify(kb.keyType, values, t, op, typ)
    else Verify(kb.keyType, values, t, op, typ)
  }

  /** The answer depends on which values there are, not on their order or multiplicity:
      two lists with the same elements both fail or both give the same answer. */
  lemma {:induction false} VerifyIgnoresOrder(keyType: map<string, string>, a: seq<Value>, b: seq<Value>,
                                              t: string, op: string, typ: string)
    requires forall v :: v in a <==> v in b
    ensures Verify(keyType, a, t, op, typ).Ok? <==> Verify(keyType, b, t, op, typ).Ok?
    ensures Verify(keyType, a, t, op, typ).Ok? ==>
      Verify(keyType, a, t, op, typ).value == Verify(keyType, b, t, op, typ).value
  {
    var target := ParseKeyValue(keyType, None, t, Some(typ));
    if target.Ok? {
      SameElementsSameTests(a, b, target.value, op);
      SameElementsSameTests(b, a, target.value, op);
    }
  }

  /** Each of the three tests over a list carries over to any list with no other elements. */
  lemma SameElementsSameTests(a: seq<Value>, b: seq<Value>, target: Value, op: string)
    requires forall v :: v in b ==> v in a
    ensures AllSatisfy(a, target, op) ==> AllSatisfy(b, target, op)
    ensures NoneSatisfy(a, target, op) ==> NoneSatisfy(b, target, op)
    ensures SomeRaises(b, target, op) ==> SomeRaises(a, target, op)
    ensures |b| > 0 ==> |a| > 0
  {
    forall i | 0 <= i < |b| ensures exists k :: 0 <= k < |a| && a[k] == b[i] {
      assert b[i] in b;
    }
    if |b| > 0 {
      assert b[0] in b;
    }
  }

  // ---------------------------------------------------------------------------
  // Relation queries

  /** `rel` is a forward relation from some subject in `ss` to some object in `ts`. */
  ghost predicate Links(kb: KB, ss: seq<string>, ts: seq<string>, rel: Rel) {
    exists s :: s in ss && s in kb.table && rel in kb.table[s].relations
      && rel.direction == "forward" && rel.obj in ts
  }

  /** `for entity_id_2 in ...: for idx in forward_relation_index[(s, entity_id_2)]`. */
  function LinksFrom(kb: KB, s: string, ts: seq<string>): (r: seq<Rel>)
    requires Valid(kb)
    ensures forall rel :: rel in r <==>
      s in kb.table && rel in kb.table[s].relations && rel.direction == "forward" && rel.obj in ts
  {
    if |ts| == 0 then []
    else
      var n := |ts| - 1;
      assert forall o :: o in ts <==> o in ts[..n] || o == ts[n];
      LinksFrom(kb, s, ts[..n]) + ForwardRels(kb, s, ts[n])
  }

  /** The double loop of `QueryRelation` and `QueryRelationQualifier`. */
  function LinksBetween(kb: KB, ss: seq<string>, ts: seq<string>): (r: seq<Rel>)
    requires Valid(kb)
    ensures forall rel :: rel in r <==> Links(kb, ss, ts, rel)
  {
    if |ss| == 0 then []
    else
      var n := |ss| - 1;
      var s := ss[n];
      assert forall rel :: Links(kb, ss, ts, rel) <==> (Links(kb, ss[..n], ts, rel)
        || (s in kb.table && rel in kb.table[s].relations && rel.direction == "forward" && rel.obj in ts)) by {
        forall rel ensures Links(kb, ss, ts, rel) <==> (Links(kb, ss[..n], ts, rel)
          || (s in kb.table && rel in kb.table[s].relations && rel.direction == "forward" && rel.obj in ts)) {
          if Links(kb, ss, ts, rel) {
            var x :| x in ss && x in kb.table && rel in kb.table[x].relations && rel.direction == "forward" && rel.obj in ts;
            if x != s { assert x in ss[..n]; }
          }
          if Links(kb, ss[..n], ts, rel) {
            var x :| x in ss[..n] && x in kb.table && rel in kb.table[x].relations && rel.direction == "forward" && rel.obj in ts;
            assert x in ss;
          }
        }
      }
      LinksBetween(kb, ss[..n], ts) + LinksFrom(kb, s, ts)
  }

  /** `QueryRelation`: the labels of the forward relations from the first set to the second. */
  function QueryRelation(kb: KB, s: Entities, t: Entities): (r: seq<string>)
    requires Valid(kb)
    ensures forall x :: x in r <==> exists rel :: Links(kb, s.ids, t.ids, rel) && rel.relation == x
  {
    var rels := LinksBetween(kb, s.ids, t.ids);
    var r := seq(|rels|, i requires 0 <= i < |rels| => rels[i].relation);
    assert forall rel :: rel in rels ==> exists i :: 0 <= i < |rels| && rels[i] == rel && r[i] == rel.relation;
    r
  }

  /** `v` is a qualifier value under `qkey` of a forward relation labelled `relation`
      from `ss` to `ts`. */
  ghost predicate QualifierOfLink(kb: KB, ss: seq<string>, ts: seq<string>, relation: string, qkey: string, v: Value) {
    exists rel :: Links(kb, ss, ts, rel) && rel.relation == relation && v in QualifierValues(rel.qualifiers, qkey)
  }

  /** `QueryRelationQualifier`: the qualifier values under `qkey` of those forward relations
      that carry the label `relation`. */
  function QueryRelationQualifier(kb: KB, s: Entities, t: Entities, relation: string, qkey: string): (r: seq<Value>)
    requires Valid(kb)
    ensures forall v :: v in r <==> QualifierOfLink(kb, s.ids, t.ids, relation, qkey, v)
  {
    var rels := LinksBetween(kb, s.ids, t.ids);
    var labelled := SelectRels(rels, relation);
    GatherQualifiers(labelled, (rel: Rel) => rel.qualifiers, qkey)
  }

  function SelectRels(rels: seq<Rel>, relation: string): (r: seq<Rel>)
    ensures forall rel :: rel in r <==> rel in rels && rel.relation == relation
  {
    if |rels| == 0 then []
    else
      var n := |rels| - 1;
      assert forall rel :: rel in rels <==> rel in rels[..n] || rel == rels[n];
      SelectRels(rels[..n], relation) + (if rels[n].relation == relation then [rels[n]] else [])
  }
}
