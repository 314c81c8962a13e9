/** What operations pass to each other (the values in `forward`'s memory) and the
    comparison of a stored value against a parsed target that every filter, query
    and verification shares. */
module Registers {
  import opened Results
  import opened Values
  import opened KnowledgeBase

  /** The fact that put an id into an entity set: an attribute or a relation of some entity. */
  datatype Fact = AttrFact(attr: Attr) | RelFact(rel: Rel)

  function QualifiersOf(f: Fact): Qualifiers {
    match f
    case AttrFact(a) => a.qualifiers
    case RelFact(r) => r.qualifiers
  }

  /** The values a qualifier map holds under `key`; reading it through the source's
      `for qk, qvs in q.items(): if qk == key` loop visits exactly these. */
  function QualifierValues(q: Qualifiers, key: string): seq<Value> {
    if key in q then q[key] else []
  }

  /** `(entity_ids, facts)`: facts is None after retrieval and set operations and a
      parallel list after attribute, qualifier and relation filters. */
  datatype Entities = Entities(ids: seq<string>, facts: Option<seq<Fact>>)

  /** `v.can_compare(target) and comp(v, target, op)`, when it evaluates to true. */
  predicate Satisfies(v: Value, target: Value, op: string) {
    CanCompare(v, target) && Comp(v, target, op) == Ok(true)
  }

  /** The same test, when `comp` raises. */
  predicate Raises(v: Value, target: Value, op: string) {
    CanCompare(v, target) && Comp(v, target, op).Err?
  }

  /** The exception a guarded `comp` can raise: `__lt__` on strings, or an unknown operator. */
  function CompError(op: string): Error {
    if op == "<" then OrderOnString else UnsupportedOperator
  }

  /** Once `can_compare` holds, only `<` on strings and unknown operators raise, and the
      error depends on the operator alone. */
  lemma RaisesExactly(v: Value, target: Value, op: string)
    ensures Raises(v, target, op) ==> Comp(v, target, op) == Err(CompError(op))
    ensures Raises(v, target, op) <==>
      CanCompare(v, target) && (op !in {"=", "!=", "<", ">"} || (op == "<" && v.Str?))
  {
  }

  /** `=` never raises, whatever the operands. */
  lemma EqualityNeverRaises(v: Value, target: Value)
    ensures !Raises(v, target, "=")
  {
  }

  /** Against a string target under `=`, a value satisfies the test exactly when it is that
      string, and nothing raises. */
  lemma StringEquality(t: string)
    ensures forall v :: Satisfies(v, Str(t), "=") <==> v == Str(t)
    ensures forall v :: !Raises(v, Str(t), "=")
  {
    forall v ensures Satisfies(v, Str(t), "=") <==> v == Str(t) {
      EqIsIdentity(v, Str(t));
      CompNonTemporalEquality(v, Str(t));
    }
  }

  /** Against a temporal target, none of the four operators raises. */
  lemma TemporalNeverRaises(target: Value, op: string)
    requires IsTime(target) && op in {"=", "!=", "<", ">"}
    ensures forall v :: !Raises(v, target, op)
  {
    forall v ensures !Raises(v, target, op) {
      RaisesExactly(v, target, op);
    }
  }

  /** The inner qualifier loop: values are tried in order, the first comparable one
      satisfying `comp` stops the loop with a match, and a raise stops it with the error. */
  function QualifierMatch(qvs: seq<Value>, target: Value, op: string): (r: Result<bool>)
    ensures r == Ok(true) ==> exists i :: 0 <= i < |qvs| && Satisfies(qvs[i], target, op)
    ensures r == Ok(false) <==>
      forall i :: 0 <= i < |qvs| ==> !Satisfies(qvs[i], target, op) && !Raises(qvs[i], target, op)
    ensures r.Err? ==> r.error == CompError(op) && exists i :: 0 <= i < |qvs| && Raises(qvs[i], target, op)
    ensures (forall i :: 0 <= i < |qvs| ==> !Raises(qvs[i], target, op)) ==>
      (r == Ok(true) <==> exists i :: 0 <= i < |qvs| && Satisfies(qvs[i], target, op))
  {
    if |qvs| == 0 then Ok(false)
    else
      var rest := QualifierMatch(qvs[1..], target, op);
      assert forall i :: 1 <= i < |qvs| ==> qvs[i] == qvs[1..][i - 1];
      RaisesExactly(qvs[0], target, op);
      if CanCompare(qvs[0], target) then
        var b :- Comp(qvs[0], target, op);
        if b then Ok(true) else rest
      else rest
  }
}
