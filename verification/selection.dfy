/** Picking extremes by a numeric attribute (`SelectBetween`, `SelectAmong` in kopl.py).
    Both gather the quantity values an attribute key holds, keep the unit that most
    candidates use (the first one met on a tie, as `Counter.most_common` does), and order
    the rest by amount with a stable sort. */
module Selection {
  import opened Results
  import opened Seqs
  import opened Values
  import opened KnowledgeBase
  import opened Registers

  /** An entity id with one quantity it holds under the key. */
  datatype Candidate = Candidate(id: string, amount: real, unit: string)

  /** `e`, one of `ids`, holds `Quantity(amount, unit)` under `key`. */
  ghost predicate HoldsQuantity(kb: KB, ids: seq<string>, key: string, c: Candidate) {
    c.id in ids && c.id in kb.table
    && exists a :: a in kb.table[c.id].attributes && a.key == key && a.value == Quantity(c.amount, c.unit)
  }

  /** Between two quantities of one unit, `__lt__` is the order of the amounts, so the
      source's sort orders candidates by amount. */
  lemma SameUnitOrder(x: real, y: real, unit: string)
    ensures Lt(Quantity(x, unit), Quantity(y, unit)) == Ok(x < y)
  {
  }

  function QuantitiesOf(e: string, attrs: seq<Attr>): (r: seq<Candidate>)
    ensures forall c :: c in r <==> c.id == e && exists a :: a in attrs && a.value == Quantity(c.amount, c.unit)
  {
    if |attrs| == 0 then []
    else
      var n := |attrs| - 1;
      assert forall a :: a in attrs <==> a in attrs[..n] || a == attrs[n];
      var v := attrs[n].value;
      QuantitiesOf(e, attrs[..n]) + (if v.Quantity? then [Candidate(e, v.amount, v.unit)] else [])
  }

  /** The candidate list after `filter(lambda x: x[1].type == "quantity", ...)`, in the
      order of the ids and, per id, of the attribute index. */
  function Candidates(kb: KB, ids: seq<string>, key: string): (r: seq<Candidate>)
    requires Valid(kb)
    ensures forall c :: c in r <==> HoldsQuantity(kb, ids, key, c)
    ensures forall c :: c in r ==> c.id in kb.table
  {
    if |ids| == 0 then []
    else
      var n := |ids| - 1;
      var e := ids[n];
      var attrs := IndexedAttrs(kb, key, e);
      var cur := QuantitiesOf(e, attrs);
      assert forall c :: HoldsQuantity(kb, ids, key, c) <==> HoldsQuantity(kb, ids[..n], key, c) || c in cur by {
        forall c ensures HoldsQuantity(kb, ids, key, c) <==> HoldsQuantity(kb, ids[..n], key, c) || c in cur {
          if c.id != e { assert c.id in ids <==> c.id in ids[..n]; }
          if c.id == e && c.id in kb.table && HoldsQuantity(kb, ids, key, c) {
            var a :| a in kb.table[c.id].attributes && a.key == key && a.value == Quantity(c.amount, c.unit);
            assert a in attrs;
          }
        }
      }
      Candidates(kb, ids[..n], key) + cur
  }

  // ---------------------------------------------------------------------------
  // The most common unit

  function CountUnit(cs: seq<Candidate>, u: string): (r: nat)
    ensures r <= |cs|
    ensures r > 0 <==> exists i :: 0 <= i < |cs| && cs[i].unit == u
  {
    if |cs| == 0 then 0
    else
      var n := |cs| - 1;
      assert forall i :: 0 <= i < n ==> cs[..n][i] == cs[i];
      CountUnit(cs[..n], u) + (if cs[n].unit == u then 1 else 0)
  }

  /** Candidates of two different units never outnumber the list. */
  lemma {:induction false} TwoUnitsCount(cs: seq<Candidate>, u: string, w: string)
    requires u != w
    ensures CountUnit(cs, u) + CountUnit(cs, w) <= |cs|
  {
    if |cs| > 0 {
      TwoUnitsCount(cs[..|cs| - 1], u, w);
    }
  }

  /** `best` leads the units of `cs[..j]`: it is among them, none of them has more
      candidates, and every tying unit is met only after `best` is. */
  ghost predicate Leads(cs: seq<Candidate>, j: nat, best: string)
    requires j <= |cs|
  {
    && (exists k :: 0 <= k < j && cs[k].unit == best)
    && (forall i :: 0 <= i < j ==> CountUnit(cs, cs[i].unit) <= CountUnit(cs, best))
    && (forall i :: 0 <= i < j && CountUnit(cs, cs[i].unit) == CountUnit(cs, best) && cs[i].unit != best ==>
          exists k :: 0 <= k < i && cs[k].unit == best)
  }

  function PickUnit(cs: seq<Candidate>, j: nat, best: string): (r: string)
    requires 0 < j <= |cs| && Leads(cs, j, best)
    ensures Leads(cs, |cs|, r)
    decreases |cs| - j
  {
    if j == |cs| then best
    else
      var u := cs[j].unit;
      if CountUnit(cs, u) > CountUnit(cs, best) then
        assert forall i :: 0 <= i < j ==> cs[i].unit != u;
        assert Leads(cs, j + 1, u);
        PickUnit(cs, j + 1, u)
      else
        assert Leads(cs, j + 1, best) by {
          var k :| 0 <= k < j && cs[k].unit == best;
          assert forall i :: 0 <= i < j + 1 && CountUnit(cs, cs[i].unit) == CountUnit(cs, best) && cs[i].unit != best ==>
            0 <= k < i || (exists k' :: 0 <= k' < i && cs[k'].unit == best);
        }
        PickUnit(cs, j + 1, best)
  }

  /** `Counter(unit_cnt).most_common()[0][0]`: a unit with the most candidates, the one
      met first when several tie. */
  function MostCommonUnit(cs: seq<Candidate>): (r: string)
    requires |cs| > 0
    ensures exists i :: 0 <= i < |cs| && cs[i].unit == r
    ensures forall u :: CountUnit(cs, u) <= CountUnit(cs, r)
    ensures forall i :: 0 <= i < |cs| && cs[i].unit != r && CountUnit(cs, cs[i].unit) == CountUnit(cs, r) ==>
      exists k :: 0 <= k < i && cs[k].unit == r
  {
    var r := PickUnit(cs, 1, cs[0].unit);
    forall u ensures CountUnit(cs, u) <= CountUnit(cs, r) {
      if CountUnit(cs, u) > 0 {
        var i :| 0 <= i < |cs| && cs[i].unit == u;
      }
    }
    r
  }

  /** A unit used by more than half of the candidates is the common unit. */
  lemma MajorityUnit(cs: seq<Candidate>, u: string)
    requires 2 * CountUnit(cs, u) > |cs|
    ensures |cs| > 0 && MostCommonUnit(cs) == u
  {
    var r := MostCommonUnit(cs);
    if r != u {
      TwoUnitsCount(cs, u, r);
    }
  }

  /** `filter(lambda x: x[1].unit == common_unit, candidates)`. */
  function OfUnit(cs: seq<Candidate>, u: string): (r: seq<Candidate>)
    ensures |r| == CountUnit(cs, u)
    ensures forall c :: c in r <==> c in cs && c.unit == u
  {
    if |cs| == 0 then []
    else
      var n := |cs| - 1;
      assert forall c :: c in cs <==> c in cs[..n] || c == cs[n];
      OfUnit(cs[..n], u) + (if cs[n].unit == u then [cs[n]] else [])
  }

  /** The candidates of the common unit; empty exactly when there are no candidates. */
  function Pool(cs: seq<Candidate>): (r: seq<Candidate>)
    ensures |r| > 0 <==> |cs| > 0
    ensures forall c :: c in r ==> c in cs
    ensures |cs| > 0 ==> forall c :: c in r <==> c in cs && c.unit == MostCommonUnit(cs)
  {
    if |cs| == 0 then [] else OfUnit(cs, MostCommonUnit(cs))
  }

  // ---------------------------------------------------------------------------
  // Extremes of a stable sort

  /** `sorted(...)[0]`: the first candidate of least amount. */
  function FirstMin(cs: seq<Candidate>): (i: nat)
    requires |cs| > 0
    ensures i < |cs|
    ensures forall j :: 0 <= j < |cs| ==> cs[i].amount <= cs[j].amount
    ensures forall j :: 0 <= j < i ==> cs[j].amount > cs[i].amount
  {
    if |cs| == 1 then 0
    else
      var n := |cs| - 1;
      var k := FirstMin(cs[..n]);
      assert forall j :: 0 <= j < n ==> cs[..n][j] == cs[j];
      if cs[n].amount < cs[k].amount then n else k
  }

  /** `sorted(...)[-1]`: the last candidate of greatest amount. */
  function LastMax(cs: seq<Candidate>): (i: nat)
    requires |cs| > 0
    ensures i < |cs|
    ensures forall j :: 0 <= j < |cs| ==> cs[j].amount <= cs[i].amount
    ensures forall j :: i < j < |cs| ==> cs[j].amount < cs[i].amount
  {
    if |cs| == 1 then 0
    else
      var n := |cs| - 1;
      var k := LastMax(cs[..n]);
      assert forall j :: 0 <= j < n ==> cs[..n][j] == cs[j];
      if cs[n].amount >= cs[k].amount then n else k
  }

  /** Every candidate the id sets offer under `key` for the two operations. */
  function BetweenCandidates(kb: KB, l: Entities, r: Entities, key: string): (cs: seq<Candidate>)
    requires Valid(kb)
    ensures forall c :: c in cs <==> HoldsQuantity(kb, l.ids, key, c) || HoldsQuantity(kb, r.ids, key, c)
    ensures forall c :: c in cs ==> c.id in kb.table
  {
    var cs := Candidates(kb, l.ids + r.ids, key);
    assert forall c :: HoldsQuantity(kb, l.ids + r.ids, key, c) <==>
      HoldsQuantity(kb, l.ids, key, c) || HoldsQuantity(kb, r.ids, key, c);
    cs
  }

  /** Position `i` holds the first least amount ("less") or the last greatest amount
      (anything else) of the list. */
  ghost predicate Picked(cs: seq<Candidate>, i: nat, op: string) {
    && i < |cs|
    && (op == "less" ==> forall j :: 0 <= j < |cs| ==> cs[i].amount <= cs[j].amount && (j < i ==> cs[j].amount > cs[i].amount))
    && (op != "less" ==> forall j :: 0 <= j < |cs| ==> cs[j].amount <= cs[i].amount && (j > i ==> cs[j].amount < cs[i].amount))
  }

  /** `sort[0][0] if op == "less" else sort[-1][0]`, as a position in the unsorted list. */
  function Pick(cs: seq<Candidate>, op: string): (i: nat)
    requires |cs| > 0
    ensures Picked(cs, i, op)
  {
    if op == "less" then FirstMin(cs) else LastMax(cs)
  }

  /** `SelectBetween`: the name of the candidate with the least ("less") or greatest
      (anything else) amount among those in the common unit, drawn from the left ids then
      the right ids; the first such candidate for "less", the last one otherwise. With no
      quantity under `key`, `most_common()[0]` raises. */
  function SelectBetween(kb: KB, l: Entities, r: Entities, key: string, op: string): (res: Result<string>)
    requires Valid(kb)
    ensures res.Err? <==> |BetweenCandidates(kb, l, r, key)| == 0
    ensures res.Err? ==> res.error == IndexOutOfRange
    ensures res.Ok? ==> var pool := Pool(BetweenCandidates(kb, l, r, key));
      pool[Pick(pool, op)].id in kb.table && res.value == kb.table[pool[Pick(pool, op)].id].name
  {
    var cs := BetweenCandidates(kb, l, r, key);
    if |cs| == 0 then Err(IndexOutOfRange)
    else
      var pool := Pool(cs);
      var i := Pick(pool, op);
      assert pool[i] in pool;
      Ok(kb.table[pool[i].id].name)
  }

  /** `x` is the least ("smallest") or greatest (anything else) amount of the list. */
  ghost predicate Extreme(cs: seq<Candidate>, x: real, op: string) {
    && (exists i :: 0 <= i < |cs| && cs[i].amount == x)
    && (op == "smallest" ==> forall j :: 0 <= j < |cs| ==> x <= cs[j].amount)
    && (op != "smallest" ==> forall j :: 0 <= j < |cs| ==> cs[j].amount <= x)
  }

  function NamesAt(kb: KB, cs: seq<Candidate>, x: real): (r: seq<string>)
    requires forall c :: c in cs ==> c.id in kb.table
    ensures forall n :: n in r <==> exists c :: c in cs && c.amount == x && n == kb.table[c.id].name
  {
    if |cs| == 0 then []
    else
      var k := |cs| - 1;
      assert forall c :: c in cs <==> c in cs[..k] || c == cs[k];
      NamesAt(kb, cs[..k], x) + (if cs[k].amount == x then [kb.table[cs[k].id].name] else [])
  }

  /** `sort[0][1]` for "smallest", `sort[-1][1]` otherwise. */
  function ExtremeAmount(cs: seq<Candidate>, op: string): (x: real)
    requires |cs| > 0
    ensures Extreme(cs, x, op)
  {
    if op == "smallest" then cs[FirstMin(cs)].amount else cs[LastMax(cs)].amount
  }

  /** `SelectAmong`: the names, without repetition, of every input entity whose quantity in
      the common unit is the least ("smallest") or greatest (anything else) of all. */
  function SelectAmong(kb: KB, input: Entities, key: string, op: string): (res: Result<seq<string>>)
    requires Valid(kb)
    ensures res.Err? <==> |Candidates(kb, Dedup(input.ids), key)| == 0
    ensures res.Err? ==> res.error == IndexOutOfRange
    ensures res.Ok? ==> Distinct(res.value)
    ensures res.Ok? ==> var pool := Pool(Candidates(kb, Dedup(input.ids), key));
      forall n :: n in res.value <==> exists c :: c in pool && c.amount == ExtremeAmount(pool, op) && n == kb.table[c.id].name
  {
    var cs := Candidates(kb, Dedup(input.ids), key);
    if |cs| == 0 then Err(IndexOutOfRange)
    else
      var pool := Pool(cs);
      assert forall c :: c in pool ==> c.id in kb.table;
      var names := NamesAt(kb, pool, ExtremeAmount(pool, op));
      var r := Dedup(names);
      assert forall n :: n in r <==> n in names;
      Ok(r)
  }

  /** `names` are the names, and only those, of the candidates of `cs` at its extreme amount. */
  ghost predicate NamedAtExtreme(kb: KB, cs: seq<Candidate>, names: seq<string>, op: string)
    requires forall c :: c in cs ==> c.id in kb.table
  {
    forall n :: n in names <==> exists c :: c in cs && Extreme(cs, c.amount, op) && n == kb.table[c.id].name
  }

  /** `u` has candidates, and no unit has more. */
  ghost predicate MostUsed(cs: seq<Candidate>, u: string) {
    CountUnit(cs, u) > 0 && forall w :: CountUnit(cs, w) <= CountUnit(cs, u)
  }

  /** `u` has more candidates than any other unit. */
  ghost predicate StrictlyMostUsed(cs: seq<Candidate>, u: string) {
    CountUnit(cs, u) > 0 && forall w :: w != u ==> CountUnit(cs, w) < CountUnit(cs, u)
  }

  /** `names` are those of the extreme candidates of some most used unit, and of the strictly
      most used unit when there is one. */
  ghost predicate NamesOfCommonUnit(kb: KB, cs: seq<Candidate>, names: seq<string>, op: string)
    requires forall c :: c in cs ==> c.id in kb.table
  {
    && (exists u :: MostUsed(cs, u) && NamedAtExtreme(kb, OfUnit(cs, u), names, op))
    && (forall u :: StrictlyMostUsed(cs, u) ==> NamedAtExtreme(kb, OfUnit(cs, u), names, op))
  }

  /** Which unit wins a tie for most common depends on the order the ids are visited in,
      which Python's `set` leaves open. Whatever that order, the names are those of the
      extreme candidates of some unit no other unit outnumbers; and when one unit strictly
      outnumbers every other, the names are those of its extreme candidates. */
  lemma SelectAmongCommonUnit(kb: KB, input: Entities, key: string, op: string)
    requires Valid(kb)
    ensures SelectAmong(kb, input, key, op).Ok? ==>
      NamesOfCommonUnit(kb, Candidates(kb, Dedup(input.ids), key), SelectAmong(kb, input, key, op).value, op)
    ensures forall u :: StrictlyMostUsed(Candidates(kb, Dedup(input.ids), key), u) ==> SelectAmong(kb, input, key, op).Ok?
  {
    var cs := Candidates(kb, Dedup(input.ids), key);
    var res := SelectAmong(kb, input, key, op);
    if res.Ok? {
      CommonUnitNames(kb, cs, res.value, op);
    }
  }

  /** The names of the extreme candidates of the most common unit are those of some unit no
      other outnumbers, and of the one unit that outnumbers all others when there is one. */
  lemma CommonUnitNames(kb: KB, cs: seq<Candidate>, names: seq<string>, op: string)
    requires |cs| > 0
    requires forall c :: c in cs ==> c.id in kb.table
    requires forall n :: n in names <==>
      exists c :: c in Pool(cs) && c.amount == ExtremeAmount(Pool(cs), op) && n == kb.table[c.id].name
    ensures NamesOfCommonUnit(kb, cs, names, op)
  {
    var r := MostCommonUnit(cs);
    AtExtremeAmount(kb, OfUnit(cs, r), names, op);
    assert MostUsed(cs, r);
    forall u | StrictlyMostUsed(cs, u) ensures u == r {
    }
  }

  /** Naming the candidates at the extreme amount is naming the extreme candidates. */
  lemma AtExtremeAmount(kb: KB, pool: seq<Candidate>, names: seq<string>, op: string)
    requires |pool| > 0
    requires forall c :: c in pool ==> c.id in kb.table
    requires forall n :: n in names <==>
      exists c :: c in pool && c.amount == ExtremeAmount(pool, op) && n == kb.table[c.id].name
    ensures NamedAtExtreme(kb, pool, names, op)
  {
    var x := ExtremeAmount(pool, op);
    forall c | c in pool && Extreme(pool, c.amount, op) ensures c.amount == x {
      ExtremeUnique(pool, c.amount, x, op);
    }
  }

  /** The extreme amount of a list is unique, so the names `SelectAmong` returns are
      exactly those of the candidates attaining it. */
  lemma ExtremeUnique(cs: seq<Candidate>, x: real, y: real, op: string)
    requires Extreme(cs, x, op) && Extreme(cs, y, op)
    ensures x == y
  {
    var i :| 0 <= i < |cs| && cs[i].amount == x;
    var j :| 0 <= j < |cs| && cs[j].amount == y;
  }

  /** With a single unit among the candidates, the pool is every candidate. */
  lemma SingleUnitPool(cs: seq<Candidate>, u: string)
    requires |cs| > 0
    requires forall c :: c in cs ==> c.unit == u
    ensures forall c :: c in Pool(cs) <==> c in cs
  {
    assert cs[0] in cs;
  }

  /** Two lists with the same members have the same least amount. */
  lemma SameLeast(p: seq<Candidate>, q: seq<Candidate>)
    requires |p| > 0
    requires forall c :: c in p <==> c in q
    ensures |q| > 0
    ensures p[Pick(p, "less")] in q
    ensures p[Pick(p, "less")].amount == ExtremeAmount(q, "smallest")
  {
    assert p[0] in q;
    var i := Pick(p, "less");
    var x := p[i].amount;
    assert p[i] in p;
    var k :| 0 <= k < |q| && q[k] == p[i];
    assert Extreme(q, x, "smallest") by {
      forall j | 0 <= j < |q| ensures x <= q[j].amount {
        assert q[j] in p;
        var m :| 0 <= m < |p| && p[m] == q[j];
      }
    }
    ExtremeUnique(q, x, ExtremeAmount(q, "smallest"), "smallest");
  }

  /** When every quantity the input holds under `key` is in one unit, `SelectBetween`
      (against an empty right side) and `SelectAmong` fail on the same inputs, and the
      entity the first picks as "less" is among those the second names as "smallest":
      both find the same least amount, whatever order the candidates come in. */
  lemma BetweenAgreesWithAmong(kb: KB, input: Entities, key: string, u: string)
    requires Valid(kb)
    requires forall c :: HoldsQuantity(kb, input.ids, key, c) ==> c.unit == u
    ensures SelectBetween(kb, input, Entities([], None), key, "less").Ok? <==> SelectAmong(kb, input, key, "smallest").Ok?
    ensures SelectBetween(kb, input, Entities([], None), key, "less").Ok? ==>
      SelectBetween(kb, input, Entities([], None), key, "less").value in SelectAmong(kb, input, key, "smallest").value
  {
    var none := Entities([], None);
    var cs1 := BetweenCandidates(kb, input, none, key);
    var cs2 := Candidates(kb, Dedup(input.ids), key);
    assert forall c :: c in cs1 <==> c in cs2 by {
      forall c ensures c in cs1 <==> c in cs2 {
        assert HoldsQuantity(kb, input.ids, key, c) <==> HoldsQuantity(kb, Dedup(input.ids), key, c);
        assert !HoldsQuantity(kb, none.ids, key, c);
      }
    }
    if |cs2| > 0 {
      assert cs2[0] in cs1;
    }
    if |cs1| > 0 {
      assert cs1[0] in cs2;
      SingleUnitPool(cs1, u);
      SingleUnitPool(cs2, u);
      var pool1 := Pool(cs1);
      var pool2 := Pool(cs2);
      SameLeast(pool1, pool2);
    }
  }
}
