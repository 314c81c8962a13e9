/** The typed values of the knowledge base (`ValueClass` in util.py) and the one
    comparison dispatcher `comp` that every filter, query and verification uses. */
module Values {
  import opened Results

  /** A calendar date as `datetime.date` stores it: year, month, day. */
  datatype Date = Date(year: int, month: int, day: int)

  predicate IsLeapYear(y: int) {
    y % 4 == 0 && (y % 100 != 0 || y % 400 == 0)
  }

  function DaysInMonth(y: int, m: int): (n: int)
    requires 1 <= m <= 12
    ensures 28 <= n <= 31
    ensures m == 2 ==> (n == 29 <==> IsLeapYear(y))
  {
    if m == 2 then (if IsLeapYear(y) then 29 else 28)
    else if m == 4 || m == 6 || m == 9 || m == 11 then 30
    else 31
  }

  /** What `datetime.date(y, m, d)` accepts: years 1..9999 and a day that exists in the month. */
  predicate ValidDate(y: int, m: int, d: int) {
    1 <= y <= 9999 && 1 <= m <= 12 && 1 <= d <= DaysInMonth(y, m)
  }

  /** The constructor's calendar check becomes the type's invariant. */
  type CalendarDate = d: Date | ValidDate(d.year, d.month, d.day) witness Date(1, 1, 1)

  /** `ValueClass`: a string, a number with a unit, a year, or a date. */
  datatype Value =
    | Str(text: string)
    | Quantity(amount: real, unit: string)
    | Year(y: int)
    | DateValue(d: CalendarDate)

  /** The `type` label the source keeps beside each value. */
  function TypeName(v: Value): string {
    match v
    case Str(_) => "string"
    case Quantity(_, _) => "quantity"
    case Year(_) => "year"
    case DateValue(_) => "date"
  }

  /** `isTime`: year or date. */
  predicate IsTime(v: Value) {
    v.Year? || v.DateValue?
  }

  /** `can_compare`, decided on the left operand's type first. */
  predicate CanCompare(a: Value, b: Value) {
    match a
    case Str(_) => b.Str?
    case Quantity(_, u) => b.Quantity? && b.unit == u
    case _ => b.Year? || b.DateValue?
  }

  /** `convert_to_year`: a date becomes the year it falls in; anything else is unchanged. */
  function ConvertToYear(v: Value): (r: Value)
    ensures IsTime(r) <==> IsTime(v)
    ensures !v.DateValue? ==> r == v
    ensures r.Year? && v.DateValue? ==> r.y == v.d.year
    ensures !r.DateValue?
  {
    if v.DateValue? then Year(v.d.year) else v
  }

  /** `contains`: a date and a year (in either order) that share the calendar year. */
  predicate Contains(a: Value, b: Value) {
    if a.DateValue? && b.Year? then a.d.year == b.y
    else if b.DateValue? && a.Year? then b.d.year == a.y
    else false
  }

  /** `__eq__`: comparable, same type and same value. */
  predicate Eq(a: Value, b: Value) {
    CanCompare(a, b) && TypeName(a) == TypeName(b) &&
    match a
    case Str(s) => b.Str? && b.text == s
    case Quantity(x, _) => b.Quantity? && b.amount == x
    case Year(y) => b.Year? && b.y == y
    case DateValue(d) => b.DateValue? && b.d == d
  }

  /** Python's ordering of `datetime.date`: by year, then month, then day. */
  predicate DateLess(d1: Date, d2: Date) {
    d1.year < d2.year
    || (d1.year == d2.year && d1.month < d2.month)
    || (d1.year == d2.year && d1.month == d2.month && d1.day < d2.day)
  }

  /** Python's `str` ordering: code point by code point, a proper prefix first. */
  predicate LexLess(s: string, t: string) {
    if |s| == 0 then |t| > 0
    else if |t| == 0 then false
    else if s[0] != t[0] then s[0] < t[0]
    else LexLess(s[1..], t[1..])
  }

  /** `__lt__`: asserts comparability, refuses strings, orders years against dates by the date's year. */
  function Lt(a: Value, b: Value): (r: Result<bool>)
    ensures r.Ok? <==> CanCompare(a, b) && !a.Str?
    ensures r.Err? ==> (r.error == AssertionFailed <==> !CanCompare(a, b))
    ensures r.Err? ==> (r.error == OrderOnString <==> CanCompare(a, b))
  {
    if !CanCompare(a, b) then Err(AssertionFailed)
    else
      match a
      case Str(_) => Err(OrderOnString)
      case Quantity(x, _) => Ok(x < b.amount)
      case Year(y) => if b.Year? then Ok(y < b.y) else Ok(y < b.d.year)
      case DateValue(d) => if b.Year? then Ok(d.year < b.y) else Ok(DateLess(d, b.d))
  }

  /** `__gt__`: never raises; orders strings, same-unit quantities and temporal values,
      and answers false for every other pair. */
  function Gt(a: Value, b: Value): (r: bool)
    ensures r ==> CanCompare(a, b)
  {
    match (a, b)
    case (Str(s), Str(t)) => LexLess(t, s)
    case (Quantity(x, u), Quantity(z, w)) => u == w && x > z
    case (Year(y), Year(z)) => y > z
    case (DateValue(d), DateValue(e)) => DateLess(e, d)
    case (DateValue(d), Year(z)) => d.year > z
    case (Year(y), DateValue(e)) => y > e.year
    case _ => false
  }

  /** `comp(a, b, op)`: when `b` is temporal, `=` and `!=` mean containment;
      otherwise the operator goes to `__eq__`, `__lt__` or `__gt__`. */
  function Comp(a: Value, b: Value, op: string): (r: Result<bool>)
    ensures r.Err? ==> op !in {"=", "!="}
    ensures r.Err? && op != "<" ==> op !in {"=", "!=", ">"} && r.error == UnsupportedOperator
    ensures r.Err? && op == "<" ==> r.error in {AssertionFailed, OrderOnString}
  {
    if IsTime(b) && op == "=" then Ok(Contains(b, a))
    else if IsTime(b) && op == "!=" then Ok(!Contains(b, a))
    else if op == "=" then Ok(Eq(a, b))
    else if op == "<" then Lt(a, b)
    else if op == ">" then Ok(Gt(a, b))
    else if op == "!=" then Ok(!Eq(a, b))
    else Err(UnsupportedOperator)
  }

  // ---------------------------------------------------------------------------
  // Properties of the comparison table

  /** `can_compare` groups values into strings, quantities of one unit, and temporal values. */
  lemma CanCompareClasses(a: Value, b: Value)
    ensures CanCompare(a, b) <==>
      (a.Str? && b.Str?)
      || (a.Quantity? && b.Quantity? && a.unit == b.unit)
      || (IsTime(a) && IsTime(b))
  {
  }

  lemma CanCompareReflexive(a: Value)
    ensures CanCompare(a, a)
  {
  }

  lemma CanCompareSymmetric(a: Value, b: Value)
    ensures CanCompare(a, b) <==> CanCompare(b, a)
  {
  }

  /** Strict equality is identity of the typed value: year 2001 never equals a date in 2001. */
  lemma EqIsIdentity(a: Value, b: Value)
    ensures Eq(a, b) <==> a == b
    ensures Eq(a, b) ==> CanCompare(a, b)
  {
  }

  /** Containment holds exactly for a date and a year of the same calendar year, in either order. */
  lemma ContainsCharacterization(a: Value, b: Value)
    ensures Contains(a, b) <==>
      (a.DateValue? && b.Year? && a.d.year == b.y) || (a.Year? && b.DateValue? && b.d.year == a.y)
    ensures Contains(a, b) <==> Contains(b, a)
    ensures a.Year? && b.Year? ==> !Contains(a, b)
    ensures a.DateValue? && b.DateValue? ==> !Contains(a, b)
  {
  }

  /** A date lies in a year exactly when converting the date to its year gives that year. */
  lemma ContainsViaConvertToYear(d: CalendarDate, y: int)
    ensures Contains(DateValue(d), Year(y)) <==> ConvertToYear(DateValue(d)) == Year(y)
  {
  }

  lemma ConvertToYearIdempotent(v: Value)
    ensures ConvertToYear(ConvertToYear(v)) == ConvertToYear(v)
  {
  }

  /** With a temporal right operand, `=` is containment and `!=` its complement. */
  lemma CompTemporalEquality(a: Value, b: Value)
    requires IsTime(b)
    ensures Comp(a, b, "=") == Ok(Contains(b, a))
    ensures Comp(a, b, "!=") == Ok(!Contains(b, a))
    ensures Comp(a, b, "=").value != Comp(a, b, "!=").value
  {
  }

  /** The quirk of containment equality: a year never `=`-matches a year, not even itself. */
  lemma CompYearEqualsYearIsFalse(y: int, z: int)
    ensures Comp(Year(y), Year(z), "=") == Ok(false)
    ensures Comp(Year(y), Year(z), "!=") == Ok(true)
  {
  }

  /** Away from temporal right operands, `=` and `!=` are strict equality and its negation. */
  lemma CompNonTemporalEquality(a: Value, b: Value)
    requires !IsTime(b)
    ensures Comp(a, b, "=") == Ok(a == b)
    ensures Comp(a, b, "!=") == Ok(a != b)
  {
  }

  lemma CompRejectsUnknownOperator(a: Value, b: Value, op: string)
    requires op !in {"=", "!=", "<", ">"}
    ensures Comp(a, b, op) == Err(UnsupportedOperator)
  {
  }

  /** `<` on strings raises, while `>` on strings orders them lexicographically. */
  lemma StringOrderingIsOneSided(s: string, t: string)
    ensures Lt(Str(s), Str(t)) == Err(OrderOnString)
    ensures Gt(Str(s), Str(t)) <==> LexLess(t, s)
    ensures Comp(Str(s), Str(t), "<") == Err(OrderOnString)
  {
  }

  /** On incomparable pairs `<` fails its assertion and `>` answers false. */
  lemma IncomparableOrdering(a: Value, b: Value)
    requires !CanCompare(a, b)
    ensures Lt(a, b) == Err(AssertionFailed)
    ensures !Gt(a, b)
  {
  }

  /** For comparable non-string pairs, `a > b` is exactly `b < a`. */
  lemma GtIsConverseOfLt(a: Value, b: Value)
    requires CanCompare(a, b) && !a.Str?
    ensures Lt(b, a) == Ok(Gt(a, b))
  {
  }

  /** A year and a date are ordered by the date's year, in both directions. */
  lemma MixedTemporalOrderByYear(y: int, d: CalendarDate)
    ensures Lt(Year(y), DateValue(d)) == Ok(y < d.year)
    ensures Lt(DateValue(d), Year(y)) == Ok(d.year < y)
    ensures Gt(Year(y), DateValue(d)) <==> y > d.year
    ensures Gt(DateValue(d), Year(y)) <==> d.year > y
  {
  }

  lemma {:induction false} LexLessIrreflexive(s: string)
    ensures !LexLess(s, s)
  {
    if |s| > 0 {
      LexLessIrreflexive(s[1..]);
    }
  }

  lemma {:induction false} LexLessTransitive(s: string, t: string, u: string)
    requires LexLess(s, t) && LexLess(t, u)
    ensures LexLess(s, u)
  {
    if |s| > 0 && |t| > 0 && |u| > 0 && s[0] == t[0] && t[0] == u[0] {
      LexLessTransitive(s[1..], t[1..], u[1..]);
    }
  }

  /** `>` on strings is a strict order: irreflexive and transitive. */
  lemma StringGtIsStrictOrder(s: string, t: string, u: string)
    ensures !Gt(Str(s), Str(s))
    ensures Gt(Str(s), Str(t)) && Gt(Str(t), Str(u)) ==> Gt(Str(s), Str(u))
  {
    LexLessIrreflexive(s);
    if Gt(Str(s), Str(t)) && Gt(Str(t), Str(u)) {
      LexLessTransitive(u, t, s);
    }
  }
}
