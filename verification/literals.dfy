/** Parsing literal text into typed values: the temporal splitter shared by the
    knowledge base's `_parse_value` and the engine's `_parse_key_value`, and the
    quantity splitter of `_parse_key_value`. */
module Literals {
  import opened Results
  import opened Values

  // ---------------------------------------------------------------------------
  // Integers: `int(text)` and its inverse `str(n)`

  predicate IsDigit(c: char) {
    '0' <= c <= '9'
  }

  predicate AllDigits(s: string) {
    forall i :: 0 <= i < |s| ==> IsDigit(s[i])
  }

  function DigitValue(c: char): (n: nat)
    requires IsDigit(c)
    ensures n < 10
  {
    (c as int) - ('0' as int)
  }

  function DigitChar(n: nat): (c: char)
    requires n < 10
    ensures IsDigit(c) && DigitValue(c) == n
  {
    (('0' as int) + n) as char
  }

  /** The value of a string of decimal digits, most significant first. */
  function DigitsValue(s: string): (n: nat)
    requires AllDigits(s)
  {
    if |s| == 0 then 0
    else DigitsValue(s[..|s| - 1]) * 10 + DigitValue(s[|s| - 1])
  }

  /** The value of a non-empty run of decimal digits; `None` when `s` is empty or holds a non-digit. */
  function ParseDigits(s: string): (r: Option<nat>)
    decreases |s|
  {
    if |s| == 0 || !IsDigit(s[|s| - 1]) then None
    else if |s| == 1 then Some(DigitValue(s[0]))
    else
      match ParseDigits(s[..|s| - 1])
      case Some(v) => Some(v * 10 + DigitValue(s[|s| - 1]))
      case None => None
  }

  /** Reading digits succeeds exactly on non-empty digit strings, with their positional value. */
  lemma {:induction false} ParseDigitsIsValue(s: string)
    ensures ParseDigits(s).Some? <==> |s| > 0 && AllDigits(s)
    ensures ParseDigits(s).Some? ==> ParseDigits(s).value == DigitsValue(s)
    decreases |s|
  {
    if |s| > 1 {
      var front := s[..|s| - 1];
      ParseDigitsIsValue(front);
      assert forall i :: 0 <= i < |front| ==> front[i] == s[i];
      if IsDigit(s[|s| - 1]) && AllDigits(front) {
        assert AllDigits(s) by {
          forall i | 0 <= i < |s| ensures IsDigit(s[i]) {
            if i < |front| { assert s[i] == front[i]; }
          }
        }
      }
    } else if |s| == 1 {
      assert s[..0] == [];
    }
  }

  /** `int(s)` on an optional sign followed by at least one decimal digit. */
  function ParseInt(s: string): (r: Option<int>)
    ensures r.Some? ==> |s| > 0
  {
    if |s| > 0 && (s[0] == '-' || s[0] == '+') then
      match ParseDigits(s[1..])
      case Some(magnitude) => Some(if s[0] == '-' then 0 - magnitude else magnitude)
      case None => None
    else ParseDigits(s)
  }

  /** `str(n)` for a natural number. */
  function NatText(n: nat): (s: string)
    ensures |s| > 0 && AllDigits(s)
  {
    if n < 10 then [DigitChar(n)] else NatText(n / 10) + [DigitChar(n % 10)]
  }

  /** `str(n)` for an integer: a minus sign, if any, then the digits. */
  function IntText(n: int): (s: string)
    ensures |s| > 0
  {
    if n < 0 then "-" + NatText(-n) else NatText(n)
  }

  lemma {:induction false} NatTextValue(n: nat)
    ensures DigitsValue(NatText(n)) == n
  {
    if n >= 10 {
      NatTextValue(n / 10);
      var s := NatText(n);
      assert s[..|s| - 1] == NatText(n / 10);
    }
  }

  /** Reading back the decimal text of a natural number gives the number. */
  lemma NatTextRoundTrip(n: nat)
    ensures ParseInt(NatText(n)) == Some(n)
  {
    NatTextValue(n);
    ParseDigitsIsValue(NatText(n));
  }

  /** Reading back the decimal text of an integer gives the integer. */
  lemma IntTextRoundTrip(n: int)
    ensures ParseInt(IntText(n)) == Some(n)
  {
    if n < 0 {
      NatTextValue(-n);
      ParseDigitsIsValue(NatText(-n));
      assert IntText(n)[1..] == NatText(-n);
    } else {
      NatTextValue(n);
      ParseDigitsIsValue(NatText(n));
    }
  }

  // ---------------------------------------------------------------------------
  // Decimal numbers: the part of `float(text)` the model keeps

  function Pow10(k: nat): (p: nat)
    ensures p >= 1
  {
    if k == 0 then 1 else 10 * Pow10(k - 1)
  }

  function IndexOf(s: string, c: char): (i: int)
    ensures -1 <= i < |s|
    ensures i >= 0 ==> s[i] == c && c !in s[..i]
    ensures i < 0 <==> c !in s
  {
    if |s| == 0 then -1
    else if s[0] == c then 0
    else
      var j := IndexOf(s[1..], c);
      if j < 0 then -1 else (assert s[..j + 1] == [s[0]] + s[1..][..j]; j + 1)
  }

  function LastIndexOf(s: string, c: char): (i: int)
    ensures -1 <= i < |s|
    ensures i >= 0 ==> s[i] == c && c !in s[i + 1..]
    ensures i < 0 <==> c !in s
  {
    if |s| == 0 then -1
    else if s[|s| - 1] == c then |s| - 1
    else
      var front := s[..|s| - 1];
      var j := LastIndexOf(front, c);
      assert s == front + [s[|s| - 1]];
      if j >= 0 then
        assert s[j] == front[j];
        assert s[j + 1..] == front[j + 1..] + [s[|s| - 1]];
        j
      else
        assert c !in front;
        -1
  }

  /** Unsigned `digits[.digits]` with at least one digit on either side of the point. */
  function ParseUnsignedDecimal(s: string): Option<real> {
    var p := IndexOf(s, '.');
    if p < 0 then
      if |s| > 0 && AllDigits(s) then Some(DigitsValue(s) as real) else None
    else
      var whole := s[..p];
      var frac := s[p + 1..];
      if (|whole| > 0 || |frac| > 0) && AllDigits(whole) && AllDigits(frac) then
        Some(DigitsValue(whole) as real + (DigitsValue(frac) as real) / (Pow10(|frac|) as real))
      else None
  }

  /** `float(s)` on plain decimal notation with an optional sign. */
  function ParseNumber(s: string): (r: Option<real>)
    ensures r.Some? ==> |s| > 0
  {
    if |s| > 0 && (s[0] == '-' || s[0] == '+') then
      match ParseUnsignedDecimal(s[1..])
      case Some(x) => Some(if s[0] == '-' then -x else x)
      case None => None
    else ParseUnsignedDecimal(s)
  }

  // ---------------------------------------------------------------------------
  // `str.split()` and `" ".join(...)`

  /** The characters `str.split()` treats as separators: the code points Python's `str.isspace`
      accepts, from tab to carriage return, the four information separators, the space, and the
      Unicode spaces, line and paragraph separators. */
  predicate IsSpace(c: char) {
    c == ' ' || '\t' <= c <= '\r' || '\U{1C}' <= c <= '\U{1F}'
    || c == '\U{85}' || c == '\U{A0}' || c == '\U{1680}' || '\U{2000}' <= c <= '\U{200A}'
    || c == '\U{2028}' || c == '\U{2029}' || c == '\U{202F}' || c == '\U{205F}' || c == '\U{3000}'
  }

  predicate NoSpace(s: string) {
    forall i :: 0 <= i < |s| ==> !IsSpace(s[i])
  }

  /** A word: non-empty and free of separators. */
  predicate IsWord(w: string) {
    |w| > 0 && NoSpace(w)
  }

  /** Length of the run of non-separator characters at the start of `s`. */
  function WordLength(s: string): (n: nat)
    ensures n <= |s|
    ensures NoSpace(s[..n])
    ensures n < |s| ==> IsSpace(s[n])
  {
    if |s| == 0 || IsSpace(s[0]) then 0
    else
      var n := 1 + WordLength(s[1..]);
      assert s[..n] == [s[0]] + s[1..][..n - 1];
      n
  }

  /** `s.split()`: the maximal runs of non-separators, in order. */
  function Words(s: string): (ws: seq<string>)
    ensures forall i :: 0 <= i < |ws| ==> IsWord(ws[i])
    decreases |s|
  {
    if |s| == 0 then []
    else if IsSpace(s[0]) then Words(s[1..])
    else
      var n := WordLength(s);
      [s[..n]] + Words(s[n..])
  }

  /** `" ".join(ws)`. */
  function JoinSpace(ws: seq<string>): string {
    if |ws| == 0 then ""
    else if |ws| == 1 then ws[0]
    else ws[0] + " " + JoinSpace(ws[1..])
  }

  lemma {:induction false} WordLengthOfWord(w: string, rest: string)
    requires IsWord(w)
    requires |rest| == 0 || IsSpace(rest[0])
    ensures WordLength(w + rest) == |w|
    decreases |w|
  {
    var s := w + rest;
    assert s[0] == w[0] && !IsSpace(s[0]);
    if |w| > 1 {
      assert s[1..] == w[1..] + rest;
      assert IsWord(w[1..]) by {
        forall i | 0 <= i < |w[1..]| ensures !IsSpace(w[1..][i]) {
          assert w[1..][i] == w[i + 1];
        }
      }
      WordLengthOfWord(w[1..], rest);
    } else {
      assert s[1..] == rest;
    }
  }

  /** Splitting words joined by single spaces gives back the words. */
  lemma {:induction false} WordsOfJoin(ws: seq<string>)
    requires forall i :: 0 <= i < |ws| ==> IsWord(ws[i])
    ensures Words(JoinSpace(ws)) == ws
  {
    if |ws| == 1 {
      WordLengthOfWord(ws[0], "");
      assert ws[0] + "" == ws[0];
      assert ws[0][|ws[0]|..] == "";
    } else if |ws| > 1 {
      var rest := " " + JoinSpace(ws[1..]);
      assert JoinSpace(ws) == ws[0] + rest;
      WordLengthOfWord(ws[0], rest);
      assert (ws[0] + rest)[..|ws[0]|] == ws[0];
      assert (ws[0] + rest)[|ws[0]|..] == rest;
      assert rest[1..] == JoinSpace(ws[1..]);
      WordsOfJoin(ws[1..]);
      assert Words(rest) == Words(JoinSpace(ws[1..]));
      assert ws == [ws[0]] + ws[1..];
    }
  }

  // ---------------------------------------------------------------------------
  // The two literal parsers

  /** True when the temporal text is read as a date: it has a `/`, or a `-` that is not its first character. */
  predicate LooksLikeDate(x: string) {
    '/' in x || ('-' in x && x[0] != '-')
  }

  /** The separator of a date-like text: `/` when the text has one, `-` otherwise. */
  function DateSeparator(x: string): char {
    if '/' in x then '/' else '-'
  }

  /** The date spelled around two separator positions `p1 < p2`: the year is the integer before
      `p1`, the month the one between them, the day the one after `p2`; `None` when the positions
      are not two distinct ones, a part is not an integer, or the three are no calendar date. */
  function DateBetween(x: string, p1: int, p2: int): (r: Option<Date>)
    ensures r.Some? ==>
      0 <= p1 < p2 < |x|
      && ParseInt(x[..p1]) == Some(r.value.year)
      && ParseInt(x[p1 + 1..p2]) == Some(r.value.month)
      && ParseInt(x[p2 + 1..]) == Some(r.value.day)
      && ValidDate(r.value.year, r.value.month, r.value.day)
  {
    if 0 <= p1 < p2 < |x| then
      var y, m, d := ParseInt(x[..p1]), ParseInt(x[p1 + 1..p2]), ParseInt(x[p2 + 1..]);
      if y.Some? && m.Some? && d.Some? && ValidDate(y.value, m.value, d.value) then
        Some(Date(y.value, m.value, d.value))
      else None
    else None
  }

  /** The date a date-like text denotes, read around the first and last separator. */
  function DateParts(x: string): Option<Date> {
    var sep := DateSeparator(x);
    DateBetween(x, IndexOf(x, sep), LastIndexOf(x, sep))
  }

  /** A text with a `/`, or with a `-` after its first character, is read as a date;
      any other text is read as a signed year. */
  function ParseTemporal(x: string): (r: Result<Value>)
    ensures r.Ok? ==> IsTime(r.value)
    ensures r.Ok? && r.value.Year? ==> !LooksLikeDate(x) && ParseInt(x) == Some(r.value.y)
    ensures r.Ok? && r.value.DateValue? ==> LooksLikeDate(x) && DateParts(x) == Some(r.value.d)
    ensures !LooksLikeDate(x) ==> (r.Ok? <==> ParseInt(x).Some?)
    ensures LooksLikeDate(x) ==> (r.Ok? <==> DateParts(x).Some?)
    ensures r.Err? ==> r.error == ParseFailure
  {
    if LooksLikeDate(x) then
      match DateParts(x)
      case Some(dt) => Ok(DateValue(dt))
      case None => Err(ParseFailure)
    else
      match ParseInt(x)
      case Some(n) => Ok(Year(n))
      case None => Err(ParseFailure)
  }

  /** The numeric-text branch of `_parse_key_value`: a text with a space is split into a
      number word and unit words; a text without one is a bare number of unit "1". */
  function ParseQuantity(value: string): (r: Result<Value>)
    ensures r.Ok? ==> r.value.Quantity?
    ensures r.Ok? && ' ' !in value ==> r.value.unit == "1" && ParseNumber(value) == Some(r.value.amount)
    ensures r.Ok? && ' ' in value ==>
      |Words(value)| > 0 && ParseNumber(Words(value)[0]) == Some(r.value.amount)
      && r.value.unit == JoinSpace(Words(value)[1..])
    ensures ' ' in value ==> (r.Ok? <==> |Words(value)| > 0 && ParseNumber(Words(value)[0]).Some?)
    ensures ' ' !in value ==> (r.Ok? <==> ParseNumber(value).Some?)
    ensures r.Err? ==> (r.error == IndexOutOfRange <==> ' ' in value && |Words(value)| == 0)
    ensures r.Err? ==> r.error in {ParseFailure, IndexOutOfRange}
  {
    if ' ' in value then
      var vs := Words(value);
      if |vs| == 0 then Err(IndexOutOfRange)
      else
        match ParseNumber(vs[0])
        case Some(x) => Ok(Quantity(x, JoinSpace(vs[1..])))
        case None => Err(ParseFailure)
    else
      match ParseNumber(value)
      case Some(x) => Ok(Quantity(x, "1"))
      case None => Err(ParseFailure)
  }

  /** `_parse_key_value`: the explicit type wins; without one the key's recorded type is used. */
  function ParseKeyValue(keyType: map<string, string>, key: Option<string>, value: string, typ: Option<string>)
    : (r: Result<Value>)
    ensures typ.None? && key.None? ==> r == Err(MissingKeyAndType)
    ensures typ.None? && key.Some? && key.value !in keyType ==> r == Err(KeyNotFound)
    ensures r.Ok? ==> TypeName(r.value) != "string" || r.value == Str(value)
    ensures typ == Some("string") ==> r == Ok(Str(value))
    ensures typ == Some("quantity") ==> r == ParseQuantity(value)
    ensures typ.Some? && typ.value != "string" && typ.value != "quantity" ==> r == ParseTemporal(value)
  {
    var t :- if typ.Some? then Ok(typ.value)
             else if key.None? then Err(MissingKeyAndType)
             else if key.value in keyType then Ok(keyType[key.value])
             else Err(KeyNotFound);
    if t == "string" then Ok(Str(value))
    else if t == "quantity" then ParseQuantity(value)
    else ParseTemporal(value)
  }

  // ---------------------------------------------------------------------------
  // Properties of the literal parsers

  /** Without an explicit type, a known key parses exactly as its recorded type would. */
  lemma KeyTypeDecides(keyType: map<string, string>, key: string, value: string)
    requires key in keyType
    ensures ParseKeyValue(keyType, Some(key), value, None) == ParseKeyValue(keyType, None, value, Some(keyType[key]))
    ensures ParseKeyValue(keyType, Some(key), value, None) == ParseKeyValue(map[], None, value, Some(keyType[key]))
  {
  }

  /** A leading minus sign without a slash is a negative year, not a date. */
  lemma NegativeYearIsYear()
    ensures ParseTemporal("-500") == Ok(Year(-500))
  {
    assert NatText(5) == "5";
    assert NatText(50) == "50";
    assert NatText(500) == "500";
    assert IntText(-500) == "-500";
    YearTextRoundTrip(-500);
  }

  lemma NatTextHasNoSigns(n: nat)
    ensures '/' !in NatText(n) && '-' !in NatText(n)
  {
    var s := NatText(n);
    assert forall i :: 0 <= i < |s| ==> s[i] != '/' && s[i] != '-';
  }

  /** The first occurrence is where `c` appears with no earlier occurrence. */
  lemma IndexOfIs(s: string, c: char, k: nat)
    requires k < |s| && s[k] == c && c !in s[..k]
    ensures IndexOf(s, c) == k
  {
    var i := IndexOf(s, c);
    assert forall j :: 0 <= j < k ==> s[..k][j] == s[j];
    assert forall j :: 0 <= j < i ==> s[..i][j] == s[j];
  }

  /** The last occurrence is where `c` appears with no later occurrence. */
  lemma LastIndexOfIs(s: string, c: char, k: nat)
    requires k < |s| && s[k] == c && c !in s[k + 1..]
    ensures LastIndexOf(s, c) == k
  {
    var i := LastIndexOf(s, c);
    assert forall j :: k < j < |s| ==> s[k + 1..][j - k - 1] == s[j];
    assert forall j :: i < j < |s| ==> s[i + 1..][j - i - 1] == s[j];
  }

  /** The text of a year number, as `str()` of a JSON integer produces it, is read back as that year. */
  lemma YearTextRoundTrip(n: int)
    ensures ParseTemporal(IntText(n)) == Ok(Year(n))
  {
    var x := IntText(n);
    if n < 0 {
      NatTextHasNoSigns(-n);
      assert x == "-" + NatText(-n);
      assert x[0] == '-';
    } else {
      NatTextHasNoSigns(n);
    }
    assert !LooksLikeDate(x);
    IntTextRoundTrip(n);
  }

  /** The three parts of `ys c ms c ds` are where they were put. */
  lemma SeparatedSlices(ys: string, ms: string, ds: string, c: char)
    ensures var x := ys + [c] + ms + [c] + ds;
      x[..|ys|] == ys && x[|ys| + 1..|ys| + 1 + |ms|] == ms && x[|ys| + 1 + |ms| + 1..] == ds
  {
  }

  /** In `ys c ms c ds` with separator-free parts, the first `c` ends the year part, the last
      one starts the day part, and `c` is the separator the date reader picks. */
  lemma SeparatedTextSplit(ys: string, ms: string, ds: string, c: char)
    requires c == '/' || c == '-'
    requires |ys| > 0
    requires '/' !in ys && '-' !in ys && '/' !in ms && '-' !in ms && '/' !in ds && '-' !in ds
    ensures var x := ys + [c] + ms + [c] + ds;
      LooksLikeDate(x) && DateSeparator(x) == c
      && IndexOf(x, c) == |ys| && LastIndexOf(x, c) == |ys| + 1 + |ms|
  {
    var x := ys + [c] + ms + [c] + ds;
    var q := |ys| + 1 + |ms|;
    SeparatedSlices(ys, ms, ds, c);
    assert x[|ys|] == c && x[q] == c;
    assert x[0] == ys[0];
    if c == '-' {
      assert '/' !in x;
    }
    IndexOfIs(x, c, |ys|);
    LastIndexOfIs(x, c, q);
  }

  /** A date-like text whose parts around the first and last separator read as a calendar
      date parses to that date. */
  lemma TemporalOfParts(x: string, c: char, p1: int, p2: int, y: int, m: int, d: int)
    requires LooksLikeDate(x) && DateSeparator(x) == c
    requires IndexOf(x, c) == p1 && LastIndexOf(x, c) == p2 && 0 <= p1 < p2 < |x|
    requires ParseInt(x[..p1]) == Some(y) && ParseInt(x[p1 + 1..p2]) == Some(m) && ParseInt(x[p2 + 1..]) == Some(d)
    requires ValidDate(y, m, d)
    ensures ParseTemporal(x) == Ok(DateValue(Date(y, m, d)))
  {
  }

  /** Separator-free parts joined by `/` or by `-` that read as a calendar date parse to that date. */
  lemma SeparatedDateText(ys: string, ms: string, ds: string, c: char, y: int, m: int, d: int)
    requires c == '/' || c == '-'
    requires |ys| > 0
    requires '/' !in ys && '-' !in ys && '/' !in ms && '-' !in ms && '/' !in ds && '-' !in ds
    requires ParseInt(ys) == Some(y) && ParseInt(ms) == Some(m) && ParseInt(ds) == Some(d)
    requires ValidDate(y, m, d)
    ensures ParseTemporal(ys + [c] + ms + [c] + ds) == Ok(DateValue(Date(y, m, d)))
  {
    var x := ys + [c] + ms + [c] + ds;
    var p1, p2 := |ys|, |ys| + 1 + |ms|;
    SeparatedTextSplit(ys, ms, ds, c);
    SeparatedSlices(ys, ms, ds, c);
    var xs, xm, xd := x[..p1], x[p1 + 1..p2], x[p2 + 1..];
    assert xs == ys && xm == ms && xd == ds;
    TemporalOfParts(x, c, p1, p2, y, m, d);
  }

  /** A valid date written `y-m-d` is read back as that date. */
  lemma DateTextRoundTrip(y: nat, m: nat, d: nat)
    requires ValidDate(y, m, d)
    ensures ParseTemporal(NatText(y) + "-" + NatText(m) + "-" + NatText(d)) == Ok(DateValue(Date(y, m, d)))
  {
    NatTextHasNoSigns(y);
    NatTextHasNoSigns(m);
    NatTextHasNoSigns(d);
    NatTextRoundTrip(y);
    NatTextRoundTrip(m);
    NatTextRoundTrip(d);
    SeparatedDateText(NatText(y), NatText(m), NatText(d), '-', y, m, d);
  }

  /** A valid date written `y/m/d` is read back as that date too. */
  lemma SlashDateTextRoundTrip(y: nat, m: nat, d: nat)
    requires ValidDate(y, m, d)
    ensures ParseTemporal(NatText(y) + "/" + NatText(m) + "/" + NatText(d)) == Ok(DateValue(Date(y, m, d)))
  {
    NatTextHasNoSigns(y);
    NatTextHasNoSigns(m);
    NatTextHasNoSigns(d);
    NatTextRoundTrip(y);
    NatTextRoundTrip(m);
    NatTextRoundTrip(d);
    SeparatedDateText(NatText(y), NatText(m), NatText(d), '/', y, m, d);
  }

  /** A number word followed by unit words parses to that number with the words as unit. */
  lemma QuantityTextRoundTrip(number: string, units: seq<string>)
    requires IsWord(number) && ParseNumber(number).Some?
    requires |units| > 0 && forall i :: 0 <= i < |units| ==> IsWord(units[i])
    ensures ParseQuantity(number + " " + JoinSpace(units))
         == Ok(Quantity(ParseNumber(number).value, JoinSpace(units)))
  {
    var ws := [number] + units;
    assert ws[1..] == units;
    assert JoinSpace(ws) == number + " " + JoinSpace(units);
    WordsOfJoin(ws);
    assert (number + " " + JoinSpace(units))[|number|] == ' ';
  }

  /** A number without a space gets the dimensionless unit "1". */
  lemma BareNumberHasUnitOne(number: string)
    requires ' ' !in number && ParseNumber(number).Some?
    ensures ParseQuantity(number) == Ok(Quantity(ParseNumber(number).value, "1"))
  {
  }
}
