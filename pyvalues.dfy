/** Python 2 values as the client meets them in tool output and options:
    the result of `safe_cast`, truthiness, the mixed-type ordering used by
    the threshold tests, and the `int()` coercion of `max_hits`. */
module PyValues {
  import opened Wrappers
  import opened Text

  /** What `safe_cast` returns: a float, or the field's text. */
  datatype Field = Num(x: real) | Str(s: string)

  /** `safe_cast(v)`: `float(v)` when that succeeds, else `v.strip()`.
      `parseFloat` stands for `float()` applied to a string: the number, or
      nothing when it raises ValueError. */
  function SafeCast(parseFloat: string -> Option<real>, v: string): Field {
    match parseFloat(v)
    case Some(x) => Num(x)
    case None => Str(Strip(v))
  }

  /** A field of `split()` that is not a number is kept as it is: the
      `strip()` of `safe_cast` has nothing to remove from it. */
  lemma SafeCastField(parseFloat: string -> Option<real>, v: string)
    requires NoSpace(v) && parseFloat(v).None?
    ensures SafeCast(parseFloat, v) == Str(v)
  {
    StripNoSpace(v);
  }

  /** Python truthiness: zero and the empty string are false. */
  predicate Truthy(f: Field) {
    match f
    case Num(x) => x != 0.0
    case Str(s) => s != []
  }

  /** Truthiness of a variable that may still hold `None`. */
  predicate OptTruthy(v: Option<Field>) {
    v.Some? && Truthy(v.value)
  }

  /** Python 2 `<` on byte strings: lexicographic by character code. */
  predicate StrLess(s: string, t: string)
    decreases |s|
  {
    if s == [] then t != []
    else t != [] && (s[0] < t[0] || (s[0] == t[0] && StrLess(s[1..], t[1..])))
  }

  /** Python 2 `<` on fields: numbers by value, strings lexicographically,
      and every number before every string (the fallback order of mixed
      types, in which numbers come first). */
  predicate Less(a: Field, b: Field) {
    match (a, b)
    case (Num(x), Num(y)) => x < y
    case (Num(_), Str(_)) => true
    case (Str(_), Num(_)) => false
    case (Str(s), Str(t)) => StrLess(s, t)
  }

  predicate LessEq(a: Field, b: Field) {
    Less(a, b) || a == b
  }

  /** `v <= thr` and `v >= thr` against a numeric threshold. */
  predicate AtMost(v: Field, thr: real) {
    LessEq(v, Num(thr))
  }

  predicate AtLeast(v: Field, thr: real) {
    LessEq(Num(thr), v)
  }

  /** A text field is never at most a numeric threshold and always at least
      one: a non-numeric score passes the score test of the disk path, a
      non-numeric e-value fails its e-value test. */
  lemma TextAgainstThreshold(s: string, thr: real)
    ensures !AtMost(Str(s), thr) && AtLeast(Str(s), thr)
  {
  }

  lemma {:induction false} StrLessTrichotomy(s: string, t: string)
    ensures s == t || StrLess(s, t) || StrLess(t, s)
    ensures !(StrLess(s, t) && StrLess(t, s))
    ensures !StrLess(s, s)
    decreases |s|
  {
    if s != [] && t != [] {
      StrLessTrichotomy(s[1..], t[1..]);
      if s[0] == t[0] && s[1..] == t[1..] {
        assert s == [s[0]] + s[1..] && t == [t[0]] + t[1..];
      }
    }
    if s != [] {
      StrLessTrichotomy(s[1..], s[1..]);
    }
  }

  lemma {:induction false} StrLessTransitive(s: string, t: string, u: string)
    requires StrLess(s, t) && StrLess(t, u)
    ensures StrLess(s, u)
    decreases |s|
  {
    if s != [] && s[0] == t[0] && t[0] == u[0] {
      StrLessTransitive(s[1..], t[1..], u[1..]);
    }
  }

  /** The order the threshold tests use is a strict total order on fields:
      any two fields are equal or ordered one way, never both, and the
      order is transitive. */
  lemma LessIsTotalOrder(a: Field, b: Field, c: Field)
    ensures a == b || Less(a, b) || Less(b, a)
    ensures !(Less(a, b) && Less(b, a)) && !Less(a, a)
    ensures Less(a, b) && Less(b, c) ==> Less(a, c)
  {
    if a.Str? && b.Str? {
      StrLessTrichotomy(a.s, b.s);
    }
    if a.Str? {
      StrLessTrichotomy(a.s, a.s);
    }
    if a.Str? && b.Str? && c.Str? && Less(a, b) && Less(b, c) {
      StrLessTransitive(a.s, b.s, c.s);
    }
  }

  // ---- int() ----

  /** What `int(max_hits)` may be applied to. */
  datatype PyArg = NoArg | IntArg(i: int) | FloatArg(x: real) | TextArg(text: string)

  /** `int(x)` on a finite float: truncation toward zero. */
  function Trunc(x: real): (n: int)
    ensures x >= 0.0 ==> 0 <= n && n as real <= x < n as real + 1.0
    ensures x < 0.0 ==> n <= 0 && n as real - 1.0 < x <= n as real
  {
    if x >= 0.0 then x.Floor else -((-x).Floor)
  }

  predicate IsDigit(c: char) {
    '0' <= c <= '9'
  }

  predicate AllDigits(d: string) {
    forall i :: 0 <= i < |d| ==> IsDigit(d[i])
  }

  /** The value of a string of decimal digits. */
  function DigitsValue(d: string): nat
    requires AllDigits(d)
  {
    if d == [] then 0 else 10 * DigitsValue(d[..|d| - 1]) + (d[|d| - 1] as int - '0' as int)
  }

  /** `int(s)` on a byte string, base 10: optional surrounding whitespace,
      an optional sign, optional whitespace after the sign (the C
      `strtoul` under Python 2's `int()` skips it again), then at least one
      decimal digit; anything else raises ValueError. */
  function ParseDecimal(s: string): Option<int> {
    var t := Strip(s);
    if t != [] && (t[0] == '-' || t[0] == '+') then
      var d := TrimStart(t[1..]);
      if d != [] && AllDigits(d) then
        Some(if t[0] == '-' then -(DigitsValue(d) as int) else DigitsValue(d) as int)
      else None
    else if t != [] && AllDigits(t) then Some(DigitsValue(t))
    else None
  }

  /** Whitespace between the sign and the digits is accepted: `int("+ 5")`
      is 5 and `int("-\t5")` is -5. */
  lemma SignSpaceDigits(sign: char, ws: string, d: string)
    requires (sign == '+' || sign == '-') && AllSpace(ws) && d != [] && AllDigits(d)
    ensures ParseDecimal([sign] + ws + d) == Some(if sign == '-' then -(DigitsValue(d) as int) else DigitsValue(d) as int)
  {
    var s := [sign] + ws + d;
    assert s[0] == sign && s[|s| - 1] == d[|d| - 1];
    StripNonSpaceEnds(s);
    assert s[1..] == ws + d;
    TrimStartSpaces(ws, d);
    SignedText(s, d);
  }

  /** `ParseDecimal` on stripped text of a sign and, after whitespace, digits. */
  lemma SignedText(t: string, d: string)
    requires Strip(t) == t && t != [] && (t[0] == '-' || t[0] == '+')
    requires TrimStart(t[1..]) == d && d != [] && AllDigits(d)
    ensures ParseDecimal(t) == Some(if t[0] == '-' then -(DigitsValue(d) as int) else DigitsValue(d) as int)
  {
  }

  /** A sign followed by nothing but whitespace is not a number. */
  lemma SignAloneFails(sign: char, ws: string)
    requires (sign == '+' || sign == '-') && AllSpace(ws)
    ensures ParseDecimal([sign] + ws) == None
  {
    var s := [sign] + ws;
    var t := Strip(s);
    TrimStartSpaces(ws, []);
    assert ws + [] == ws;
    if t != [] && t[0] == sign {
      StripRemovesOnlySpace(s);
      assert TrimStart(s) == s;
      assert t[1..] == s[1..|t|];
      assert AllSpace(t[1..]);
      TrimStartSpaces(t[1..], []);
      assert t[1..] + [] == t[1..];
    }
  }

  /** `str(n)` for a non-negative integer. */
  function ShowNat(n: nat): (d: string)
    ensures d != [] && AllDigits(d)
  {
    if n < 10 then [('0' as int + n) as char] else ShowNat(n / 10) + [('0' as int + n % 10) as char]
  }

  /** `str(n)`. */
  function ShowInt(n: int): string {
    if n < 0 then "-" + ShowNat(-n) else ShowNat(n)
  }

  lemma {:induction false} DigitsOfShowNat(n: nat)
    ensures DigitsValue(ShowNat(n)) == n
  {
    if n >= 10 {
      DigitsOfShowNat(n / 10);
      var d := ShowNat(n);
      assert d[..|d| - 1] == ShowNat(n / 10);
    }
  }

  /** `int(str(n)) == n`: the decimal reading of `int()` inverts `str()`. */
  lemma ParseShowInt(n: int)
    ensures ParseDecimal(ShowInt(n)) == Some(n)
  {
    var s := ShowInt(n);
    var m := if n < 0 then -n else n;
    DigitsOfShowNat(m);
    assert NoSpace(s);
    StripNoSpace(s);
    if n < 0 {
      assert s[1..] == ShowNat(m);
      assert TrimStart(s[1..]) == ShowNat(m);
    }
  }

  /** `try: max_hits = int(max_hits) except Exception: max_hits = None`. */
  function CoerceInt(a: PyArg): (r: Option<int>)
    ensures a.IntArg? ==> r == Some(a.i)
    ensures a.NoArg? ==> r.None?
    ensures a.FloatArg? ==> r == Some(Trunc(a.x))
    ensures a.TextArg? ==> r == ParseDecimal(a.text)
  {
    match a
    case NoArg => None
    case IntArg(i) => Some(i)
    case FloatArg(x) => Some(Trunc(x))
    case TextArg(s) => ParseDecimal(s)
  }

  /** Coercion keeps an integer given as text: `int(str(n)) == n`. */
  lemma CoerceShownInt(n: int)
    ensures CoerceInt(TextArg(ShowInt(n))) == Some(n) == CoerceInt(IntArg(n))
  {
    ParseShowInt(n);
  }
}
