/**
 * The values a parameter update carries and the coercions the driver applies
 * to them before a write (src/camera_driver.cpp:66-92, 332-334, 350).
 */
module ParameterValues {

  /** A parameter's value, tagged by its type (arrays are not part of this model). */
  datatype Value = Double(d: real) | Integer(i: int) | Bool(b: bool) | Str(s: string) | NotSet

  /** A parameter update: the exposed name and its new value. */
  datatype Parameter = Parameter(name: string, value: Value)

  /** `get_double_int_param`: (true, x) for a double or an integer (widened), else (false, 0). */
  function DoubleIntParam(v: Value): (r: (bool, real))
    ensures r.0 <==> v.Double? || v.Integer?
    ensures v.Double? ==> r.1 == v.d
    ensures v.Integer? ==> r.1 == v.i as real && r.1.Floor == v.i
    ensures !r.0 ==> r.1 == 0.0
  {
    match v
    case Double(d) => (true, d)
    case Integer(i) => (true, i as real)
    case _ => (false, 0.0)
  }

  /** `get_bool_int_param`: (true, b) for a bool, (true, i != 0) for an integer, else (false, false). */
  function BoolIntParam(v: Value): (r: (bool, bool))
    ensures r.0 <==> v.Bool? || v.Integer?
    ensures v.Bool? ==> r.1 == v.b
    ensures v.Integer? ==> (r.1 <==> v.i != 0)
    ensures !r.0 ==> !r.1
  {
    match v
    case Bool(b) => (true, b)
    case Integer(i) => (true, i != 0)
    case _ => (false, false)
  }

  /** The C++ conversion of a double to an integer: the fraction is discarded, rounding toward zero. */
  function TruncateToInt(x: real): (n: int)
    ensures 0.0 <= x ==> 0 <= n && n as real <= x < n as real + 1.0
    ensures x < 0.0 ==> n <= 0 && n as real - 1.0 < x <= n as real
  {
    if x >= 0.0 then x.Floor else -((-x).Floor)
  }

  /** A double that holds a whole number converts back to exactly that number. */
  lemma TruncateWhole(n: int)
    ensures TruncateToInt(n as real) == n
  {
  }

  // ----- Rendering a value as text (`Parameter::value_to_string`) -----

  function DigitChar(d: nat): (c: char)
    requires d < 10
    ensures '0' <= c <= '9'
  {
    ['0', '1', '2', '3', '4', '5', '6', '7', '8', '9'][d]
  }

  /** Decimal digits of a natural number, most significant first, without leading zeros. */
  function NatToString(n: nat): (s: string)
    ensures s != []
    ensures forall i :: 0 <= i < |s| ==> '0' <= s[i] <= '9'
    ensures |s| > 1 ==> s[0] != '0'
  {
    if n < 10 then [DigitChar(n)] else NatToString(n / 10) + [DigitChar(n % 10)]
  }

  /** `std::to_string` of an integer. */
  function IntToString(n: int): (s: string)
    ensures s != [] && (n < 0 <==> s[0] == '-')
  {
    if n < 0 then "-" + NatToString(-n) else NatToString(n)
  }

  /** The value of a string of decimal digits. */
  function DecimalValue(s: string): nat
    requires forall i :: 0 <= i < |s| ==> '0' <= s[i] <= '9'
  {
    if s == [] then 0 else 10 * DecimalValue(s[..|s| - 1]) + ((s[|s| - 1] as int) - ('0' as int))
  }

  /** Reading back the decimal text of an integer gives the integer. */
  lemma {:induction false} NatToStringRoundTrip(n: nat)
    ensures DecimalValue(NatToString(n)) == n
  {
    var s := NatToString(n);
    if n >= 10 {
      NatToStringRoundTrip(n / 10);
      assert s[..|s| - 1] == NatToString(n / 10);
    }
  }

  lemma IntToStringRoundTrip(n: int)
    ensures n >= 0 ==> DecimalValue(IntToString(n)) == n
    ensures n < 0 ==> IntToString(n)[1..] == NatToString(-n) && DecimalValue(IntToString(n)[1..]) == -n
  {
    if n >= 0 { NatToStringRoundTrip(n); } else { NatToStringRoundTrip(-n); }
  }

  /**
   * `value_to_string`: strings as they are, booleans as "true"/"false",
   * integers in decimal; the text of a double comes from `formatDouble`,
   * the library's `std::to_string(double)`.
   */
  function ValueToString(v: Value, formatDouble: real -> string): string {
    match v
    case Str(s) => s
    case Bool(b) => if b then "true" else "false"
    case Integer(i) => IntToString(i)
    case Double(d) => formatDouble(d)
    case NotSet => "not set"
  }

  /** `s.erase(remove(s.begin(), s.end(), '"'), s.end())`: every `"` removed, the rest kept in order. */
  function RemoveQuotes(s: string): (r: string)
    ensures |r| <= |s|
    ensures forall c :: c in r <==> c in s && c != '"'
    ensures multiset(r)['"'] == 0
    ensures forall c :: c != '"' ==> multiset(r)[c] == multiset(s)[c]
  {
    if s == [] then []
    else
      assert s == [s[0]] + s[1..];
      (if s[0] == '"' then [] else [s[0]]) + RemoveQuotes(s[1..])
  }

  /** A string without quotes is left as it is. */
  lemma {:induction false} RemoveQuotesUnquoted(s: string)
    requires '"' !in s
    ensures RemoveQuotes(s) == s
  {
    if s != [] {
      assert '"' !in s[1..];
      RemoveQuotesUnquoted(s[1..]);
      assert s == [s[0]] + s[1..];
    }
  }

  /** Quotes are removed piece by piece, so the kept characters stay in their order. */
  lemma {:induction false} RemoveQuotesAppend(a: string, b: string)
    ensures RemoveQuotes(a + b) == RemoveQuotes(a) + RemoveQuotes(b)
  {
    if a != [] {
      var head: string := if a[0] == '"' then [] else [a[0]];
      assert (a + b)[0] == a[0];
      assert (a + b)[1..] == a[1..] + b;
      assert RemoveQuotes(a + b) == head + RemoveQuotes(a[1..] + b);
      assert RemoveQuotes(a) == head + RemoveQuotes(a[1..]);
      RemoveQuotesAppend(a[1..], b);
    } else {
      assert a + b == b;
    }
  }

  /** A single character is dropped when it is a quote and kept otherwise. */
  lemma RemoveQuotesChar(c: char)
    ensures RemoveQuotes([c]) == if c == '"' then [] else [c]
  {
    assert [c][1..] == [];
  }

  /** Removing quotes twice is removing them once. */
  lemma RemoveQuotesIdempotent(s: string)
    ensures RemoveQuotes(RemoveQuotes(s)) == RemoveQuotes(s)
  {
    RemoveQuotesUnquoted(RemoveQuotes(s));
  }
}
