/** The parts of JavaScript's value semantics the inventory component relies
    on: truthiness (`!v`), conversion to a string (`v.toString()` and
    template literals), `String.prototype.trim`, `toLowerCase` and
    `includes`. Numbers are integers here; floating point is not modelled. */
module JsValues {

  /** A field of an item object as JavaScript sees it: a string (every
      `<input>` yields one), a number (records from the server), JSON `null`,
      or `undefined` for a key the object does not have. */
  datatype Value = Str(s: string) | Num(n: int) | Null | Missing

  /** `!!v`: the empty string, 0, null and undefined are falsy. Read through
      the string form: a string is truthy exactly when it is not empty, a
      number exactly when it does not print as "0"; null and undefined never
      are. */
  function Truthy(v: Value): (b: bool)
    ensures v.Str? ==> (b <==> ToJsString(v) != "")
    ensures v.Num? ==> (b <==> ToJsString(v) != "0")
    ensures v.Null? || v.Missing? ==> !b
  {
    match v
    case Str(s) => s != ""
    case Num(n) => n != 0
    case Null => false
    case Missing => false
  }

  // ---------------------------------------------------------------------
  // trim

  /** The code points `trim` removes: ECMAScript WhiteSpace (tab, vertical
      tab, form feed, space, no-break space, the byte order mark and the
      Unicode space separators) and LineTerminator (line feed, carriage
      return, line and paragraph separators). */
  predicate IsWhitespace(c: char) {
    || c == '\t' || c == '\n' || c == '\U{000B}' || c == '\U{000C}' || c == '\r'
    || c == ' ' || c == '\U{00A0}' || c == '\U{1680}'
    || ('\U{2000}' <= c <= '\U{200A}')
    || c == '\U{2028}' || c == '\U{2029}' || c == '\U{202F}' || c == '\U{205F}'
    || c == '\U{3000}' || c == '\U{FEFF}'
  }

  /** `s` without its leading whitespace. */
  function TrimStart(s: string): (r: string)
    ensures |r| <= |s| && r == s[|s| - |r|..]
    ensures forall i | 0 <= i < |s| - |r| :: IsWhitespace(s[i])
    ensures r != [] ==> !IsWhitespace(r[0])
  {
    if s != [] && IsWhitespace(s[0]) then TrimStart(s[1..]) else s
  }

  /** `s` without its trailing whitespace. */
  function TrimEnd(s: string): (r: string)
    ensures |r| <= |s| && r == s[..|r|]
    ensures forall i | |r| <= i < |s| :: IsWhitespace(s[i])
    ensures r != [] ==> !IsWhitespace(r[|r| - 1])
  {
    if s != [] && IsWhitespace(s[|s| - 1]) then TrimEnd(s[..|s| - 1]) else s
  }

  /** `s.trim()`: the middle part of `s` that is left once its leading and
      trailing whitespace is cut away; it neither starts nor ends with
      whitespace, and everything cut away is whitespace. */
  function Trim(s: string): (r: string)
    ensures var a := |s| - |TrimStart(s)|;
      && a + |r| <= |s| && r == s[a..a + |r|]
      && (forall i | 0 <= i < a :: IsWhitespace(s[i]))
      && (forall i | a + |r| <= i < |s| :: IsWhitespace(s[i]))
    ensures r != [] ==> !IsWhitespace(r[0]) && !IsWhitespace(r[|r| - 1])
  {
    TrimEnd(TrimStart(s))
  }

  /** `s.trim() === ''` holds exactly when every character of `s` is
      whitespace (in particular for the empty string). */
  lemma TrimIsEmptyIffBlank(s: string)
    ensures Trim(s) == "" <==> forall i | 0 <= i < |s| :: IsWhitespace(s[i])
  {
    var r := Trim(s);
    if r != "" {
      assert s[|s| - |TrimStart(s)|] == r[0];
    }
  }

  // ---------------------------------------------------------------------
  // Numbers as strings

  /** The decimal digit for `d`. */
  function DigitChar(d: nat): (c: char)
    requires d < 10
    ensures '0' <= c <= '9'
  {
    ('0' as int + d) as char
  }

  predicate IsDigit(c: char) {
    '0' <= c <= '9'
  }

  /** The decimal digits of `n`, most significant first, without leading
      zeros. */
  function NatToString(n: nat): (r: string)
    ensures r != []
    ensures forall i | 0 <= i < |r| :: IsDigit(r[i])
    ensures r[0] == '0' ==> n == 0 && |r| == 1
    decreases n
  {
    if n < 10 then [DigitChar(n)] else NatToString(n / 10) + [DigitChar(n % 10)]
  }

  /** `String(n)` for an integer-valued number of magnitude at most 2^53,
      where every integer is a double and JavaScript prints all its digits.
      No leading zeros: "0" is the rendering of 0 alone. */
  function NumberToString(n: int): (r: string)
    ensures r != []
    ensures forall i | 0 <= i < |r| :: IsDigit(r[i]) || (i == 0 && r[i] == '-')
    ensures r[0] == '-' <==> n < 0
    ensures r[0] == '0' ==> n == 0 && |r| == 1
    ensures n < 0 ==> |r| >= 2 && r[1] != '0'
  {
    if n < 0 then "-" + NatToString(-n) else NatToString(n)
  }

  /** The value of a string of decimal digits: the reference reading that
      NumberToString is checked against. */
  function DigitsValue(s: string): nat
    requires forall i | 0 <= i < |s| :: IsDigit(s[i])
  {
    if s == [] then 0
    else
      assert IsDigit(s[|s| - 1]);
      10 * DigitsValue(s[..|s| - 1]) + (s[|s| - 1] as int - '0' as int)
  }

  /** The value of an optionally signed decimal string. */
  function DecimalValue(s: string): int
    requires s != []
    requires forall i | 0 <= i < |s| :: IsDigit(s[i]) || (i == 0 && s[i] == '-')
  {
    if s[0] == '-' then -(DigitsValue(s[1..]) as int) else DigitsValue(s)
  }

  lemma {:induction false} NatToStringRoundTrip(n: nat)
    ensures DigitsValue(NatToString(n)) == n
    decreases n
  {
    if n >= 10 {
      NatToStringRoundTrip(n / 10);
      var r := NatToString(n);
      assert r[..|r| - 1] == NatToString(n / 10);
    }
  }

  /** Reading the rendered number back gives the number: the rendering loses
      nothing, so distinct ids render differently. */
  lemma NumberToStringRoundTrip(n: int)
    ensures DecimalValue(NumberToString(n)) == n
  {
    if n < 0 {
      NatToStringRoundTrip(-n);
      assert NumberToString(n)[1..] == NatToString(-n);
    } else {
      NatToStringRoundTrip(n);
    }
  }

  /** `String(v)`, as `${v}` produces it: a string is itself, a number
      prints as a signed decimal that reads back as the number, null and
      undefined print their names. `v.toString()` agrees on strings and
      numbers and throws on null and undefined; the `!value ||` guard of
      `validateForm` never lets it reach them. */
  function ToJsString(v: Value): (r: string)
    ensures v.Str? ==> r == v.s
    ensures v.Num? ==>
      && r != []
      && (forall i | 0 <= i < |r| :: IsDigit(r[i]) || (i == 0 && r[i] == '-'))
      && DecimalValue(r) == v.n
    ensures v.Null? ==> r == "null"
    ensures v.Missing? ==> r == "undefined"
  {
    match v
    case Str(s) => s
    case Num(n) => NumberToStringRoundTrip(n); NumberToString(n)
    case Null => "null"
    case Missing => "undefined"
  }

  // ---------------------------------------------------------------------
  // toLowerCase and includes

  /** Lower-casing of one character. Only A-Z are mapped: no other character
      lower-cases to one of the letters of "error", so `includes('error')`
      on the result is unaffected by the rest of Unicode case mapping. */
  function LowerChar(c: char): char {
    if 'A' <= c <= 'Z' then (c as int + ('a' as int - 'A' as int)) as char else c
  }

  /** `s.toLowerCase()`. */
  function ToLowerCase(s: string): (r: string)
    ensures |r| == |s|
    ensures forall i | 0 <= i < |s| :: r[i] == LowerChar(s[i])
  {
    seq(|s|, i requires 0 <= i < |s| => LowerChar(s[i]))
  }

  /** Lower-casing a string and then cutting out a part of it is the same
      as lower-casing that part. */
  lemma ToLowerCaseSlice(s: string, i: nat, j: nat)
    requires i <= j <= |s|
    ensures ToLowerCase(s)[i..j] == ToLowerCase(s[i..j])
  {
  }

  /** `w` occurs in `s` starting at index `i`. */
  predicate OccursAt(s: string, w: string, i: nat) {
    i + |w| <= |s| && s[i..i + |w|] == w
  }

  /** `s.includes(w)`. */
  predicate Includes(s: string, w: string) {
    exists i: nat | i <= |s| :: OccursAt(s, w, i)
  }
}
