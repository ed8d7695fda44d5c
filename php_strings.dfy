/**
  The few PHP 8 string primitives the grading logic leans on, written out so
  that their edge cases are part of the model: `trim`, `is_numeric`,
  `floatval`, string comparison, `strstr`, `strpos`, `explode`, `implode`,
  and the decimal text of a user id (PHP's int-to-string conversion).
 */
module PhpStrings {

  import opened Wrappers

  // ---------------------------------------------------------------------
  // Digits and the decimal text of a natural number
  // ---------------------------------------------------------------------

  predicate IsDigit(c: char) { '0' <= c <= '9' }

  predicate AllDigits(s: string) {
    forall i :: 0 <= i < |s| ==> IsDigit(s[i])
  }

  function DigitValue(c: char): (d: nat)
    requires IsDigit(c)
    ensures d < 10
  {
    c as int - '0' as int
  }

  function DigitChar(d: nat): (c: char)
    requires d < 10
    ensures IsDigit(c) && DigitValue(c) == d
  {
    ('0' as int + d) as char
  }

  /** The value of a string of decimal digits, most significant first ("" is 0). */
  function DigitsValue(s: string): nat
    requires AllDigits(s)
  {
    if s == [] then 0 else DigitsValue(s[..|s| - 1]) * 10 + DigitValue(s[|s| - 1])
  }

  function Pow10(n: nat): (p: nat)
    ensures p > 0
  {
    if n == 0 then 1 else 10 * Pow10(n - 1)
  }

  /** PHP's conversion of a (non-negative) integer id to its decimal text. */
  function NatToString(n: nat): (s: string)
    ensures |s| > 0 && AllDigits(s)
    decreases n
  {
    if n < 10 then [DigitChar(n)] else NatToString(n / 10) + [DigitChar(n % 10)]
  }

  /** Reading the decimal text of `n` back gives `n`. */
  lemma {:induction false} NatToStringValue(n: nat)
    ensures DigitsValue(NatToString(n)) == n
    decreases n
  {
    if n >= 10 {
      var s := NatToString(n);
      assert s[..|s| - 1] == NatToString(n / 10);
      NatToStringValue(n / 10);
    }
  }

  /** Distinct ids have distinct decimal texts. */
  lemma NatToStringInjective(m: nat, n: nat)
    requires NatToString(m) == NatToString(n)
    ensures m == n
  {
    NatToStringValue(m);
    NatToStringValue(n);
  }

  // ---------------------------------------------------------------------
  // Whitespace, trim
  // ---------------------------------------------------------------------

  /** The characters PHP's `trim` removes by default: space, \t, \n, \r, \0 and \x0B. */
  const TrimChars: set<char> := {' ', '\t', '\n', '\r', '\0', '\U{000B}'}

  /** The whitespace PHP 8 allows around a numeric string: space, \t, \n, \r, \v and \f. */
  const NumericSpace: set<char> := {' ', '\t', '\n', '\r', '\U{000B}', '\U{000C}'}

  function StripLeft(s: string, ws: set<char>): (r: string)
    ensures |r| <= |s| && r == s[|s| - |r|..]
    ensures |r| > 0 ==> r[0] !in ws
    ensures forall i :: 0 <= i < |s| - |r| ==> s[i] in ws
  {
    if |s| > 0 && s[0] in ws then StripLeft(s[1..], ws) else s
  }

  function StripRight(s: string, ws: set<char>): (r: string)
    ensures |r| <= |s| && r == s[..|r|]
    ensures |r| > 0 ==> r[|r| - 1] !in ws
    ensures forall i :: |r| <= i < |s| ==> s[i] in ws
  {
    if |s| > 0 && s[|s| - 1] in ws then StripRight(s[..|s| - 1], ws) else s
  }

  /** PHP `trim($s)` with the default character list. */
  function Trim(s: string): (r: string)
    ensures r == "" <==> forall i :: 0 <= i < |s| ==> s[i] in TrimChars
  {
    var l := StripLeft(s, TrimChars);
    var r := StripRight(l, TrimChars);
    r
  }

  // ---------------------------------------------------------------------
  // Numeric strings and floatval
  // ---------------------------------------------------------------------

  /** The number of leading decimal digits of `s`. */
  function LeadingDigits(s: string): (k: nat)
    ensures k <= |s| && AllDigits(s[..k])
    ensures k < |s| ==> !IsDigit(s[k])
  {
    if |s| > 0 && IsDigit(s[0]) then
      var k := 1 + LeadingDigits(s[1..]);
      assert s[..k] == [s[0]] + s[1..][..k - 1];
      k
    else 0
  }

  lemma {:induction false} LeadingDigitsAll(s: string)
    requires AllDigits(s)
    ensures LeadingDigits(s) == |s|
  {
    if |s| > 0 {
      LeadingDigitsAll(s[1..]);
    }
  }

  function DropSign(s: string): string {
    if |s| > 0 && (s[0] == '+' || s[0] == '-') then s[1..] else s
  }

  /**
    A decimal literal as PHP 8 reads it inside a numeric string:
    an optional sign, then digits with an optional fraction, or a
    fraction alone ("12", "-1.5", "3.", ".25").
   */
  predicate IsDecimalLiteral(t: string) {
    var u := DropSign(t);
    var k := LeadingDigits(u);
    if k == |u| then k > 0
    else u[k] == '.' && AllDigits(u[k + 1..]) && (k > 0 || |u| > k + 1)
  }

  /** PHP 8 `is_numeric` on a string: a decimal literal with optional surrounding whitespace. */
  predicate IsNumeric(s: string) {
    IsDecimalLiteral(StripRight(StripLeft(s, NumericSpace), NumericSpace))
  }

  /** The magnitude of `digits` "." `frac`. */
  function Magnitude(digits: string, frac: string): real
    requires AllDigits(digits) && AllDigits(frac)
  {
    DigitsValue(digits) as real + DigitsValue(frac) as real / Pow10(|frac|) as real
  }

  /** The value of the longest signed decimal prefix of `s` (0 when there is none). */
  function PrefixValue(s: string): real {
    var u := DropSign(s);
    var k := LeadingDigits(u);
    var mag :=
      if k < |u| && u[k] == '.' then
        var f := LeadingDigits(u[k + 1..]);
        Magnitude(u[..k], u[k + 1..][..f])
      else Magnitude(u[..k], "");
    if |s| > 0 && s[0] == '-' then -mag else mag
  }

  /** PHP `floatval`: skip leading whitespace, read the longest numeric prefix. */
  function FloatVal(s: string): real {
    PrefixValue(StripLeft(s, NumericSpace))
  }

  lemma DigitIsNotSpace(c: char)
    requires IsDigit(c)
    ensures c !in NumericSpace && c !in TrimChars
  {
  }

  /** A non-empty run of digits is numeric, and floatval reads its value. */
  lemma DigitsNumeric(s: string)
    requires |s| > 0 && AllDigits(s)
    ensures IsNumeric(s)
    ensures FloatVal(s) == DigitsValue(s) as real
  {
    LeadingDigitsAll(s);
    DigitIsNotSpace(s[0]);
    DigitIsNotSpace(s[|s| - 1]);
    assert StripLeft(s, NumericSpace) == s;
    assert StripRight(s, NumericSpace) == s;
    assert DropSign(s) == s by { assert IsDigit(s[0]); }
    assert s[..|s|] == s;
    assert PrefixValue(s) == Magnitude(s, "");
  }

  /** The decimal text of an id is numeric and reads back as that id. */
  lemma NatToStringNumeric(n: nat)
    ensures IsNumeric(NatToString(n))
    ensures FloatVal(NatToString(n)) == n as real
  {
    DigitsNumeric(NatToString(n));
    NatToStringValue(n);
  }

  // ---------------------------------------------------------------------
  // Comparison
  // ---------------------------------------------------------------------

  /** Byte-wise string order (strcmp < 0). */
  predicate LexLess(a: string, b: string) {
    if a == [] then b != []
    else if b == [] then false
    else if a[0] != b[0] then a[0] < b[0]
    else LexLess(a[1..], b[1..])
  }

  /** PHP 8 `$a < $b` on two strings: numerically when both are numeric, else byte-wise. */
  predicate PhpLess(a: string, b: string) {
    if IsNumeric(a) && IsNumeric(b) then FloatVal(a) < FloatVal(b) else LexLess(a, b)
  }

  /** PHP 8 `$a == $b` on two strings: numerically when both are numeric, else identical. */
  predicate LooseEq(a: string, b: string) {
    if IsNumeric(a) && IsNumeric(b) then FloatVal(a) == FloatVal(b) else a == b
  }

  /** PHP 8 `$s == $n` for a string and an integer id (the id is compared as a number). */
  predicate LooseEqId(s: string, n: nat) {
    IsNumeric(s) && FloatVal(s) == n as real
  }

  /** PHP truthiness of a string: everything except "" and "0". */
  predicate Truthy(s: string) { s != "" && s != "0" }

  // ---------------------------------------------------------------------
  // Searching and splitting
  // ---------------------------------------------------------------------

  /** `strstr($s, $t) !== false`: `t` occurs somewhere in `s`. */
  predicate Contains(s: string, t: string)
    decreases |s|
  {
    if |s| < |t| then false else s[..|t|] == t || Contains(s[1..], t)
  }

  /** A string contains every string that it has as a factor. */
  lemma {:induction false} ContainsFactor(a: string, t: string, b: string)
    ensures Contains(a + t + b, t)
    decreases |a|
  {
    var s := a + t + b;
    if |a| == 0 {
      assert s[..|t|] == t;
    } else {
      assert s[1..] == a[1..] + t + b;
      ContainsFactor(a[1..], t, b);
    }
  }

  /** `strpos($s, $c)` for a single character: the first index of `c`, if any. */
  function StrPos(s: string, c: char): (r: Option<nat>)
    ensures r.Some? ==> r.value < |s| && s[r.value] == c && c !in s[..r.value]
    ensures r.None? ==> c !in s
  {
    if |s| == 0 then None
    else if s[0] == c then Some(0)
    else match StrPos(s[1..], c)
      case None => None
      case Some(i) => Some(i + 1)
  }

  lemma StrPosAt(s: string, c: char, k: nat)
    requires k < |s| && s[k] == c && c !in s[..k]
    ensures StrPos(s, c) == Some(k)
  {
    if k > 0 {
      assert s[0] in s[..k];
      StrPosAt(s[1..], c, k - 1);
    }
  }

  /** `explode(',', $s)`: the comma-separated parts, "" giving [""]. */
  function Explode(s: string): (parts: seq<string>)
    ensures |parts| >= 1
    ensures forall p :: p in parts ==> ',' !in p
    decreases |s|
  {
    match StrPos(s, ',')
    case None => [s]
    case Some(i) => [s[..i]] + Explode(s[i + 1..])
  }

  /** `implode(',', $parts)`. */
  function Implode(parts: seq<string>): string {
    if |parts| == 0 then ""
    else if |parts| == 1 then parts[0]
    else parts[0] + "," + Implode(parts[1..])
  }

  /** Splitting a stored id list gives back the ids that were joined, when none holds a comma. */
  lemma {:induction false} ExplodeImplode(parts: seq<string>)
    requires |parts| >= 1
    requires forall i :: 0 <= i < |parts| ==> ',' !in parts[i]
    ensures Explode(Implode(parts)) == parts
  {
    if |parts| > 1 {
      var s := Implode(parts);
      var p := parts[0];
      assert s == p + "," + Implode(parts[1..]);
      assert s[|p|] == ',';
      assert s[..|p|] == p;
      StrPosAt(s, ',', |p|);
      assert s[|p| + 1..] == Implode(parts[1..]);
      ExplodeImplode(parts[1..]);
    } else {
      assert StrPos(parts[0], ',') == None;
    }
  }

}
