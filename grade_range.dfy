/**
  The grade range behind validation: the range labels the controller hands
  out are sorted with PHP's `sort`, the smallest and largest are cut at `/`
  and the lower bound 1 is read as 0.
 */
module GradeRange {

  import opened Wrappers
  import opened PhpStrings

  // ---------------------------------------------------------------------
  // PHP `sort` on the labels
  // ---------------------------------------------------------------------

  /** Insert `x` before the first element it is `less` than, after all the others. */
  function InsertBy(x: string, s: seq<string>, less: (string, string) -> bool): (r: seq<string>)
    ensures multiset(r) == multiset(s) + multiset{x}
  {
    if s == [] then [x]
    else if less(x, s[0]) then [x] + s
    else
      assert s == [s[0]] + s[1..];
      [s[0]] + InsertBy(x, s[1..], less)
  }

  /** Stable insertion sort: each element in turn goes after the equal elements before it. */
  function SortBy(s: seq<string>, less: (string, string) -> bool): (r: seq<string>)
    ensures multiset(r) == multiset(s)
  {
    if s == [] then []
    else
      assert s == s[..|s| - 1] + [s[|s| - 1]];
      InsertBy(s[|s| - 1], SortBy(s[..|s| - 1], less), less)
  }

  /** Ascending by `key`. */
  predicate Ordered(s: seq<string>, key: string -> real) {
    forall i, j :: 0 <= i < j < |s| ==> key(s[i]) <= key(s[j])
  }

  predicate AllOk(s: seq<string>, ok: string -> bool) {
    forall i :: 0 <= i < |s| ==> ok(s[i])
  }

  /** On elements where `less` is `<` on `key`, insertion keeps the order. */
  lemma {:induction false} InsertByOrdered(x: string, s: seq<string>, less: (string, string) -> bool,
                                           key: string -> real, ok: string -> bool)
    requires forall a, b :: ok(a) && ok(b) ==> (less(a, b) <==> key(a) < key(b))
    requires ok(x) && AllOk(s, ok) && Ordered(s, key)
    ensures Ordered(InsertBy(x, s, less), key)
  {
    if s != [] && !less(x, s[0]) {
      var t := s[1..];
      InsertByOrdered(x, t, less, key, ok);
      var r := InsertBy(x, t, less);
      forall k | 0 <= k < |r| ensures key(s[0]) <= key(r[k]) {
        assert r[k] in multiset(r);
        if r[k] != x {
          assert r[k] in multiset(t);
          var m :| 0 <= m < |t| && t[m] == r[k];
          assert s[m + 1] == r[k];
        }
      }
    }
  }

  lemma {:induction false} SortByOrdered(s: seq<string>, less: (string, string) -> bool,
                                         key: string -> real, ok: string -> bool)
    requires forall a, b :: ok(a) && ok(b) ==> (less(a, b) <==> key(a) < key(b))
    requires AllOk(s, ok)
    ensures Ordered(SortBy(s, less), key) && AllOk(SortBy(s, less), ok)
  {
    if s != [] {
      var p := s[..|s| - 1];
      assert AllOk(p, ok);
      SortByOrdered(p, less, key, ok);
      InsertByOrdered(s[|s| - 1], SortBy(p, less), less, key, ok);
      var r := SortBy(s, less);
      forall k | 0 <= k < |r| ensures ok(r[k]) {
        assert r[k] in multiset(r);
        assert r[k] in multiset(s);
        var m :| 0 <= m < |s| && s[m] == r[k];
      }
    }
  }

  /**
    PHP 8 `sort` with the default flags: a stable sort under `<` on strings.
    Written as a stable insertion sort, which is the same whenever the
    comparison is a total preorder (for instance when every label is numeric).
   */
  function SortLabels(s: seq<string>): (r: seq<string>)
    ensures multiset(r) == multiset(s) && |r| == |s|
  {
    var r := SortBy(s, PhpLess);
    assert |multiset(r)| == |multiset(s)|;
    r
  }

  predicate AllNumeric(s: seq<string>) {
    forall i :: 0 <= i < |s| ==> IsNumeric(s[i])
  }

  /** Numeric labels come out of the sort in ascending numeric order. */
  lemma SortLabelsSorted(s: seq<string>)
    requires AllNumeric(s)
    ensures Ordered(SortLabels(s), FloatVal)
  {
    assert AllOk(s, IsNumeric);
    SortByOrdered(s, PhpLess, FloatVal, IsNumeric);
  }

  // ---------------------------------------------------------------------
  // The range
  // ---------------------------------------------------------------------

  /** A bound is either a number (after a cut at `/` or the 1-to-0 rule) or the label text itself. */
  datatype Bound = Num(value: real) | Text(text: string)

  datatype Range = Range(minGrade: Bound, maxGrade: Bound)

  /** PHP truthiness of a bound. */
  predicate BoundTruthy(b: Bound) {
    match b
    case Num(v) => v != 0.0
    case Text(t) => Truthy(t)
  }

  /** PHP 8 `$bound == 1`. */
  predicate EqualsOne(b: Bound) {
    match b
    case Num(v) => v == 1.0
    case Text(t) => IsNumeric(t) && FloatVal(t) == 1.0
  }

  /** The lower bound from the smallest label: the number before the first `/`, if there is one. */
  function LowerBound(l: string): Bound {
    match StrPos(l, '/')
    case Some(cut) => Num(FloatVal(l[..cut]))
    case None => Text(l)
  }

  /** The upper bound from the largest label: the number after the first `/`, if there is one. */
  function UpperBound(l: string): Bound {
    match StrPos(l, '/')
    case Some(cut) => Num(FloatVal(l[cut + 1..]))
    case None => Text(l)
  }

  /**
    `getGradeRange` computed afresh from the range labels in their original
    order: null when both end labels are non-numeric (an empty list included).
   */
  function FromLabels(labels: seq<string>): (r: Option<Range>)
    ensures r.None? <==> |labels| == 0 || (!IsNumeric(labels[0]) && !IsNumeric(labels[|labels| - 1]))
  {
    if |labels| == 0 || (!IsNumeric(labels[0]) && !IsNumeric(labels[|labels| - 1])) then None
    else
      var sorted := SortLabels(labels);
      var lo := LowerBound(sorted[0]);
      var hi := UpperBound(sorted[|sorted| - 1]);
      Some(Range(if EqualsOne(lo) then Num(0.0) else lo, hi))
  }

  // ---------------------------------------------------------------------
  // Properties
  // ---------------------------------------------------------------------

  /** The characters a numeric string can hold. */
  predicate NumericChar(c: char) {
    IsDigit(c) || c == '+' || c == '-' || c == '.' || c in NumericSpace
  }

  lemma SlashIsNotNumericChar()
    ensures !NumericChar('/')
  {
  }

  lemma {:induction false} DecimalLiteralChars(t: string)
    requires IsDecimalLiteral(t)
    ensures forall i :: 0 <= i < |t| ==> NumericChar(t[i])
  {
    var u := DropSign(t);
    var k := LeadingDigits(u);
    assert forall i :: 0 <= i < k ==> IsDigit(u[..k][i]);
    forall i | 0 <= i < |u| ensures NumericChar(u[i]) {
      if i < k {
        assert IsDigit(u[..k][i]);
      } else if i > k {
        assert IsDigit(u[k + 1..][i - k - 1]);
      }
    }
    if |t| > 0 && (t[0] == '+' || t[0] == '-') {
      assert forall i :: 1 <= i < |t| ==> t[i] == u[i - 1];
    }
  }

  /** A numeric label has no `/`, so neither bound of an all-numeric range is cut. */
  lemma NumericHasNoSlash(s: string)
    requires IsNumeric(s)
    ensures StrPos(s, '/') == None
  {
    var l := StripLeft(s, NumericSpace);
    var t := StripRight(l, NumericSpace);
    DecimalLiteralChars(t);
    forall i | 0 <= i < |s| ensures NumericChar(s[i]) {
      var a := |s| - |l|;
      if a <= i < a + |t| {
        assert s[i] == t[i - a];
      }
    }
    SlashIsNotNumericChar();
    assert '/' !in s;
  }

  /**
    For numeric labels the range runs from the label of least value to the
    label of greatest value, each kept as text, except that a lower bound
    of 1 becomes 0.
   */
  lemma NumericRange(labels: seq<string>)
    requires |labels| > 0 && AllNumeric(labels)
    ensures FromLabels(labels).Some?
    ensures exists lo, hi :: (lo in labels && hi in labels
      && (forall l :: l in labels ==> FloatVal(lo) <= FloatVal(l) <= FloatVal(hi))
      && FromLabels(labels) == Some(Range(if FloatVal(lo) == 1.0 then Num(0.0) else Text(lo), Text(hi))))
  {
    var sorted := SortLabels(labels);
    var lo, hi := sorted[0], sorted[|sorted| - 1];
    SortedExtremes(labels);
    AllNumericIn(labels, lo);
    AllNumericIn(labels, hi);
    NumericBounds(labels);
    assert lo in labels && hi in labels
      && (forall l :: l in labels ==> FloatVal(lo) <= FloatVal(l) <= FloatVal(hi))
      && FromLabels(labels) == Some(Range(if FloatVal(lo) == 1.0 then Num(0.0) else Text(lo), Text(hi)));
  }

  lemma AllNumericIn(s: seq<string>, x: string)
    requires AllNumeric(s) && x in s
    ensures IsNumeric(x)
  {
  }

  /** The first and last sorted numeric labels are the least and the greatest. */
  lemma SortedExtremes(labels: seq<string>)
    requires |labels| > 0 && AllNumeric(labels)
    ensures SortLabels(labels)[0] in labels && SortLabels(labels)[|labels| - 1] in labels
    ensures forall l :: l in labels ==>
      FloatVal(SortLabels(labels)[0]) <= FloatVal(l) <= FloatVal(SortLabels(labels)[|labels| - 1])
  {
    SortLabelsSorted(labels);
    OrderedExtremes(labels, SortLabels(labels), FloatVal);
  }

  /** The ends of an ordered permutation are a least and a greatest element. */
  lemma OrderedExtremes(s: seq<string>, r: seq<string>, key: string -> real)
    requires |s| > 0 && multiset(r) == multiset(s) && Ordered(r, key)
    ensures |r| == |s| && r[0] in s && r[|r| - 1] in s
    ensures forall l :: l in s ==> key(r[0]) <= key(l) <= key(r[|r| - 1])
  {
    assert |multiset(r)| == |multiset(s)|;
    assert r[0] in multiset(r) && r[|r| - 1] in multiset(r);
    forall l | l in s ensures key(r[0]) <= key(l) <= key(r[|r| - 1]) {
      assert l in multiset(r);
      var m :| 0 <= m < |r| && r[m] == l;
    }
  }

  /** With numeric end labels neither bound is cut, and only a lower bound of value 1 changes. */
  lemma NumericBounds(labels: seq<string>)
    requires |labels| > 0 && IsNumeric(labels[0])
    requires IsNumeric(SortLabels(labels)[0]) && IsNumeric(SortLabels(labels)[|labels| - 1])
    ensures var lo, hi := SortLabels(labels)[0], SortLabels(labels)[|labels| - 1];
      FromLabels(labels) == Some(Range(if FloatVal(lo) == 1.0 then Num(0.0) else Text(lo), Text(hi)))
  {
    var sorted := SortLabels(labels);
    var lo, hi := sorted[0], sorted[|sorted| - 1];
    NumericHasNoSlash(lo);
    NumericHasNoSlash(hi);
    assert LowerBound(lo) == Text(lo);
    assert UpperBound(hi) == Text(hi);
    assert EqualsOne(Text(lo)) <==> FloatVal(lo) == 1.0;
    assert FromLabels(labels) == Some(Range(if FloatVal(lo) == 1.0 then Num(0.0) else Text(lo), Text(hi)));
  }

  /** A label "a/b" gives the lower bound a and the upper bound b, read as numbers. */
  lemma CutAtSlash(a: string, b: string)
    requires '/' !in a
    ensures LowerBound(a + "/" + b) == Num(FloatVal(a))
    ensures UpperBound(a + "/" + b) == Num(FloatVal(b))
  {
    var l := a + "/" + b;
    assert l[..|a|] == a;
    StrPosAt(l, '/', |a|);
    assert l[|a| + 1..] == b;
  }
}
