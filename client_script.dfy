/**
  The string rewriting of js/multigraders.js: the grade formula that
  `updateGrade` fills in from the outcome selectors before evaluating it
  (js/multigraders.js:132-167), and `nl2br` (js/multigraders.js:125-131).
  The evaluation itself, the scaling of outcome values and the DOM are
  parameters or left out.
 */
module ClientScript {

  import opened Wrappers
  import opened PhpStrings

  // ---------------------------------------------------------------------
  // String.prototype.replace with a string pattern
  // ---------------------------------------------------------------------

  /** `s` starts with `t`. */
  predicate StartsWith(s: string, t: string) {
    |t| <= |s| && s[..|t|] == t
  }

  /** The first index at which `t` occurs in `s`, at or after `from`. */
  function IndexFrom(s: string, t: string, from: nat): (r: Option<nat>)
    requires from <= |s|
    ensures r.Some? ==> from <= r.value && r.value + |t| <= |s| && StartsWith(s[r.value..], t)
    ensures r.Some? ==> forall j :: from <= j < r.value ==> !StartsWith(s[j..], t)
    ensures r.None? ==> forall j :: from <= j <= |s| ==> !StartsWith(s[j..], t)
    decreases |s| - from
  {
    if StartsWith(s[from..], t) then Some(from)
    else if from == |s| then None
    else IndexFrom(s, t, from + 1)
  }

  /**
    `s.replace(t, rep)` for a string `t`: only the first occurrence is
    replaced. The replacement texts here never hold `$`, so JavaScript's
    replacement patterns play no part.
   */
  function ReplaceFirst(s: string, t: string, rep: string): (r: string)
    ensures (forall j :: 0 <= j <= |s| ==> !StartsWith(s[j..], t)) ==> r == s
  {
    match IndexFrom(s, t, 0)
    case None => s
    case Some(i) => s[..i] + rep + s[i + |t|..]
  }

  /** Replacing the first occurrence leaves the text before it and after it as it was. */
  lemma ReplaceFirstAt(a: string, t: string, b: string, rep: string)
    requires forall j :: 0 <= j < |a| ==> !StartsWith((a + t + b)[j..], t)
    ensures ReplaceFirst(a + t + b, t, rep) == a + rep + b
  {
    var s := a + t + b;
    assert s[|a|..][..|t|] == t;
    assert StartsWith(s[|a|..], t);
    var i := IndexFrom(s, t, 0).value;
    assert i == |a|;
    assert s[..i] == a && s[i + |t|..] == b;
  }

  // ---------------------------------------------------------------------
  // Placeholders
  // ---------------------------------------------------------------------

  /** The placeholder of outcome `id` in a formula. */
  function Placeholder(id: string): (p: string)
    ensures |p| == |id| + 6
  {
    "##gi" + id + "##"
  }

  /**
    The length of a match of `/##gi(\d+)##/i` at the start of `s`, if one
    starts there: "##", a `g` and an `i` in either case, digits, "##".
   */
  function LeftoverAt(s: string): (n: Option<nat>)
    ensures n.Some? ==> 7 <= n.value <= |s|
  {
    if |s| >= 4 && s[0] == '#' && s[1] == '#' && (s[2] == 'g' || s[2] == 'G') && (s[3] == 'i' || s[3] == 'I') then
      var k := LeadingDigits(s[4..]);
      if k > 0 && 4 + k + 2 <= |s| && s[4 + k] == '#' && s[5 + k] == '#' then Some(4 + k + 2) else None
    else None
  }

  /** `s.replace(/##gi(\d+)##/gi, 0)`: every match, left to right, becomes "0". */
  function ReplaceLeftovers(s: string): (r: string)
    decreases |s|
  {
    if s == [] then []
    else match LeftoverAt(s)
      case Some(n) => "0" + ReplaceLeftovers(s[n..])
      case None => [s[0]] + ReplaceLeftovers(s[1..])
  }

  /** The formula after the outcome values and before the leftovers: each placeholder replaced once, in order. */
  function Substituted(formula: string, outcomes: seq<(string, string)>): string {
    if outcomes == [] then formula
    else
      var (id, value) := outcomes[|outcomes| - 1];
      ReplaceFirst(Substituted(formula, outcomes[..|outcomes| - 1]), Placeholder(id), value)
  }

  // ---------------------------------------------------------------------
  // The evaluation and the grade text
  // ---------------------------------------------------------------------

  /** What `eval` of the formula gives: it throws, or returns null or undefined, a number, NaN, or something else. */
  datatype Evaluation = Threw | Nothing | Number(value: real) | NotANumber | NonNumber

  /**
    The grade text as written: '' when eval threw or gave null or undefined,
    otherwise `toFixed(1)`. `typeof grade == Math.NaN` compares a type name
    with undefined and never holds, so NaN becomes "NaN"; on a non-number
    `toFixed` throws and the field is not set (None). `oneDecimal` stands for
    `toFixed(1)` on a number.
   */
  function GradeTextAsWritten(e: Evaluation, oneDecimal: real -> string): (t: Option<string>)
    ensures e == NotANumber ==> t == Some("NaN")
    ensures e.Number? ==> t == Some(oneDecimal(e.value))
    ensures e.Threw? || e.Nothing? ==> t == Some("")
    ensures t.None? <==> e.NonNumber?
  {
    match e
    case Threw => Some("")
    case Nothing => Some("")
    case Number(v) => Some(oneDecimal(v))
    case NotANumber => Some("NaN")
    case NonNumber => None
  }

  /** The evidently intended grade text: NaN is treated like a failed evaluation and gives ''. */
  function GradeText(e: Evaluation, oneDecimal: real -> string): (t: Option<string>)
    ensures t == Some("") <==> e.Threw? || e.Nothing? || e.NotANumber? || (e.Number? && oneDecimal(e.value) == "")
    ensures e.Number? ==> t == Some(oneDecimal(e.value))
    ensures t.None? <==> e.NonNumber?
  {
    match e
    case Threw => Some("")
    case Nothing => Some("")
    case Number(v) => Some(oneDecimal(v))
    case NotANumber => Some("")
    case NonNumber => None
  }

  /** The title and the value `updateGrade` sets on the grade input. */
  datatype GradeUpdate = GradeUpdate(title: string, value: Option<string>)

  /**
    `updateGrade`. Nothing changes when the grade input has no formula (an
    absent attribute or ''). Otherwise the outcome values, already scaled
    and formatted, replace their placeholders one by one, the remaining
    placeholders become 0 (this text is also the input's title), the first
    "=sum" is dropped and `evaluate` stands for `eval`.
   */
  method UpdateGrade(formula: Option<string>, outcomes: seq<(string, string)>,
                     evaluate: string -> Evaluation, oneDecimal: real -> string)
    returns (update: Option<GradeUpdate>)
    ensures formula.None? || formula == Some("") <==> update.None?
    ensures update.Some? ==>
      var titled := ReplaceLeftovers(Substituted(formula.value, outcomes));
      update.value == GradeUpdate(titled, GradeTextAsWritten(evaluate(ReplaceFirst(titled, "=sum", "")), oneDecimal))
  {
    if formula.None? || formula.value == "" {
      return None;
    }
    var f := formula.value;
    var k := 0;
    while k < |outcomes|
      invariant 0 <= k <= |outcomes|
      invariant f == Substituted(formula.value, outcomes[..k])
    {
      assert outcomes[..k + 1][..k] == outcomes[..k];
      var (id, value) := outcomes[k];
      f := ReplaceFirst(f, Placeholder(id), value);
      k := k + 1;
    }
    assert outcomes[..|outcomes|] == outcomes;
    f := ReplaceLeftovers(f);
    var title := f;
    f := ReplaceFirst(f, "=sum", "");
    var grade := GradeTextAsWritten(evaluate(f), oneDecimal);
    update := Some(GradeUpdate(title, grade));
  }

  // ---------------------------------------------------------------------
  // nl2br
  // ---------------------------------------------------------------------

  const BreakTag: string := "<br />"

  /** The length of the line break at the start of `s`: "\r\n" and "\n\r" before a single "\r" or "\n". */
  function BreakAt(s: string): (n: nat)
    ensures n <= |s| && (n > 0 ==> s[0] == '\r' || s[0] == '\n')
    ensures |s| > 0 && (s[0] == '\r' || s[0] == '\n') ==> n > 0
  {
    if |s| >= 2 && ((s[0] == '\r' && s[1] == '\n') || (s[0] == '\n' && s[1] == '\r')) then 2
    else if |s| >= 1 && (s[0] == '\r' || s[0] == '\n') then 1
    else 0
  }

  /**
    `str.replace(/([^>\r\n]?)(\r\n|\n\r|\r|\n)/g, '$1<br />$2')`, match by
    match: a character other than `>` and a line break, if one comes just
    before the break, is captured, and the tag goes between it and the break.
   */
  function Nl2brRegex(s: string): string
    decreases |s|
  {
    if s == [] then []
    else if s[0] !in {'>', '\r', '\n'} && BreakAt(s[1..]) > 0 then
      var n := BreakAt(s[1..]);
      [s[0]] + BreakTag + s[1..1 + n] + Nl2brRegex(s[1 + n..])
    else if BreakAt(s) > 0 then
      BreakTag + s[..BreakAt(s)] + Nl2brRegex(s[BreakAt(s)..])
    else [s[0]] + Nl2brRegex(s[1..])
  }

  /** The tag in front of every line break, which is kept. */
  function InsertBreakTags(s: string): (r: string)
    ensures (forall i :: 0 <= i < |s| ==> s[i] != '\r' && s[i] != '\n') ==> r == s
    decreases |s|
  {
    if s == [] then []
    else if BreakAt(s) > 0 then BreakTag + s[..BreakAt(s)] + InsertBreakTags(s[BreakAt(s)..])
    else [s[0]] + InsertBreakTags(s[1..])
  }

  /** `nl2br`: '' for null or undefined. */
  function Nl2br(str: Option<string>): (r: string)
    ensures str.None? ==> r == ""
  {
    match str
    case None => ""
    case Some(s) => Nl2brRegex(s)
  }

  // ---------------------------------------------------------------------
  // Properties
  // ---------------------------------------------------------------------

  /**
    The capture before the break never changes the result: a `>` before a
    break gets the tag too, so `nl2br` puts the tag before every break.
   */
  lemma {:induction false} Nl2brInsertsBeforeEveryBreak(s: string)
    ensures Nl2brRegex(s) == InsertBreakTags(s)
    decreases |s|
  {
    if s != [] {
      if s[0] !in {'>', '\r', '\n'} && BreakAt(s[1..]) > 0 {
        var n := BreakAt(s[1..]);
        Nl2brInsertsBeforeEveryBreak(s[1 + n..]);
        assert BreakAt(s) == 0;
        var t := s[1..];
        assert t[..n] == s[1..1 + n] && t[n..] == s[1 + n..];
        assert InsertBreakTags(t) == BreakTag + t[..n] + InsertBreakTags(t[n..]);
      } else if BreakAt(s) > 0 {
        Nl2brInsertsBeforeEveryBreak(s[BreakAt(s)..]);
      } else {
        Nl2brInsertsBeforeEveryBreak(s[1..]);
      }
    }
  }

  /** A tag and a break after a `>`: "a>\nb" becomes "a><br />\nb". */
  lemma BreakAfterTagMarked()
    ensures Nl2br(Some("a>\nb")) == "a><br />\nb"
  {
    assert Nl2brRegex("b") == "b" by {
      assert "b"[1..] == [];
    }
    assert Nl2brRegex("\nb") == BreakTag + "\nb" by {
      assert BreakAt("\nb") == 1;
      assert "\nb"[..1] == "\n" && "\nb"[1..] == "b";
    }
    assert Nl2brRegex(">\nb") == ">" + BreakTag + "\nb" by {
      assert BreakAt(">\nb") == 0;
      assert ">\nb"[1..] == "\nb";
    }
    assert BreakAt(">\nb") == 0 && BreakAt("a>\nb") == 0;
    assert "a>\nb"[1..] == ">\nb";
  }

  /** Only the first occurrence of a placeholder takes the outcome's value. */
  lemma OnlyFirstPlaceholder(a: string, id: string, b: string, value: string)
    requires '#' !in a
    ensures Substituted(a + Placeholder(id) + b, [(id, value)]) == a + value + b
  {
    var t := Placeholder(id);
    var s := a + t + b;
    assert Substituted(s, [(id, value)]) == ReplaceFirst(Substituted(s, []), t, value);
    assert t[0] == '#';
    forall j | 0 <= j < |a| ensures !StartsWith(s[j..], t) {
      assert s[j] == a[j];
      assert s[j..][0] == s[j];
    }
    ReplaceFirstAt(a, t, b, value);
  }

  /** A leftover placeholder, in either case, after text without `#` becomes 0. */
  lemma LeftoverBecomesZero(a: string, p: string, b: string)
    requires '#' !in a && LeftoverAt(p) == Some(|p|)
    ensures ReplaceLeftovers(a + p + b) == a + "0" + ReplaceLeftovers(b)
  {
    var t := p + b;
    var rest := ReplaceLeftovers(b);
    assert a + p + b == a + t;
    HashFreePrefix(a, t);
    LeftoverFirst(p, b);
    assert a + ("0" + rest) == a + "0" + rest;
  }

  /** Text without `#` holds no match and is copied as it is. */
  lemma {:induction false} HashFreePrefix(a: string, t: string)
    requires '#' !in a
    ensures ReplaceLeftovers(a + t) == a + ReplaceLeftovers(t)
    decreases |a|
  {
    if a == [] {
      assert a + t == t;
    } else {
      var s := a + t;
      assert s[0] == a[0];
      NoLeftoverStep(s);
      assert s[1..] == a[1..] + t;
      HashFreePrefix(a[1..], t);
      assert a + ReplaceLeftovers(t) == [a[0]] + (a[1..] + ReplaceLeftovers(t));
    }
  }

  /** No match starts at a character other than `#`, nor where `LeftoverAt` says so. */
  lemma NoLeftoverStep(s: string)
    requires s != [] && (s[0] != '#' || LeftoverAt(s).None?)
    ensures ReplaceLeftovers(s) == [s[0]] + ReplaceLeftovers(s[1..])
  {

  }

  lemma LeftoverFirst(p: string, b: string)
    requires LeftoverAt(p) == Some(|p|)
    ensures ReplaceLeftovers(p + b) == "0" + ReplaceLeftovers(b)
  {
    LeftoverPrefix(p, b);
    assert (p + b)[|p|..] == b;
  }

  lemma LeftoverPrefix(p: string, b: string)
    requires LeftoverAt(p) == Some(|p|)
    ensures LeftoverAt(p + b) == Some(|p|)
  {
    var s := p + b;
    var k := LeadingDigits(p[4..]);
    assert p[4 + k] == '#';
    LeadingDigitsExtend(p[4..], b);
    assert p[4..] + b == s[4..];
  }

  lemma {:induction false} LeadingDigitsExtend(s: string, b: string)
    requires LeadingDigits(s) < |s|
    ensures LeadingDigits(s + b) == LeadingDigits(s)
  {
    if |s| > 0 && IsDigit(s[0]) {
      assert (s + b)[1..] == s[1..] + b;
      LeadingDigitsExtend(s[1..], b);
    }
  }

  /** The case of `gi` does not matter: "##GI7##" is a leftover. */
  lemma UpperCaseLeftover()
    ensures ReplaceLeftovers("##GI7##") == "0"
  {
    assert LeftoverAt("##GI7##") == Some(7);
  }

  /** About the NaN test: as written a NaN result is shown as "NaN", corrected it is ''. */
  lemma NaNGrade(oneDecimal: real -> string)
    ensures GradeTextAsWritten(NotANumber, oneDecimal) == Some("NaN")
    ensures GradeText(NotANumber, oneDecimal) == Some("")
  {
  }

  /** On every evaluation other than NaN the two grade texts agree. */
  lemma GradeTextsAgree(e: Evaluation, oneDecimal: real -> string)
    requires !e.NotANumber?
    ensures GradeTextAsWritten(e, oneDecimal) == GradeText(e, oneDecimal)
  {
  }
}
