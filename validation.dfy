/**
  The check `validate_grading_element` applies to a submitted grading
  element before it is stored (lib.php:765-797).
 */
module Validation {

  import opened Wrappers
  import opened PhpStrings
  import opened GradeRange

  /**
    The submitted grading element. A key the form did not send is `None`;
    the checkbox-like keys are reduced to whether they are set
    (`grading_final`, `final_grade`) or truthy (`visible_to_students`,
    `require_second_grader`).
   */
  datatype Submission = Submission(
    deleteAll: Option<string>,
    grade: Option<string>,
    gradeHidden: Option<string>,
    grader: Option<string>,
    typeField: Option<string>,
    feedback: Option<string>,
    gradingFinal: bool,
    finalGrade: bool,
    visibleToStudents: bool,
    requireSecondGrader: bool,
    outcome: Option<map<nat, real>>)

  /** `err_gradeinvalid`, and `err_gradeoutofbounds` with the offending value. */
  datatype ValidationError = GradeInvalid | GradeOutOfBounds(grade: real)

  /**
    The outcome of a validation: accepted before the error list is touched,
    accepted after resetting it, or rejected with one error under `key`.
   */
  datatype Verdict = EarlyAccept | Accept | Reject(key: string, error: ValidationError)

  /** `multigraders_delete_all == 'true'` ("true" is not numeric, so PHP's `==` is identity here). */
  predicate IsDeleteAll(sub: Submission) {
    sub.deleteAll == Some("true")
  }

  /** The grade is absent or only whitespace. */
  predicate BlankGrade(sub: Submission) {
    sub.grade.None? || Trim(sub.grade.value) == ""
  }

  /** `!is_numeric($grade) || $grade < 0`. */
  predicate InvalidGrade(text: string) {
    !IsNumeric(text) || FloatVal(text) < 0.0
  }

  /** The error key `grader . type`: a missing `grader` field defaults to the submitting user's id and a missing type to "". */
  function ErrorKey(sub: Submission, user: nat): (k: string)
    ensures sub.grader.None? && sub.typeField.Some? ==> k == NatToString(user) + sub.typeField.value
  {
    sub.grader.GetOr(NatToString(user)) + sub.typeField.GetOr("")
  }

  /**
    PHP 8 `$grade < $bound` for a float grade: numeric against a number or a
    numeric label, otherwise as strings, with `floatText` standing for PHP's
    float-to-string conversion.
   */
  predicate Below(g: real, b: Bound, floatText: real -> string) {
    match b
    case Num(v) => g < v
    case Text(t) => if IsNumeric(t) then g < FloatVal(t) else LexLess(floatText(g), t)
  }

  /** PHP 8 `$grade > $bound`, in the same way. */
  predicate Above(g: real, b: Bound, floatText: real -> string) {
    match b
    case Num(v) => g > v
    case Text(t) => if IsNumeric(t) then g > FloatVal(t) else LexLess(t, floatText(g))
  }

  /** Only a truthy bound is enforced. */
  predicate OutOfBounds(g: real, r: Range, floatText: real -> string) {
    (BoundTruthy(r.minGrade) && Below(g, r.minGrade, floatText))
    || (BoundTruthy(r.maxGrade) && Above(g, r.maxGrade, floatText))
  }

  /**
    `validate_grading_element` given the submitting user and the grade
    range in force.
   */
  function Validate(sub: Submission, user: nat, range: Option<Range>, floatText: real -> string): (v: Verdict)
    ensures v.Reject? ==> v.key == ErrorKey(sub, user)
    ensures v == EarlyAccept <==> IsDeleteAll(sub) || BlankGrade(sub)
    ensures v.Accept? ==> IsNumeric(sub.grade.value) && FloatVal(sub.grade.value) >= 0.0
  {
    if IsDeleteAll(sub) || BlankGrade(sub) then EarlyAccept
    else
      var text := sub.grade.value;
      if InvalidGrade(text) then Reject(ErrorKey(sub, user), GradeInvalid)
      else
        var g := FloatVal(text);
        if range.Some? && OutOfBounds(g, range.value, floatText) then
          Reject(ErrorKey(sub, user), GradeOutOfBounds(g))
        else Accept
  }

  /** The function returns true exactly for the two accepting verdicts. */
  predicate Passes(v: Verdict) {
    !v.Reject?
  }

  // ---------------------------------------------------------------------
  // Properties
  // ---------------------------------------------------------------------

  /** The verdict once the early accepts are passed. */
  lemma VerdictAfterEarly(sub: Submission, user: nat, range: Option<Range>, floatText: real -> string)
    requires !IsDeleteAll(sub) && !BlankGrade(sub)
    ensures InvalidGrade(sub.grade.value) ==> Validate(sub, user, range, floatText) == Reject(ErrorKey(sub, user), GradeInvalid)
    ensures !InvalidGrade(sub.grade.value) ==>
      Validate(sub, user, range, floatText)
      == if range.Some? && OutOfBounds(FloatVal(sub.grade.value), range.value, floatText)
         then Reject(ErrorKey(sub, user), GradeOutOfBounds(FloatVal(sub.grade.value)))
         else Accept
  {
  }

  /** A delete-all request and a blank grade pass whatever else was sent. */
  lemma EarlyAcceptance(sub: Submission, user: nat, range: Option<Range>, floatText: real -> string)
    requires IsDeleteAll(sub) || sub.grade.None? || Trim(sub.grade.value) == ""
    ensures Validate(sub, user, range, floatText) == EarlyAccept
  {
  }

  /**
    A present, non-blank grade that is not numeric or is negative is
    rejected as invalid under its own key, whatever the range.
   */
  lemma InvalidGradeRejected(sub: Submission, user: nat, range: Option<Range>, floatText: real -> string)
    requires !IsDeleteAll(sub) && sub.grade.Some? && Trim(sub.grade.value) != ""
    ensures Validate(sub, user, range, floatText) == Reject(ErrorKey(sub, user), GradeInvalid)
        <==> !IsNumeric(sub.grade.value) || FloatVal(sub.grade.value) < 0.0
  {
  }

  /** A numeric, non-negative grade is rejected only when it leaves a truthy bound of the range. */
  lemma RangeRejection(sub: Submission, user: nat, range: Option<Range>, floatText: real -> string)
    requires !IsDeleteAll(sub) && sub.grade.Some? && Trim(sub.grade.value) != ""
    requires IsNumeric(sub.grade.value) && FloatVal(sub.grade.value) >= 0.0
    ensures Passes(Validate(sub, user, range, floatText))
        <==> range.None? || !OutOfBounds(FloatVal(sub.grade.value), range.value, floatText)
    ensures !Passes(Validate(sub, user, range, floatText))
        ==> Validate(sub, user, range, floatText).error == GradeOutOfBounds(FloatVal(sub.grade.value))
  {
    VerdictAfterEarly(sub, user, range, floatText);
  }

  /** A falsy lower bound (0 or "0") is never enforced: only the upper bound can reject. */
  lemma FalsyLowerBoundIgnored(sub: Submission, user: nat, r: Range, floatText: real -> string)
    requires !BoundTruthy(r.minGrade)
    requires Validate(sub, user, Some(r), floatText).Reject?
    ensures Validate(sub, user, Some(r), floatText).error == GradeInvalid
      || (BoundTruthy(r.maxGrade) && Above(FloatVal(sub.grade.value), r.maxGrade, floatText))
  {
  }

  /**
    When the least numeric range label is worth 1, that bound becomes 0 and
    is dropped, so a grade between 0 and 1 is let through (given that it is
    not above the largest label).
   */
  lemma RangeStartingAtOneAcceptsFractions(labels: seq<string>, sub: Submission, user: nat, floatText: real -> string)
    requires |labels| > 0 && AllNumeric(labels)
    requires forall l :: l in labels ==> FloatVal(l) >= 1.0
    requires "1" in labels
    requires !IsDeleteAll(sub) && sub.grade.Some? && Trim(sub.grade.value) != ""
    requires IsNumeric(sub.grade.value) && 0.0 <= FloatVal(sub.grade.value) < 1.0
    ensures Validate(sub, user, FromLabels(labels), floatText) == Accept
  {
    var sorted := SortLabels(labels);
    var lo, hi := sorted[0], sorted[|labels| - 1];
    SortedExtremes(labels);
    AllNumericIn(labels, lo);
    AllNumericIn(labels, hi);
    NumericBounds(labels);
    OneIsOne();
    assert FloatVal(lo) == 1.0;
    var r := Range(Num(0.0), Text(hi));
    assert FromLabels(labels) == Some(r);
    InsideUpperBound(FloatVal(sub.grade.value), hi, floatText);
    AcceptedWhenInside(sub, user, r, floatText);
  }

  lemma InsideUpperBound(g: real, hi: string, floatText: real -> string)
    requires IsNumeric(hi) && 0.0 <= g < 1.0 <= FloatVal(hi)
    ensures !OutOfBounds(g, Range(Num(0.0), Text(hi)), floatText)
  {
  }

  lemma AcceptedWhenInside(sub: Submission, user: nat, r: Range, floatText: real -> string)
    requires !IsDeleteAll(sub) && sub.grade.Some? && Trim(sub.grade.value) != ""
    requires IsNumeric(sub.grade.value) && FloatVal(sub.grade.value) >= 0.0
    requires !OutOfBounds(FloatVal(sub.grade.value), r, floatText)
    ensures Validate(sub, user, Some(r), floatText) == Accept
  {
  }

  lemma OneIsOne()
    ensures FloatVal("1") == 1.0
  {
    DigitsNumeric("1");
    assert DigitsValue("1") == DigitsValue("") * 10 + DigitValue('1');
  }
}
