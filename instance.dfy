/**
  One grading instance of an item (`gradingform_multigraders_instance` in
  lib.php): the records table of the item, the raw grade pushed to the
  gradebook, the validation errors and the cached grade range. The database
  is the `rows` field; capability checks, the current user and the clock are
  parameters.
 */
module GradingInstance {

  import opened Wrappers
  import opened PhpStrings
  import opened GradeRange
  import opened Records
  import opened Validation
  import opened Notifications

  // ---------------------------------------------------------------------
  // What `update` writes
  // ---------------------------------------------------------------------

  /** Final only when both `grading_final` and `final_grade` were sent. */
  function RecordKind(sub: Submission): (k: GradeType)
    ensures k == Final <==> sub.gradingFinal && sub.finalGrade
  {
    if sub.gradingFinal && sub.finalGrade then Final else Intermediary
  }

  /** The grade text `update` stores: `grade_hidden` when it was sent, otherwise `grade`. */
  function SubmittedGrade(sub: Submission): (t: Option<string>)
    ensures sub.gradeHidden.Some? ==> t == sub.gradeHidden
    ensures sub.gradeHidden.None? ==> t == sub.grade
  {
    if sub.gradeHidden.Some? then sub.gradeHidden else sub.grade
  }

  /** The number the grade column reads back as (a missing grade reads as 0). */
  function GradeValue(t: Option<string>): real {
    match t
    case Some(s) => FloatVal(s)
    case None => 0.0
  }

  /** The row `update` writes for `user`, stamped `now`. */
  function NewRecord(sub: Submission, user: nat, now: int): (r: GradeRecord)
    ensures r.grader == user && r.timestamp == now
    ensures r.kind == RecordKind(sub) && r.grade == GradeValue(SubmittedGrade(sub))
  {
    GradeRecord(user, GradeValue(SubmittedGrade(sub)), sub.feedback.GetOr(""), RecordKind(sub), now,
                sub.visibleToStudents, sub.requireSecondGrader, sub.outcome)
  }

  /**
    The two early returns of `update`: a Final record exists and the
    submitter has no record, or it is someone else's.
   */
  predicate Locked(rs: seq<GradeRecord>, user: nat) {
    LastFinal(rs).Some? && (Lookup(rs, user).None? || LastFinal(rs).value.grader != user)
  }

  /**
    `update` is locked out exactly when `get_final_grader` names somebody
    other than the submitter.
   */
  lemma LockedIffOtherFinalGrader(rs: seq<GradeRecord>, user: nat)
    requires WellFormed(rs)
    ensures Locked(rs, user) <==> FinalGrader(rs).Some? && FinalGrader(rs).value != user
  {
    LastFinalIsFinalGrader(rs);
    if LastFinal(rs).Some? && LastFinal(rs).value.grader == user {
      assert Lookup(rs, user).Some?;
    }
  }

  /** The raw grade after a save: the grade for a Final record, -1 for a non-Final owner save, else unchanged. */
  function RawgradeAfter(sub: Submission, rawgrade: real): (r: real)
    ensures !sub.gradingFinal ==> r == rawgrade
    ensures sub.gradingFinal && sub.finalGrade ==> r == GradeValue(SubmittedGrade(sub))
    ensures sub.gradingFinal && !sub.finalGrade ==> r == -1.0
  {
    if sub.gradingFinal then
      if RecordKind(sub) == Final then GradeValue(SubmittedGrade(sub)) else -1.0
    else rawgrade
  }

  /**
    The foreach at the top of `update`: the first record, the submitter's
    record, and the last Final record.
   */
  method ScanTable(rows: seq<GradeRecord>, user: nat)
    returns (first: Option<GradeRecord>, current: Option<GradeRecord>, final: Option<GradeRecord>)
    requires UniqueGraders(rows)
    ensures first == FirstRecord(rows)
    ensures current == Lookup(rows, user)
    ensures final == LastFinal(rows)
  {
    first, current, final := None, None, None;
    var k := 0;
    while k < |rows|
      invariant 0 <= k <= |rows|
      invariant first == FirstRecord(rows[..k])
      invariant current == Lookup(rows[..k], user)
      invariant final == LastFinal(rows[..k])
    {
      var r := rows[k];
      LookupExtend(rows, k, user);
      assert rows[..k + 1][..k] == rows[..k];
      if first.None? {
        first := Some(r);
      }
      if r.grader == user {
        current := Some(r);
      }
      if r.kind == Final {
        final := Some(r);
      }
      k := k + 1;
    }
    assert rows[..|rows|] == rows;
  }

  // ---------------------------------------------------------------------
  // The instance
  // ---------------------------------------------------------------------

  /**
    The range step of `validate_grading_element` for a valid grade: the
    errors reset, and the out-of-bounds error when a truthy bound is left.
   */
  method CheckRange(sub: Submission, user: nat, range: Option<Range>, floatText: real -> string)
    returns (ok: bool, errors: map<string, ValidationError>)
    requires !IsDeleteAll(sub) && !BlankGrade(sub) && !InvalidGrade(sub.grade.value)
    ensures ok == Passes(Validate(sub, user, range, floatText))
    ensures errors == match Validate(sub, user, range, floatText)
      case Reject(key, error) => map[key := error]
      case _ => map[]
  {
    VerdictAfterEarly(sub, user, range, floatText);
    var g := FloatVal(sub.grade.value);
    if range.Some? && OutOfBounds(g, range.value, floatText) {
      return false, map[ErrorKey(sub, user) := GradeOutOfBounds(g)];
    }
    return true, map[];
  }

  class Instance {
    /** The labels of the controller's grade range, in the order it gives them. */
    const labels: seq<string>
    /** The definition option `secondary_graders_id_list` (None when unset). */
    const secondaryList: Option<string>
    /** The records of this item, in timestamp order. */
    var rows: seq<GradeRecord>
    /** `data->rawgrade`. */
    var rawgrade: real
    var validationErrors: map<string, ValidationError>
    /** The cache behind `getGradeRange`. */
    var gradeRange: Option<Range>

    /** One record per grader in timestamp order, at most one Final, and a cache that matches the labels. */
    ghost predicate Valid()
      reads this
    {
      WellFormed(rows) && (gradeRange.Some? ==> gradeRange == FromLabels(labels))
    }

    constructor(labels: seq<string>, secondaryList: Option<string>, rows: seq<GradeRecord>, rawgrade: real)
      requires WellFormed(rows)
      ensures Valid()
      ensures this.labels == labels && this.secondaryList == secondaryList
      ensures this.rows == rows && this.rawgrade == rawgrade
      ensures validationErrors == map[] && gradeRange == None
    {
      this.labels := labels;
      this.secondaryList := secondaryList;
      this.rows := rows;
      this.rawgrade := rawgrade;
      validationErrors := map[];
      gradeRange := None;
    }

    /**
      `getGradeRange`: recomputed when nothing is cached or a refresh is
      forced; a null range leaves the cache as it was.
     */
    method GetGradeRange(forceRefresh: bool) returns (r: Option<Range>)
      requires Valid()
      modifies this`gradeRange
      ensures Valid()
      ensures r == FromLabels(labels)
      ensures gradeRange == if r.Some? then r else old(gradeRange)
    {
      if gradeRange.None? || forceRefresh {
        var computed := FromLabels(labels);
        if computed.None? {
          return None;
        }
        gradeRange := computed;
      }
      r := gradeRange;
    }

    /**
      `validate_grading_element`: the errors are left alone on the early
      accepts, reset otherwise, and hold the one error of a rejection.
     */
    method ValidateGradingElement(sub: Submission, user: nat, floatText: real -> string) returns (ok: bool)
      requires Valid()
      modifies this`validationErrors, this`gradeRange
      ensures Valid()
      ensures ok == Passes(Validate(sub, user, FromLabels(labels), floatText))
      ensures validationErrors == match Validate(sub, user, FromLabels(labels), floatText)
        case EarlyAccept => old(validationErrors)
        case Accept => map[]
        case Reject(key, error) => map[key := error]
    {
      if IsDeleteAll(sub) {
        return true;
      }
      if BlankGrade(sub) {
        return true;
      }
      ok := CheckGrade(sub, user, floatText);
    }

    /** The part of `validate_grading_element` after the early accepts. */
    method CheckGrade(sub: Submission, user: nat, floatText: real -> string) returns (ok: bool)
      requires Valid() && !IsDeleteAll(sub) && !BlankGrade(sub)
      modifies this`validationErrors, this`gradeRange
      ensures Valid()
      ensures ok == Passes(Validate(sub, user, FromLabels(labels), floatText))
      ensures validationErrors == match Validate(sub, user, FromLabels(labels), floatText)
        case Reject(key, error) => map[key := error]
        case _ => map[]
    {
      var key := ErrorKey(sub, user);
      if InvalidGrade(sub.grade.value) {
        VerdictAfterEarly(sub, user, FromLabels(labels), floatText);
        validationErrors := map[key := GradeInvalid];
        return false;
      }
      var range := GetGradeRange(false);
      ok, validationErrors := CheckRange(sub, user, range, floatText);
    }

    /** `get_instance_grades`: the records keyed by grader, in timestamp order. */
    method GetInstanceGrades() returns (order: seq<nat>, grades: map<nat, GradeRecord>)
      requires Valid()
      ensures order == Graders(rows)
      ensures grades.Keys == set i | 0 <= i < |rows| :: rows[i].grader
      ensures forall i :: 0 <= i < |rows| ==> grades[rows[i].grader] == rows[i]
    {
      order, grades := KeyByGrader(rows);
    }

    /**
      `update`. A delete-all request clears the table and sets the raw grade
      to -1 for a site administrator and does nothing for anyone else. A
      save by a submitter locked out by someone else's Final record writes
      nothing. Any other save upserts the submitter's record, updates the
      raw grade on an owner save, and ends with the notice decision as written.
     */
    method Update(sub: Submission, user: nat, isAdmin: bool, now: int) returns (notice: Notice)
      requires Valid()
      modifies this`rows, this`rawgrade
      ensures Valid()
      ensures IsDeleteAll(sub) ==>
        rows == (if isAdmin then [] else old(rows))
        && rawgrade == (if isAdmin then -1.0 else old(rawgrade))
        && notice == NoNotice
      ensures !IsDeleteAll(sub) && Locked(old(rows), user) ==>
        rows == old(rows) && rawgrade == old(rawgrade) && notice == NoNotice
      ensures !IsDeleteAll(sub) && !Locked(old(rows), user) ==> Saved(sub, user, now, old(rows), old(rawgrade), notice)
      ensures !IsDeleteAll(sub) && !Locked(old(rows), user) ==>
        Lookup(rows, user).Some? && Lookup(rows, user).value.kind == RecordKind(sub)
        && (forall h :: h != user ==> Lookup(rows, h) == Lookup(old(rows), h))
        && (RecordKind(sub) == Final ==> FinalGrader(rows) == Some(user))
    {
      if IsDeleteAll(sub) {
        if isAdmin {
          rows := [];
          rawgrade := -1.0;
        }
        return NoNotice;
      }
      var first, current, final := ScanTable(rows, user);
      if final.Some? && current.None? {
        return NoNotice;
      }
      if final.Some? && final.value.grader != user {
        return NoNotice;
      }
      notice := Store(sub, user, now, first, current);
    }

    /**
      The state after a save that was not locked out: the submitter's record
      upserted, the raw grade bookkeeping, and the notice the save ends with.
     */
    ghost predicate Saved(sub: Submission, user: nat, now: int, before: seq<GradeRecord>, rawBefore: real, notice: Notice)
      reads this
    {
      rows == Upsert(before, NewRecord(sub, user, now), now)
      && rawgrade == RawgradeAfter(sub, rawBefore)
      && notice == NotifyDecisionAsWritten(Lookup(before, user), RecordKind(sub), sub.requireSecondGrader,
           sub.gradingFinal, FirstRecord(before), user,
           Recipients(Candidates(secondaryList, sub.gradingFinal, FirstRecord(before)), user))
    }

    /** The part of `update` after the lock checks. */
    method Store(sub: Submission, user: nat, now: int, first: Option<GradeRecord>, current: Option<GradeRecord>)
      returns (notice: Notice)
      requires Valid() && !Locked(rows, user)
      requires first == FirstRecord(rows) && current == Lookup(rows, user)
      modifies this`rows, this`rawgrade
      ensures Valid()
      ensures Saved(sub, user, now, old(rows), old(rawgrade), notice)
      ensures Lookup(rows, user).Some? && Lookup(rows, user).value.kind == RecordKind(sub)
      ensures forall h :: h != user ==> Lookup(rows, h) == Lookup(old(rows), h)
      ensures RecordKind(sub) == Final ==> FinalGrader(rows) == Some(user)
    {
      var kind := RecordKind(sub);
      var gradingFinal := sub.gradingFinal;
      var record := NewRecord(sub, user, now);
      ghost var before := rows;
      UpsertSpec(rows, record, now);
      UpsertKeepsOneFinal(rows, record, now);
      rows := Upsert(rows, record, now);
      if kind == Final {
        FinalGraderAt(rows, UpsertIndex(before, record, now));
      }
      if gradingFinal {
        if kind == Final {
          rawgrade := GradeValue(SubmittedGrade(sub));
        } else {
          rawgrade := -1.0;
        }
      }
      if SecondGradingDue(current, kind, sub.requireSecondGrader) {
        var recipients := SelectRecipients(secondaryList, gradingFinal, first, user);
        notice := SecondGraders(gradingFinal, recipients);
      } else if first.Some? {
        notice := if first.value.grader != user then InitialGrader(Some(first.value.grader)) else NoNotice;
      } else if user != 0 {
        notice := InitialGrader(None);
      } else {
        notice := NoNotice;
      }
    }

    /** `get_grade`: -1 without a grade range, else the raw grade rounded down. */
    function GetGrade(): (g: int)
      reads this
      ensures |labels| == 0 ==> g == -1
      ensures |labels| > 0 ==> g as real <= rawgrade < g as real + 1.0
    {
      if |labels| == 0 then -1 else rawgrade.Floor
    }

    /** `get_final_grader` on the current records. */
    function GetFinalGrader(): (g: Option<nat>)
      reads this
      ensures g.Some? <==> exists k :: 0 <= k < |rows| && rows[k].kind == Final
      ensures g.Some? ==> exists k :: 0 <= k < |rows| && rows[k].kind == Final && rows[k].grader == g.value
    {
      FinalGrader(rows)
    }
  }
}
