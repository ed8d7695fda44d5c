/**
  The decisions `display_form` takes once the records have been scanned
  (renderer.php:243-424): whether the viewer may grade and may edit the
  final grade, which records are listed and with which rights, whether a
  blank record is offered, and whether the delete button is shown; and the
  student-view branch of `display_grade` and `get_css_class_suffix`. The
  HTML itself is not modelled.
 */
module Renderer {

  import opened Wrappers
  import opened PhpStrings
  import opened Records
  import opened Aggregation

  /** The display modes of Moodle's grading controller. */
  datatype Mode = EditFull | EditFrozen | Preview | PreviewGraded | Eval | EvalFrozen | Review | View | EvalFull

  /** VIEW, REVIEW and EVAL_FROZEN. */
  predicate ReadOnly(mode: Mode) {
    mode == View || mode == Review || mode == EvalFrozen
  }

  /** EVAL and EVAL_FULL: a teacher or an admin grading. */
  predicate Evaluating(mode: Mode) {
    mode == Eval || mode == EvalFull
  }

  /** The modes in which the earlier records are listed. */
  predicate ListsRecords(mode: Mode) {
    ReadOnly(mode) || Evaluating(mode)
  }

  /**
    `strstr($secondary_graders_id_list, $USER->id) !== FALSE`: the viewer's
    id occurs somewhere in the list text.
   */
  predicate InSecondGradersList(list: Option<string>, user: nat) {
    list.Some? && Contains(list.value, NatToString(user))
  }

  // ---------------------------------------------------------------------
  // The two flags
  // ---------------------------------------------------------------------

  /** `allowFinalGradeEdit` and `userIsAllowedToGrade`. */
  datatype Access = Access(finalEdit: bool, mayGrade: bool)

  /** The viewer wrote the first record. */
  predicate Owner(first: Option<GradeRecord>, current: Option<GradeRecord>) {
    first.Some? && first == current
  }

  /**
    The flags as the records listing sees them: the owner of the first
    record may do both; otherwise read-only modes allow nothing; while
    evaluating an item that has a first record, nobody else edits the final
    grade and a second grader may grade only when the first record is not
    Final, the previous record asked for a second grader and the viewer is
    in the list; in every other case both are allowed.
   */
  function AccessFor(mode: Mode, first: Option<GradeRecord>, current: Option<GradeRecord>,
                     previous: Option<GradeRecord>, inList: bool): (a: Access)
    requires first.None? ==> current.None?
  {
    if Owner(first, current) then Access(true, true)
    else if ReadOnly(mode) then Access(false, false)
    else if Evaluating(mode) && first.Some? then
      Access(false, first.value.kind != Final && previous.Some? && previous.value.requireSecondGrader && inList)
    else Access(true, true)
  }

  /** The flag updates of `display_form` in their order. */
  method DecideAccess(mode: Mode, first: Option<GradeRecord>, current: Option<GradeRecord>,
                      previous: Option<GradeRecord>, inList: bool) returns (a: Access)
    requires first.None? ==> current.None?
    ensures a == AccessFor(mode, first, current, previous, inList)
  {
    var finalEdit := true;
    var mayGrade := true;
    if ReadOnly(mode) {
      finalEdit := false;
      mayGrade := false;
    }
    if Evaluating(mode) && current.Some? && first != current {
      finalEdit := false;
    }
    if Evaluating(mode) && first.Some? {
      finalEdit := false;
      mayGrade := false;
      if first != current {
        if first.value.kind == Final {
        } else if previous.Some? && previous.value.requireSecondGrader {
          if inList {
            mayGrade := true;
          }
        }
      }
    }
    if first.Some? && first == current {
      mayGrade := true;
      finalEdit := true;
    }
    a := Access(finalEdit, mayGrade);
  }

  // ---------------------------------------------------------------------
  // The listing of the earlier records
  // ---------------------------------------------------------------------

  /**
    A listed record with the properties `display_form` sets on it: editable
    (the viewer's own, when the viewer may grade), copyable to the final
    grade, the final-grading record, and shown as the final grade.
   */
  datatype Shown = Shown(record: GradeRecord, allowEdit: bool, copyToFinal: bool, gradingFinal: bool, finalClass: bool)

  /** Blind marking skips the others' records while the final grade cannot be edited and is not Final. */
  predicate Hidden(r: GradeRecord, first: Option<GradeRecord>, current: Option<GradeRecord>, a: Access, blind: bool) {
    blind && !a.finalEdit && Some(r) != current && (first.None? || first.value.kind != Final)
  }

  function ShownAs(r: GradeRecord, first: Option<GradeRecord>, current: Option<GradeRecord>, a: Access): (s: Shown)
    ensures s.record == r
  {
    var isFirst := Some(r) == first;
    Shown(r, Some(r) == current && a.mayGrade,
          (Owner(first, current) && isFirst) || (a.finalEdit && !isFirst),
          Owner(first, current) && isFirst,
          isFirst)
  }

  /** The records the listing loop does not skip, in order. */
  function Listing(rs: seq<GradeRecord>, first: Option<GradeRecord>, current: Option<GradeRecord>,
                   a: Access, blind: bool): (l: seq<Shown>)
    ensures |l| <= |rs|
    ensures forall i :: 0 <= i < |l| ==> l[i] == ShownAs(l[i].record, first, current, a)
  {
    if rs == [] then []
    else
      var r := rs[|rs| - 1];
      var p := Listing(rs[..|rs| - 1], first, current, a, blind);
      p + (if Hidden(r, first, current, a, blind) then [] else [ShownAs(r, first, current, a)])
  }

  /** A record is listed exactly when it is in the table and not hidden. */
  lemma {:induction false} ListingMembers(rs: seq<GradeRecord>, first: Option<GradeRecord>, current: Option<GradeRecord>,
                                          a: Access, blind: bool, r: GradeRecord)
    ensures (exists i :: 0 <= i < |Listing(rs, first, current, a, blind)| && Listing(rs, first, current, a, blind)[i].record == r)
        <==> r in rs && !Hidden(r, first, current, a, blind)
  {
    var l := Listing(rs, first, current, a, blind);
    if rs != [] {
      var q := rs[..|rs| - 1];
      var last := rs[|rs| - 1];
      var p := Listing(q, first, current, a, blind);
      ListingMembers(q, first, current, a, blind, r);
      assert rs == q + [last];
      assert forall i :: 0 <= i < |p| ==> l[i] == p[i];
      if r in rs && !Hidden(r, first, current, a, blind) {
        if r == last {
          assert l[|l| - 1].record == r;
        } else {
          assert r in q;
        }
      }
      if exists i :: 0 <= i < |l| && l[i].record == r {
        var i :| 0 <= i < |l| && l[i].record == r;
        if i < |p| {
          assert p[i].record == r;
          assert r in q by {
            assert 0 <= i < |Listing(q, first, current, a, blind)| && Listing(q, first, current, a, blind)[i].record == r;
          }
          assert r in rs;
        } else {
          assert r == last;
        }
      }
    }
  }

  /** The foreach over the records with its `continue` for the ones blind marking hides. */
  method ListRecords(rs: seq<GradeRecord>, first: Option<GradeRecord>, current: Option<GradeRecord>,
                     a: Access, blind: bool) returns (shown: seq<Shown>)
    ensures shown == Listing(rs, first, current, a, blind)
  {
    shown := [];
    var k := 0;
    while k < |rs|
      invariant 0 <= k <= |rs|
      invariant shown == Listing(rs[..k], first, current, a, blind)
    {
      var r := rs[k];
      assert rs[..k + 1][..k] == rs[..k];
      if !Hidden(r, first, current, a, blind) {
        shown := shown + [ShownAs(r, first, current, a)];
      }
      k := k + 1;
    }
    assert rs[..|rs|] == rs;
  }

  // ---------------------------------------------------------------------
  // The blank record, the final flags and the delete button
  // ---------------------------------------------------------------------

  /**
    The blank record offered to the viewer (grade "", Intermediary, not
    visible, no second grader); with no first record it is the one that
    grades the final grade.
   */
  datatype Offer = Offer(grader: nat, finalEligible: bool)

  function OfferFor(a: Access, first: Option<GradeRecord>, current: Option<GradeRecord>, disabled: bool, user: nat): (o: Option<Offer>)
    ensures o.Some? <==> (a.mayGrade || a.finalEdit) && current.None? && !disabled
    ensures o.Some? ==> o.value.grader == user && (o.value.finalEligible <==> first.None?)
  {
    if (a.mayGrade || a.finalEdit) && current.None? && !disabled then Some(Offer(user, first.None?)) else None
  }

  /** The two hidden inputs: the final-edit flag, and the grading flag it implies unless grading is disabled. */
  function FinalFlags(a: Access, offer: Option<Offer>, disabled: bool): (f: Access)
    ensures f.finalEdit <==> a.finalEdit || (offer.Some? && offer.value.finalEligible)
    ensures f.mayGrade <==> (a.mayGrade || f.finalEdit) && !disabled
  {
    var finalEdit := a.finalEdit || (offer.Some? && offer.value.finalEligible);
    Access(finalEdit, (a.mayGrade || finalEdit) && !disabled)
  }

  /** What `display_form` decides for one viewer. */
  datatype Form = Form(scan: Scan, shown: seq<Shown>, offer: Option<Offer>, flags: Access, deleteButton: bool)

  /**
    `display_form` without the HTML. A null `values` is the same as an item
    without records. `disabled` is the gradebook's locked-or-overridden
    flag and `isAdmin` the `moodle/site:config` capability.
   */
  method DisplayForm(mode: Mode, rs: seq<GradeRecord>, user: nat, list: Option<string>, blind: bool,
                     m: Option<int>, ids: set<nat>, disabled: bool, isAdmin: bool) returns (f: Form)
    requires UniqueGraders(rs)
    ensures f.scan.first == FirstRecord(rs) && f.scan.current == Lookup(rs, user)
    ensures f.scan.previous == PreviousOf(rs, user)
    ensures f.scan.grade == Suggested(rs, m) && f.scan.outcomes == SuggestedOutcomes(rs, ids, m)
    ensures var a := AccessFor(mode, FirstRecord(rs), Lookup(rs, user), PreviousOf(rs, user), InSecondGradersList(list, user));
      && f.shown == (if ListsRecords(mode) then Listing(rs, FirstRecord(rs), Lookup(rs, user), a, blind) else [])
      && f.offer == OfferFor(a, FirstRecord(rs), Lookup(rs, user), disabled, user)
      && f.flags == FinalFlags(a, f.offer, disabled)
    ensures f.deleteButton <==> !disabled && isAdmin
  {
    var inList := list.Some? && Contains(list.value, NatToString(user));
    var scan := ScanRecords(rs, user, m, ids);
    var a := DecideAccess(mode, scan.first, scan.current, scan.previous, inList);
    var shown := [];
    if ListsRecords(mode) {
      shown := ListRecords(rs, scan.first, scan.current, a, blind);
    }
    var offer, flags := OfferAndFlags(a, scan.first, scan.current, disabled, user);
    f := Form(scan, shown, offer, flags, !disabled && isAdmin);
  }

  /** The blank-record offer and the two hidden inputs after it. */
  method OfferAndFlags(a: Access, first: Option<GradeRecord>, current: Option<GradeRecord>, disabled: bool, user: nat)
    returns (offer: Option<Offer>, flags: Access)
    ensures offer == OfferFor(a, first, current, disabled, user)
    ensures flags == FinalFlags(a, offer, disabled)
  {
    offer := None;
    var finalEdit, mayGrade := a.finalEdit, a.mayGrade;
    if (mayGrade || finalEdit) && current.None? && !disabled {
      offer := Some(Offer(user, first.None?));
      if first.None? {
        finalEdit := true;
      }
    }
    if finalEdit {
      mayGrade := true;
    }
    if disabled {
      mayGrade := false;
    }
    flags := Access(finalEdit, mayGrade);
  }

  // ---------------------------------------------------------------------
  // `display_grade` for students, and `get_css_class_suffix`
  // ---------------------------------------------------------------------

  /** What `display_grade` produces: nothing, the student summary, or the grading widget (not modelled). */
  datatype Rendering = Nothing | StudentSummary(timestamp: int, grader: nat, feedback: string) | Widget(record: GradeRecord)

  /**
    In VIEW mode a record is shown to the student, as its time, grader and
    feedback without the grade, exactly when the definition shows
    intermediary grades; its own visibility flag plays no part.
   */
  function DisplayGrade(r: Option<GradeRecord>, mode: Mode, showIntermediary: bool): (out: Rendering)
    ensures r.None? ==> out == Nothing
    ensures r.Some? && mode == View ==> (out != Nothing <==> showIntermediary)
    ensures out.StudentSummary? ==>
      mode == View && out == StudentSummary(r.value.timestamp, r.value.grader, r.value.feedback)
    ensures r.Some? && mode != View ==> out == Widget(r.value)
  {
    match r
    case None => Nothing
    case Some(rec) =>
      if mode == View then
        if showIntermediary then StudentSummary(rec.timestamp, rec.grader, rec.feedback) else Nothing
      else Widget(rec)
  }

  /** The parity word `get_css_class_suffix` ends with. */
  function ParityWord(idx: int): string {
    if idx % 2 != 0 then " odd" else " even"
  }

  /**
    `get_css_class_suffix`: " first" at index 0, " last" at the last index,
    then " odd" or " even".
   */
  function CssClassSuffix(idx: int, maxidx: int): (c: string)
    ensures |c| >= |ParityWord(idx)| && c[|c| - |ParityWord(idx)|..] == ParityWord(idx)
  {
    var head := if idx == 0 then " first" else "";
    var tail := if idx == maxidx then " last" else "";
    var c := head + tail + ParityWord(idx);
    assert c[|c| - |ParityWord(idx)|..] == ParityWord(idx);
    c
  }

  /** The suffix starts with " first" exactly at index 0. */
  lemma CssFirst(idx: int, maxidx: int)
    ensures var c := CssClassSuffix(idx, maxidx);
      idx == 0 <==> |c| >= 6 && c[..6] == " first"
  {
    var c := CssClassSuffix(idx, maxidx);
    if idx != 0 {
      var tail := if idx == maxidx then " last" else "";
      assert c == tail + ParityWord(idx);
      assert c[1] != 'f';
    } else {
      assert c[..6] == " first";
    }
  }

  /** " last" comes just before the parity word exactly at the last index. */
  lemma CssLast(idx: int, maxidx: int)
    ensures var c := CssClassSuffix(idx, maxidx);
      var rest := c[..|c| - |ParityWord(idx)|];
      idx == maxidx <==> |rest| >= 5 && rest[|rest| - 5..] == " last"
  {
    var c := CssClassSuffix(idx, maxidx);
    var head := if idx == 0 then " first" else "";
    var tail := if idx == maxidx then " last" else "";
    assert c == head + tail + ParityWord(idx);
    var rest := c[..|c| - |ParityWord(idx)|];
    assert rest == head + tail;
    if idx != maxidx {
      assert rest == head;
      assert |rest| >= 5 ==> rest[|rest| - 5..] == "first";
    } else {
      assert rest[|rest| - 5..] == tail;
    }
  }

  // ---------------------------------------------------------------------
  // Properties
  // ---------------------------------------------------------------------

  /** The list test is a substring test: id 3 is found in the list "13". */
  lemma SubstringListMatch()
    ensures InSecondGradersList(Some("13"), 3)
  {
    assert NatToString(3) == "3";
    ContainsFactor("1", "3", "");
    assert "1" + "3" + "" == "13";
  }

  /**
    In VIEW, REVIEW and EVAL_FROZEN the listing sees both flags false,
    unless the viewer owns the first record.
   */
  lemma ReadOnlyModes(mode: Mode, first: Option<GradeRecord>, current: Option<GradeRecord>,
                      previous: Option<GradeRecord>, inList: bool)
    requires ReadOnly(mode) && (first.None? ==> current.None?)
    ensures var a := AccessFor(mode, first, current, previous, inList);
      (a.finalEdit <==> Owner(first, current)) && (a.mayGrade <==> Owner(first, current))
  {
  }

  /**
    While evaluating, someone other than the author of the first record
    never edits the final grade, and grades exactly when the first record
    is not Final, the previous record asked for a second grader and the
    viewer is in the list.
   */
  lemma SecondGraderAccess(mode: Mode, first: Option<GradeRecord>, current: Option<GradeRecord>,
                           previous: Option<GradeRecord>, inList: bool)
    requires Evaluating(mode) && first.Some? && !Owner(first, current)
    ensures var a := AccessFor(mode, first, current, previous, inList);
      !a.finalEdit
      && (a.mayGrade <==> first.value.kind != Final && previous.Some? && previous.value.requireSecondGrader && inList)
  {
  }

  /** The author of the first record keeps both rights in every mode. */
  lemma OwnerKeepsRights(mode: Mode, first: Option<GradeRecord>, current: Option<GradeRecord>,
                         previous: Option<GradeRecord>, inList: bool, blind: bool, disabled: bool)
    requires Owner(first, current)
    ensures AccessFor(mode, first, current, previous, inList) == Access(true, true)
    ensures FinalFlags(Access(true, true), OfferFor(Access(true, true), first, current, disabled, 0), disabled)
         == Access(true, !disabled)
  {
    assert OfferFor(Access(true, true), first, current, disabled, 0).None?;
  }

  /** A locked or overridden item offers no blank record and ends with grading not allowed. */
  lemma DisabledAllowsNothing(a: Access, first: Option<GradeRecord>, current: Option<GradeRecord>, user: nat)
    ensures OfferFor(a, first, current, true, user).None?
    ensures !FinalFlags(a, OfferFor(a, first, current, true, user), true).mayGrade
  {
  }

  /**
    With blind marking on, the final grade not editable and the first
    record not Final, only the viewer's own record is listed, and it is
    listed when the viewer has one.
   */
  lemma BlindMarkingShowsOwnOnly(rs: seq<GradeRecord>, first: Option<GradeRecord>, current: Option<GradeRecord>, a: Access)
    requires !a.finalEdit && (first.None? || first.value.kind != Final)
    ensures forall i :: 0 <= i < |Listing(rs, first, current, a, true)| ==> Some(Listing(rs, first, current, a, true)[i].record) == current
    ensures current.Some? && current.value in rs ==>
      exists i :: 0 <= i < |Listing(rs, first, current, a, true)| && Listing(rs, first, current, a, true)[i].record == current.value
  {
    var l := Listing(rs, first, current, a, true);
    forall i | 0 <= i < |l| ensures Some(l[i].record) == current {
      ListingMembers(rs, first, current, a, true, l[i].record);
    }
    if current.Some? && current.value in rs {
      ListingMembers(rs, first, current, a, true, current.value);
    }
  }

  /** Without blind marking every record is listed, in table order. */
  lemma {:induction false} NoBlindListsAll(rs: seq<GradeRecord>, first: Option<GradeRecord>, current: Option<GradeRecord>, a: Access)
    ensures |Listing(rs, first, current, a, false)| == |rs|
    ensures forall i :: 0 <= i < |rs| ==> Listing(rs, first, current, a, false)[i].record == rs[i]
  {
    if rs != [] {
      var p := rs[..|rs| - 1];
      NoBlindListsAll(p, first, current, a);
      var lp := Listing(p, first, current, a, false);
      assert Listing(rs, first, current, a, false) == lp + [ShownAs(rs[|rs| - 1], first, current, a)];
    }
  }

  /** In VIEW mode what a student sees of a record does not depend on its visibility flag. */
  lemma VisibilityFlagIgnored(r: GradeRecord, showIntermediary: bool, visible: bool)
    ensures DisplayGrade(Some(r), View, showIntermediary) == DisplayGrade(Some(r.(visibleToStudents := visible)), View, showIntermediary)
  {
  }
}
