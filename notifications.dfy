/**
  Who is told about a saved grade: the choice `update` makes between the
  second-grader notice and the notice to the first grader (lib.php:940-947),
  and the recipient list each of them ends up with (lib.php:1184-1204,
  1246-1248). Building and sending the messages is not modelled.
 */
module Notifications {

  import opened Wrappers
  import opened PhpStrings
  import opened Records

  /**
    The notice `update` ends with. `InitialGrader(None)` is a notice to the
    first grader when there is no first grader record (a message to a null
    recipient).
   */
  datatype Notice =
    | NoNotice
    | SecondGraders(sentByOwner: bool, recipients: seq<string>)
    | InitialGrader(recipient: Option<nat>)

  // ---------------------------------------------------------------------
  // Recipients of the second-grader notice
  // ---------------------------------------------------------------------

  /**
    The ids the notice goes through: the comma-split secondary list (an unset
    list splits to one empty id), then the first grader when a secondary
    grader sends it and the first record has a non-zero grader.
   */
  function Candidates(list: Option<string>, sentByOwner: bool, first: Option<GradeRecord>): (c: seq<string>)
    ensures |c| >= 1
    ensures forall i :: 0 <= i < |c| ==>
      (c[i] in Explode(list.GetOr("")) || (!sentByOwner && first.Some? && c[i] == NatToString(first.value.grader)))
  {
    Explode(list.GetOr(""))
      + (if !sentByOwner && first.Some? && first.value.grader != 0 then [NatToString(first.value.grader)] else [])
  }

  /** An id the loop skips: empty, "0", or (loosely) equal to the sender's id. */
  predicate Skipped(id: string, user: nat) {
    !Truthy(id) || LooseEqId(id, user)
  }

  /** The ids the loop sends to, in order. */
  function Recipients(ids: seq<string>, user: nat): (r: seq<string>)
    ensures forall x :: x in r <==> x in ids && !Skipped(x, user)
    ensures |r| <= |ids|
  {
    if ids == [] then []
    else
      var last := ids[|ids| - 1];
      assert ids == ids[..|ids| - 1] + [last];
      Recipients(ids[..|ids| - 1], user) + (if Skipped(last, user) then [] else [last])
  }

  /** The foreach over the candidate ids, with its `continue` on skipped ones. */
  method SelectRecipients(list: Option<string>, sentByOwner: bool, first: Option<GradeRecord>, user: nat)
    returns (recipients: seq<string>)
    ensures recipients == Recipients(Candidates(list, sentByOwner, first), user)
  {
    var ids := Candidates(list, sentByOwner, first);
    recipients := [];
    var k := 0;
    while k < |ids|
      invariant 0 <= k <= |ids|
      invariant recipients == Recipients(ids[..k], user)
    {
      RecipientsStep(ids, k, user);
      var id := ids[k];
      if !Skipped(id, user) {
        recipients := recipients + [id];
      }
      k := k + 1;
    }
    assert ids[..|ids|] == ids;
  }

  lemma RecipientsStep(ids: seq<string>, k: nat, user: nat)
    requires k < |ids|
    ensures Recipients(ids[..k + 1], user)
         == Recipients(ids[..k], user) + (if Skipped(ids[k], user) then [] else [ids[k]])
  {
    assert ids[..k + 1][..k] == ids[..k];
  }

  // ---------------------------------------------------------------------
  // The decision in `update`
  // ---------------------------------------------------------------------

  /**
    The second-grader notice is due when the new record is not Final, second
    grading is requested, and the submitter had no record, or a record that
    did not request second grading, or one of another type.
   */
  predicate SecondGradingDue(current: Option<GradeRecord>, kind: GradeType, requireSecond: bool) {
    (current.None? || !current.value.requireSecondGrader || current.value.kind != kind)
    && kind != Final && requireSecond
  }

  /**
    The decision as written: when there is no first record, `null->grader`
    differs from every non-zero user id, so the first-grader branch is taken
    with a null record.
   */
  function NotifyDecisionAsWritten(current: Option<GradeRecord>, kind: GradeType, requireSecond: bool,
                                   gradingFinal: bool, first: Option<GradeRecord>, user: nat,
                                   recipients: seq<string>): (n: Notice)
    ensures n.SecondGraders? <==> SecondGradingDue(current, kind, requireSecond)
    ensures n.SecondGraders? ==> n == SecondGraders(gradingFinal, recipients)
    ensures n.InitialGrader? <==> !SecondGradingDue(current, kind, requireSecond)
                                  && (if first.Some? then first.value.grader != user else user != 0)
    ensures n.InitialGrader? ==> n.recipient == (if first.Some? then Some(first.value.grader) else None)
    ensures first.None? && !SecondGradingDue(current, kind, requireSecond) && user != 0 ==> n == InitialGrader(None)
  {
    if SecondGradingDue(current, kind, requireSecond) then SecondGraders(gradingFinal, recipients)
    else if first.Some? then
      if first.value.grader != user then InitialGrader(Some(first.value.grader)) else NoNotice
    else if user != 0 then InitialGrader(None)
    else NoNotice
  }

  /**
    The decision the code evidently means: the second-grader notice when it
    is due, else a notice to the first grader when there is one and it is
    someone else, else nothing.
   */
  function NotifyDecision(current: Option<GradeRecord>, kind: GradeType, requireSecond: bool,
                          gradingFinal: bool, first: Option<GradeRecord>, user: nat,
                          recipients: seq<string>): (n: Notice)
    ensures n.InitialGrader? ==> n.recipient.Some?
  {
    if SecondGradingDue(current, kind, requireSecond) then SecondGraders(gradingFinal, recipients)
    else if first.Some? && first.value.grader != user then InitialGrader(Some(first.value.grader))
    else NoNotice
  }

  // ---------------------------------------------------------------------
  // Properties
  // ---------------------------------------------------------------------

  /** A user id's text is skipped exactly when it is 0 or the sender's own id. */
  lemma IdTextSkipped(g: nat, user: nat)
    ensures Skipped(NatToString(g), user) <==> g == 0 || g == user
  {
    NatToStringNumeric(g);
    if g != 0 {
      assert NatToString(0) == "0";
      if NatToString(g) == "0" {
        NatToStringInjective(g, 0);
      }
    }
  }

  /** The sender never receives the second-grader notice, nor does an empty or zero id. */
  lemma SenderNeverRecipient(list: Option<string>, sentByOwner: bool, first: Option<GradeRecord>, user: nat)
    ensures forall x :: x in Recipients(Candidates(list, sentByOwner, first), user) ==> !LooseEqId(x, user) && Truthy(x)
  {
  }

  /**
    A secondary grader's notice also reaches the first grader, unless the
    first grader is the sender or has id 0; the owner's notice reaches only
    the listed ids.
   */
  lemma FirstGraderRecipient(list: Option<string>, sentByOwner: bool, first: Option<GradeRecord>, user: nat)
    ensures !sentByOwner && first.Some? && first.value.grader != 0 && first.value.grader != user
        ==> NatToString(first.value.grader) in Recipients(Candidates(list, sentByOwner, first), user)
    ensures sentByOwner ==>
      forall x :: x in Recipients(Candidates(list, sentByOwner, first), user) ==> x in Explode(list.GetOr(""))
  {
    if !sentByOwner && first.Some? && first.value.grader != 0 && first.value.grader != user {
      var g := first.value.grader;
      var c := Candidates(list, sentByOwner, first);
      assert c[|c| - 1] == NatToString(g);
      IdTextSkipped(g, user);
    }
  }

  /** Each listed id that is non-empty, not "0" and not the sender's receives the notice. */
  lemma ListedRecipients(list: Option<string>, sentByOwner: bool, first: Option<GradeRecord>, user: nat, id: string)
    requires id in Explode(list.GetOr("")) && Truthy(id) && !LooseEqId(id, user)
    ensures id in Recipients(Candidates(list, sentByOwner, first), user)
  {
    assert id in Candidates(list, sentByOwner, first);
  }

  /**
    The corrected decision: the second-grader notice exactly when it is due;
    otherwise the first grader is told exactly when there is a first record
    by someone other than the sender; the sender is never the one told.
   */
  lemma NotifyDecisionSpec(current: Option<GradeRecord>, kind: GradeType, requireSecond: bool,
                           gradingFinal: bool, first: Option<GradeRecord>, user: nat, recipients: seq<string>)
    ensures var n := NotifyDecision(current, kind, requireSecond, gradingFinal, first, user, recipients);
      (n.SecondGraders? <==> SecondGradingDue(current, kind, requireSecond))
      && (n.SecondGraders? ==> n == SecondGraders(gradingFinal, recipients))
      && (n.InitialGrader? <==> !SecondGradingDue(current, kind, requireSecond) && first.Some? && first.value.grader != user)
      && (n.InitialGrader? ==> n.recipient == Some(first.value.grader) && n.recipient.value != user)
  {
  }

  /** A Final record never triggers the second-grader notice. */
  lemma FinalNeverAsksSecondGrader(current: Option<GradeRecord>, requireSecond: bool, gradingFinal: bool,
                                   first: Option<GradeRecord>, user: nat, recipients: seq<string>)
    ensures !NotifyDecision(current, Final, requireSecond, gradingFinal, first, user, recipients).SecondGraders?
  {
  }

  /** The two decisions differ only when there is no first record. */
  lemma DecisionsAgreeWithFirstRecord(current: Option<GradeRecord>, kind: GradeType, requireSecond: bool,
                                      gradingFinal: bool, first: Option<GradeRecord>, user: nat, recipients: seq<string>)
    requires first.Some?
    ensures NotifyDecisionAsWritten(current, kind, requireSecond, gradingFinal, first, user, recipients)
         == NotifyDecision(current, kind, requireSecond, gradingFinal, first, user, recipients)
  {
  }

  /**
    The first save on an empty table without a second-grading request (user
    5, no record yet) sends the first-grader notice to nobody as written.
   */
  lemma NullFirstGraderNotice()
    ensures NotifyDecisionAsWritten(None, Intermediary, false, false, None, 5, []) == InitialGrader(None)
    ensures NotifyDecision(None, Intermediary, false, false, None, 5, []) == NoNotice
  {
  }
}
