/**
  The change level `update_or_check_definition` reports when a new form
  definition is compared with the stored one (lib.php:122-191), and the
  row of plugin options it writes, and `update_definition` on top of it
  (lib.php:101-107). The tables of the parent controller are not modelled:
  the stored definition and the blank definition the parent creates are
  given as values.
 */
module Definition {

  import opened Wrappers
  import opened PhpStrings

  /**
    A property of a definition: a scalar (kept as its text), a PHP array of
    ids, or the array an `editor` form element submits (its text; the
    format is not modelled).
   */
  datatype Value = Text(text: string) | List(items: seq<string>) | Editor(text: string)

  /** The properties a definition has set (a property that is unset or null is absent). */
  type Fields = map<string, Value>

  /** A stored definition: its properties and the id of the user who last changed it. */
  datatype Stored = Stored(fields: Fields, userModified: nat)

  /** The properties compared, in the order of the loop. */
  const ComparedKeys: seq<string> := ["status", "name", "description", "secondary_graders_id_list",
                                      "criteria", "blind_marking", "show_intermediary_to_students",
                                      "auto_calculate_final_method"]

  /** `DEFINITION_STATUS_READY` of Moodle's grading controller. */
  const StatusReady: string := "20"

  /** PHP 8 `$a == $b` on two arrays of scalars: the same keys, each pair loosely equal. */
  predicate ListsEqual(a: seq<string>, b: seq<string>) {
    |a| == |b| && forall i :: 0 <= i < |a| ==> LooseEq(a[i], b[i])
  }

  /**
    PHP 8 `$a != $b` as written: an array never equals a scalar, and an
    editor array (keys `text` and `format`) never equals a list of ids.
   */
  predicate DiffersAsWritten(a: Value, b: Value) {
    match (a, b)
    case (Text(x), Text(y)) => !LooseEq(x, y)
    case (List(x), List(y)) => !ListsEqual(x, y)
    case (Editor(x), Editor(y)) => x != y
    case _ => true
  }

  /** Whether the submission can be prepared: the secondary list is an array `implode` accepts. */
  predicate HasIdList(nd: Fields) {
    "secondary_graders_id_list" in nd && nd["secondary_graders_id_list"].List?
  }

  /**
    The submission after its defaults: blind marking and showing
    intermediary grades default to 0, and the secondary list is imploded
    with commas.
   */
  function Prepare(nd: Fields): (p: Fields)
    requires HasIdList(nd)
    ensures p.Keys == nd.Keys + {"blind_marking", "show_intermediary_to_students"}
    ensures p["secondary_graders_id_list"] == Text(Implode(nd["secondary_graders_id_list"].items))
    ensures "blind_marking" !in nd ==> p["blind_marking"] == Text("0")
    ensures "show_intermediary_to_students" !in nd ==> p["show_intermediary_to_students"] == Text("0")
    ensures forall k :: k in nd && k !in {"secondary_graders_id_list"} ==> p[k] == nd[k]
  {
    var withBlind := if "blind_marking" in nd then nd else nd["blind_marking" := Text("0")];
    var withShow := if "show_intermediary_to_students" in withBlind then withBlind
                    else withBlind["show_intermediary_to_students" := Text("0")];
    withShow["secondary_graders_id_list" := Text(Implode(nd["secondary_graders_id_list"].items))]
  }

  /** One compared property changes when both sides set it and the two differ. */
  predicate KeyChangedAsWritten(p: Fields, cur: Fields, k: string) {
    k in p && k in cur && DiffersAsWritten(p[k], cur[k])
  }

  /** A truthy author id other than the stored one is a change too. */
  predicate AuthorChanged(userModified: nat, cur: Stored) {
    userModified != 0 && userModified != cur.userModified
  }

  /**
    `update_or_check_definition`'s result as written: 5 without a stored
    definition in a check, otherwise 1 when some compared property or the
    author changed and 0 when nothing did. With an update and no stored
    definition the comparison is against the blank definition the parent
    has just created.
   */
  function ChangeLevelAsWritten(stored: Option<Stored>, blank: Stored, nd: Fields, userModified: nat, doUpdate: bool): (level: nat)
    requires HasIdList(nd)
    ensures level in {0, 1, 5}
    ensures level == 5 <==> stored.None? && !doUpdate
  {
    if stored.None? && !doUpdate then 5
    else
      var cur := stored.GetOr(blank);
      var p := Prepare(nd);
      if ChangedAmongAsWritten(p, cur.fields, |ComparedKeys|) || AuthorChanged(userModified, cur) then 1 else 0
  }

  /** One of the first `n` compared keys changed, by PHP's `!=` as written. */
  predicate ChangedAmongAsWritten(p: Fields, cur: Fields, n: nat)
    requires n <= |ComparedKeys|
  {
    exists j :: 0 <= j < n && KeyChangedAsWritten(p, cur, ComparedKeys[j])
  }

  lemma ChangedAmongAsWrittenStep(p: Fields, cur: Fields, n: nat)
    requires n < |ComparedKeys|
    ensures ChangedAmongAsWritten(p, cur, n + 1) <==> ChangedAmongAsWritten(p, cur, n) || KeyChangedAsWritten(p, cur, ComparedKeys[n])
  {
  }

  /** The row of the plugin's own options table an update writes. */
  datatype Options = Options(blindMarking: Value, showIntermediary: Value, autoMethod: Option<Value>,
                             idList: Value, criteria: Option<string>)

  /**
    The options written: taken from the prepared submission. The branch that
    writes the defaults (show intermediary grades 1, no secondary graders) is
    guarded by blind marking being unset, which the defaults have just ruled
    out, so it is never taken. A criteria property that is not an editor
    array gives no text.
   */
  function OptionsWritten(p: Fields): (o: Options)
    requires "blind_marking" in p && "show_intermediary_to_students" in p && "secondary_graders_id_list" in p
    ensures o.blindMarking == p["blind_marking"] && o.showIntermediary == p["show_intermediary_to_students"]
    ensures o.idList == p["secondary_graders_id_list"]
  {
    Options(p["blind_marking"], p["show_intermediary_to_students"],
            if "auto_calculate_final_method" in p then Some(p["auto_calculate_final_method"]) else None,
            p["secondary_graders_id_list"],
            if "criteria" in p && p["criteria"].Editor? then Some(p["criteria"].text) else None)
  }

  /**
    The loop of `update_or_check_definition`: the level it reports, and the
    options row it writes when it updates and something changed.
   */
  method UpdateOrCheckDefinition(stored: Option<Stored>, blank: Stored, nd: Fields, userModified: nat, doUpdate: bool)
    returns (level: nat, written: Option<Options>)
    requires HasIdList(nd)
    ensures level == ChangeLevelAsWritten(stored, blank, nd, userModified, doUpdate)
    ensures written.Some? <==> doUpdate && level != 0
    ensures written.Some? ==> written.value == OptionsWritten(Prepare(nd))
  {
    if stored.None? && !doUpdate {
      return 5, None;
    }
    var cur := stored.GetOr(blank);
    var p := Prepare(nd);
    var changed := false;
    var i := 0;
    while i < |ComparedKeys|
      invariant 0 <= i <= |ComparedKeys|
      invariant changed <==> ChangedAmongAsWritten(p, cur.fields, i)
    {
      ChangedAmongAsWrittenStep(p, cur.fields, i);
      if KeyChangedAsWritten(p, cur.fields, ComparedKeys[i]) {
        changed := true;
      }
      i := i + 1;
    }
    if AuthorChanged(userModified, cur) {
      changed := true;
    }
    if !changed {
      return 0, None;
    }
    written := if doUpdate then Some(OptionsWritten(p)) else None;
    level := 1;
  }

  /**
    `update_definition`: the submission is marked ready, saved, and every
    graded instance is flagged for regrading when the level is 5.
   */
  method UpdateDefinition(stored: Option<Stored>, blank: Stored, nd: Fields, userModified: nat)
    returns (regrade: bool, written: Option<Options>)
    requires HasIdList(nd)
    ensures regrade == (ChangeLevelAsWritten(stored, blank, nd["status" := Text(StatusReady)], userModified, true) == 5)
    ensures !regrade
    ensures written.Some? <==> ChangeLevelAsWritten(stored, blank, nd["status" := Text(StatusReady)], userModified, true) != 0
    ensures written.Some? ==> written.value == OptionsWritten(Prepare(nd["status" := Text(StatusReady)]))
  {
    var level;
    level, written := UpdateOrCheckDefinition(stored, blank, nd["status" := Text(StatusReady)], userModified, true);
    regrade := level == 5;
  }

  // ---------------------------------------------------------------------
  // As written: the editor array against the stored text
  // ---------------------------------------------------------------------

  /**
    What the database holds after the submission is saved: the prepared
    properties with the criteria reduced to the editor's text.
   */
  function Saved(p: Fields, userModified: nat): (s: Stored)
    ensures s.fields.Keys == p.Keys
    ensures "criteria" in p && p["criteria"].Editor? ==> s.fields["criteria"] == Text(p["criteria"].text)
  {
    var fields := if "criteria" in p && p["criteria"].Editor? then p["criteria" := Text(p["criteria"].text)] else p;
    Stored(fields, userModified)
  }

  /**
    The evidently intended comparison: the submitted editor's text against
    the stored criteria text, and otherwise PHP's `!=` as written.
   */
  predicate Differs(a: Value, b: Value) {
    match (a, b)
    case (Editor(x), Text(y)) => x != y
    case _ => DiffersAsWritten(a, b)
  }

  predicate KeyChanged(p: Fields, cur: Fields, k: string) {
    k in p && k in cur && Differs(p[k], cur[k])
  }

  /** `update_or_check_definition`'s result with the intended comparison of the criteria. */
  function ChangeLevel(stored: Option<Stored>, blank: Stored, nd: Fields, userModified: nat, doUpdate: bool): (level: nat)
    requires HasIdList(nd)
  {
    if stored.None? && !doUpdate then 5
    else
      var cur := stored.GetOr(blank);
      var p := Prepare(nd);
      if ChangedAmong(p, cur.fields, |ComparedKeys|) || AuthorChanged(userModified, cur) then 1 else 0
  }

  /** One of the first `n` compared keys changed. */
  predicate ChangedAmong(p: Fields, cur: Fields, n: nat)
    requires n <= |ComparedKeys|
  {
    exists j :: 0 <= j < n && KeyChanged(p, cur, ComparedKeys[j])
  }

  lemma ChangedAmongStep(p: Fields, cur: Fields, n: nat)
    requires n < |ComparedKeys|
    ensures ChangedAmong(p, cur, n + 1) <==> ChangedAmong(p, cur, n) || KeyChanged(p, cur, ComparedKeys[n])
  {
  }

  // ---------------------------------------------------------------------
  // Properties
  // ---------------------------------------------------------------------

  /** The level is 0, 1 or 5, and 5 exactly in a check without a stored definition. */
  lemma ChangeLevelValues(stored: Option<Stored>, blank: Stored, nd: Fields, userModified: nat, doUpdate: bool)
    requires HasIdList(nd)
    ensures ChangeLevel(stored, blank, nd, userModified, doUpdate) in {0, 1, 5}
    ensures ChangeLevel(stored, blank, nd, userModified, doUpdate) == 5 <==> stored.None? && !doUpdate
  {
  }

  /** A change in any one compared property is reported. */
  lemma KeyChangeReported(stored: Stored, blank: Stored, nd: Fields, userModified: nat, doUpdate: bool, i: nat)
    requires HasIdList(nd) && i < |ComparedKeys|
    requires KeyChanged(Prepare(nd), stored.fields, ComparedKeys[i])
    ensures ChangeLevel(Some(stored), blank, nd, userModified, doUpdate) == 1
  {
  }

  /** With no change in any compared property and no new author, nothing is reported. */
  lemma NoChangeNoLevel(stored: Stored, blank: Stored, nd: Fields, userModified: nat, doUpdate: bool)
    requires HasIdList(nd)
    requires forall k :: k in ComparedKeys ==> !KeyChanged(Prepare(nd), stored.fields, k)
    requires userModified == 0 || userModified == stored.userModified
    ensures ChangeLevel(Some(stored), blank, nd, userModified, doUpdate) == 0
  {
  }

  /** As written, a change in any one compared property gives level 1. */
  lemma KeyChangeReportedAsWritten(stored: Stored, blank: Stored, nd: Fields, userModified: nat, doUpdate: bool, i: nat)
    requires HasIdList(nd) && i < |ComparedKeys|
    requires KeyChangedAsWritten(Prepare(nd), stored.fields, ComparedKeys[i])
    ensures ChangeLevelAsWritten(Some(stored), blank, nd, userModified, doUpdate) == 1
  {
  }

  /** As written, no changed property and no new author give level 0. */
  lemma NoChangeNoLevelAsWritten(stored: Stored, blank: Stored, nd: Fields, userModified: nat, doUpdate: bool)
    requires HasIdList(nd)
    requires forall k :: k in ComparedKeys ==> !KeyChangedAsWritten(Prepare(nd), stored.fields, k)
    requires userModified == 0 || userModified == stored.userModified
    ensures ChangeLevelAsWritten(Some(stored), blank, nd, userModified, doUpdate) == 0
  {
  }

  /**
    As written, submitted criteria from the editor against stored criteria
    text always report a change, whatever the texts are.
   */
  lemma EditorCriteriaAlwaysChange(stored: Stored, blank: Stored, nd: Fields, userModified: nat, doUpdate: bool)
    requires HasIdList(nd) && "criteria" in nd && nd["criteria"].Editor?
    requires "criteria" in stored.fields && stored.fields["criteria"].Text?
    ensures ChangeLevelAsWritten(Some(stored), blank, nd, userModified, doUpdate) == 1
  {
    assert ComparedKeys[4] == "criteria";
    KeyChangeReportedAsWritten(stored, blank, nd, userModified, doUpdate, 4);
  }

  /** Loose equality is reflexive, so a value never differs from itself. */
  lemma DiffersIrreflexive(v: Value)
    ensures !DiffersAsWritten(v, v) && !Differs(v, v)
  {
    if v.List? {
      assert ListsEqual(v.items, v.items);
    }
  }

  /**
    As written, saving a submission whose criteria come from the editor and
    checking the same submission again still reports a change.
   */
  lemma ResubmittedCriteriaChange(nd: Fields, userModified: nat, blank: Stored, doUpdate: bool)
    requires HasIdList(nd) && "criteria" in nd && nd["criteria"].Editor?
    ensures ChangeLevelAsWritten(Some(Saved(Prepare(nd), userModified)), blank, nd, userModified, doUpdate) == 1
  {
    var p := Prepare(nd);
    assert ComparedKeys[4] == "criteria";
    assert KeyChangedAsWritten(p, Saved(p, userModified).fields, ComparedKeys[4]);
  }

  /** With the corrected comparison, checking a submission against its own saved form reports nothing. */
  lemma ResubmittedUnchanged(nd: Fields, userModified: nat, blank: Stored, doUpdate: bool)
    requires HasIdList(nd)
    ensures ChangeLevel(Some(Saved(Prepare(nd), userModified)), blank, nd, userModified, doUpdate) == 0
  {
    var p := Prepare(nd);
    var s := Saved(p, userModified);
    forall i | 0 <= i < |ComparedKeys| ensures !KeyChanged(p, s.fields, ComparedKeys[i]) {
      var k := ComparedKeys[i];
      if k in p {
        if k == "criteria" && p[k].Editor? {
          assert s.fields[k] == Text(p[k].text);
        } else {
          DiffersIrreflexive(p[k]);
        }
      }
    }
  }

  /** The two comparisons agree whenever the criteria are not an editor array. */
  lemma CorrectedAgreesWithoutEditor(stored: Option<Stored>, blank: Stored, nd: Fields, userModified: nat, doUpdate: bool)
    requires HasIdList(nd)
    requires forall k :: k in ComparedKeys && k in nd ==> !nd[k].Editor?
    ensures ChangeLevel(stored, blank, nd, userModified, doUpdate) == ChangeLevelAsWritten(stored, blank, nd, userModified, doUpdate)
  {
    var p := Prepare(nd);
    forall i, c: Fields | 0 <= i < |ComparedKeys|
      ensures KeyChanged(p, c, ComparedKeys[i]) == KeyChangedAsWritten(p, c, ComparedKeys[i])
    {
      var k := ComparedKeys[i];
      if k in p && k in nd {
        assert !p[k].Editor?;
      }
    }
  }
}
