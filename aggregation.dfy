/**
  The foreach over the item's records at the top of `display_form`
  (renderer.php:140-230): it picks the first record, the viewer's record
  and the record before it, and pre-fills the next grade and the outcomes
  from the records by the definition's auto-calculation method (0 the last
  grade, 1 the least, 2 the greatest, 3 the average).
 */
module Aggregation {

  import opened Wrappers
  import opened Records

  /**
    The case of `switch (auto_calculate_final_method)` taken: an unset
    option is null, which PHP's loose `switch` matches against `case 0`.
   */
  function MethodCase(m: Option<int>): (c: int)
    ensures m.None? ==> c == 0
    ensures m.Some? ==> c == m.value
  {
    m.GetOr(0)
  }

  // ---------------------------------------------------------------------
  // The viewer's neighbours
  // ---------------------------------------------------------------------

  /**
    The record the scan leaves in `previousRecord`: the one just before the
    viewer's record, none when the viewer's record comes first, and the last
    record when the viewer has none.
   */
  function PreviousOf(rs: seq<GradeRecord>, user: nat): (p: Option<GradeRecord>)
    ensures p.Some? ==> p.value in rs
  {
    match IndexOf(rs, user)
    case Some(i) => if i == 0 then None else Some(rs[i - 1])
    case None => if rs == [] then None else Some(rs[|rs| - 1])
  }

  // ---------------------------------------------------------------------
  // The suggested grade
  // ---------------------------------------------------------------------

  /** The running minimum: replaced only by a strictly smaller grade. */
  function MinGrade(rs: seq<GradeRecord>): (m: Option<real>)
    ensures m.Some? <==> |rs| > 0
    ensures m.Some? ==> exists i :: 0 <= i < |rs| && rs[i].grade == m.value
    ensures m.Some? ==> forall i :: 0 <= i < |rs| ==> m.value <= rs[i].grade
  {
    if rs == [] then None
    else
      var p := MinGrade(rs[..|rs| - 1]);
      var g := rs[|rs| - 1].grade;
      if p.None? || p.value > g then Some(g) else p
  }

  /** The running maximum: replaced only by a strictly greater grade. */
  function MaxGrade(rs: seq<GradeRecord>): (m: Option<real>)
    ensures m.Some? <==> |rs| > 0
    ensures m.Some? ==> exists i :: 0 <= i < |rs| && rs[i].grade == m.value
    ensures m.Some? ==> forall i :: 0 <= i < |rs| ==> m.value >= rs[i].grade
  {
    if rs == [] then None
    else
      var p := MaxGrade(rs[..|rs| - 1]);
      var g := rs[|rs| - 1].grade;
      if p.None? || p.value < g then Some(g) else p
  }

  function SumGrades(rs: seq<GradeRecord>): real {
    if rs == [] then 0.0 else SumGrades(rs[..|rs| - 1]) + rs[|rs| - 1].grade
  }

  /** `defaultNextGrade` as the loop leaves it: the average is only summed there. */
  function LoopGrade(rs: seq<GradeRecord>, m: Option<int>): Option<real> {
    match MethodCase(m)
    case 0 => if rs == [] then None else Some(rs[|rs| - 1].grade)
    case 1 => MinGrade(rs)
    case 2 => MaxGrade(rs)
    case _ => None
  }

  /**
    `defaultNextGrade` after the scan: the last grade, the least, the
    greatest, or the sum over the number of records when the sum is not
    zero; null for any other method and for an empty table.
   */
  function Suggested(rs: seq<GradeRecord>, m: Option<int>): (g: Option<real>)
    ensures rs == [] ==> g.None?
    ensures MethodCase(m) == 0 && rs != [] ==> g == Some(rs[|rs| - 1].grade)
    ensures MethodCase(m) == 1 && g.Some? ==> forall i :: 0 <= i < |rs| ==> g.value <= rs[i].grade
    ensures MethodCase(m) == 2 && g.Some? ==> forall i :: 0 <= i < |rs| ==> g.value >= rs[i].grade
    ensures MethodCase(m) in {1, 2} ==> (g.Some? <==> rs != [])
    ensures MethodCase(m) in {1, 2} && g.Some? ==> exists i :: 0 <= i < |rs| && rs[i].grade == g.value
    ensures MethodCase(m) == 3 ==> (g.Some? <==> SumGrades(rs) != 0.0)
    ensures MethodCase(m) == 3 && g.Some? ==> g.value * (|rs| as real) == SumGrades(rs)
    ensures MethodCase(m) !in {0, 1, 2, 3} ==> g.None?
  {
    if MethodCase(m) == 3 then
      if SumGrades(rs) != 0.0 then
        assert rs != [];
        Some(SumGrades(rs) / (|rs| as real))
      else None
    else LoopGrade(rs, m)
  }

  // ---------------------------------------------------------------------
  // The suggested outcomes
  // ---------------------------------------------------------------------

  /** Outcome `x` of a record, when the record has outcomes and that one is set. */
  function OutcomeOf(r: GradeRecord, x: nat): (o: Option<real>)
    ensures o.Some? <==> r.outcomes.Some? && x in r.outcomes.value
  {
    if r.outcomes.Some? && x in r.outcomes.value then Some(r.outcomes.value[x]) else None
  }

  /** Method 0: outcome `x` of the last record that has outcomes (null when that record lacks it). */
  function LastOutcome(rs: seq<GradeRecord>, x: nat): (o: Option<real>)
    ensures o.Some? ==> exists i :: 0 <= i < |rs| && OutcomeOf(rs[i], x) == o
  {
    if rs == [] then None
    else if rs[|rs| - 1].outcomes.Some? then OutcomeOf(rs[|rs| - 1], x)
    else LastOutcome(rs[..|rs| - 1], x)
  }

  /** Without any record having outcomes the result is null; otherwise it is the last such record's outcome `x`. */
  lemma {:induction false} LastOutcomeIsLast(rs: seq<GradeRecord>, x: nat, i: nat)
    ensures (forall k :: 0 <= k < |rs| ==> rs[k].outcomes.None?) ==> LastOutcome(rs, x).None?
    ensures i < |rs| && rs[i].outcomes.Some? && (forall j :: i < j < |rs| ==> rs[j].outcomes.None?) ==>
              LastOutcome(rs, x) == OutcomeOf(rs[i], x)
  {
    if rs != [] {
      var q := rs[..|rs| - 1];
      LastOutcomeIsLast(q, x, i);
      if rs[|rs| - 1].outcomes.None? {
        assert forall k :: 0 <= k < |q| ==> q[k] == rs[k];
      }
    }
  }

  /** Method 1: the least value of outcome `x` among the records that set it. */
  function MinOutcome(rs: seq<GradeRecord>, x: nat): (o: Option<real>)
    ensures o.Some? <==> exists i :: 0 <= i < |rs| && OutcomeOf(rs[i], x).Some?
    ensures o.Some? ==> exists i :: 0 <= i < |rs| && OutcomeOf(rs[i], x) == o
    ensures o.Some? ==> forall i :: 0 <= i < |rs| && OutcomeOf(rs[i], x).Some? ==> o.value <= OutcomeOf(rs[i], x).value
  {
    if rs == [] then None
    else
      var p := MinOutcome(rs[..|rs| - 1], x);
      var v := OutcomeOf(rs[|rs| - 1], x);
      assert forall i :: 0 <= i < |rs| - 1 ==> rs[..|rs| - 1][i] == rs[i];
      if v.Some? && (p.None? || p.value > v.value) then v else p
  }

  /** Method 2: the greatest value of outcome `x` among the records that set it. */
  function MaxOutcome(rs: seq<GradeRecord>, x: nat): (o: Option<real>)
    ensures o.Some? <==> exists i :: 0 <= i < |rs| && OutcomeOf(rs[i], x).Some?
    ensures o.Some? ==> exists i :: 0 <= i < |rs| && OutcomeOf(rs[i], x) == o
    ensures o.Some? ==> forall i :: 0 <= i < |rs| && OutcomeOf(rs[i], x).Some? ==> o.value >= OutcomeOf(rs[i], x).value
  {
    if rs == [] then None
    else
      var p := MaxOutcome(rs[..|rs| - 1], x);
      var v := OutcomeOf(rs[|rs| - 1], x);
      assert forall i :: 0 <= i < |rs| - 1 ==> rs[..|rs| - 1][i] == rs[i];
      if v.Some? && (p.None? || p.value < v.value) then v else p
  }

  /** Method 3: the sum of outcome `x` over the records with outcomes (an unset one adds null, that is 0). */
  function OutcomeSum(rs: seq<GradeRecord>, x: nat): real {
    if rs == [] then 0.0 else OutcomeSum(rs[..|rs| - 1], x) + OutcomeOf(rs[|rs| - 1], x).GetOr(0.0)
  }

  /** `defaultNextOutcomes->x` as the loop leaves it. */
  function LoopOutcome(rs: seq<GradeRecord>, x: nat, m: Option<int>): Option<real> {
    match MethodCase(m)
    case 0 => LastOutcome(rs, x)
    case 1 => MinOutcome(rs, x)
    case 2 => MaxOutcome(rs, x)
    case _ => None
  }

  /**
    `defaultNextOutcomes->x` after the scan. For the average it is the sum
    over the number of all records, rounded down, and it is set only when
    the last record has outcomes and the sum is not zero.
   */
  function SuggestedOutcome(rs: seq<GradeRecord>, x: nat, m: Option<int>): (o: Option<real>)
    ensures MethodCase(m) == 3 ==>
      (o.Some? <==> rs != [] && rs[|rs| - 1].outcomes.Some? && OutcomeSum(rs, x) != 0.0)
    ensures MethodCase(m) == 3 && o.Some? ==>
      o.value == o.value.Floor as real
      && o.value <= OutcomeSum(rs, x) / (|rs| as real) < o.value + 1.0
    ensures MethodCase(m) !in {0, 1, 2, 3} ==> o.None?
  {
    if MethodCase(m) == 3 then
      if rs != [] && rs[|rs| - 1].outcomes.Some? && OutcomeSum(rs, x) != 0.0 then
        Some((OutcomeSum(rs, x) / (|rs| as real)).Floor as real)
      else None
    else LoopOutcome(rs, x, m)
  }

  /** The outcomes pre-filled for the indices of the item's outcomes. */
  function SuggestedOutcomes(rs: seq<GradeRecord>, ids: set<nat>, m: Option<int>): (o: map<nat, real>)
    ensures forall x :: x in o <==> x in ids && SuggestedOutcome(rs, x, m).Some?
    ensures forall x :: x in o ==> o[x] == SuggestedOutcome(rs, x, m).value
  {
    map x | x in ids && SuggestedOutcome(rs, x, m).Some? :: SuggestedOutcome(rs, x, m).value
  }

  // ---------------------------------------------------------------------
  // The loop
  // ---------------------------------------------------------------------

  /** A map entry as PHP reads a property that may be unset (null). */
  function Get(m: map<nat, real>, x: nat): Option<real> {
    if x in m then Some(m[x]) else None
  }

  /** What one record does to `defaultNextOutcomes->x` under methods 0 to 2. */
  function OutcomeStep(acc: Option<real>, r: GradeRecord, x: nat, m: Option<int>): Option<real> {
    if r.outcomes.None? then acc
    else
      var v := OutcomeOf(r, x);
      match MethodCase(m)
      case 0 => v
      case 1 => if v.Some? && (acc.None? || acc.value > v.value) then v else acc
      case 2 => if v.Some? && (acc.None? || acc.value < v.value) then v else acc
      case _ => acc
  }

  /** The result of the scan. */
  datatype Scan = Scan(first: Option<GradeRecord>, current: Option<GradeRecord>, previous: Option<GradeRecord>,
                       grade: Option<real>, outcomes: map<nat, real>)

  /** The variables the foreach updates. */
  datatype Acc = Acc(first: Option<GradeRecord>, current: Option<GradeRecord>, previous: Option<GradeRecord>,
                     next: Option<real>, sum: real, nextOutcomes: map<nat, real>, sumOutcomes: map<nat, real>)

  /** The loop variables after the records `seen`. */
  predicate Describes(a: Acc, seen: seq<GradeRecord>, user: nat, m: Option<int>, ids: set<nat>) {
    NeighboursAfter(a.first, a.current, a.previous, seen, user)
    && GradeAfter(a.next, a.sum, seen, m)
    && OutcomesAfter(a.nextOutcomes, a.sumOutcomes, seen, m, ids)
  }

  predicate NeighboursAfter(first: Option<GradeRecord>, current: Option<GradeRecord>, previous: Option<GradeRecord>,
                            seen: seq<GradeRecord>, user: nat) {
    first == FirstRecord(seen) && current == Lookup(seen, user) && previous == PreviousOf(seen, user)
  }

  /** Only the average method sums the grades. */
  predicate GradeAfter(next: Option<real>, sum: real, seen: seq<GradeRecord>, m: Option<int>) {
    next == LoopGrade(seen, m) && sum == (if MethodCase(m) == 3 then SumGrades(seen) else 0.0)
  }

  /** Only the average method sums the outcomes; the others keep the running value per index. */
  predicate OutcomesAfter(nextOutcomes: map<nat, real>, sumOutcomes: map<nat, real>, seen: seq<GradeRecord>,
                          m: Option<int>, ids: set<nat>) {
    nextOutcomes.Keys <= ids
    && (forall x :: x in ids ==> Get(nextOutcomes, x) == LoopOutcome(seen, x, m))
    && (MethodCase(m) == 3 ==> forall x :: x in ids ==> Get(sumOutcomes, x).GetOr(0.0) == OutcomeSum(seen, x))
  }

  /**
    The foreach of `display_form` over the records in timestamp order,
    followed by the averaging for method 3.
   */
  method ScanRecords(rs: seq<GradeRecord>, user: nat, m: Option<int>, ids: set<nat>) returns (s: Scan)
    requires UniqueGraders(rs)
    ensures s.first == FirstRecord(rs)
    ensures s.current == Lookup(rs, user)
    ensures s.previous == PreviousOf(rs, user)
    ensures s.grade == Suggested(rs, m)
    ensures s.outcomes == SuggestedOutcomes(rs, ids, m)
  {
    var a := Acc(None, None, None, None, 0.0, map[], map[]);
    var k := 0;
    while k < |rs|
      invariant 0 <= k <= |rs|
      invariant Describes(a, rs[..k], user, m, ids)
    {
      a := Visit(a, rs, k, user, m, ids);
      k := k + 1;
    }
    assert rs[..|rs|] == rs;
    s := Finish(a, rs, user, m, ids);
  }

  /**
    One pass of the foreach: the grade by the method, the outcomes when the
    record has any (the inner foreach over the outcome indices is one map
    update), then the first, current and previous records.
   */
  method Visit(a: Acc, rs: seq<GradeRecord>, k: nat, user: nat, m: Option<int>, ids: set<nat>) returns (b: Acc)
    requires UniqueGraders(rs) && k < |rs|
    requires Describes(a, rs[..k], user, m, ids)
    ensures Describes(b, rs[..k + 1], user, m, ids)
  {
    var next, sum := VisitGrade(a.next, a.sum, rs, k, m);
    var nextOutcomes, sumOutcomes := VisitOutcomes(a.nextOutcomes, a.sumOutcomes, rs, k, m, ids);
    var first, current, previous := VisitNeighbours(a.first, a.current, a.previous, rs, k, user);
    b := Acc(first, current, previous, next, sum, nextOutcomes, sumOutcomes);
  }

  /** The first switch of the foreach: the running grade, or the running sum for the average. */
  method VisitGrade(next0: Option<real>, sum0: real, rs: seq<GradeRecord>, k: nat, m: Option<int>)
    returns (next: Option<real>, sum: real)
    requires k < |rs| && GradeAfter(next0, sum0, rs[..k], m)
    ensures GradeAfter(next, sum, rs[..k + 1], m)
  {
    assert rs[..k + 1][..k] == rs[..k];
    var r := rs[k];
    next, sum := next0, sum0;
    var c := MethodCase(m);
    if c == 0 {
      next := Some(r.grade);
    } else if c == 1 {
      if next.None? || next.value > r.grade {
        next := Some(r.grade);
      }
    } else if c == 2 {
      if next.None? || next.value < r.grade {
        next := Some(r.grade);
      }
    } else if c == 3 {
      sum := sum + r.grade;
    }
  }

  /** The inner foreach over the outcome indices, for a record that has outcomes, as one map update. */
  method VisitOutcomes(next0: map<nat, real>, sum0: map<nat, real>, rs: seq<GradeRecord>, k: nat, m: Option<int>, ids: set<nat>)
    returns (nextOutcomes: map<nat, real>, sumOutcomes: map<nat, real>)
    requires k < |rs| && OutcomesAfter(next0, sum0, rs[..k], m, ids)
    ensures OutcomesAfter(nextOutcomes, sumOutcomes, rs[..k + 1], m, ids)
  {
    OutcomeStepAt(rs, k, m);
    var r := rs[k];
    nextOutcomes, sumOutcomes := next0, sum0;
    if r.outcomes.Some? {
      if MethodCase(m) == 3 {
        sumOutcomes := map x | x in ids :: Get(sumOutcomes, x).GetOr(0.0) + OutcomeOf(r, x).GetOr(0.0);
      } else {
        nextOutcomes := map x | x in ids && OutcomeStep(Get(nextOutcomes, x), r, x, m).Some?
                              :: OutcomeStep(Get(nextOutcomes, x), r, x, m).value;
      }
    } else {
      assert forall x :: OutcomeOf(r, x).GetOr(0.0) == 0.0;
    }
  }

  /** The three reassignments at the end of the foreach. */
  method VisitNeighbours(first0: Option<GradeRecord>, current0: Option<GradeRecord>, previous0: Option<GradeRecord>,
                         rs: seq<GradeRecord>, k: nat, user: nat)
    returns (first: Option<GradeRecord>, current: Option<GradeRecord>, previous: Option<GradeRecord>)
    requires UniqueGraders(rs) && k < |rs| && NeighboursAfter(first0, current0, previous0, rs[..k], user)
    ensures NeighboursAfter(first, current, previous, rs[..k + 1], user)
  {
    LookupExtend(rs, k, user);
    IndexOfExtend(rs, k, user);
    assert rs[..k + 1][..k] == rs[..k];
    var r := rs[k];
    first, current, previous := first0, current0, previous0;
    if first.None? {
      first := Some(r);
    }
    if r.grader == user {
      current := Some(r);
    }
    if current.None? {
      previous := Some(r);
    }
  }

  /** The switch after the foreach: only the average method changes anything. */
  method Finish(a: Acc, rs: seq<GradeRecord>, user: nat, m: Option<int>, ids: set<nat>) returns (s: Scan)
    requires Describes(a, rs, user, m, ids)
    ensures s.first == FirstRecord(rs)
    ensures s.current == Lookup(rs, user)
    ensures s.previous == PreviousOf(rs, user)
    ensures s.grade == Suggested(rs, m)
    ensures s.outcomes == SuggestedOutcomes(rs, ids, m)
  {
    var next, nextOutcomes := a.next, a.nextOutcomes;
    if MethodCase(m) == 3 {
      if a.sum != 0.0 {
        next := Some(a.sum / (|rs| as real));
      }
      if |rs| > 0 && rs[|rs| - 1].outcomes.Some? {
        nextOutcomes := map x | x in ids && Get(a.sumOutcomes, x).GetOr(0.0) != 0.0
                              :: (Get(a.sumOutcomes, x).GetOr(0.0) / (|rs| as real)).Floor as real;
      }
    }
    s := Scan(a.first, a.current, a.previous, next, nextOutcomes);
  }

  /** How the outcome functions move when the scan takes record `k`. */
  lemma OutcomeStepAt(rs: seq<GradeRecord>, k: nat, m: Option<int>)
    requires k < |rs|
    ensures forall x :: LoopOutcome(rs[..k + 1], x, m) == OutcomeStep(LoopOutcome(rs[..k], x, m), rs[k], x, m)
    ensures forall x :: OutcomeSum(rs[..k + 1], x) == OutcomeSum(rs[..k], x) + OutcomeOf(rs[k], x).GetOr(0.0)
  {
    var p := rs[..k + 1];
    assert p[..k] == rs[..k];
    forall x ensures LoopOutcome(p, x, m) == OutcomeStep(LoopOutcome(rs[..k], x, m), rs[k], x, m) {
      if rs[k].outcomes.None? {
        assert OutcomeOf(rs[k], x).None?;
      }
    }
  }

  // ---------------------------------------------------------------------
  // Properties
  // ---------------------------------------------------------------------

  /** With the viewer's record at position i, the previous record is the one at i - 1. */
  lemma PreviousBeforeCurrent(rs: seq<GradeRecord>, user: nat, i: nat)
    requires UniqueGraders(rs) && i < |rs| && rs[i].grader == user
    ensures PreviousOf(rs, user) == if i == 0 then None else Some(rs[i - 1])
  {
    LookupAt(rs, i);
  }

  /** A viewer without a record sees the last record as the previous one. */
  lemma PreviousWithoutCurrent(rs: seq<GradeRecord>, user: nat)
    requires |rs| > 0 && forall i :: 0 <= i < |rs| ==> rs[i].grader != user
    ensures PreviousOf(rs, user) == Some(rs[|rs| - 1])
  {
  }

  /** The last-grade method counts the viewer's own record like any other. */
  lemma LastIncludesViewer(rs: seq<GradeRecord>, user: nat, m: Option<int>)
    requires UniqueGraders(rs) && |rs| > 0 && rs[|rs| - 1].grader == user && MethodCase(m) == 0
    ensures Suggested(rs, m) == Some(Lookup(rs, user).value.grade)
  {
    LookupAt(rs, |rs| - 1);
  }

  /** An unset method behaves like method 0. */
  lemma UnsetMethodIsLast(rs: seq<GradeRecord>, ids: set<nat>)
    ensures Suggested(rs, None) == Suggested(rs, Some(0))
    ensures SuggestedOutcomes(rs, ids, None) == SuggestedOutcomes(rs, ids, Some(0))
  {
  }

  /**
    With the average method, when the last record has no outcomes, no
    outcome is pre-filled whatever the earlier records hold.
   */
  lemma AverageNeedsLastOutcomes(rs: seq<GradeRecord>, ids: set<nat>)
    requires |rs| > 0 && rs[|rs| - 1].outcomes.None?
    ensures SuggestedOutcomes(rs, ids, Some(3)) == map[]
  {
  }
}
