/**
  Grade records and the per-item records table.

  The table for one item is a sequence of records in timestamp order with
  one record per grader: the ordered, grader-keyed array that
  `get_instance_grades` builds from the rows the database returns sorted by
  timestamp.
 */
module Records {

  import opened Wrappers

  /** GRADE_TYPE_INTERMEDIARY (0) and GRADE_TYPE_FINAL (1). */
  datatype GradeType = Intermediary | Final

  /** One grader's submission for one item. Unset outcomes (a NULL column) are `None`. */
  datatype GradeRecord = GradeRecord(
    grader: nat,
    grade: real,
    feedback: string,
    kind: GradeType,
    timestamp: int,
    visibleToStudents: bool,
    requireSecondGrader: bool,
    outcomes: Option<map<nat, real>>)

  // ---------------------------------------------------------------------
  // Table invariants
  // ---------------------------------------------------------------------

  /** At most one record per grader. */
  predicate UniqueGraders(rs: seq<GradeRecord>) {
    forall i, j :: 0 <= i < j < |rs| ==> rs[i].grader != rs[j].grader
  }

  /** Records appear in ascending timestamp order. */
  predicate SortedByTime(rs: seq<GradeRecord>) {
    forall i, j :: 0 <= i < j < |rs| ==> rs[i].timestamp <= rs[j].timestamp
  }

  /** At most one record has type Final. */
  predicate AtMostOneFinal(rs: seq<GradeRecord>) {
    forall i, j :: 0 <= i < j < |rs| && rs[i].kind == Final ==> rs[j].kind != Final
  }

  predicate WellFormed(rs: seq<GradeRecord>) {
    UniqueGraders(rs) && SortedByTime(rs) && AtMostOneFinal(rs)
  }

  // ---------------------------------------------------------------------
  // Lookups
  // ---------------------------------------------------------------------

  /** The earliest record (the primary grader's), if any. */
  function FirstRecord(rs: seq<GradeRecord>): (r: Option<GradeRecord>)
    ensures r.Some? <==> |rs| > 0
    ensures r.Some? ==> r.value == rs[0]
  {
    if |rs| == 0 then None else Some(rs[0])
  }

  /** The index of `g`'s record, if `g` has one. */
  function IndexOf(rs: seq<GradeRecord>, g: nat): (r: Option<nat>)
    ensures r.Some? ==> r.value < |rs| && rs[r.value].grader == g
    ensures r.Some? ==> forall k :: 0 <= k < r.value ==> rs[k].grader != g
    ensures r.None? ==> forall k :: 0 <= k < |rs| ==> rs[k].grader != g
  {
    if |rs| == 0 then None
    else if rs[0].grader == g then Some(0)
    else match IndexOf(rs[1..], g)
      case None => None
      case Some(i) => Some(i + 1)
  }

  /** The record of grader `g`, if any. */
  function Lookup(rs: seq<GradeRecord>, g: nat): (r: Option<GradeRecord>)
    ensures r.Some? <==> exists k :: 0 <= k < |rs| && rs[k].grader == g
    ensures r.Some? ==> r.value in rs && r.value.grader == g
  {
    match IndexOf(rs, g)
    case None => None
    case Some(i) => Some(rs[i])
  }

  /** In a table with unique graders, the record at position i is the one Lookup finds. */
  lemma LookupAt(rs: seq<GradeRecord>, i: nat)
    requires UniqueGraders(rs) && i < |rs|
    ensures Lookup(rs, rs[i].grader) == Some(rs[i])
  {
    assert IndexOf(rs, rs[i].grader).Some?;
  }

  /** Extending a prefix by one record moves the index only of that record's grader. */
  lemma IndexOfExtend(rows: seq<GradeRecord>, k: nat, user: nat)
    requires UniqueGraders(rows) && k < |rows|
    ensures IndexOf(rows[..k + 1], user) == if rows[k].grader == user then Some(k) else IndexOf(rows[..k], user)
  {
    var p := rows[..k + 1];
    if rows[k].grader == user {
      assert p[k].grader == user;
      assert IndexOf(p, user).Some?;
    } else {
      PrefixIndexOf(p, user);
      assert p[..k] == rows[..k];
    }
  }

  /** Extending a prefix by one record changes the lookup only for that record's grader. */
  lemma LookupExtend(rows: seq<GradeRecord>, k: nat, user: nat)
    requires UniqueGraders(rows) && k < |rows|
    ensures Lookup(rows[..k + 1], user) == if rows[k].grader == user then Some(rows[k]) else Lookup(rows[..k], user)
  {
    IndexOfExtend(rows, k, user);
    assert rows[..k + 1][..k] == rows[..k];
  }

  /** A lookup that misses the last record gives the same answer without it. */
  lemma {:induction false} PrefixIndexOf(rs: seq<GradeRecord>, g: nat)
    requires |rs| > 0 && rs[|rs| - 1].grader != g
    ensures IndexOf(rs, g) == IndexOf(rs[..|rs| - 1], g)
  {
    if |rs| > 1 && rs[0].grader != g {
      assert rs[1..][..|rs| - 2] == rs[..|rs| - 1][1..];
      PrefixIndexOf(rs[1..], g);
    }
  }

  /**
    `get_final_grader`: the author of the first Final record in table order,
    or null when no record is Final.
   */
  function FinalGrader(rs: seq<GradeRecord>): (r: Option<nat>)
    ensures r.None? <==> forall k :: 0 <= k < |rs| ==> rs[k].kind != Final
    ensures r.Some? ==> exists k :: (0 <= k < |rs| && rs[k].kind == Final && rs[k].grader == r.value
        && forall j :: 0 <= j < k ==> rs[j].kind != Final)
  {
    if |rs| == 0 then None
    else if rs[0].kind == Final then Some(rs[0].grader)
    else
      var r := FinalGrader(rs[1..]);
      assert r.Some? ==> exists k :: (0 <= k < |rs| - 1 && rs[1..][k].kind == Final && rs[1..][k].grader == r.value
          && forall j :: 0 <= j < k ==> rs[1..][j].kind != Final);
      r
  }

  /**
    The `finalGradeRecord` of the scan in `update`: the loop reassigns it at
    every Final record, so it is the last one.
   */
  function LastFinal(rs: seq<GradeRecord>): (r: Option<GradeRecord>)
    ensures r.None? <==> forall k :: 0 <= k < |rs| ==> rs[k].kind != Final
    ensures r.Some? ==> r.value in rs && r.value.kind == Final
  {
    if |rs| == 0 then None
    else if rs[|rs| - 1].kind == Final then Some(rs[|rs| - 1])
    else
      var r := LastFinal(rs[..|rs| - 1]);
      assert forall k :: 0 <= k < |rs| - 1 ==> rs[k] == rs[..|rs| - 1][k];
      r
  }

  /** Under the one-Final invariant, the scan in `update` and `get_final_grader` agree. */
  lemma {:induction false} LastFinalIsFinalGrader(rs: seq<GradeRecord>)
    requires AtMostOneFinal(rs)
    ensures FinalGrader(rs) == (match LastFinal(rs) case None => None case Some(r) => Some(r.grader))
  {
    if |rs| > 0 {
      if rs[0].kind == Final {
        assert forall k :: 0 < k < |rs| ==> rs[k].kind != Final;
        LastFinalOnlyAt(rs, 0);
      } else {
        var tail := rs[1..];
        assert AtMostOneFinal(tail);
        LastFinalIsFinalGrader(tail);
        LastFinalDropFirst(rs);
      }
    }
  }

  /** Under the one-Final invariant the Final record anywhere in the table is the final grader's. */
  lemma FinalGraderAt(rs: seq<GradeRecord>, i: nat)
    requires AtMostOneFinal(rs) && i < |rs| && rs[i].kind == Final
    ensures FinalGrader(rs) == Some(rs[i].grader)
  {
    var k :| 0 <= k < |rs| && rs[k].kind == Final && rs[k].grader == FinalGrader(rs).value
        && forall j :: 0 <= j < k ==> rs[j].kind != Final;
    assert !(k < i) && !(i < k);
  }

  lemma LastFinalOnlyAt(rs: seq<GradeRecord>, i: nat)
    requires i < |rs| && rs[i].kind == Final
    requires forall k :: 0 <= k < |rs| && k != i ==> rs[k].kind != Final
    ensures LastFinal(rs) == Some(rs[i])
    decreases |rs|
  {
    if i < |rs| - 1 {
      LastFinalOnlyAt(rs[..|rs| - 1], i);
    }
  }

  lemma {:induction false} LastFinalDropFirst(rs: seq<GradeRecord>)
    requires |rs| > 0 && rs[0].kind != Final
    ensures LastFinal(rs) == LastFinal(rs[1..])
    decreases |rs|
  {
    if |rs| > 1 {
      assert rs[1..][..|rs| - 2] == rs[..|rs| - 1][1..];
      LastFinalDropFirst(rs[..|rs| - 1]);
    }
  }

  // ---------------------------------------------------------------------
  // Keyed view: the PHP array `grades[grader] = record`
  // ---------------------------------------------------------------------

  /** The array built by assigning `grades[row.grader] = row` for each row in order. */
  function Keyed(rows: seq<GradeRecord>): map<nat, GradeRecord> {
    if rows == [] then map[]
    else Keyed(rows[..|rows| - 1])[rows[|rows| - 1].grader := rows[|rows| - 1]]
  }

  /** The key order of that array: each grader where it was first assigned. */
  function KeyOrder(rows: seq<GradeRecord>): seq<nat> {
    if rows == [] then []
    else
      var prefix := rows[..|rows| - 1];
      var g := rows[|rows| - 1].grader;
      KeyOrder(prefix) + (if g in Keyed(prefix) then [] else [g])
  }

  function Graders(rows: seq<GradeRecord>): (gs: seq<nat>)
    ensures |gs| == |rows| && forall i :: 0 <= i < |rows| ==> gs[i] == rows[i].grader
  {
    if rows == [] then [] else Graders(rows[..|rows| - 1]) + [rows[|rows| - 1].grader]
  }

  /**
    `get_instance_grades`: one foreach over the rows in timestamp order,
    indexing each row by its grader.
   */
  method KeyByGrader(rows: seq<GradeRecord>) returns (order: seq<nat>, grades: map<nat, GradeRecord>)
    ensures order == KeyOrder(rows) && grades == Keyed(rows)
    ensures UniqueGraders(rows) ==> order == Graders(rows)
    ensures UniqueGraders(rows) ==> forall i :: 0 <= i < |rows| ==> rows[i].grader in grades && grades[rows[i].grader] == rows[i]
    ensures grades.Keys == set i | 0 <= i < |rows| :: rows[i].grader
  {
    order, grades := [], map[];
    var k := 0;
    while k < |rows|
      invariant 0 <= k <= |rows|
      invariant order == KeyOrder(rows[..k]) && grades == Keyed(rows[..k])
    {
      assert rows[..k + 1][..k] == rows[..k];
      var r := rows[k];
      if r.grader !in grades {
        order := order + [r.grader];
      }
      grades := grades[r.grader := r];
      k := k + 1;
    }
    assert rows[..|rows|] == rows;
    KeyedKeys(rows);
    if UniqueGraders(rows) {
      KeyedUnique(rows);
    }
  }

  lemma {:induction false} KeyedKeys(rows: seq<GradeRecord>)
    ensures Keyed(rows).Keys == set i | 0 <= i < |rows| :: rows[i].grader
  {
    if rows != [] {
      var p := rows[..|rows| - 1];
      KeyedKeys(p);
      assert (set i | 0 <= i < |rows| :: rows[i].grader) == (set i | 0 <= i < |p| :: p[i].grader) + {rows[|rows| - 1].grader};
    }
  }

  /** With unique graders the keyed array lists the rows in order, each under its grader. */
  lemma {:induction false} KeyedUnique(rows: seq<GradeRecord>)
    requires UniqueGraders(rows)
    ensures KeyOrder(rows) == Graders(rows)
    ensures forall i :: 0 <= i < |rows| ==> rows[i].grader in Keyed(rows) && Keyed(rows)[rows[i].grader] == rows[i]
  {
    if rows != [] {
      var p := rows[..|rows| - 1];
      var last := rows[|rows| - 1];
      assert UniqueGraders(p);
      KeyedUnique(p);
      KeyedKeys(p);
      assert last.grader !in Keyed(p);
    }
  }

  // ---------------------------------------------------------------------
  // The upsert of one record per (item, grader)
  // ---------------------------------------------------------------------

  /**
    The re-fetch `ORDER BY timestamp` as modelled: a newly inserted row goes
    after every row not newer than it. The database leaves the order among
    equal timestamps open; placing the new row after them is this model's choice.
   */
  function InsertByTime(rs: seq<GradeRecord>, r: GradeRecord): (out: seq<GradeRecord>)
    ensures |out| == |rs| + 1
  {
    if rs == [] then [r]
    else if r.timestamp < rs[0].timestamp then [r] + rs
    else [rs[0]] + InsertByTime(rs[1..], r)
  }

  lemma {:induction false} InsertByTimeMultiset(rs: seq<GradeRecord>, r: GradeRecord)
    ensures multiset(InsertByTime(rs, r)) == multiset(rs) + multiset{r}
  {
    if rs != [] && r.timestamp >= rs[0].timestamp {
      assert rs == [rs[0]] + rs[1..];
      InsertByTimeMultiset(rs[1..], r);
    }
  }

  /** When the clock has not gone backwards the new row simply goes last. */
  lemma {:induction false} InsertByTimeNewest(rs: seq<GradeRecord>, r: GradeRecord)
    requires forall k :: 0 <= k < |rs| ==> rs[k].timestamp <= r.timestamp
    ensures InsertByTime(rs, r) == rs + [r]
  {
    if rs != [] {
      InsertByTimeNewest(rs[1..], r);
    }
  }

  lemma {:induction false} InsertByTimeSorted(rs: seq<GradeRecord>, r: GradeRecord)
    requires SortedByTime(rs)
    ensures SortedByTime(InsertByTime(rs, r))
  {
    if rs != [] && r.timestamp >= rs[0].timestamp {
      InsertByTimeSorted(rs[1..], r);
      var out := InsertByTime(rs, r);
      InsertByTimeMultiset(rs, r);
      forall k | 0 <= k < |out| ensures rs[0].timestamp <= out[k].timestamp {
        assert out[k] in multiset(out);
      }
    }
  }

  lemma {:induction false} InsertByTimeLookup(rs: seq<GradeRecord>, r: GradeRecord, h: nat)
    requires forall k :: 0 <= k < |rs| ==> rs[k].grader != r.grader
    ensures Lookup(InsertByTime(rs, r), h) == if h == r.grader then Some(r) else Lookup(rs, h)
  {
    if rs == [] {
      LookupCons(r, [], h);
      assert [r] + [] == [r];
    } else if r.timestamp < rs[0].timestamp {
      LookupCons(r, rs, h);
    } else {
      InsertByTimeLookup(rs[1..], r, h);
      LookupCons(rs[0], InsertByTime(rs[1..], r), h);
      LookupCons(rs[0], rs[1..], h);
      assert rs == [rs[0]] + rs[1..];
    }
  }

  /** Looking a grader up in a table with one more record in front. */
  lemma LookupCons(x: GradeRecord, rs: seq<GradeRecord>, h: nat)
    ensures Lookup([x] + rs, h) == if x.grader == h then Some(x) else Lookup(rs, h)
  {
    assert ([x] + rs)[1..] == rs;
  }

  lemma {:induction false} InsertByTimeUnique(rs: seq<GradeRecord>, r: GradeRecord)
    requires UniqueGraders(rs)
    requires forall k :: 0 <= k < |rs| ==> rs[k].grader != r.grader
    ensures UniqueGraders(InsertByTime(rs, r))
  {
    if rs != [] && r.timestamp >= rs[0].timestamp {
      InsertByTimeUnique(rs[1..], r);
      var t := InsertByTime(rs[1..], r);
      InsertByTimeMultiset(rs[1..], r);
      forall k | 0 <= k < |t| ensures t[k].grader != rs[0].grader {
        assert t[k] in multiset(t);
        if t[k] != r {
          assert t[k] in multiset(rs[1..]);
          var m :| 0 <= m < |rs| - 1 && rs[1..][m] == t[k];
          assert rs[m + 1] == t[k];
        }
      }
    }
  }

  /** Tables with the same grader id at every position give every id the same index. */
  lemma {:induction false} IndexOfSameGraders(a: seq<GradeRecord>, b: seq<GradeRecord>, h: nat)
    requires |a| == |b| && forall k :: 0 <= k < |a| ==> a[k].grader == b[k].grader
    ensures IndexOf(a, h) == IndexOf(b, h)
  {
    if |a| > 0 {
      IndexOfSameGraders(a[1..], b[1..], h);
    }
  }

  /**
    `update`'s write for grader `r.grader`: an existing record is replaced in
    place and keeps its timestamp; otherwise a record stamped `now` is inserted.
   */
  function Upsert(rs: seq<GradeRecord>, r: GradeRecord, now: int): seq<GradeRecord>
  {
    match IndexOf(rs, r.grader)
    case Some(i) => rs[i := r.(timestamp := rs[i].timestamp)]
    case None => InsertByTime(rs, r.(timestamp := now))
  }

  /** The timestamp the upserted record carries. */
  function UpsertStamp(rs: seq<GradeRecord>, g: nat, now: int): int {
    match Lookup(rs, g)
    case Some(o) => o.timestamp
    case None => now
  }

  /**
    The upsert keeps one record per grader and the timestamp order; afterwards
    the submitter has exactly the submitted record, every other grader's record
    is untouched, and the table grew by one only when the submitter had none.
   */
  lemma UpsertSpec(rs: seq<GradeRecord>, r: GradeRecord, now: int)
    requires UniqueGraders(rs) && SortedByTime(rs)
    ensures UniqueGraders(Upsert(rs, r, now)) && SortedByTime(Upsert(rs, r, now))
    ensures Lookup(Upsert(rs, r, now), r.grader) == Some(r.(timestamp := UpsertStamp(rs, r.grader, now)))
    ensures forall h :: h != r.grader ==> Lookup(Upsert(rs, r, now), h) == Lookup(rs, h)
    ensures |Upsert(rs, r, now)| == |rs| + (if Lookup(rs, r.grader).Some? then 0 else 1)
    ensures Upsert(rs, r, now)[UpsertIndex(rs, r, now)] == r.(timestamp := UpsertStamp(rs, r.grader, now))
    ensures multiset(Upsert(rs, r, now)) - multiset{Upsert(rs, r, now)[UpsertIndex(rs, r, now)]}
         == multiset(rs) - (if Lookup(rs, r.grader).Some? then multiset{Lookup(rs, r.grader).value} else multiset{})
  {
    match IndexOf(rs, r.grader)
    case Some(i) =>
      ReplaceSpec(rs, i, r.(timestamp := rs[i].timestamp));
    case None =>
      InsertSpec(rs, r.(timestamp := now));
      UpsertIndexInserted(rs, r, now);
  }

  /** Replacing a record by one of the same grader and timestamp. */
  lemma ReplaceSpec(rs: seq<GradeRecord>, i: nat, r: GradeRecord)
    requires UniqueGraders(rs) && SortedByTime(rs)
    requires i < |rs| && r.grader == rs[i].grader && r.timestamp == rs[i].timestamp
    ensures UniqueGraders(rs[i := r]) && SortedByTime(rs[i := r])
    ensures forall h :: IndexOf(rs[i := r], h) == IndexOf(rs, h)
    ensures multiset(rs[i := r]) - multiset{r} == multiset(rs) - multiset{rs[i]}
  {
    var out := rs[i := r];
    forall h ensures IndexOf(out, h) == IndexOf(rs, h) {
      IndexOfSameGraders(out, rs, h);
    }
    assert rs == rs[..i] + [rs[i]] + rs[i + 1..];
    assert out == rs[..i] + [r] + rs[i + 1..];
  }

  /** Inserting the record of a grader who has none. */
  lemma InsertSpec(rs: seq<GradeRecord>, r: GradeRecord)
    requires UniqueGraders(rs) && SortedByTime(rs)
    requires forall k :: 0 <= k < |rs| ==> rs[k].grader != r.grader
    ensures UniqueGraders(InsertByTime(rs, r)) && SortedByTime(InsertByTime(rs, r))
    ensures forall h :: Lookup(InsertByTime(rs, r), h) == if h == r.grader then Some(r) else Lookup(rs, h)
    ensures InsertIndex(rs, r) <= |rs| && InsertByTime(rs, r)[InsertIndex(rs, r)] == r
  {
    InsertByTimeUnique(rs, r);
    InsertByTimeSorted(rs, r);
    forall h ensures Lookup(InsertByTime(rs, r), h) == if h == r.grader then Some(r) else Lookup(rs, h) {
      InsertByTimeLookup(rs, r, h);
    }
    InsertIndexSplit(rs, r);
  }

  /** The position of the submitter's record after the upsert. */
  function UpsertIndex(rs: seq<GradeRecord>, r: GradeRecord, now: int): (i: nat)
    ensures i < |Upsert(rs, r, now)|
  {
    match IndexOf(rs, r.grader)
    case Some(i) => i
    case None =>
      InsertIndexSplit(rs, r.(timestamp := now));
      InsertIndex(rs, r.(timestamp := now))
  }

  /** Where InsertByTime puts the new row: before the first strictly newer one. */
  function InsertIndex(rs: seq<GradeRecord>, r: GradeRecord): nat {
    if rs == [] || r.timestamp < rs[0].timestamp then 0
    else InsertIndex(rs[1..], r) + 1
  }

  lemma {:induction false} InsertIndexSplit(rs: seq<GradeRecord>, r: GradeRecord)
    ensures InsertIndex(rs, r) <= |rs|
    ensures InsertByTime(rs, r) == rs[..InsertIndex(rs, r)] + [r] + rs[InsertIndex(rs, r)..]
  {
    if rs != [] && r.timestamp >= rs[0].timestamp {
      var t := rs[1..];
      InsertIndexSplit(t, r);
      var i := InsertIndex(t, r);
      assert rs[..i + 1] == [rs[0]] + t[..i];
      assert rs[i + 1..] == t[i..];
    }
  }

  lemma UpsertIndexInserted(rs: seq<GradeRecord>, r: GradeRecord, now: int)
    requires IndexOf(rs, r.grader).None?
    ensures multiset(Upsert(rs, r, now)) - multiset{Upsert(rs, r, now)[UpsertIndex(rs, r, now)]} == multiset(rs)
  {
    var r' := r.(timestamp := now);
    InsertIndexSplit(rs, r');
    var i := InsertIndex(rs, r');
    var out := Upsert(rs, r, now);
    assert out == rs[..i] + [r'] + rs[i..];
    assert out[i] == r';
    assert rs == rs[..i] + rs[i..];
  }

  /**
    The Final lock keeps at most one Final record: when the table already
    holds a Final record it belongs to the submitter, so the upsert replaces
    it; otherwise the submitted record is the only one that can be Final.
   */
  lemma UpsertKeepsOneFinal(rs: seq<GradeRecord>, r: GradeRecord, now: int)
    requires UniqueGraders(rs) && SortedByTime(rs) && AtMostOneFinal(rs)
    requires LastFinal(rs).Some? ==> LastFinal(rs).value.grader == r.grader
    ensures AtMostOneFinal(Upsert(rs, r, now))
  {
    var out := Upsert(rs, r, now);
    UpsertSpec(rs, r, now);
    FinalsBelongTo(rs, r.grader);
    forall k | 0 <= k < |out| && out[k].grader != r.grader ensures out[k].kind != Final {
      var e := out[k];
      var u := UpsertIndex(rs, r, now);
      assert e in multiset(out) - multiset{out[u]} by {
        MultisetRemoveOther(out, k, u);
      }
      assert e in multiset(rs);
      var m :| 0 <= m < |rs| && rs[m] == e;
    }
    assert UniqueGraders(out);
  }

  /** Under the one-Final invariant every Final record is the last Final one. */
  lemma FinalsBelongTo(rs: seq<GradeRecord>, g: nat)
    requires AtMostOneFinal(rs)
    requires LastFinal(rs).Some? ==> LastFinal(rs).value.grader == g
    ensures forall k :: 0 <= k < |rs| && rs[k].kind == Final ==> rs[k].grader == g
  {
    forall k | 0 <= k < |rs| && rs[k].kind == Final ensures rs[k].grader == g {
      var f := LastFinal(rs).value;
      var m :| 0 <= m < |rs| && rs[m] == f;
      assert !(m < k) && !(k < m);
    }
  }

  lemma MultisetRemoveOther(rs: seq<GradeRecord>, k: nat, u: nat)
    requires k < |rs| && u < |rs| && k != u
    ensures rs[k] in multiset(rs) - multiset{rs[u]}
  {
    var lo := if k < u then k else u;
    var hi := if k < u then u else k;
    assert rs == rs[..lo] + [rs[lo]] + rs[lo + 1..hi] + [rs[hi]] + rs[hi + 1..];
  }
}
