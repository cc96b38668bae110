/** The data series behind the stacked bar chart: one point per snapshot,
    walked from the highest snapshot id down to 1, with filler points inserted
    wherever the next snapshot lies more than 1.1 bar widths after the last
    point. The database is replaced by the snapshot rows and a map of counts. */
module Series {
  import MetaData

  // ---------------------------------------------------------------------
  // The database, as data

  /** A row of the snapshots table. */
  datatype Snapshot = Snapshot(id: int, timestamp: int)

  /** The `type` column of the results table that the chart reads; `Count`
      rows feed the "same" column. */
  datatype Kind = Count | Modified | Removed | Added

  /** A row of the results table is addressed by snapshot id, type and language. */
  datatype CountKey = CountKey(version: int, kind: Kind, language: string)

  /** The `nCode` column of the results table; absent keys have no row. */
  type Counts = map<CountKey, int>

  /** The highest snapshot id, or 0 for an empty table. */
  function MaxId(rows: seq<Snapshot>): (r: int)
    ensures forall i :: 0 <= i < |rows| ==> rows[i].id <= r
    ensures rows == [] ==> r == 0
    ensures rows != [] ==> exists i :: 0 <= i < |rows| && rows[i].id == r
    decreases |rows|
  {
    if rows == [] then 0
    else if |rows| == 1 then rows[0].id
    else
      var m := MaxId(rows[1..]);
      assert forall i :: 1 <= i < |rows| ==> rows[i] == rows[1..][i - 1];
      if rows[0].id >= m then rows[0].id else m
  }

  /** No row before index `i` has id `v`. */
  ghost predicate FirstWithId(rows: seq<Snapshot>, v: int, i: int)
    requires 0 <= i <= |rows|
  {
    forall j :: 0 <= j < i ==> rows[j].id != v
  }

  /** The index of the first row with id `v`, or `|rows|` when there is none. */
  function FirstIndex(rows: seq<Snapshot>, v: int): (i: int)
    ensures 0 <= i <= |rows|
    ensures i < |rows| ==> rows[i].id == v
    ensures FirstWithId(rows, v, i)
    decreases |rows|
  {
    if rows == [] then 0
    else if rows[0].id == v then 0
    else
      assert forall i :: 1 <= i < |rows| ==> rows[i] == rows[1..][i - 1];
      1 + FirstIndex(rows[1..], v)
  }

  /** The timestamp of snapshot `v`: the first row with that id, or 0 when
      there is none. */
  function TimestampOf(rows: seq<Snapshot>, v: int): (r: int)
    ensures r == if FirstIndex(rows, v) < |rows| then rows[FirstIndex(rows, v)].timestamp else 0
    decreases |rows|
  {
    if rows == [] then 0
    else if rows[0].id == v then rows[0].timestamp
    else
      assert forall i :: 1 <= i < |rows| ==> rows[i] == rows[1..][i - 1];
      TimestampOf(rows[1..], v)
  }

  /** The timestamp is the first matching row's, and 0 when no row matches. */
  lemma TimestampOfFirstRow(rows: seq<Snapshot>, v: int)
    ensures (forall i :: 0 <= i < |rows| ==> rows[i].id != v) ==> TimestampOf(rows, v) == 0
    ensures forall i :: 0 <= i < |rows| && rows[i].id == v && FirstWithId(rows, v, i) ==> TimestampOf(rows, v) == rows[i].timestamp
  {
    var f := FirstIndex(rows, v);
    forall i | 0 <= i < |rows| && rows[i].id == v && FirstWithId(rows, v, i)
      ensures f == i
    {
      assert !(f < i) && !(i < f);
    }
  }

  /** The timestamps in table order, as the resolution scan reads them. */
  function Timestamps(rows: seq<Snapshot>): (r: seq<int>)
    ensures |r| == |rows|
    ensures forall i :: 0 <= i < |rows| ==> r[i] == rows[i].timestamp
  {
    seq(|rows|, i requires 0 <= i < |rows| => rows[i].timestamp)
  }

  /** The count a present row adds, 0 for a missing row. */
  function Lookup(counts: Counts, k: CountKey): int
  {
    if k in counts then counts[k] else 0
  }

  // ---------------------------------------------------------------------
  // Sums over the active languages

  /** What one entry adds to a column of the point for snapshot `v`. */
  function Contribution(e: MetaData.Entry, v: int, kind: Kind, counts: Counts): int
  {
    if e.active then Lookup(counts, CountKey(v, kind, e.keyField)) else 0
  }

  /** The sum over `es` of the counts of the active languages, in list order. */
  function ActiveSum(es: seq<MetaData.Entry>, v: int, kind: Kind, counts: Counts): int
    decreases |es|
  {
    if es == [] then 0
    else ActiveSum(es[..|es| - 1], v, kind, counts) + Contribution(es[|es| - 1], v, kind, counts)
  }

  /** The sum splits over concatenation. */
  lemma {:induction false} ActiveSumAppend(a: seq<MetaData.Entry>, b: seq<MetaData.Entry>, v: int, kind: Kind, counts: Counts)
    ensures ActiveSum(a + b, v, kind, counts) == ActiveSum(a, v, kind, counts) + ActiveSum(b, v, kind, counts)
    decreases |b|
  {
    if b == [] {
      assert a + b == a;
    } else {
      var b' := b[..|b| - 1];
      ActiveSumAppend(a, b', v, kind, counts);
      assert (a + b)[..|a + b| - 1] == a + b';
    }
  }

  /** The sum does not depend on the order of the list: any permutation of
      the entries gives the same sum. */
  lemma {:induction false} ActiveSumPermutation(a: seq<MetaData.Entry>, b: seq<MetaData.Entry>, v: int, kind: Kind, counts: Counts)
    requires multiset(a) == multiset(b)
    ensures ActiveSum(a, v, kind, counts) == ActiveSum(b, v, kind, counts)
    decreases |a|
  {
    if a == [] {
      assert |b| == |multiset(b)| == 0;
    } else {
      var x := a[|a| - 1];
      var a' := a[..|a| - 1];
      assert a == a' + [x];
      assert x in multiset(b);
      var j :| 0 <= j < |b| && b[j] == x;
      var b' := b[..j] + b[j + 1..];
      RemoveAtMultiset(b, j);
      assert multiset(a') == multiset(a) - multiset{x};
      assert multiset(a') == multiset(b');
      ActiveSumPermutation(a', b', v, kind, counts);
      ActiveSumRemoveAt(b, j, v, kind, counts);
      assert ActiveSum(a, v, kind, counts) == ActiveSum(a', v, kind, counts) + Contribution(x, v, kind, counts);
    }
  }

  /** Removing the element at `j` removes one occurrence from the multiset. */
  lemma RemoveAtMultiset<T>(s: seq<T>, j: int)
    requires 0 <= j < |s|
    ensures multiset(s[..j] + s[j + 1..]) == multiset(s) - multiset{s[j]}
  {
    assert s == s[..j] + [s[j]] + s[j + 1..];
  }

  /** The sum is the sum without the entry at `j`, plus that entry's contribution. */
  lemma ActiveSumRemoveAt(b: seq<MetaData.Entry>, j: int, v: int, kind: Kind, counts: Counts)
    requires 0 <= j < |b|
    ensures ActiveSum(b, v, kind, counts) ==
      ActiveSum(b[..j] + b[j + 1..], v, kind, counts) + Contribution(b[j], v, kind, counts)
  {
    assert b == b[..j] + ([b[j]] + b[j + 1..]);
    ActiveSumAppend(b[..j], [b[j]] + b[j + 1..], v, kind, counts);
    ActiveSumAppend([b[j]], b[j + 1..], v, kind, counts);
    ActiveSumAppend(b[..j], b[j + 1..], v, kind, counts);
    assert [b[j]][..0] == [];
  }

  /** With no active language every sum is zero. */
  lemma {:induction false} ActiveSumNoneActive(es: seq<MetaData.Entry>, v: int, kind: Kind, counts: Counts)
    requires forall i :: 0 <= i < |es| ==> !es[i].active
    ensures ActiveSum(es, v, kind, counts) == 0
    decreases |es|
  {
    if es != [] {
      ActiveSumNoneActive(es[..|es| - 1], v, kind, counts);
    }
  }

  /** The sum reads only the rows of active languages: counts that agree on
      those rows give the same sum. */
  lemma {:induction false} ActiveSumFrame(es: seq<MetaData.Entry>, v: int, kind: Kind, c1: Counts, c2: Counts)
    requires forall i :: 0 <= i < |es| && es[i].active ==>
      Lookup(c1, CountKey(v, kind, es[i].keyField)) == Lookup(c2, CountKey(v, kind, es[i].keyField))
    ensures ActiveSum(es, v, kind, c1) == ActiveSum(es, v, kind, c2)
    decreases |es|
  {
    if es != [] {
      ActiveSumFrame(es[..|es| - 1], v, kind, c1, c2);
    }
  }

  /** The accumulation loop over the toggle list for snapshot `v`: each active
      language adds its "count", "modified" and "added" rows and subtracts its
      "removed" row; missing rows add nothing. */
  method AccumulatePoint(es: seq<MetaData.Entry>, v: int, counts: Counts)
    returns (same: int, modified: int, removed: int, added: int)
    ensures same == ActiveSum(es, v, Count, counts)
    ensures modified == ActiveSum(es, v, Modified, counts)
    ensures removed == -ActiveSum(es, v, Removed, counts)
    ensures added == ActiveSum(es, v, Added, counts)
  {
    same, modified, removed, added := 0, 0, 0, 0;
    var i := 0;
    while i < |es|
      invariant 0 <= i <= |es|
      invariant same == ActiveSum(es[..i], v, Count, counts)
      invariant modified == ActiveSum(es[..i], v, Modified, counts)
      invariant removed == -ActiveSum(es[..i], v, Removed, counts)
      invariant added == ActiveSum(es[..i], v, Added, counts)
    {
      assert es[..i + 1][..i] == es[..i];
      var e := es[i];
      if e.active {
        var key := CountKey(v, Count, e.keyField);
        if key in counts {
          same := same + counts[key];
        }
        key := CountKey(v, Modified, e.keyField);
        if key in counts {
          modified := modified + counts[key];
        }
        key := CountKey(v, Removed, e.keyField);
        if key in counts {
          removed := removed - counts[key];
        }
        key := CountKey(v, Added, e.keyField);
        if key in counts {
          added := added + counts[key];
        }
      }
      i := i + 1;
    }
    assert es[..|es|] == es;
  }

  // ---------------------------------------------------------------------
  // The five parallel vectors

  /** The vectors handed to the four bar plottables: dates and the same,
      modified, added and removed line counts. */
  datatype Chart = Chart(dates: seq<int>, same: seq<int>, modified: seq<int>, added: seq<int>, removed: seq<int>)
  {
    /** All five vectors have one value per point. */
    predicate Valid()
    {
      |same| == |dates| && |modified| == |dates| && |added| == |dates| && |removed| == |dates|
    }

    /** The last date, `dates.last()`. */
    function LastDate(): int
      requires |dates| > 0
    {
      dates[|dates| - 1]
    }

    /** The point at index `k` is a filler: one bar width after its
        predecessor, carrying the predecessor's same+modified+added as "same"
        and zero in the other three columns. */
    predicate IsFillerAt(k: int, res: int)
      requires Valid()
    {
      0 < k < |dates|
      && dates[k] == dates[k - 1] + res
      && same[k] == same[k - 1] + modified[k - 1] + added[k - 1]
      && modified[k] == 0 && added[k] == 0 && removed[k] == 0
    }
  }

  const Empty: Chart := Chart([], [], [], [], [])

  /** Appends one point to each of the five vectors. */
  function Push(s: Chart, date: int, same: int, modified: int, added: int, removed: int): (r: Chart)
    requires s.Valid()
    ensures r.Valid() && |r.dates| == |s.dates| + 1
    ensures IsPrefix(s, r)
    ensures r.LastDate() == date && r.same[|s.dates|] == same && r.modified[|s.dates|] == modified
    ensures r.added[|s.dates|] == added && r.removed[|s.dates|] == removed
  {
    Chart(s.dates + [date], s.same + [same], s.modified + [modified], s.added + [added], s.removed + [removed])
  }

  /** Every vector of `s` is a prefix of the corresponding vector of `r`. */
  ghost predicate IsPrefix(s: Chart, r: Chart)
  {
    s.dates <= r.dates && s.same <= r.same && s.modified <= r.modified && s.added <= r.added && s.removed <= r.removed
  }

  /** The gap condition `dateTime - dates.last() > resolution*1.1`, scaled by ten
      so that it is exact in integers. */
  predicate NeedsFiller(last: int, d: int, res: int)
  {
    10 * (d - last) > 11 * res
  }

  /** Appends the filler that follows the last point. */
  function PushFiller(s: Chart, res: int): (r: Chart)
    requires s.Valid() && |s.dates| > 0
    ensures r.Valid() && |r.dates| == |s.dates| + 1 && IsPrefix(s, r)
    ensures r.IsFillerAt(|s.dates|, res)
  {
    var k := |s.dates| - 1;
    Push(s, s.dates[k] + res, s.same[k] + s.modified[k] + s.added[k], 0, 0, 0)
  }

  /** The filling loop: fillers are appended while the next timestamp `d` is
      more than 1.1 bar widths after the last date. */
  function FillGaps(s: Chart, d: int, res: int): (r: Chart)
    requires s.Valid() && |s.dates| > 0 && res > 0
    ensures r.Valid() && |r.dates| >= |s.dates| && IsPrefix(s, r)
    ensures !NeedsFiller(r.LastDate(), d, res)
    ensures forall k :: |s.dates| <= k < |r.dates| ==> r.IsFillerAt(k, res) && NeedsFiller(r.dates[k - 1], d, res)
    decreases d - s.LastDate()
  {
    if NeedsFiller(s.LastDate(), d, res) then
      var s' := PushFiller(s, res);
      var r := FillGaps(s', d, res);
      assert r.dates[|s.dates| - 1] == s.dates[|s.dates| - 1];
      assert r.IsFillerAt(|s.dates|, res) by {
        assert s'.IsFillerAt(|s.dates|, res);
      }
      r
    else s
  }

  /** The fillers of one gap all carry the same total: that of the last real point. */
  lemma FillersCarryTotal(s: Chart, d: int, res: int)
    requires s.Valid() && |s.dates| > 0 && res > 0
    ensures var r := FillGaps(s, d, res);
      var k := |s.dates| - 1;
      forall j :: |s.dates| <= j < |r.dates| ==> r.same[j] == s.same[k] + s.modified[k] + s.added[k]
  {
    var r := FillGaps(s, d, res);
    var k := |s.dates| - 1;
    var j := |s.dates|;
    while j < |r.dates|
      invariant |s.dates| <= j <= |r.dates|
      invariant forall m :: |s.dates| <= m < j ==> r.same[m] == s.same[k] + s.modified[k] + s.added[k]
    {
      assert r.IsFillerAt(j, res);
      if j > |s.dates| {
        assert r.IsFillerAt(j - 1, res);
      }
      j := j + 1;
    }
  }

  /** When the next timestamp is not later than the last date no filler is added. */
  lemma NoFillBackwards(s: Chart, d: int, res: int)
    requires s.Valid() && |s.dates| > 0 && res > 0
    requires d <= s.LastDate()
    ensures FillGaps(s, d, res) == s
  {
  }

  /** Fillers only move forward: the dates after the last real point increase
      strictly and stay before `d`. */
  lemma FillGapsIncreasing(s: Chart, d: int, res: int)
    requires s.Valid() && |s.dates| > 0 && res > 0
    requires s.LastDate() < d
    ensures var r := FillGaps(s, d, res);
      (forall k :: |s.dates| <= k < |r.dates| ==> r.dates[k - 1] < r.dates[k]) && r.LastDate() < d
  {
    var r := FillGaps(s, d, res);
    forall k | |s.dates| <= k < |r.dates| ensures r.dates[k - 1] < r.dates[k] {
      assert r.IsFillerAt(k, res);
    }
    if |r.dates| > |s.dates| {
      var k := |r.dates| - 1;
      assert r.IsFillerAt(k, res) && NeedsFiller(r.dates[k - 1], d, res);
    }
  }

  // ---------------------------------------------------------------------
  // The walk over snapshots

  /** The real point of snapshot `v`, dated `d`. */
  function PushPoint(s: Chart, v: int, d: int, es: seq<MetaData.Entry>, counts: Counts): (r: Chart)
    requires s.Valid()
    ensures r.Valid() && |r.dates| == |s.dates| + 1 && IsPrefix(s, r) && r.LastDate() == d
    ensures r.same[|s.dates|] == ActiveSum(es, v, Count, counts)
      && r.modified[|s.dates|] == ActiveSum(es, v, Modified, counts)
      && r.added[|s.dates|] == ActiveSum(es, v, Added, counts)
      && r.removed[|s.dates|] == -ActiveSum(es, v, Removed, counts)
  {
    Push(s, d,
      ActiveSum(es, v, Count, counts),
      ActiveSum(es, v, Modified, counts),
      ActiveSum(es, v, Added, counts),
      -ActiveSum(es, v, Removed, counts))
  }

  /** One turn of the loop over snapshots: fill the gap (if there are earlier
      points), then append the point of snapshot `v`. */
  function Step(s: Chart, v: int, d: int, res: int, es: seq<MetaData.Entry>, counts: Counts): (r: Chart)
    requires s.Valid() && res > 0
    ensures r.Valid() && |r.dates| > |s.dates| && IsPrefix(s, r) && r.LastDate() == d
    ensures |s.dates| > 0 ==> 10 * (d - r.dates[|r.dates| - 2]) <= 11 * res
    ensures |s.dates| == 0 ==> |r.dates| == 1
    ensures forall k :: |s.dates| <= k < |r.dates| - 1 ==> r.IsFillerAt(k, res)
    ensures GapFilledBefore(r, |s.dates|, |r.dates| - 1, res)
    ensures var k := |r.dates| - 1;
      r.same[k] == ActiveSum(es, v, Count, counts) && r.modified[k] == ActiveSum(es, v, Modified, counts)
      && r.added[k] == ActiveSum(es, v, Added, counts) && r.removed[k] == -ActiveSum(es, v, Removed, counts)
  {
    var filled := if |s.dates| > 0 then FillGaps(s, d, res) else s;
    var r := PushPoint(filled, v, d, es, counts);
    PrefixKeepsGapFill(filled, r, |s.dates|, |filled.dates|, d, res);
    assert r.dates[|r.dates| - 1] == d;
    assert GapFilledBefore(r, |s.dates|, |r.dates| - 1, res);
    r
  }

  /** The point at index `k` is the real point of snapshot `w`: dated by the
      snapshot, with the sums over the active languages and "removed" negated. */
  ghost predicate RealPointAt(r: Chart, k: int, w: int, rows: seq<Snapshot>, es: seq<MetaData.Entry>, counts: Counts)
    requires r.Valid()
  {
    0 <= k < |r.dates|
    && r.dates[k] == TimestampOf(rows, w)
    && r.same[k] == ActiveSum(es, w, Count, counts)
    && r.modified[k] == ActiveSum(es, w, Modified, counts)
    && r.added[k] == ActiveSum(es, w, Added, counts)
    && r.removed[k] == -ActiveSum(es, w, Removed, counts)
  }

  /** Snapshot `w` has its real point among the points appended to `s`. */
  ghost predicate HasRealPoint(s: Chart, r: Chart, w: int, rows: seq<Snapshot>, es: seq<MetaData.Entry>, counts: Counts)
    requires r.Valid()
  {
    exists k :: |s.dates| <= k < |r.dates| && RealPointAt(r, k, w, rows, es, counts)
  }

  /** Each snapshot `w` in 1..v has its real point among the points appended to `s`. */
  ghost predicate HasRealPoints(s: Chart, r: Chart, v: int, rows: seq<Snapshot>, es: seq<MetaData.Entry>, counts: Counts)
    requires r.Valid()
  {
    forall w :: 1 <= w <= v ==> HasRealPoint(s, r, w, rows, es, counts)
  }

  /** Every point appended to `s` is a filler or the real point of a snapshot in 1..v. */
  ghost predicate OnlyRealOrFiller(s: Chart, r: Chart, v: int, res: int, rows: seq<Snapshot>, es: seq<MetaData.Entry>, counts: Counts)
    requires r.Valid()
  {
    forall k :: |s.dates| <= k < |r.dates| ==>
      r.IsFillerAt(k, res) || exists w :: 1 <= w <= v && RealPointAt(r, k, w, rows, es, counts)
  }

  /** No appended point lies more than 1.1 widths after its predecessor. */
  ghost predicate GapsBounded(s: Chart, r: Chart, res: int)
  {
    forall k :: |s.dates| <= k < |r.dates| && 0 < k ==> 10 * (r.dates[k] - r.dates[k - 1]) <= 11 * res
  }

  /** The points `from` .. `to - 1` are fillers, each inserted because the gap
      test against the point at `to` still held, and the test no longer holds
      for the point just before `to`. */
  ghost predicate GapFilledBefore(r: Chart, from: int, to: int, res: int)
    requires r.Valid()
  {
    0 <= to < |r.dates|
    && (forall j :: from <= j < to ==> r.IsFillerAt(j, res) && NeedsFiller(r.dates[j - 1], r.dates[to], res))
    && (0 < to ==> !NeedsFiller(r.dates[to - 1], r.dates[to], res))
  }

  /** The chart read from index `from` on, as the walk from snapshot `v` down
      to 1 must have laid it out: while the gap from the previous point to the
      timestamp of `v` is more than 1.1 widths, the next point is a filler;
      otherwise it is the real point of `v`, and reading goes on with `v - 1`.
      After the point of snapshot 1 the chart ends. */
  ghost predicate WalkShape(r: Chart, from: int, v: int, res: int, rows: seq<Snapshot>, es: seq<MetaData.Entry>, counts: Counts)
    requires r.Valid() && 0 <= from
    decreases if v > 0 then v else 0, |r.dates| - from
  {
    if v <= 0 then from == |r.dates|
    else if from >= |r.dates| then false
    else if from > 0 && NeedsFiller(r.dates[from - 1], TimestampOf(rows, v), res) then
      r.IsFillerAt(from, res) && WalkShape(r, from + 1, v, res, rows, es, counts)
    else
      RealPointAt(r, from, v, rows, es, counts) && WalkShape(r, from + 1, v - 1, res, rows, es, counts)
  }

  /** The loop over snapshots `v`, `v-1`, ..., 1, dated from the table rows. */
  function Walk(s: Chart, v: int, res: int, rows: seq<Snapshot>, es: seq<MetaData.Entry>, counts: Counts): (r: Chart)
    requires s.Valid() && res > 0
    ensures r.Valid() && IsPrefix(s, r)
    ensures |r.dates| >= |s.dates| + (if v > 0 then v else 0)
    ensures v > 0 ==> r.LastDate() == TimestampOf(rows, 1)
    ensures HasRealPoints(s, r, v, rows, es, counts)
    ensures OnlyRealOrFiller(s, r, v, res, rows, es, counts)
    ensures GapsBounded(s, r, res)
    ensures WalkShape(r, |s.dates|, v, res, rows, es, counts)
    decreases v
  {
    if v <= 0 then s
    else
      var s1 := Step(s, v, TimestampOf(rows, v), res, es, counts);
      StepShape(s, v, res, rows, es, counts);
      var r := Walk(s1, v - 1, res, rows, es, counts);
      WalkTurn(s, v, res, rows, es, counts, s1, r);
      r
  }

  /** One more turn of the loop keeps the walk's contract. */
  lemma WalkTurn(s: Chart, v: int, res: int, rows: seq<Snapshot>, es: seq<MetaData.Entry>, counts: Counts, s1: Chart, r: Chart)
    requires s.Valid() && res > 0 && v > 0
    requires TurnShape(s, s1, v, res, rows, es, counts)
    requires r.Valid() && IsPrefix(s1, r)
    requires HasRealPoints(s1, r, v - 1, rows, es, counts)
    requires OnlyRealOrFiller(s1, r, v - 1, res, rows, es, counts)
    requires GapsBounded(s1, r, res)
    requires WalkShape(r, |s1.dates|, v - 1, res, rows, es, counts)
    ensures HasRealPoints(s, r, v, rows, es, counts)
    ensures OnlyRealOrFiller(s, r, v, res, rows, es, counts)
    ensures GapsBounded(s, r, res)
    ensures WalkShape(r, |s.dates|, v, res, rows, es, counts)
  {
    WalkStepContents(s, v, res, rows, es, counts, s1, r);
    WalkStepShape(s, v, res, rows, es, counts, s1, r);
  }

  /** A real point or filler of a prefix stays one in the longer chart. */
  lemma PrefixKeepsPoints(a: Chart, b: Chart, k: int, res: int, w: int, rows: seq<Snapshot>, es: seq<MetaData.Entry>, counts: Counts)
    requires a.Valid() && b.Valid() && IsPrefix(a, b) && 0 <= k < |a.dates|
    ensures a.IsFillerAt(k, res) ==> b.IsFillerAt(k, res)
    ensures RealPointAt(a, k, w, rows, es, counts) ==> RealPointAt(b, k, w, rows, es, counts)
  {
    assert b.dates[k] == a.dates[k] && b.same[k] == a.same[k] && b.modified[k] == a.modified[k];
    assert b.added[k] == a.added[k] && b.removed[k] == a.removed[k];
    if k > 0 {
      assert b.dates[k - 1] == a.dates[k - 1] && b.same[k - 1] == a.same[k - 1];
      assert b.modified[k - 1] == a.modified[k - 1] && b.added[k - 1] == a.added[k - 1];
    }
  }

  /** The contents of the walk after one more turn of the loop. */
  lemma WalkStepContents(s: Chart, v: int, res: int, rows: seq<Snapshot>, es: seq<MetaData.Entry>, counts: Counts, s1: Chart, r: Chart)
    requires s.Valid() && res > 0 && v > 0
    requires TurnShape(s, s1, v, res, rows, es, counts)
    requires r.Valid() && IsPrefix(s1, r)
    requires HasRealPoints(s1, r, v - 1, rows, es, counts)
    requires OnlyRealOrFiller(s1, r, v - 1, res, rows, es, counts)
    requires GapsBounded(s1, r, res)
    ensures HasRealPoints(s, r, v, rows, es, counts)
    ensures OnlyRealOrFiller(s, r, v, res, rows, es, counts)
    ensures GapsBounded(s, r, res)
  {
    var last := |s1.dates| - 1;
    assert RealPointAt(s1, last, v, rows, es, counts);
    PrefixKeepsPoints(s1, r, last, res, v, rows, es, counts);
    forall w | 1 <= w <= v ensures HasRealPoint(s, r, w, rows, es, counts) {
      if w == v {
        assert RealPointAt(r, last, w, rows, es, counts);
      } else {
        assert HasRealPoint(s1, r, w, rows, es, counts);
        var k :| |s1.dates| <= k < |r.dates| && RealPointAt(r, k, w, rows, es, counts);
      }
    }
    forall k | |s.dates| <= k < |r.dates|
      ensures r.IsFillerAt(k, res) || exists w :: 1 <= w <= v && RealPointAt(r, k, w, rows, es, counts)
    {
      if k < last {
        assert s1.IsFillerAt(k, res);
        PrefixKeepsPoints(s1, r, k, res, v, rows, es, counts);
      } else if k == last {
        assert RealPointAt(r, k, v, rows, es, counts);
      } else if !r.IsFillerAt(k, res) {
        var w :| 1 <= w <= v - 1 && RealPointAt(r, k, w, rows, es, counts);
      }
    }
    forall k | |s.dates| <= k < |r.dates| && 0 < k
      ensures 10 * (r.dates[k] - r.dates[k - 1]) <= 11 * res
    {
      if k < last {
        assert s1.IsFillerAt(k, res);
        PrefixKeepsPoints(s1, r, k, res, v, rows, es, counts);
      } else if k == last {
        assert |s.dates| > 0;
        assert r.dates[k] == s1.dates[k] && r.dates[k - 1] == s1.dates[k - 1];
      }
    }
  }

  /** The shape of the walk after one more turn of the loop: the fillers and
      real point of `v` come before the shape of the rest. */
  lemma WalkStepShape(s: Chart, v: int, res: int, rows: seq<Snapshot>, es: seq<MetaData.Entry>, counts: Counts, s1: Chart, r: Chart)
    requires s.Valid() && v > 0 && TurnShape(s, s1, v, res, rows, es, counts)
    requires r.Valid() && IsPrefix(s1, r)
    requires WalkShape(r, |s1.dates|, v - 1, res, rows, es, counts)
    ensures WalkShape(r, |s.dates|, v, res, rows, es, counts)
  {
    var last := |s1.dates| - 1;
    PrefixKeepsPoints(s1, r, last, res, v, rows, es, counts);
    PrefixKeepsFillers(s1, r, |s.dates|, last, res);
    ShapeFromGap(r, |s.dates|, last, v, res, rows, es, counts);
  }

  /** Fillers up to `p` followed by the real point of `v` at `p` read as the
      walk from `v`. */
  lemma {:induction false} ShapeFromGap(r: Chart, from: int, p: int, v: int, res: int, rows: seq<Snapshot>, es: seq<MetaData.Entry>, counts: Counts)
    requires r.Valid() && 0 <= from <= p && v > 0
    requires GapFilledBefore(r, from, p, res) && RealPointAt(r, p, v, rows, es, counts)
    requires WalkShape(r, p + 1, v - 1, res, rows, es, counts)
    ensures WalkShape(r, from, v, res, rows, es, counts)
    decreases p - from
  {
    if from < p {
      assert r.IsFillerAt(from, res) && NeedsFiller(r.dates[from - 1], r.dates[p], res);
      ShapeFromGap(r, from + 1, p, v, res, rows, es, counts);
    }
  }

  /** `s1` is `s` extended by one turn of the loop for snapshot `v`: the
      fillers of its gap, then its real point, no more than 1.1 widths after
      the point before it. */
  ghost predicate TurnShape(s: Chart, s1: Chart, v: int, res: int, rows: seq<Snapshot>, es: seq<MetaData.Entry>, counts: Counts)
    requires s.Valid()
  {
    s1.Valid() && |s.dates| < |s1.dates| && IsPrefix(s, s1)
    && (|s.dates| == 0 ==> |s1.dates| == 1)
    && GapFilledBefore(s1, |s.dates|, |s1.dates| - 1, res)
    && RealPointAt(s1, |s1.dates| - 1, v, rows, es, counts)
    && (|s.dates| > 0 ==> 10 * (s1.dates[|s1.dates| - 1] - s1.dates[|s1.dates| - 2]) <= 11 * res)
  }

  /** One turn of the loop ends with its real point, after the fillers of its gap. */
  lemma StepShape(s: Chart, v: int, res: int, rows: seq<Snapshot>, es: seq<MetaData.Entry>, counts: Counts)
    requires s.Valid() && res > 0
    ensures TurnShape(s, Step(s, v, TimestampOf(rows, v), res, es, counts), v, res, rows, es, counts)
  {
    var s1 := Step(s, v, TimestampOf(rows, v), res, es, counts);
    assert s1.dates[|s1.dates| - 1] == s1.LastDate() == TimestampOf(rows, v);
    assert RealPointAt(s1, |s1.dates| - 1, v, rows, es, counts);
  }

  /** Fillers of a prefix stay fillers, for the same next point. */
  lemma PrefixKeepsFillers(a: Chart, b: Chart, from: int, to: int, res: int)
    requires a.Valid() && b.Valid() && IsPrefix(a, b)
    requires GapFilledBefore(a, from, to, res)
    ensures GapFilledBefore(b, from, to, res)
  {
    var d := a.dates[to];
    forall j | from <= j < to ensures a.IsFillerAt(j, res) && NeedsFiller(a.dates[j - 1], d, res) {
      assert a.IsFillerAt(j, res);
    }
    assert b.dates[to] == d;
    PrefixKeepsGapFill(a, b, from, to, d, res);
    if 0 < to {
      assert b.dates[to - 1] == a.dates[to - 1];
    }
  }

  /** Fillers of a prefix, inserted for the gap to `d`, stay such fillers in
      the longer chart. */
  lemma PrefixKeepsGapFill(a: Chart, b: Chart, from: int, to: int, d: int, res: int)
    requires a.Valid() && b.Valid() && IsPrefix(a, b) && to <= |a.dates|
    requires forall j :: from <= j < to ==> a.IsFillerAt(j, res) && NeedsFiller(a.dates[j - 1], d, res)
    ensures forall j :: from <= j < to ==> b.IsFillerAt(j, res) && NeedsFiller(b.dates[j - 1], d, res)
  {
    forall j | from <= j < to ensures b.IsFillerAt(j, res) && NeedsFiller(b.dates[j - 1], d, res) {
      assert a.IsFillerAt(j, res);
      assert b.dates[j] == a.dates[j] && b.dates[j - 1] == a.dates[j - 1];
      assert b.same[j] == a.same[j] && b.same[j - 1] == a.same[j - 1];
      assert b.modified[j] == a.modified[j] && b.modified[j - 1] == a.modified[j - 1];
      assert b.added[j] == a.added[j] && b.added[j - 1] == a.added[j - 1];
      assert b.removed[j] == a.removed[j];
    }
  }

  /** All five vectors for the chart: every snapshot from the highest id down to 1. */
  function BuildSeries(rows: seq<Snapshot>, res: int, es: seq<MetaData.Entry>, counts: Counts): (r: Chart)
    requires res > 0
    ensures r.Valid()
    ensures |r.dates| >= if MaxId(rows) > 0 then MaxId(rows) else 0
    ensures HasRealPoints(Empty, r, MaxId(rows), rows, es, counts)
    ensures OnlyRealOrFiller(Empty, r, MaxId(rows), res, rows, es, counts)
    ensures GapsBounded(Empty, r, res)
    ensures WalkShape(r, 0, MaxId(rows), res, rows, es, counts)
  {
    Walk(Empty, MaxId(rows), res, rows, es, counts)
  }

  /** The two charts agree on their first `n` points. */
  ghost predicate AgreeUpTo(a: Chart, b: Chart, n: int)
    requires a.Valid() && b.Valid()
  {
    0 <= n <= |a.dates| && n <= |b.dates|
    && forall k :: 0 <= k < n ==>
      a.dates[k] == b.dates[k] && a.same[k] == b.same[k] && a.modified[k] == b.modified[k]
      && a.added[k] == b.added[k] && a.removed[k] == b.removed[k]
  }

  /** The shape of the walk determines the chart: two charts that agree
      before `from` and both read as the walk from `v` are equal. */
  lemma WalkShapeUnique(a: Chart, b: Chart, from: int, v: int, res: int, rows: seq<Snapshot>, es: seq<MetaData.Entry>, counts: Counts)
    requires a.Valid() && b.Valid() && 0 <= from && AgreeUpTo(a, b, from)
    requires WalkShape(a, from, v, res, rows, es, counts) && WalkShape(b, from, v, res, rows, es, counts)
    ensures a == b
  {
    ShapesAgree(a, b, from, v, res, rows, es, counts);
    assert a.dates == b.dates && a.same == b.same && a.modified == b.modified;
    assert a.added == b.added && a.removed == b.removed;
  }

  /** Two charts that agree before `from` and both read as the walk from `v`
      have the same length and agree everywhere. */
  lemma {:induction false} ShapesAgree(a: Chart, b: Chart, from: int, v: int, res: int, rows: seq<Snapshot>, es: seq<MetaData.Entry>, counts: Counts)
    requires a.Valid() && b.Valid() && 0 <= from && AgreeUpTo(a, b, from)
    requires WalkShape(a, from, v, res, rows, es, counts) && WalkShape(b, from, v, res, rows, es, counts)
    ensures |a.dates| == |b.dates| && AgreeUpTo(a, b, |a.dates|)
    decreases if v > 0 then v else 0, |a.dates| - from
  {
    if v > 0 {
      if from > 0 && NeedsFiller(a.dates[from - 1], TimestampOf(rows, v), res) {
        assert a.dates[from - 1] == b.dates[from - 1];
        assert a.IsFillerAt(from, res) && b.IsFillerAt(from, res);
        AgreeOneMore(a, b, from);
        ShapesAgree(a, b, from + 1, v, res, rows, es, counts);
      } else {
        assert from > 0 ==> a.dates[from - 1] == b.dates[from - 1];
        RealPointsAgree(a, b, from, v, rows, es, counts);
        ShapesAgree(a, b, from + 1, v - 1, res, rows, es, counts);
      }
    }
  }

  /** Two charts that agree before `k` and both hold the real point of `w` at
      `k` agree up to `k + 1`. */
  lemma RealPointsAgree(a: Chart, b: Chart, k: int, w: int, rows: seq<Snapshot>, es: seq<MetaData.Entry>, counts: Counts)
    requires a.Valid() && b.Valid() && AgreeUpTo(a, b, k)
    requires RealPointAt(a, k, w, rows, es, counts) && RealPointAt(b, k, w, rows, es, counts)
    ensures AgreeUpTo(a, b, k + 1)
  {
    AgreeOneMore(a, b, k);
  }

  /** Agreement extends by one point when the charts agree at that point. */
  lemma AgreeOneMore(a: Chart, b: Chart, n: int)
    requires a.Valid() && b.Valid() && AgreeUpTo(a, b, n) && n < |a.dates| && n < |b.dates|
    requires a.dates[n] == b.dates[n] && a.same[n] == b.same[n] && a.modified[n] == b.modified[n]
    requires a.added[n] == b.added[n] && a.removed[n] == b.removed[n]
    ensures AgreeUpTo(a, b, n + 1)
  {
  }

  /** The shape is an exact description of the chart: a chart has it if
      and only if it is the one built from the table. */
  lemma BuildSeriesExact(rows: seq<Snapshot>, res: int, es: seq<MetaData.Entry>, counts: Counts, r: Chart)
    requires res > 0 && r.Valid()
    ensures WalkShape(r, 0, MaxId(rows), res, rows, es, counts) <==> r == BuildSeries(rows, res, es, counts)
  {
    var b := BuildSeries(rows, res, es, counts);
    if WalkShape(r, 0, MaxId(rows), res, rows, es, counts) {
      WalkShapeUnique(r, b, 0, MaxId(rows), res, rows, es, counts);
    }
  }

  /** In a chart with the shape of the walk, if the timestamps do not grow as
      the id falls, no filler occurs: one point per snapshot. */
  lemma {:induction false} ShapeBackwardsLength(r: Chart, from: int, v: int, res: int, rows: seq<Snapshot>, es: seq<MetaData.Entry>, counts: Counts)
    requires r.Valid() && 0 <= from && res > 0 && WalkShape(r, from, v, res, rows, es, counts)
    requires v > 0 && from > 0 ==> TimestampOf(rows, v) <= r.dates[from - 1]
    requires forall w1, w2 :: 1 <= w1 <= w2 <= v ==> TimestampOf(rows, w1) <= TimestampOf(rows, w2)
    ensures |r.dates| == from + (if v > 0 then v else 0)
    decreases if v > 0 then v else 0
  {
    if v > 0 {
      assert RealPointAt(r, from, v, rows, es, counts);
      ShapeBackwardsLength(r, from + 1, v - 1, res, rows, es, counts);
    }
  }

  /** Strictly increasing. */
  ghost predicate Increasing(xs: seq<int>)
  {
    forall i, j :: 0 <= i < j < |xs| ==> xs[i] < xs[j]
  }

  /** If the timestamps grow as the id falls, the chart dates grow strictly,
      fillers included. */
  lemma {:induction false} WalkIncreasing(s: Chart, v: int, res: int, rows: seq<Snapshot>, es: seq<MetaData.Entry>, counts: Counts)
    requires s.Valid() && res > 0
    requires Increasing(s.dates)
    requires v > 0 && |s.dates| > 0 ==> s.LastDate() < TimestampOf(rows, v)
    requires forall w :: 1 < w <= v ==> TimestampOf(rows, w) < TimestampOf(rows, w - 1)
    ensures Increasing(Walk(s, v, res, rows, es, counts).dates)
    decreases v
  {
    if v > 0 {
      var d := TimestampOf(rows, v);
      StepIncreasing(s, v, d, res, es, counts);
      WalkIncreasing(Step(s, v, d, res, es, counts), v - 1, res, rows, es, counts);
    }
  }

  /** One turn of the loop keeps the dates strictly increasing when the new
      timestamp lies after the last date. */
  lemma StepIncreasing(s: Chart, v: int, d: int, res: int, es: seq<MetaData.Entry>, counts: Counts)
    requires s.Valid() && res > 0
    requires Increasing(s.dates)
    requires |s.dates| > 0 ==> s.LastDate() < d
    ensures Increasing(Step(s, v, d, res, es, counts).dates)
  {
    var r := Step(s, v, d, res, es, counts);
    if |s.dates| > 0 {
      FilledIncreasing(s, d, res);
      var filled := FillGaps(s, d, res);
      assert r == PushPoint(filled, v, d, es, counts);
      assert r.dates == filled.dates + [d];
    } else {
      assert r.dates == [d];
    }
  }

  /** After filling, the dates still increase strictly and end before `d`. */
  lemma FilledIncreasing(s: Chart, d: int, res: int)
    requires s.Valid() && |s.dates| > 0 && res > 0
    requires Increasing(s.dates)
    requires s.LastDate() < d
    ensures Increasing(FillGaps(s, d, res).dates) && FillGaps(s, d, res).LastDate() < d
  {
    var xs := FillGaps(s, d, res).dates;
    FillGapsIncreasing(s, d, res);
    forall i, j | 0 <= i < j < |xs| ensures xs[i] < xs[j] {
      IncreasingStep(xs, |s.dates|, i, j);
    }
  }

  /** A sequence increasing on a prefix and at every step after it increases throughout. */
  lemma {:induction false} IncreasingStep(xs: seq<int>, n: int, i: int, j: int)
    requires 0 <= n <= |xs|
    requires forall a, b :: 0 <= a < b < n ==> xs[a] < xs[b]
    requires forall k :: n <= k < |xs| && k > 0 ==> xs[k - 1] < xs[k]
    requires 0 <= i < j < |xs|
    ensures xs[i] < xs[j]
    decreases j
  {
    if j >= n && j - 1 > i {
      IncreasingStep(xs, n, i, j - 1);
    }
  }

  /** If the timestamps do not grow as the id falls (the newest snapshot has
      the highest id), no filler is ever inserted: one point per snapshot. */
  lemma {:induction false} WalkBackwardsNoFillers(s: Chart, v: int, res: int, rows: seq<Snapshot>, es: seq<MetaData.Entry>, counts: Counts)
    requires s.Valid() && res > 0
    requires v > 0 && |s.dates| > 0 ==> TimestampOf(rows, v) <= s.LastDate()
    requires forall w :: 1 < w <= v ==> TimestampOf(rows, w - 1) <= TimestampOf(rows, w)
    ensures |Walk(s, v, res, rows, es, counts).dates| == |s.dates| + (if v > 0 then v else 0)
    decreases v
  {
    if v > 0 {
      var d := TimestampOf(rows, v);
      if |s.dates| > 0 {
        NoFillBackwards(s, d, res);
      }
      WalkBackwardsNoFillers(Step(s, v, d, res, es, counts), v - 1, res, rows, es, counts);
    }
  }

  /** With no language active every real point is zero. */
  lemma NoActivePointIsZero(s: Chart, v: int, d: int, es: seq<MetaData.Entry>, counts: Counts)
    requires s.Valid()
    requires forall i :: 0 <= i < |es| ==> !es[i].active
    ensures var r := PushPoint(s, v, d, es, counts);
      var k := |s.dates|;
      r.same[k] == 0 && r.modified[k] == 0 && r.added[k] == 0 && r.removed[k] == 0
  {
    ActiveSumNoneActive(es, v, Count, counts);
    ActiveSumNoneActive(es, v, Modified, counts);
    ActiveSumNoneActive(es, v, Added, counts);
    ActiveSumNoneActive(es, v, Removed, counts);
  }
}
