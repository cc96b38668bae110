/** The bar width of the chart: the smallest gap of at least one day between
    consecutively read snapshot timestamps, rounded up to whole days. */
module Resolution {

  /** Seconds in a day. */
  const Day: int := 86400
  /** Largest value of the handler's 32-bit `int`; also the starting resolution. */
  const Int32Max: int := 0x7FFF_FFFF
  const InitialResolution: int := Int32Max

  function Abs(x: int): (r: nat)
    ensures r == x || r == -x
  {
    if x < 0 then -x else x
  }

  /** The timestamp read before the `i`-th one: `prev0` for the first read. */
  function PrevAt(prev0: int, ts: seq<int>, i: nat): int
    requires i < |ts|
  {
    if i == 0 then prev0 else ts[i - 1]
  }

  /** A pair (previous, current) takes part in the minimum: there was a
      previous (non-zero) timestamp and the two are at least a day apart. */
  predicate Qualifies(prev: int, t: int)
  {
    prev != 0 && Abs(prev - t) >= Day
  }

  /** One read of the scan loop. */
  function ScanStep(res: int, prev: int, t: int): int
  {
    if prev != 0 && Abs(prev - t) < res && Abs(prev - t) >= Day then Abs(prev - t) else res
  }

  /** Runs the scan over `ts` from resolution `res` and previous timestamp
      `prev`; returns the resolution and the last timestamp read, which the
      handler keeps for its next redraw. */
  function Scan(res: int, prev: int, ts: seq<int>): (r: (int, int))
    ensures r.0 <= res
    ensures r.0 == res ||
      exists i :: 0 <= i < |ts| && Qualifies(PrevAt(prev, ts, i), ts[i]) && r.0 == Abs(PrevAt(prev, ts, i) - ts[i])
    ensures forall i {:trigger PrevAt(prev, ts, i)} :: 0 <= i < |ts| && Qualifies(PrevAt(prev, ts, i), ts[i]) ==> r.0 <= Abs(PrevAt(prev, ts, i) - ts[i])
    ensures r.1 == if ts == [] then prev else ts[|ts| - 1]
    decreases |ts|
  {
    if ts == [] then (res, prev)
    else
      var res' := ScanStep(res, prev, ts[0]);
      var r := Scan(res', ts[0], ts[1..]);
      ScanStepMinimal(res, prev, ts, r.0);
      assert r.1 == ts[|ts| - 1] by {
        assert |ts| > 1 ==> ts[1..][|ts| - 2] == ts[|ts| - 1];
      }
      if r.0 == res' then
        assert r.0 != res ==> Qualifies(PrevAt(prev, ts, 0), ts[0]) && r.0 == Abs(PrevAt(prev, ts, 0) - ts[0]);
        r
      else
        var j :| 0 <= j < |ts[1..]| && Qualifies(PrevAt(ts[0], ts[1..], j), ts[1..][j]) && r.0 == Abs(PrevAt(ts[0], ts[1..], j) - ts[1..][j]);
        assert PrevAt(prev, ts, j + 1) == PrevAt(ts[0], ts[1..], j) && ts[j + 1] == ts[1..][j];
        assert Qualifies(PrevAt(prev, ts, j + 1), ts[j + 1]) && r.0 == Abs(PrevAt(prev, ts, j + 1) - ts[j + 1]);
        r
  }

  /** A value below the first read and below every qualifying gap of the
      rest lies below every qualifying gap of `ts`. */
  lemma ScanStepMinimal(res: int, prev: int, ts: seq<int>, m: int)
    requires |ts| > 0 && m <= ScanStep(res, prev, ts[0])
    requires forall j {:trigger PrevAt(ts[0], ts[1..], j)} :: 0 <= j < |ts| - 1 && Qualifies(PrevAt(ts[0], ts[1..], j), ts[1..][j]) ==>
      m <= Abs(PrevAt(ts[0], ts[1..], j) - ts[1..][j])
    ensures forall i {:trigger PrevAt(prev, ts, i)} :: 0 <= i < |ts| && Qualifies(PrevAt(prev, ts, i), ts[i]) ==>
      m <= Abs(PrevAt(prev, ts, i) - ts[i])
  {
    forall i | 0 <= i < |ts| && Qualifies(PrevAt(prev, ts, i), ts[i]) ensures m <= Abs(PrevAt(prev, ts, i) - ts[i]) {
      if i > 0 {
        assert PrevAt(prev, ts, i) == PrevAt(ts[0], ts[1..], i - 1) && ts[i] == ts[1..][i - 1];
      }
    }
  }

  /** The resolution before rounding, and the timestamp left in the
      function-local static `prevDateTime`, for the timestamps `ts` in the
      order the snapshot table returns them. */
  function ScanResolution(prev0: int, ts: seq<int>): (r: (int, int))
    ensures Day <= r.0 <= InitialResolution
    ensures r.0 == InitialResolution ||
      exists i :: 0 <= i < |ts| && Qualifies(PrevAt(prev0, ts, i), ts[i]) && r.0 == Abs(PrevAt(prev0, ts, i) - ts[i])
    ensures forall i {:trigger PrevAt(prev0, ts, i)} :: 0 <= i < |ts| && Qualifies(PrevAt(prev0, ts, i), ts[i]) ==> r.0 <= Abs(PrevAt(prev0, ts, i) - ts[i])
    ensures r.1 == if ts == [] then prev0 else ts[|ts| - 1]
  {
    Scan(InitialResolution, prev0, ts)
  }

  /** With no pair a day or more apart the resolution keeps its starting value. */
  lemma NoQualifyingGap(prev0: int, ts: seq<int>)
    requires forall i {:trigger PrevAt(prev0, ts, i)} :: 0 <= i < |ts| ==> !Qualifies(PrevAt(prev0, ts, i), ts[i])
    ensures ScanResolution(prev0, ts).0 == InitialResolution
  {
  }

  // ---------------------------------------------------------------------
  // Rounding up to whole days

  /** The resolution rounded up to a whole number of days, in unbounded
      integers (the intended arithmetic). */
  function RoundUpToDay(r: int): (r': int)
    requires r >= 0
    ensures r' % Day == 0
    ensures r <= r' < r + Day
    ensures r % Day == 0 ==> r' == r
  {
    if r % Day != 0 then r + (Day - r % Day) else r
  }

  /** The value a 32-bit two's-complement `int` holds after an assignment of `x`. */
  function WrapInt32(x: int): (r: int)
    ensures -Int32Max - 1 <= r <= Int32Max
    ensures (r - x) % 0x1_0000_0000 == 0
    ensures -Int32Max - 1 <= x <= Int32Max ==> r == x
  {
    var m := x % 0x1_0000_0000;
    if m > Int32Max then m - 0x1_0000_0000 else m
  }

  /** The rounding as the handler writes it, on its 32-bit `int`. */
  function RoundUpToDayInt32(r: int): (r': int)
    requires 0 <= r <= Int32Max
    ensures RoundUpToDay(r) <= Int32Max ==> r' == RoundUpToDay(r)
    ensures RoundUpToDay(r) > Int32Max ==> r' == RoundUpToDay(r) - 0x1_0000_0000 && r' < 0
  {
    if r % Day != 0 then WrapInt32(r + (Day - r % Day)) else r
  }

  /** The largest multiple of a day that a 32-bit `int` holds. */
  const LastWholeDay: int := 24855 * Day

  /** On the values the scan can produce, the 32-bit rounding is exact
      precisely up to the last whole day below the 32-bit limit. */
  lemma Int32RoundingExactIff(r: int)
    requires Day <= r <= Int32Max
    ensures RoundUpToDayInt32(r) == RoundUpToDay(r) <==> r <= LastWholeDay
  {
    if r <= LastWholeDay {
      assert RoundUpToDay(r) <= LastWholeDay by {
        RoundUpMonotone(r, LastWholeDay);
      }
    } else {
      assert RoundUpToDay(r) > Int32Max by {
        assert RoundUpToDay(r) > LastWholeDay;
        RoundUpAboveMultiple(r);
      }
    }
  }

  lemma RoundUpMonotone(r: int, m: int)
    requires 0 <= r <= m && m % Day == 0
    ensures RoundUpToDay(r) <= m
  {
    var q := r / Day;
    if r % Day != 0 {
      assert r == q * Day + r % Day;
      assert m == (m / Day) * Day;
      assert q < m / Day;
      assert RoundUpToDay(r) == (q + 1) * Day;
    }
  }

  lemma RoundUpAboveMultiple(r: int)
    requires LastWholeDay < r <= Int32Max
    ensures RoundUpToDay(r) == LastWholeDay + Day
  {
    assert r == 24855 * Day + (r - LastWholeDay);
    assert r % Day == r - LastWholeDay;
  }

  /** Without any gap of a day or more the handler's rounding overflows: the
      starting value 0x7FFFFFFF becomes a negative resolution. */
  lemma InitialResolutionOverflows()
    ensures RoundUpToDay(InitialResolution) == 2147558400
    ensures RoundUpToDayInt32(InitialResolution) == -2147408896
  {
    RoundUpAboveMultiple(InitialResolution);
  }

  /** The resolution the chart uses, for timestamps `ts` read after `prev0`. */
  function ChartResolution(prev0: int, ts: seq<int>): (r: int)
    ensures r % Day == 0
    ensures Day <= r
    ensures ScanResolution(prev0, ts).0 <= r < ScanResolution(prev0, ts).0 + Day
    ensures forall i {:trigger PrevAt(prev0, ts, i)} :: 0 <= i < |ts| && Qualifies(PrevAt(prev0, ts, i), ts[i]) ==>
      r < Abs(PrevAt(prev0, ts, i) - ts[i]) + Day
  {
    RoundUpToDay(ScanResolution(prev0, ts).0)
  }
}
