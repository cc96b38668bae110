/** The two handler operations with logic of their own: the import of a
    results file and the redraw triggered by a menu selection. The database,
    the file and the plotting widget are replaced by their data. */
module ClocHandler {
  import MetaData
  import Resolution
  import Sequences
  import Series

  /** What an import leaves behind: the statements handed to the database in
      file order, and the toggle list. */
  datatype Import = Import(statements: seq<string>, metaData: seq<MetaData.Entry>)

  /** Reads the file `lines` (when it could be opened), executes its statement
      lines and appends one inactive entry per distinct language other than
      "SUM". `languages` is what the database reports after the statements ran. */
  function OpenDelimitedFile(metaData: seq<MetaData.Entry>, fileOpen: bool, lines: seq<string>, languages: seq<string>): (r: Import)
    ensures !fileOpen ==> r.statements == [] && r.metaData == metaData
    ensures fileOpen ==> forall i :: 0 <= i < |r.statements| ==> MetaData.IsStatement(r.statements[i])
    ensures fileOpen ==> forall l :: multiset(r.statements)[l] == if MetaData.IsStatement(l) then multiset(lines)[l] else 0
    ensures fileOpen ==> |r.metaData| >= |metaData| && r.metaData[..|metaData|] == metaData
    ensures fileOpen ==> forall i :: |metaData| <= i < |r.metaData| ==>
      r.metaData[i].keyField == r.metaData[i].keyValue && !r.metaData[i].active
    ensures fileOpen ==> forall n ::
      multiset(MetaData.KeyValues(r.metaData[|metaData|..]))[n] == if n == MetaData.SumLanguage then 0 else multiset(languages)[n]
    ensures fileOpen ==> Sequences.IsSubsequence(MetaData.KeyValues(r.metaData[|metaData|..]), languages)
    // Consequences of the multiset clause, spelled out per entry and per name.
    ensures fileOpen ==> forall i :: |metaData| <= i < |r.metaData| ==>
      r.metaData[i].keyValue in languages && r.metaData[i].keyValue != MetaData.SumLanguage
    ensures fileOpen ==> forall n :: n in MetaData.KeyValues(r.metaData[|metaData|..]) <==> n in languages && n != MetaData.SumLanguage
  {
    if fileOpen then
      var added := MetaData.BuildMetaData(languages);
      assert forall i :: 0 <= i < |added| ==> added[i].keyValue in languages by {
        MetaData.KeyValuesInLanguages(languages);
      }
      var r := Import(MetaData.ImportStatements(lines), metaData + added);
      assert forall i :: |metaData| <= i < |r.metaData| ==> r.metaData[i] == added[i - |metaData|];
      assert r.metaData[|metaData|..] == added;
      assert forall n :: n in MetaData.KeyValues(added) <==> n in languages && n != MetaData.SumLanguage by {
        forall n ensures n in MetaData.KeyValues(added) <==> n in languages && n != MetaData.SumLanguage {
          MetaData.BuildMetaDataMembership(languages, n);
        }
      }
      r
    else Import([], metaData)
  }

  /** The outcome of a redraw: the toggle list, the five chart vectors, the bar
      width, and the value left in the static `prevDateTime` of the scan. */
  datatype Plot = Plot(metaData: seq<MetaData.Entry>, series: Series.Chart, resolution: int, prevDateTime: int)

  /** A redraw for the menu action carrying `key`, against the snapshot rows
      `rows` and result counts `counts`; `prevDateTime` is the value the scan's
      static variable holds from the previous redraw (0 on the first). The bar
      width is rounded in unbounded integers (see `OverflowStallsGapFill`). */
  function DataPlot(metaData: seq<MetaData.Entry>, key: string, rows: seq<Series.Snapshot>, counts: Series.Counts, prevDateTime: int): (p: Plot)
    ensures |p.metaData| == |metaData|
    ensures key == MetaData.AllKey ==> forall i :: 0 <= i < |p.metaData| ==> p.metaData[i].active
    ensures key == MetaData.NoneKey ==> forall i :: 0 <= i < |p.metaData| ==> !p.metaData[i].active
    ensures key != MetaData.AllKey && key != MetaData.NoneKey ==>
      forall i :: 0 <= i < |metaData| ==>
        if metaData[i].keyValue == key then p.metaData[i].active == !metaData[i].active else p.metaData[i] == metaData[i]
    ensures forall i :: 0 <= i < |metaData| ==>
      p.metaData[i].keyField == metaData[i].keyField && p.metaData[i].keyValue == metaData[i].keyValue
    ensures p.resolution % Resolution.Day == 0 && p.resolution >= Resolution.Day
    ensures var scanned := Resolution.ScanResolution(prevDateTime, Series.Timestamps(rows)).0;
      scanned <= p.resolution < scanned + Resolution.Day
    ensures p.series.Valid()
    ensures |p.series.dates| >= if Series.MaxId(rows) > 0 then Series.MaxId(rows) else 0
    ensures Series.HasRealPoints(Series.Empty, p.series, Series.MaxId(rows), rows, p.metaData, counts)
    ensures Series.OnlyRealOrFiller(Series.Empty, p.series, Series.MaxId(rows), p.resolution, rows, p.metaData, counts)
    ensures Series.GapsBounded(Series.Empty, p.series, p.resolution)
    ensures Series.WalkShape(p.series, 0, Series.MaxId(rows), p.resolution, rows, p.metaData, counts)
    ensures p.prevDateTime == if rows == [] then prevDateTime else rows[|rows| - 1].timestamp
  {
    var es := MetaData.ApplySelection(metaData, key);
    var ts := Series.Timestamps(rows);
    var scan := Resolution.ScanResolution(prevDateTime, ts);
    var res := Resolution.ChartResolution(prevDateTime, ts);
    assert res > 0;
    assert scan.1 == if rows == [] then prevDateTime else rows[|rows| - 1].timestamp;
    var series := Series.BuildSeries(rows, res, es, counts);
    Plot(es, series, res, scan.1)
  }

  /** The chart of a redraw is exactly the one with the shape of the walk. */
  lemma DataPlotSeriesExact(metaData: seq<MetaData.Entry>, key: string, rows: seq<Series.Snapshot>, counts: Series.Counts, prevDateTime: int, r: Series.Chart)
    requires r.Valid()
    ensures var p := DataPlot(metaData, key, rows, counts, prevDateTime);
      Series.WalkShape(r, 0, Series.MaxId(rows), p.resolution, rows, p.metaData, counts) <==> r == p.series
  {
    var p := DataPlot(metaData, key, rows, counts, prevDateTime);
    assert p.series == Series.BuildSeries(rows, p.resolution, p.metaData, counts);
    Series.BuildSeriesExact(rows, p.resolution, p.metaData, counts, r);
  }

  /** Every value of every column is zero. */
  ghost predicate AllZero(s: Series.Chart)
    requires s.Valid()
  {
    forall k :: 0 <= k < |s.dates| ==> s.same[k] == 0 && s.modified[k] == 0 && s.added[k] == 0 && s.removed[k] == 0
  }

  /** After "No Languages" the chart shows nothing: every value, fillers
      included, is zero. */
  lemma SelectNoneDrawsZero(metaData: seq<MetaData.Entry>, rows: seq<Series.Snapshot>, counts: Series.Counts, prevDateTime: int)
    ensures var p := DataPlot(metaData, MetaData.NoneKey, rows, counts, prevDateTime); AllZero(p.series)
  {
    var p := DataPlot(metaData, MetaData.NoneKey, rows, counts, prevDateTime);
    ChartZero(p.series, Series.MaxId(rows), p.resolution, rows, p.metaData, counts);
  }

  /** A chart of real points and fillers is all zero when no language is
      active: real points sum over no language, and a filler carries the
      total of a zero predecessor. */
  lemma ChartZero(r: Series.Chart, v: int, res: int, rows: seq<Series.Snapshot>, es: seq<MetaData.Entry>, counts: Series.Counts)
    requires r.Valid() && Series.OnlyRealOrFiller(Series.Empty, r, v, res, rows, es, counts)
    requires forall i :: 0 <= i < |es| ==> !es[i].active
    ensures AllZero(r)
  {
    var k := 0;
    while k < |r.dates|
      invariant 0 <= k <= |r.dates|
      invariant forall j :: 0 <= j < k ==> r.same[j] == 0 && r.modified[j] == 0 && r.added[j] == 0 && r.removed[j] == 0
    {
      if !r.IsFillerAt(k, res) {
        var w :| 1 <= w <= v && Series.RealPointAt(r, k, w, rows, es, counts);
        Series.ActiveSumNoneActive(es, w, Series.Count, counts);
        Series.ActiveSumNoneActive(es, w, Series.Modified, counts);
        Series.ActiveSumNoneActive(es, w, Series.Added, counts);
        Series.ActiveSumNoneActive(es, w, Series.Removed, counts);
      }
      k := k + 1;
    }
  }

  /** The bar width exactly as the handler computes it, in its 32-bit `int`. */
  function DataPlotResolutionInt32(prevDateTime: int, ts: seq<int>): (r: int)
    ensures Resolution.ScanResolution(prevDateTime, ts).0 <= Resolution.LastWholeDay ==>
      r == Resolution.ChartResolution(prevDateTime, ts)
    ensures Resolution.ScanResolution(prevDateTime, ts).0 > Resolution.LastWholeDay ==> r < 0
  {
    var scan := Resolution.ScanResolution(prevDateTime, ts);
    Resolution.Int32RoundingExactIff(scan.0);
    Resolution.RoundUpToDayInt32(scan.0)
  }

  /** With a negative bar width each filler moves the last date further back,
      so the gap condition that started the filling loop never becomes false. */
  lemma {:induction false} NegativeResolutionNeverStops(s: Series.Chart, d: int, res: int, n: nat)
    requires s.Valid() && |s.dates| > 0 && res < 0
    requires Series.NeedsFiller(s.LastDate(), d, res)
    ensures Series.NeedsFiller(s.LastDate() + n * res, d, res)
    decreases n
  {
    if n > 0 {
      NegativeResolutionNeverStops(s, d, res, n - 1);
      assert s.LastDate() + n * res == (s.LastDate() + (n - 1) * res) + res;
    }
  }

  /** Two snapshots an hour apart, read in id order. */
  const HourApart: seq<Series.Snapshot> := [Series.Snapshot(1, 1000), Series.Snapshot(2, 4600)]

  /** No gap in `HourApart` reaches a day, so the 32-bit rounding wraps to a
      negative width. */
  lemma HourApartWrapsNegative()
    ensures DataPlotResolutionInt32(0, Series.Timestamps(HourApart)) == -2147408896
  {
    var ts := Series.Timestamps(HourApart);
    assert ts == [1000, 4600];
    Resolution.NoQualifyingGap(0, ts);
    Resolution.InitialResolutionOverflows();
  }

  /** Two snapshots an hour apart: the walk starts at snapshot 2, and the gap to
      snapshot 1 starts a filling loop that, with the wrapped width, never ends.
      The unbounded width of `DataPlot` fills nothing here: one point per snapshot. */
  lemma OverflowStallsGapFill()
    ensures var res := DataPlotResolutionInt32(0, Series.Timestamps(HourApart));
      var last := Series.TimestampOf(HourApart, 2);
      var next := Series.TimestampOf(HourApart, 1);
      && res < 0
      && (forall n: nat :: Series.NeedsFiller(last + n * res, next, res))
      && |DataPlot([], MetaData.AllKey, HourApart, map[], 0).series.dates| == 2
  {
    HourApartWrapsNegative();
    var res := DataPlotResolutionInt32(0, Series.Timestamps(HourApart));
    assert Series.TimestampOf(HourApart, 2) == 4600 && Series.TimestampOf(HourApart, 1) == 1000;
    var s := Series.Chart([4600], [0], [0], [0], [0]);
    assert Series.NeedsFiller(s.LastDate(), 1000, res);
    forall n: nat ensures Series.NeedsFiller(4600 + n * res, 1000, res) {
      NegativeResolutionNeverStops(s, 1000, res, n);
    }
    HourApartCorrected();
  }

  /** With the unbounded width the same two snapshots give exactly two points. */
  lemma HourApartCorrected()
    ensures |DataPlot([], MetaData.AllKey, HourApart, map[], 0).series.dates| == 2
  {
    var p := DataPlot([], MetaData.AllKey, HourApart, map[], 0);
    assert p.series == Series.BuildSeries(HourApart, p.resolution, p.metaData, map[]);
    HourApartOnePointEach(p.resolution, p.metaData);
  }

  /** Whatever the width, the two snapshots of `HourApart` are read newest
      first, so no filler goes between them. */
  lemma HourApartOnePointEach(res: int, es: seq<MetaData.Entry>)
    requires res > 0
    ensures |Series.BuildSeries(HourApart, res, es, map[]).dates| == 2
  {
    assert Series.MaxId(HourApart) == 2;
    assert Series.TimestampOf(HourApart, 1) <= Series.TimestampOf(HourApart, 2);
    Series.WalkBackwardsNoFillers(Series.Empty, 2, res, HourApart, es, map[]);
  }
}
