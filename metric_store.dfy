/**
 * The per-chunk series table: a map from series id to that id's time series, and the
 * flag that seals the chunk against further inserts. Locking is not modelled; this is the
 * store's sequential behaviour.
 */
module MetricStore {
  import opened Types
  import opened TimeSeries
  import opened SeriesMap
  import opened Statistics
  import opened Sums

  /** The initial capacity the no-argument constructor asks for; capacity is not observable. */
  const DefaultMetricStoreSize: int32 := 10_000

  /** The outcome of `AddPoint`; a rejected insert carries the sample it refused. */
  datatype AddResult = Added | ReadOnlyChunkInsertion(uuid: int64, ts: int64, val: Value)

  class VarBitMetricStore {
    var series: map<int64, VarBitTimeSeries>
    var readOnly: bool

    /** No two ids share a series object: each new id gets a series of its own. */
    ghost predicate Valid()
      reads this
    {
      forall a, b :: a in series && b in series && a != b ==> series[a] != series[b]
    }

    /** The decoded points of every series. */
    ghost function Contents(): Contents
      reads this, series.Values
    {
      map k | k in series :: series[k].points
    }

    /** A writable store with no series, of capacity `DefaultMetricStoreSize`. */
    constructor ()
      ensures Valid() && fresh(series.Values)
      ensures Contents() == map[] && !readOnly
    {
      series := map[];
      readOnly := false;
    }

    /** A writable store with no series; `initialSize` is only a capacity hint. */
    constructor WithInitialSize(initialSize: int32)
      requires initialSize >= 0
      ensures Valid() && fresh(series.Values)
      ensures Contents() == map[] && !readOnly
    {
      series := map[];
      readOnly := false;
    }

    /** The points of `uuid` in append order, or the empty sequence for an unknown id. */
    function GetSeries(uuid: int64): (r: seq<Point>)
      reads this, series.Values
      ensures r == Lookup(Contents(), uuid)
      ensures uuid !in series ==> r == []
    {
      if uuid in series then series[uuid].Read() else []
    }

    /**
     * Inserts one sample. On a writable store the series of `uuid` is created if absent
     * and the sample is appended to it; on a sealed store nothing changes and the
     * insert is rejected.
     */
    method AddPoint(uuid: int64, ts: int64, val: Value) returns (r: AddResult)
      requires Valid()
      modifies this, series.Values
      ensures Valid() && readOnly == old(readOnly)
      ensures old(readOnly) ==> r == ReadOnlyChunkInsertion(uuid, ts, val)
      ensures old(readOnly) ==> series == old(series) && Contents() == old(Contents())
      ensures !old(readOnly) ==> r == Added
      ensures !old(readOnly) ==> Contents() == Appended(old(Contents()), uuid, Point(ts, val))
      // an existing series object is reused, never replaced
      ensures uuid in old(series) ==> series == old(series)
      // a new id gets exactly one fresh series and no other key changes
      ensures uuid !in old(series) && !old(readOnly) ==>
                fresh(series[uuid]) && series == old(series)[uuid := series[uuid]]
    {
      if !readOnly {
        var s: VarBitTimeSeries;
        if uuid in series {
          s := series[uuid];
        } else {
          s := new VarBitTimeSeries();
          series := series[uuid := s];
        }
        s.Append(ts, val);
        r := Added;
      } else {
        r := ReadOnlyChunkInsertion(uuid, ts, val);
      }
    }

    /** The ids of all series, each once, in no particular order. */
    method GetUuids() returns (ids: seq<int64>)
      ensures |ids| == |series|
      ensures forall i, j :: 0 <= i < j < |ids| ==> ids[i] != ids[j]
      ensures forall id :: id in ids <==> id in series
    {
      ids := [];
      var remaining := series.Keys;
      while remaining != {}
        invariant remaining <= series.Keys
        invariant forall id :: id in series <==> id in ids || id in remaining
        invariant forall id :: id in ids ==> id !in remaining
        invariant forall i, j :: 0 <= i < j < |ids| ==> ids[i] != ids[j]
        invariant |ids| + |remaining| == |series.Keys|
        decreases remaining
      {
        var id :| id in remaining;
        ids := ids + [id];
        remaining := remaining - {id};
      }
    }

    /** The statistics of every series, as `encoding` reports them. */
    ghost function View(encoding: Encoding): (v: map<int64, SeriesStats>)
      reads this, series.Values
    {
      map k | k in series :: series[k].GetStats(encoding)
    }

    /**
     * The store's statistics: the number of series, the frequency distribution of each
     * buffer's data length over the series, and the total data size of each buffer.
     */
    method GetStats(encoding: Encoding) returns (stats: StoreStats)
      ensures stats == Summary(View(encoding))
      ensures stats.metricCount == |series|
      ensures stats.timeStampSizeDistribution == Distribution(View(encoding), series.Keys, Timestamps)
      ensures stats.valueSizeDistribution == Distribution(View(encoding), series.Keys, Values)
      ensures stats.timeStampByteSize == ByteSize(View(encoding), series.Keys, Timestamps)
      ensures stats.valuesByteSize == ByteSize(View(encoding), series.Keys, Values)
      ensures SumOf(stats.timeStampSizeDistribution) == SumOf(stats.valueSizeDistribution) == |series|
    {
      var metricCount := |series|;
      var tsStats := map k | k in series :: series[k].GetStats(encoding);
      var folded := Aggregate(tsStats);
      stats := folded.(metricCount := metricCount);
      assert tsStats == View(encoding);
      assert tsStats.Keys == series.Keys;
      assert |tsStats| == |tsStats.Keys| == |series.Keys| == |series|;
      SummaryIsReference(tsStats);
    }

    /** Sets the seal flag; the series are untouched. */
    method SetReadOnly(readOnly: bool)
      requires Valid()
      modifies this
      ensures Valid() && IsReadOnly() == readOnly
      ensures series == old(series) && Contents() == old(Contents())
    {
      this.readOnly := readOnly;
    }

    /** Whether the store is sealed against inserts. */
    function IsReadOnly(): (r: bool)
      reads this
    {
      readOnly
    }
  }

  /**
   * Folds the per-series statistics into the two distributions and the two byte totals, one
   * series at a time in whatever order the keys are visited; `metricCount` is left at zero.
   */
  method Aggregate(tsStats: map<int64, SeriesStats>) returns (stats: StoreStats)
    ensures stats == Fold(tsStats, tsStats.Keys)
  {
    stats := StoreStats(0, map[], map[], 0, 0);
    var remaining := tsStats.Keys;
    ghost var done: set<int64> := {};
    while remaining != {}
      invariant remaining !! done && remaining + done == tsStats.Keys
      invariant stats == Fold(tsStats, done)
      decreases remaining
    {
      var k :| k in remaining;
      FoldStep(tsStats, done, k);
      stats := Tally(stats, tsStats[k]);
      remaining := remaining - {k};
      done := done + {k};
    }
    assert done == tsStats.Keys;
  }
}
