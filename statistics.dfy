/**
 * What `getStats` reports about a store, stated over the map from series id to the
 * statistics of that series, with no reference to the order in which the series are visited.
 */
module Statistics {
  import opened Types
  import opened TimeSeries
  import opened Sums

  /** The five named entries of the statistics map. */
  datatype StoreStats = StoreStats(
    metricCount: nat,
    timeStampSizeDistribution: map<nat, nat>,
    valueSizeDistribution: map<nat, nat>,
    timeStampByteSize: nat,
    valuesByteSize: nat)
  {
    /** The size distribution of buffer `b`. */
    function SizeDistribution(b: Buffer): (r: map<nat, nat>)
    {
      match b
      case Timestamps => timeStampSizeDistribution
      case Values => valueSizeDistribution
    }

    /** The total data size of buffer `b`. */
    function ByteSizeOf(b: Buffer): (r: nat)
    {
      match b
      case Timestamps => timeStampByteSize
      case Values => valuesByteSize
    }
  }

  /** The data lengths that buffer `b` has among the series `keys`. */
  ghost function Lengths(view: map<int64, SeriesStats>, keys: set<int64>, b: Buffer): (r: set<nat>)
  {
    set k | k in keys && k in view :: view[k].Of(b).dataLength
  }

  /** The series among `keys` whose buffer `b` has data length `len`. */
  ghost function Holders(view: map<int64, SeriesStats>, keys: set<int64>, b: Buffer, len: nat): (r: set<int64>)
  {
    set k | k in keys && k in view && view[k].Of(b).dataLength == len
  }

  /** The frequency distribution of the data lengths of buffer `b` over the series `keys`. */
  ghost function Distribution(view: map<int64, SeriesStats>, keys: set<int64>, b: Buffer): (r: map<nat, nat>)
  {
    map len | len in Lengths(view, keys, b) :: |Holders(view, keys, b, len)|
  }

  /** The data size of buffer `b` of each series among `keys`. */
  ghost function Sizes(view: map<int64, SeriesStats>, keys: set<int64>, b: Buffer): (r: map<int64, nat>)
  {
    map k | k in keys && k in view :: view[k].Of(b).dataSize
  }

  /** The total data size of buffer `b` over the series `keys`. */
  ghost function ByteSize(view: map<int64, SeriesStats>, keys: set<int64>, b: Buffer): (r: nat)
  {
    SumOf(Sizes(view, keys, b))
  }

  /** Counts one more occurrence of `len` (one step of a grouping-by-counting collector). */
  function Bump(h: map<nat, nat>, len: nat): (r: map<nat, nat>)
    ensures r.Keys == h.Keys + {len}
    ensures len !in h ==> r[len] == 1
    ensures forall l :: l in h ==> r[l] == if l == len then h[l] + 1 else h[l]
  {
    h[len := (if len in h then h[len] else 0) + 1]
  }

  /** Folds the statistics of one more series into the four aggregated entries. */
  function Tally(acc: StoreStats, s: SeriesStats): (r: StoreStats)
  {
    acc.(timeStampSizeDistribution := Bump(acc.timeStampSizeDistribution, s.timestamps.dataLength),
         valueSizeDistribution := Bump(acc.valueSizeDistribution, s.values.dataLength),
         timeStampByteSize := acc.timeStampByteSize + s.timestamps.dataSize,
         valuesByteSize := acc.valuesByteSize + s.values.dataSize)
  }

  /** Adding a series `k` adds it to the holders of its own length and to no others. */
  lemma HoldersStep(view: map<int64, SeriesStats>, keys: set<int64>, b: Buffer, k: int64, len: nat)
    requires k in view && k !in keys
    ensures |Holders(view, keys + {k}, b, len)| ==
            |Holders(view, keys, b, len)| + if len == view[k].Of(b).dataLength then 1 else 0
  {
    if len == view[k].Of(b).dataLength {
      assert Holders(view, keys + {k}, b, len) == Holders(view, keys, b, len) + {k};
    } else {
      assert Holders(view, keys + {k}, b, len) == Holders(view, keys, b, len);
    }
  }

  /** A length that no series has has no holders. */
  lemma HoldersOfAbsentLength(view: map<int64, SeriesStats>, keys: set<int64>, b: Buffer, len: nat)
    ensures len !in Lengths(view, keys, b) ==> Holders(view, keys, b, len) == {}
  {
  }

  /** Adding one series to the counted set bumps the bucket of its length and no other. */
  lemma DistributionStep(view: map<int64, SeriesStats>, keys: set<int64>, b: Buffer, k: int64)
    requires k in view && k !in keys
    ensures Distribution(view, keys + {k}, b) == Bump(Distribution(view, keys, b), view[k].Of(b).dataLength)
  {
    var len := view[k].Of(b).dataLength;
    var d := Distribution(view, keys, b);
    var d' := Distribution(view, keys + {k}, b);
    var e := Bump(d, len);
    assert Lengths(view, keys + {k}, b) == Lengths(view, keys, b) + {len};
    assert d'.Keys == e.Keys;
    forall l | l in d'
      ensures d'[l] == e[l]
    {
      HoldersStep(view, keys, b, k, l);
      HoldersOfAbsentLength(view, keys, b, l);
    }
  }

  /** Adding one series to the summed set adds its data size. */
  lemma ByteSizeStep(view: map<int64, SeriesStats>, keys: set<int64>, b: Buffer, k: int64)
    requires k in view && k !in keys
    ensures ByteSize(view, keys + {k}, b) == ByteSize(view, keys, b) + view[k].Of(b).dataSize
  {
    var s := Sizes(view, keys, b);
    assert Sizes(view, keys + {k}, b) == s[k := view[k].Of(b).dataSize];
    SumOfUpdate(s, k, view[k].Of(b).dataSize);
  }

  /** The counts of a distribution add up to the number of series counted. */
  lemma {:induction false} DistributionTotal(view: map<int64, SeriesStats>, keys: set<int64>, b: Buffer)
    requires keys <= view.Keys
    ensures SumOf(Distribution(view, keys, b)) == |keys|
    decreases keys
  {
    if keys == {} {
      assert Distribution(view, keys, b) == map[];
    } else {
      var k :| k in keys;
      var rest := keys - {k};
      assert rest + {k} == keys;
      DistributionTotal(view, rest, b);
      DistributionStep(view, rest, b, k);
      var h := Distribution(view, rest, b);
      var len := view[k].Of(b).dataLength;
      SumOfUpdate(h, len, (if len in h then h[len] else 0) + 1);
    }
  }

  /**
   * The statistics gathered from the series `keys`, folding them in one at a time in an
   * arbitrary order. The fold does not touch `metricCount`, which the store takes from its
   * size separately.
   */
  ghost function Fold(view: map<int64, SeriesStats>, keys: set<int64>): (r: StoreStats)
    requires keys <= view.Keys
    decreases keys
  {
    if keys == {} then StoreStats(0, map[], map[], 0, 0)
    else
      var k := Pick(keys);
      Tally(Fold(view, keys - {k}), view[k])
  }

  /**
   * The statistics of a store whose series have the statistics `view`: `MetricCount` is the
   * number of series, and the other four entries are folded from the series.
   */
  ghost function Summary(view: map<int64, SeriesStats>): (r: StoreStats)
  {
    Fold(view, view.Keys).(metricCount := |view|)
  }

  /** Counting two lengths in either order gives the same distribution. */
  lemma BumpCommutes(h: map<nat, nat>, x: nat, y: nat)
    ensures Bump(Bump(h, x), y) == Bump(Bump(h, y), x)
  {
  }

  /** The order in which two series are folded in does not matter. */
  lemma TallyCommutes(acc: StoreStats, x: SeriesStats, y: SeriesStats)
    ensures Tally(Tally(acc, x), y) == Tally(Tally(acc, y), x)
  {
    BumpCommutes(acc.timeStampSizeDistribution, x.timestamps.dataLength, y.timestamps.dataLength);
    BumpCommutes(acc.valueSizeDistribution, x.values.dataLength, y.values.dataLength);
  }

  /** Folding in one more series, in whatever order, applies `Tally` once for it. */
  lemma {:induction false} FoldStep(view: map<int64, SeriesStats>, keys: set<int64>, k: int64)
    requires keys <= view.Keys && k in view && k !in keys
    ensures Fold(view, keys + {k}) == Tally(Fold(view, keys), view[k])
    decreases |keys|
  {
    var all := keys + {k};
    var j := Pick(all);
    if j != k {
      var rest := keys - {j};
      assert all - {j} == rest + {k};
      assert rest + {j} == keys;
      FoldStep(view, rest, k);
      FoldStep(view, rest, j);
      TallyCommutes(Fold(view, rest), view[k], view[j]);
    } else {
      assert all - {j} == keys;
    }
  }

  /** The fold's distribution of buffer `b` maps every data length to its number of series. */
  lemma {:induction false} FoldDistribution(view: map<int64, SeriesStats>, keys: set<int64>, b: Buffer)
    requires keys <= view.Keys
    ensures Fold(view, keys).SizeDistribution(b) == Distribution(view, keys, b)
    decreases keys
  {
    if keys == {} {
      assert Distribution(view, keys, b) == map[];
    } else {
      var k := Pick(keys);
      var rest := keys - {k};
      assert rest + {k} == keys;
      FoldDistribution(view, rest, b);
      DistributionStep(view, rest, b, k);
    }
  }

  /** The fold's total of buffer `b` is the sum of the data sizes of its series. */
  lemma {:induction false} FoldByteSize(view: map<int64, SeriesStats>, keys: set<int64>, b: Buffer)
    requires keys <= view.Keys
    ensures Fold(view, keys).ByteSizeOf(b) == ByteSize(view, keys, b)
    decreases keys
  {
    if keys == {} {
      assert Sizes(view, keys, b) == map[];
    } else {
      var k := Pick(keys);
      var rest := keys - {k};
      assert rest + {k} == keys;
      FoldByteSize(view, rest, b);
      ByteSizeStep(view, rest, b, k);
    }
  }

  /**
   * A summary reports the number of series, for each buffer the number of series having
   * each data length, and for each buffer the total data size; both distributions count
   * every series exactly once, so their counts add up to `MetricCount`.
   */
  lemma SummaryIsReference(view: map<int64, SeriesStats>)
    ensures Summary(view).metricCount == |view|
    ensures Summary(view).timeStampSizeDistribution == Distribution(view, view.Keys, Timestamps)
    ensures Summary(view).valueSizeDistribution == Distribution(view, view.Keys, Values)
    ensures Summary(view).timeStampByteSize == ByteSize(view, view.Keys, Timestamps)
    ensures Summary(view).valuesByteSize == ByteSize(view, view.Keys, Values)
    ensures SumOf(Summary(view).timeStampSizeDistribution) == |view|
    ensures SumOf(Summary(view).valueSizeDistribution) == |view|
  {
    FoldDistribution(view, view.Keys, Timestamps);
    FoldDistribution(view, view.Keys, Values);
    FoldByteSize(view, view.Keys, Timestamps);
    FoldByteSize(view, view.Keys, Values);
    DistributionTotal(view, view.Keys, Timestamps);
    DistributionTotal(view, view.Keys, Values);
  }
}
