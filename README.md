# VarBitMetricStore — a Dafny model of yuvi's per-chunk series table

yuvi keeps each time-bounded chunk of metrics in memory in a `VarBitMetricStore`. The store
maps a numeric series id (a Java `long`) to that id's `VarBitTimeSeries`, a compressed
append-only log of (timestamp, value) samples. It also holds a `readOnly` flag that seals the
chunk once it is rotated out of the write path. This project models the store's sequential
behaviour:

- an insert creates the series on the first write for an id, then appends the sample;
- an insert into a sealed store is rejected and changes nothing;
- a read returns the decoded points, or nothing for an unknown id;
- the statistics fold per-series size figures into a count, two frequency distributions and
  two byte totals.

Files and modules:

- `types.dfy` (`Types`): Java `int` and `long` as newtypes. A sample value is the raw 64-bit
  pattern of a `double` (`bv64`). `Point` is one sample.
- `time_series.dfy` (`TimeSeries`): `VarBitTimeSeries` as a class. Its state is the sequence
  of points appended so far, which is what decoding its two buffers yields. Each buffer's
  statistics (`dataLength`, `dataSize`) come from an `Encoding` that is passed in.
- `series_map.dfy` (`SeriesMap`): the store's contents as a value, a map from id to points.
  It also states what one insert, or a run of inserts, does to that value.
- `sums.dfy` (`Sums`): sums over the values of a finite map, in no particular order.
- `statistics.dfy` (`Statistics`): the statistics in two forms. `Summary` folds the series in
  one at a time, as the stream pipeline does. The reference definitions `Distribution` and
  `ByteSize` are stated by set comprehension and sum. Lemmas prove that the two forms agree.
- `metric_store.dfy` (`MetricStore`): the class `VarBitMetricStore`.
  - Its fields are `series`, a map to series objects, and `readOnly`.
  - `Valid()` says that no two ids share a series object.
  - `Contents()` is the abstract view.
- `scenario.dfy` (`Scenario`): clients of the store that use only its contracts.
  - `AddEach` calls `AddPoint` once per point and reads the points back.
  - `ChunkLifecycle` takes one chunk through writes, a read of an unknown id, sealing and a
    rejected write.

`setReadOnly` (VarBitMetricStore.java:136-139) assigns its argument, so `setReadOnly(false)`
makes a sealed store writable again; nothing in the class makes sealing one-way. The model
does the same: `SetReadOnly(b)` sets the flag to `b`.

## Model

| member | source | states |
|---|---|---|
| `MetricStore.VarBitMetricStore.constructor` | yuvi/src/main/java/com/pinterest/yuvi/metricstore/VarBitMetricStore.java:32-34 | The no-argument constructor (default capacity 10 000) gives a valid store with no series that is not read-only. |
| `MetricStore.VarBitMetricStore.WithInitialSize` | yuvi/src/main/java/com/pinterest/yuvi/metricstore/VarBitMetricStore.java:39-45 | A store created with a capacity hint is valid, holds no series, and is writable. |
| `MetricStore.VarBitMetricStore.GetSeries` | yuvi/src/main/java/com/pinterest/yuvi/metricstore/VarBitMetricStore.java:47-59 | Returns the id's points in append order, or the empty sequence when the id is unknown. As a function it changes nothing. |
| `MetricStore.VarBitMetricStore.AddPoint` | yuvi/src/main/java/com/pinterest/yuvi/metricstore/VarBitMetricStore.java:61-90 | On a sealed store: the read-only insertion error carrying (uuid, ts, val); map, series and flag unchanged. On a writable store: success, and the contents become `Appended(old contents, uuid, (ts, val))`. An existing series object is kept, never replaced. A new id gets exactly one fresh series, and no other key changes. |
| `MetricStore.VarBitMetricStore.GetUuids` | yuvi/src/main/java/com/pinterest/yuvi/metricstore/VarBitMetricStore.java:92-100 | Returns every id of the map exactly once: no duplicates, nothing else, length equal to the map's size. |
| `MetricStore.VarBitMetricStore.GetStats` | yuvi/src/main/java/com/pinterest/yuvi/metricstore/VarBitMetricStore.java:102-124 | `MetricCount` is the number of series. Each size distribution maps every data length to the number of series whose buffer has that length. Each byte total is the sum of the series' `dataSize`. Both distributions' counts add up to `MetricCount`. |
| `MetricStore.Aggregate` | yuvi/src/main/java/com/pinterest/yuvi/metricstore/VarBitMetricStore.java:109-121 | Folding the per-series statistics one by one, in whatever order the keys are visited, yields `Fold` of all of them: the two distributions and the two byte totals. |
| `MetricStore.VarBitMetricStore.SetReadOnly` | yuvi/src/main/java/com/pinterest/yuvi/metricstore/VarBitMetricStore.java:136-139 | Afterwards `IsReadOnly()` returns the argument. The series map and every series are unchanged. |
| `MetricStore.VarBitMetricStore.IsReadOnly` | yuvi/src/main/java/com/pinterest/yuvi/metricstore/VarBitMetricStore.java:141-144 | Reports the seal flag. What it returns after `SetReadOnly(b)`, namely `b`, is stated by `SetReadOnly`'s contract. |
| `TimeSeries.VarBitTimeSeries.constructor` | yuvi/src/main/java/com/pinterest/yuvi/metricstore/VarBitMetricStore.java:78 | The series created for a new id holds no points. |
| `TimeSeries.VarBitTimeSeries.Append` | yuvi/src/main/java/com/pinterest/yuvi/metricstore/VarBitMetricStore.java:85 | The series becomes its old points followed by `(ts, val)`. |
| `TimeSeries.VarBitTimeSeries.Read` | yuvi/src/main/java/com/pinterest/yuvi/metricstore/VarBitMetricStore.java:55 | Decoding gives back the appended points in order. No decoder is modelled, so this is the series' state itself. |
| `SeriesMap.Appended` | yuvi/src/main/java/com/pinterest/yuvi/metricstore/VarBitMetricStore.java:72-85 | One insert: the key set gains exactly `uuid`. Its series is the old one, or the empty one, followed by the new point. Every other series is unchanged. |
| `SeriesMap.AppendedCount` | yuvi/src/main/java/com/pinterest/yuvi/metricstore/VarBitMetricStore.java:76-80 | The number of series grows by one on the first insert for an id, and stays the same for an id already present. |
| `SeriesMap.AppendAllLookup` | yuvi/src/main/java/com/pinterest/yuvi/metricstore/VarBitMetricStore.java:48-85 | After inserting p1..pn for one id, reading it returns its earlier points followed by exactly p1..pn in order. Every other id reads as before. The key set gains only that id. |
| `SeriesMap.AppendAllSnoc` | yuvi/src/main/java/com/pinterest/yuvi/metricstore/VarBitMetricStore.java:62-85 | Inserting one more point after a run of inserts is one more insert at the end of the run. |
| `Scenario.AddEach` | yuvi/src/main/java/com/pinterest/yuvi/metricstore/VarBitMetricStore.java:62-85 | One `AddPoint` per point of `pts`, in order. On a writable store the contents become `AppendAll(old contents, uuid, pts)`, and a read of `uuid` returns its earlier points followed by exactly `pts`. On a sealed store nothing changes. |
| `SeriesMap.AppendAllFresh` | yuvi/src/main/java/com/pinterest/yuvi/metricstore/VarBitMetricStore.java:55-85 | For an id never written, reading it after inserting p1..pn returns exactly [p1..pn]. |
| `Statistics.Bump` | yuvi/src/main/java/com/pinterest/yuvi/metricstore/VarBitMetricStore.java:111 | One step of counting by group: the counted length's bucket goes up by one (to 1 if new). Every other bucket is unchanged. |
| `Statistics.BumpCommutes` | yuvi/src/main/java/com/pinterest/yuvi/metricstore/VarBitMetricStore.java:111 | Counting two lengths in either order gives the same distribution. |
| `Statistics.TallyCommutes` | yuvi/src/main/java/com/pinterest/yuvi/metricstore/VarBitMetricStore.java:106-121 | Folding two series in either order gives the same statistics. |
| `Statistics.FoldStep` | yuvi/src/main/java/com/pinterest/yuvi/metricstore/VarBitMetricStore.java:106-121 | Folding in one more series, whatever the map's iteration order, adds exactly that series' figures. |
| `Statistics.DistributionStep` | yuvi/src/main/java/com/pinterest/yuvi/metricstore/VarBitMetricStore.java:109-111 | Adding one series to a distribution raises the bucket of its data length by one and leaves every other bucket as it was. |
| `Statistics.ByteSizeStep` | yuvi/src/main/java/com/pinterest/yuvi/metricstore/VarBitMetricStore.java:117-118 | Adding one series to a byte total adds exactly its `dataSize`. |
| `Statistics.DistributionTotal` | yuvi/src/main/java/com/pinterest/yuvi/metricstore/VarBitMetricStore.java:109-115 | The counts of a size distribution add up to the number of series counted. |
| `Statistics.FoldDistribution` | yuvi/src/main/java/com/pinterest/yuvi/metricstore/VarBitMetricStore.java:109-115 | The fold's size distribution equals the reference one: every length maps to the number of series having it. |
| `Statistics.FoldByteSize` | yuvi/src/main/java/com/pinterest/yuvi/metricstore/VarBitMetricStore.java:117-121 | The fold's byte total equals the sum of the series' `dataSize`. |
| `Statistics.SummaryIsReference` | yuvi/src/main/java/com/pinterest/yuvi/metricstore/VarBitMetricStore.java:105-121 | A summary takes `MetricCount` from the number of series, as line 105 does, and has the reference distributions and the reference byte totals. The counts of each distribution add up to `MetricCount`. |

## Left out

- Locking: the `ReentrantReadWriteLock` and its acquire/release pairs are omitted. Their
  purpose is concurrency, and only sequential behaviour is modelled.
- The double-checked insert: looking the id up again under the write lock matters only when
  threads race. Run sequentially it finds what the first lookup found, so `AddPoint` looks up
  once.
- The best-effort seal: an insert that read `readOnly` before a concurrent `setReadOnly(true)`
  can still succeed. That is a concurrency artefact and is not modelled.
- Logging through SLF4J: it is output only.
- The compressed encoding inside `VarBitTimeSeries` (delta-of-delta timestamps, XOR values).
  The file is not part of this model. A series is the sequence of its points, and `Read`
  returns that sequence.
- Per-series statistics: `VarBitTimeSeries.getStats` is not part of this model either. Its
  figures are supplied as the `Encoding` parameter of `GetStats`, a function from a series'
  points to its four figures.
- Floating point: values are opaque 64-bit patterns, and the statistics are natural numbers
  rather than `Double` and `Long` objects.
- The exception message text. The read-only error carries the rejected (uuid, ts, val) as data.
- `getSeriesMap`: it hands out the internal mutable map by alias.
- `close`: it nulls the map, after which the store's behaviour is undefined. The model has no
  closed state.
- `MetricStore.VarBitMetricStore.WithInitialSize` requires a non-negative `initialSize`. Java's
  `HashMap` throws `IllegalArgumentException` for a negative capacity, and that error path is
  not modelled.
- `MetricStore.VarBitMetricStore.GetStats` sums without bound. Java's `long` sum would wrap
  above 2^63 - 1 bytes, which in-memory buffers cannot reach.
- `MetricStore.Aggregate` keys the per-series statistics by series id. Java collects only the
  values into a list. Both aggregations ignore order, so the results agree.
