/**
 * A client of the store that walks one chunk through its life: writes to one series, a read
 * of an unknown id, sealing, and a rejected write. Everything asserted here follows from the
 * contracts of `VarBitMetricStore` alone.
 */
module Scenario {
  import opened Types
  import opened SeriesMap
  import opened MetricStore

  /** The bit patterns of the doubles 1.0, 2.0 and 3.0. */
  const One: Value := 0x3FF0_0000_0000_0000
  const Two: Value := 0x4000_0000_0000_0000
  const Three: Value := 0x4008_0000_0000_0000

  /**
   * Inserts `pts` for `uuid` with one `AddPoint` per point, in order. On a writable store a
   * read of `uuid` then returns its earlier points followed by exactly `pts`; on a sealed
   * store every insert is rejected and nothing changes.
   */
  method AddEach(store: VarBitMetricStore, uuid: int64, pts: seq<Point>)
    requires store.Valid()
    modifies store, store.series.Values
    ensures store.Valid() && store.readOnly == old(store.readOnly)
    ensures !old(store.readOnly) ==> store.Contents() == AppendAll(old(store.Contents()), uuid, pts)
    ensures !old(store.readOnly) ==> store.GetSeries(uuid) == old(store.GetSeries(uuid)) + pts
    ensures old(store.readOnly) ==> store.Contents() == old(store.Contents())
  {
    var i := 0;
    while i < |pts|
      invariant 0 <= i <= |pts|
      invariant store.Valid() && store.readOnly == old(store.readOnly)
      invariant !old(store.readOnly) ==> store.Contents() == AppendAll(old(store.Contents()), uuid, pts[..i])
      invariant old(store.readOnly) ==> store.Contents() == old(store.Contents())
      invariant forall o :: o in store.series.Values ==> o in old(store.series.Values) || fresh(o)
    {
      var r := store.AddPoint(uuid, pts[i].timestamp, pts[i].value);
      AppendAllSnoc(old(store.Contents()), uuid, pts[..i], pts[i]);
      assert pts[..i + 1] == pts[..i] + [pts[i]];
      i := i + 1;
    }
    assert pts[..i] == pts;
    AppendAllLookup(old(store.Contents()), uuid, pts);
  }

  method ChunkLifecycle()
  {
    var store := new VarBitMetricStore();
    var r := store.AddPoint(42, 100, One);
    assert r == Added;
    r := store.AddPoint(42, 200, One);
    r := store.AddPoint(42, 305, Two);
    var expected := [Point(100, One), Point(200, One), Point(305, Two)];
    assert store.GetSeries(42) == expected;
    assert store.GetSeries(99) == [];

    store.SetReadOnly(true);
    r := store.AddPoint(42, 400, Three);
    assert r == ReadOnlyChunkInsertion(42, 400, Three);
    assert store.GetSeries(42) == expected;
  }
}
