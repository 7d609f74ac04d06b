/**
 * The per-series append log that the store wraps, modelled abstractly: its state is the
 * sequence of points appended so far, which is what decoding its buffers gives back.
 * The delta-of-delta and XOR bit encoding itself is not modelled; the size figures the
 * encoder reports for its two buffers are supplied from outside as an `Encoding`.
 */
module TimeSeries {
  import opened Types

  /** The two encoded buffers of a series. */
  datatype Buffer = Timestamps | Values

  /** The size figures one buffer reports: its data length and its data size. */
  datatype BufferStats = BufferStats(dataLength: nat, dataSize: nat)

  /** Per-series statistics: `timestamps_*` and `values_*`. */
  datatype SeriesStats = SeriesStats(timestamps: BufferStats, values: BufferStats)
  {
    function Of(b: Buffer): BufferStats
    {
      match b
      case Timestamps => timestamps
      case Values => values
    }
  }

  /** What the encoder reports about the buffers that hold a given sequence of points. */
  type Encoding = seq<Point> -> SeriesStats

  class VarBitTimeSeries {
    /** The points appended so far, in append order. */
    var points: seq<Point>

    constructor ()
      ensures points == []
    {
      points := [];
    }

    /** Appends one sample at the end. */
    method Append(ts: int64, val: Value)
      modifies this
      ensures points == old(points) + [Point(ts, val)]
    {
      points := points + [Point(ts, val)];
    }

    /** Decodes the whole series. */
    function Read(): (r: seq<Point>)
      reads this
    {
      points
    }

    /** The size figures of the two buffers, as the encoder reports them. */
    function GetStats(encoding: Encoding): (r: SeriesStats)
      reads this
    {
      encoding(points)
    }
  }
}
