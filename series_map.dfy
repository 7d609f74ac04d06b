/**
 * The store's abstract contents: the decoded points of every series, keyed by series id,
 * and what one successful insert does to them.
 */
module SeriesMap {
  import opened Types

  type Contents = map<int64, seq<Point>>

  /** What a read of `uuid` returns: its points, or the empty sequence for an unknown id. */
  function Lookup(m: Contents, uuid: int64): (r: seq<Point>)
  {
    if uuid in m then m[uuid] else []
  }

  /**
   * The contents after one successful insert: `uuid` is present afterwards, its series is the
   * old one (or the empty one) with `p` at the end, and every other series is as it was.
   */
  function Appended(m: Contents, uuid: int64, p: Point): (r: Contents)
    ensures r.Keys == m.Keys + {uuid}
    ensures r[uuid] == Lookup(m, uuid) + [p]
    ensures forall k :: k in m && k != uuid ==> r[k] == m[k]
  {
    m[uuid := Lookup(m, uuid) + [p]]
  }

  /** The number of series grows by one on the first insert for an id, and not otherwise. */
  lemma AppendedCount(m: Contents, uuid: int64, p: Point)
    ensures |Appended(m, uuid, p)| == if uuid in m then |m| else |m| + 1
  {
  }

  /** The contents after inserting `pts` for `uuid`, one point at a time, in order. */
  function AppendAll(m: Contents, uuid: int64, pts: seq<Point>): (r: Contents)
    decreases |pts|
  {
    if pts == [] then m else AppendAll(Appended(m, uuid, pts[0]), uuid, pts[1..])
  }

  /**
   * After inserting p1..pn for one id, a read of that id returns what it returned before
   * followed by exactly p1..pn in order; every other id reads as before.
   */
  lemma {:induction false} AppendAllLookup(m: Contents, uuid: int64, pts: seq<Point>)
    ensures Lookup(AppendAll(m, uuid, pts), uuid) == Lookup(m, uuid) + pts
    ensures forall k :: k != uuid ==> Lookup(AppendAll(m, uuid, pts), k) == Lookup(m, k)
    ensures AppendAll(m, uuid, pts).Keys == if pts == [] then m.Keys else m.Keys + {uuid}
    decreases |pts|
  {
    if pts != [] {
      var m' := Appended(m, uuid, pts[0]);
      AppendAllLookup(m', uuid, pts[1..]);
      assert Lookup(m, uuid) + [pts[0]] + pts[1..] == Lookup(m, uuid) + pts;
      forall k | k != uuid
        ensures Lookup(m', k) == Lookup(m, k)
      {
      }
    }
  }

  /** Inserting one more point after a run of inserts is one more `Appended` at the end. */
  lemma {:induction false} AppendAllSnoc(m: Contents, uuid: int64, pts: seq<Point>, p: Point)
    ensures AppendAll(m, uuid, pts + [p]) == Appended(AppendAll(m, uuid, pts), uuid, p)
    decreases |pts|
  {
    if pts == [] {
      assert [p][1..] == [];
    } else {
      assert (pts + [p])[0] == pts[0];
      assert (pts + [p])[1..] == pts[1..] + [p];
      AppendAllSnoc(Appended(m, uuid, pts[0]), uuid, pts[1..], p);
    }
  }

  /** On an id never written, reading back after n inserts returns exactly the n points. */
  lemma AppendAllFresh(m: Contents, uuid: int64, pts: seq<Point>)
    requires uuid !in m
    ensures Lookup(AppendAll(m, uuid, pts), uuid) == pts
  {
    AppendAllLookup(m, uuid, pts);
  }
}
