/** Values shared by the rasterisers: integer pixel coordinates and an
    optional value for reads that may find no pixel. */
module Raster {

  /** A pixel coordinate; the source passes these around as `pair<int, int>`
      or as two loose ints. */
  datatype Point = Point(x: int, y: int)

  datatype Option<+T> = None | Some(value: T)

  /** The last element of a non-empty sequence (the top of a stack kept
      with its top at the end). */
  function Last<T>(s: seq<T>): T
    requires s != []
  {
    s[|s| - 1]
  }

  /** Moving one element from the front of the remainder to the end of the
      part already produced keeps the whole. */
  lemma MoveToDone<T>(done: seq<T>, x: T, rest: seq<T>)
    ensures done + ([x] + rest) == (done + [x]) + rest
  {
  }

  /** A slice that lies inside the first part of a concatenation is a
      slice of that part; the second part is the slice after the first. */
  lemma SliceOfAppend<T>(a: seq<T>, b: seq<T>, lo: int, hi: int)
    requires 0 <= lo <= hi <= |a|
    ensures (a + b)[lo..hi] == a[lo..hi]
    ensures (a + b)[|a|..|a| + |b|] == b
  {
  }
}
