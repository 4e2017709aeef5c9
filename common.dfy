/** Shared vocabulary: bytes, results, and 8-bit grayscale rasters.

    A grayscale image of the source (Go's `*image.Gray`, a row-major buffer whose
    bounds start at (0, 0)) is an `array2<Byte>` indexed `[y, x]`: `Length0` is the
    height, `Length1` the width. Its pure value is a `Grid`, the sequence of its rows.
    Reading outside the bounds yields 0, as Go's `At`/`GrayAt` do; writing outside
    the bounds is ignored, as Go's `Set`/`SetGray` do. */
module Common {

  /** An 8-bit sample, `uint8` in the source. */
  newtype Byte = x: int | 0 <= x < 256

  datatype Option<T> = None | Some(value: T)

  datatype Result<T, E> = Ok(value: T) | Err(error: E)

  /** Concatenation regroups freely. */
  lemma Associative<T>(a: seq<T>, b: seq<T>, c: seq<T>)
    ensures (a + b) + c == a + (b + c)
  {
  }

  /** Rows of samples: `g[y][x]`. */
  type Grid = seq<seq<Byte>>

  /** `g` has `h` rows of `w` samples each. */
  predicate IsGrid(g: Grid, w: int, h: int)
  {
    |g| == h && forall y :: 0 <= y < h ==> |g[y]| == w
  }

  function Width(g: Grid): int
  {
    if |g| == 0 then 0 else |g[0]|
  }

  /** The sample at (x, y); 0 outside the grid, as Go's `GrayAt` answers out of bounds. */
  function GAt(g: Grid, x: int, y: int): Byte
  {
    if 0 <= y < |g| && 0 <= x < |g[y]| then g[y][x] else 0
  }

  /** The all-`v` grid of the given extent. */
  function Filled(w: nat, h: nat, v: Byte): (g: Grid)
    ensures IsGrid(g, w, h)
    ensures forall y, x :: 0 <= y < h && 0 <= x < w ==> g[y][x] == v
  {
    seq(h, (y: int) => seq(w, (x: int) => v))
  }

  /** Two grids of the same shape that agree on every cell are equal. */
  lemma GridExt(a: Grid, b: Grid, w: int, h: int)
    requires IsGrid(a, w, h) && IsGrid(b, w, h)
    requires forall y, x :: 0 <= y < h && 0 <= x < w ==> a[y][x] == b[y][x]
    ensures a == b
  {
    forall y | 0 <= y < h
      ensures a[y] == b[y]
    {
      assert |a[y]| == w && |b[y]| == w;
    }
  }

  /** The current value of a buffer. */
  ghost function Pixels(a: array2<Byte>): (g: Grid)
    reads a
    ensures IsGrid(g, a.Length1, a.Length0)
    ensures forall y, x :: 0 <= y < a.Length0 && 0 <= x < a.Length1 ==> g[y][x] == a[y, x]
  {
    seq(a.Length0, (y: int) requires 0 <= y < a.Length0 reads a =>
      seq(a.Length1, (x: int) requires 0 <= x < a.Length1 reads a => a[y, x]))
  }

  /** Go's `GrayAt` on a buffer: 0 outside the bounds. */
  function At(a: array2<Byte>, x: int, y: int): (v: Byte)
    reads a
    ensures v == GAt(Pixels(a), x, y)
  {
    if 0 <= y < a.Length0 && 0 <= x < a.Length1 then a[y, x] else 0
  }

  /** Go's `SetGray`: a write outside the bounds changes nothing. */
  method Set(a: array2<Byte>, x: int, y: int, v: Byte)
    modifies a
    ensures forall yy, xx :: 0 <= yy < a.Length0 && 0 <= xx < a.Length1 ==>
      a[yy, xx] == (if yy == y && xx == x then v else old(a[yy, xx]))
  {
    if 0 <= y < a.Length0 && 0 <= x < a.Length1 {
      a[y, x] := v;
    }
  }
}
