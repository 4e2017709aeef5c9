/** The back half of Canny edge detection (remarkablepage/canny_edge_detection.go):
    non-maximum suppression, double thresholding and edge tracking by hysteresis.

    Each stage allocates a fresh buffer of the input's bounds and fills it in nested
    loops. The gradient magnitude and direction come from the floating-point stages
    before (Gaussian smoothing, Sobel with `sqrt` and `atan2`), which are not modelled:
    they are inputs here. Directions are bytes, so an angle is an integer in [0, 255]
    compared against the source's real bin limits. */
module Canny {
  import opened Common
  import opened Padding

  // ---------------------------------------------------------------------------------
  // Non-maximum suppression

  /** The two magnitudes a pixel is compared against, chosen by the bin of its angle;
      outside [0, 180] both are 255. */
  function NeighbourPair(mag: Grid, x: int, y: int, angle: real): (Byte, Byte)
  {
    if (0.0 <= angle < 22.5) || (157.5 <= angle <= 180.0) then (GAt(mag, x + 1, y), GAt(mag, x - 1, y))
    else if 22.5 <= angle < 67.5 then (GAt(mag, x + 1, y - 1), GAt(mag, x - 1, y + 1))
    else if 67.5 <= angle < 112.5 then (GAt(mag, x, y + 1), GAt(mag, x, y - 1))
    else if 112.5 <= angle < 157.5 then (GAt(mag, x - 1, y - 1), GAt(mag, x + 1, y + 1))
    else (255, 255)
  }

  /** The angle bins on byte-valued directions: the half-degree limits fall between
      integers, so every direction lands in exactly one bin. */
  lemma NeighbourBins(mag: Grid, x: int, y: int, d: Byte)
    ensures d <= 22 || 158 <= d <= 180 ==>
      NeighbourPair(mag, x, y, d as real) == (GAt(mag, x + 1, y), GAt(mag, x - 1, y))
    ensures 23 <= d <= 67 ==>
      NeighbourPair(mag, x, y, d as real) == (GAt(mag, x + 1, y - 1), GAt(mag, x - 1, y + 1))
    ensures 68 <= d <= 112 ==>
      NeighbourPair(mag, x, y, d as real) == (GAt(mag, x, y + 1), GAt(mag, x, y - 1))
    ensures 113 <= d <= 157 ==>
      NeighbourPair(mag, x, y, d as real) == (GAt(mag, x - 1, y - 1), GAt(mag, x + 1, y + 1))
    ensures 181 <= d ==> NeighbourPair(mag, x, y, d as real) == (255, 255)
  {
  }

  predicate Interior(w: int, h: int, x: int, y: int)
  {
    1 <= x < w - 1 && 1 <= y < h - 1
  }

  /** Pixel (x, y) of the suppressed image of a `w` x `h` magnitude grid. */
  function SuppressedAt(mag: Grid, dir: Grid, w: int, h: int, x: int, y: int): (v: Byte)
    ensures !Interior(w, h, x, y) ==> v == 0
    ensures v == GAt(mag, x, y) || v == 0
  {
    if Interior(w, h, x, y) then
      var (q, r) := NeighbourPair(mag, x, y, GAt(dir, x, y) as real);
      if GAt(mag, x, y) >= q && GAt(mag, x, y) >= r then GAt(mag, x, y) else 0
    else 0
  }

  /** The border rows and columns are 0; an interior pixel keeps its magnitude exactly
      when that is at least both chosen neighbours, and is 0 otherwise. */
  lemma SuppressionKeepsOrZeroes(mag: Grid, dir: Grid, w: int, h: int, x: int, y: int)
    ensures !Interior(w, h, x, y) ==> SuppressedAt(mag, dir, w, h, x, y) == 0
    ensures SuppressedAt(mag, dir, w, h, x, y) == GAt(mag, x, y) || SuppressedAt(mag, dir, w, h, x, y) == 0
    ensures Interior(w, h, x, y) && GAt(mag, x, y) != 0 ==>
      var (q, r) := NeighbourPair(mag, x, y, GAt(dir, x, y) as real);
      (SuppressedAt(mag, dir, w, h, x, y) == GAt(mag, x, y) <==> GAt(mag, x, y) >= q && GAt(mag, x, y) >= r)
  {
  }

  /** A direction above 180 compares against 255 on both sides: only a full-strength
      magnitude survives. */
  lemma SuppressionOutOfRangeAngle(mag: Grid, dir: Grid, w: int, h: int, x: int, y: int)
    requires Interior(w, h, x, y) && GAt(dir, x, y) > 180
    ensures SuppressedAt(mag, dir, w, h, x, y) != 0 <==> GAt(mag, x, y) == 255
  {
  }

  /** The body of the pixel loops of `nonMaximumSuppression`, for an interior pixel. */
  method SuppressPixel(magnitude: array2<Byte>, direction: array2<Byte>, x: int, y: int) returns (v: Byte)
    requires Interior(magnitude.Length1, magnitude.Length0, x, y)
    ensures v == SuppressedAt(Pixels(magnitude), Pixels(direction), magnitude.Length1, magnitude.Length0, x, y)
  {
    var angle := At(direction, x, y) as real;
    var q: Byte, r: Byte := 255, 255;
    if (0.0 <= angle < 22.5) || (157.5 <= angle <= 180.0) {
      q, r := At(magnitude, x + 1, y), At(magnitude, x - 1, y);
    } else if 22.5 <= angle < 67.5 {
      q, r := At(magnitude, x + 1, y - 1), At(magnitude, x - 1, y + 1);
    } else if 67.5 <= angle < 112.5 {
      q, r := At(magnitude, x, y + 1), At(magnitude, x, y - 1);
    } else if 112.5 <= angle < 157.5 {
      q, r := At(magnitude, x - 1, y - 1), At(magnitude, x + 1, y + 1);
    }
    if At(magnitude, x, y) >= q && At(magnitude, x, y) >= r {
      v := At(magnitude, x, y);
    } else {
      v := 0;
    }
  }

  /** `nonMaximumSuppression`: a fresh image of the magnitude's bounds. */
  method NonMaximumSuppression(magnitude: array2<Byte>, direction: array2<Byte>) returns (suppressed: array2<Byte>)
    ensures fresh(suppressed)
    ensures suppressed.Length0 == magnitude.Length0 && suppressed.Length1 == magnitude.Length1
    ensures forall y, x :: 0 <= y < suppressed.Length0 && 0 <= x < suppressed.Length1 ==>
      suppressed[y, x] == SuppressedAt(Pixels(magnitude), Pixels(direction), magnitude.Length1, magnitude.Length0, x, y)
  {
    ghost var mag, dir := Pixels(magnitude), Pixels(direction);
    var w, h := magnitude.Length1, magnitude.Length0;
    suppressed := new Byte[h, w]((_, _) => 0);
    var y := 1;
    while y < h - 1
      modifies suppressed
      invariant 1 <= y && (y <= h - 1 || y == 1)
      invariant forall yy, xx :: 0 <= yy < h && 0 <= xx < w ==>
        suppressed[yy, xx] == if yy < y then SuppressedAt(mag, dir, w, h, xx, yy) else 0
    {
      var x := 1;
      while x < w - 1
        modifies suppressed
        invariant 1 <= x && (x <= w - 1 || x == 1)
        invariant forall yy, xx :: 0 <= yy < h && 0 <= xx < w ==>
          suppressed[yy, xx] == if yy < y || (yy == y && xx < x) then SuppressedAt(mag, dir, w, h, xx, yy) else 0
      {
        var v := SuppressPixel(magnitude, direction, x, y);
        suppressed[y, x] := v;
        x := x + 1;
      }
      y := y + 1;
    }
  }

  // ---------------------------------------------------------------------------------
  // Double threshold

  /** `doubleThreshold` on one pixel: strong (255) from `high` up, weak (128) from
      `low` up, 0 below both. */
  function ThresholdAt(v: Byte, low: real, high: real): (t: Byte)
    ensures t == 255 <==> v as real >= high
    ensures t == 128 <==> low <= v as real < high
    ensures t == 0 <==> v as real < low && v as real < high
  {
    if v as real >= high then 255
    else if v as real >= low then 128
    else 0
  }

  /** Thresholding is monotone: a brighter input never gets a lower class. */
  lemma ThresholdMonotone(v1: Byte, v2: Byte, low: real, high: real)
    requires v1 <= v2
    ensures ThresholdAt(v1, low, high) <= ThresholdAt(v2, low, high)
  {
  }

  /** `doubleThreshold`: every pixel, the border included, is classified. */
  method DoubleThreshold(img: array2<Byte>, low: real, high: real) returns (result: array2<Byte>)
    ensures fresh(result) && result.Length0 == img.Length0 && result.Length1 == img.Length1
    ensures forall y, x :: 0 <= y < result.Length0 && 0 <= x < result.Length1 ==>
      result[y, x] == ThresholdAt(img[y, x], low, high)
  {
    var w, h := img.Length1, img.Length0;
    result := new Byte[h, w]((_, _) => 0);
    var y := 0;
    while y < h
      modifies result
      invariant 0 <= y <= h
      invariant forall yy, xx :: 0 <= yy < y && 0 <= xx < w ==> result[yy, xx] == ThresholdAt(img[yy, xx], low, high)
    {
      var x := 0;
      while x < w
        modifies result
        invariant 0 <= x <= w
        invariant forall yy, xx :: 0 <= yy < y && 0 <= xx < w ==> result[yy, xx] == ThresholdAt(img[yy, xx], low, high)
        invariant forall xx :: 0 <= xx < x ==> result[y, xx] == ThresholdAt(img[y, xx], low, high)
      {
        var pixel := img[y, x];
        if pixel as real >= high {
          result[y, x] := 255;
        } else if pixel as real >= low {
          result[y, x] := 128;
        } else {
          result[y, x] := 0;
        }
        x := x + 1;
      }
      y := y + 1;
    }
  }

  // ---------------------------------------------------------------------------------
  // Strong neighbourhoods

  /** Some pixel of the 3x3 block around (x, y), itself included, is strong. */
  predicate StrongAt(g: Grid, x: int, y: int)
  {
    exists j, i :: y - 1 <= j <= y + 1 && x - 1 <= i <= x + 1 && GAt(g, i, j) == 255
  }

  /** `isStrongEdge`: the block scan with its early return. */
  method IsStrongEdge(img: array2<Byte>, x: int, y: int) returns (b: bool)
    ensures b <==> StrongAt(Pixels(img), x, y)
  {
    ghost var g := Pixels(img);
    var j := -1;
    while j <= 1
      invariant -1 <= j <= 2
      invariant forall jj, ii :: y - 1 <= jj < y + j && x - 1 <= ii <= x + 1 ==> GAt(g, ii, jj) != 255
    {
      var i := -1;
      while i <= 1
        invariant -1 <= i <= 2
        invariant forall jj, ii :: y - 1 <= jj < y + j && x - 1 <= ii <= x + 1 ==> GAt(g, ii, jj) != 255
        invariant forall jj, ii :: jj == y + j && x - 1 <= ii < x + i ==> GAt(g, ii, jj) != 255
      {
        if At(img, x + i, y + j) == 255 {
          return true;
        }
        i := i + 1;
      }
      j := j + 1;
    }
    return false;
  }

  // ---------------------------------------------------------------------------------
  // Weak components

  /** A weak pixel (128 after thresholding); 0 outside the image is never weak. */
  predicate Weak(g: Grid, c: Point)
  {
    GAt(g, c.x, c.y) == 128
  }

  /** One of the 8 neighbours of `a`, or `a` itself. */
  predicate Adjacent(a: Point, b: Point)
  {
    -1 <= a.x - b.x <= 1 && -1 <= a.y - b.y <= 1
  }

  /** A chain of weak pixels, each a neighbour of the one before. */
  predicate WeakPath(g: Grid, path: seq<Point>)
  {
    |path| >= 1 &&
    (forall k :: 0 <= k < |path| ==> Weak(g, path[k])) &&
    (forall k :: 0 <= k < |path| - 1 ==> Adjacent(path[k], path[k + 1]))
  }

  /** `b` is reached from `a` through weak pixels: both lie in one 8-connected weak
      component. */
  ghost predicate Connected(g: Grid, a: Point, b: Point)
  {
    exists path :: WeakPath(g, path) && path[0] == a && path[|path| - 1] == b
  }

  lemma ConnectedEnds(g: Grid, a: Point, b: Point)
    requires Connected(g, a, b)
    ensures Weak(g, a) && Weak(g, b)
  {
    var path :| WeakPath(g, path) && path[0] == a && path[|path| - 1] == b;
    assert Weak(g, path[0]) && Weak(g, path[|path| - 1]);
  }

  lemma ConnectedSelf(g: Grid, a: Point)
    requires Weak(g, a)
    ensures Connected(g, a, a)
  {
    assert WeakPath(g, [a]);
  }

  /** A component grows by a weak neighbour. */
  lemma ConnectedStep(g: Grid, a: Point, b: Point, c: Point)
    requires Connected(g, a, b) && Adjacent(b, c) && Weak(g, c)
    ensures Connected(g, a, c)
  {
    var path :| WeakPath(g, path) && path[0] == a && path[|path| - 1] == b;
    var path' := path + [c];
    assert forall k :: 0 <= k < |path| ==> path'[k] == path[k];
    assert WeakPath(g, path');
  }

  /** Adjacency is symmetric, so a path read backwards is a path. */
  lemma ConnectedSymmetric(g: Grid, a: Point, b: Point)
    requires Connected(g, a, b)
    ensures Connected(g, b, a)
  {
    var path :| WeakPath(g, path) && path[0] == a && path[|path| - 1] == b;
    var n := |path|;
    var rev := seq(n, (k: int) requires 0 <= k < n => path[n - 1 - k]);
    forall k | 0 <= k < n - 1
      ensures Adjacent(rev[k], rev[k + 1])
    {
      assert Adjacent(path[n - 2 - k], path[n - 1 - k]);
    }
    assert WeakPath(g, rev);
    assert rev[0] == b && rev[n - 1] == a;
  }

  lemma ConnectedTransitive(g: Grid, a: Point, b: Point, c: Point)
    requires Connected(g, a, b) && Connected(g, b, c)
    ensures Connected(g, a, c)
  {
    var p1 :| WeakPath(g, p1) && p1[0] == a && p1[|p1| - 1] == b;
    var p2 :| WeakPath(g, p2) && p2[0] == b && p2[|p2| - 1] == c;
    var path := p1 + p2[1..];
    assert forall k :: 0 <= k < |p1| ==> path[k] == p1[k];
    assert forall k :: |p1| <= k < |path| ==> path[k] == p2[k - |p1| + 1];
    assert WeakPath(g, path);
  }

  /** Pixels that are weak in `g1` are weak in `g2`: `g1`'s components lie inside
      `g2`'s. */
  lemma ConnectedMonotone(g1: Grid, g2: Grid, a: Point, b: Point)
    requires forall c :: Weak(g1, c) ==> Weak(g2, c)
    requires Connected(g1, a, b)
    ensures Connected(g2, a, b)
  {
    var path :| WeakPath(g1, path) && path[0] == a && path[|path| - 1] == b;
    assert WeakPath(g2, path);
  }

  /** A set of pixels that holds `a` and every weak neighbour of its members holds the
      whole component of `a`. */
  lemma {:induction false} ClosedHoldsComponent(g: Grid, inSet: Point -> bool, a: Point, b: Point)
    requires inSet(a)
    requires forall z, c :: inSet(z) && Adjacent(z, c) && Weak(g, c) ==> inSet(c)
    requires Connected(g, a, b)
    ensures inSet(b)
  {
    var path :| WeakPath(g, path) && path[0] == a && path[|path| - 1] == b;
    var k := 0;
    while k < |path| - 1
      invariant 0 <= k <= |path| - 1
      invariant inSet(path[k])
    {
      assert Adjacent(path[k], path[k + 1]) && Weak(g, path[k + 1]);
      k := k + 1;
    }
  }

  /** The pixels equal to 128 in a buffer; what `traceEdge` consumes. */
  ghost function WeakCells(g: Grid): set<Point>
  {
    set j, i | 0 <= j < |g| && 0 <= i < |g[j]| && g[j][i] == 128 :: Point(i, j)
  }

  lemma WeakCellsShrink(g1: Grid, g2: Grid, w: int, h: int, p: Point)
    requires IsGrid(g1, w, h) && IsGrid(g2, w, h)
    requires 0 <= p.y < h && 0 <= p.x < w && g1[p.y][p.x] == 128 && g2[p.y][p.x] != 128
    requires forall j, i :: 0 <= j < h && 0 <= i < w && (j != p.y || i != p.x) ==> g2[j][i] == g1[j][i]
    ensures WeakCells(g2) < WeakCells(g1)
  {
    assert p in WeakCells(g1);
    forall q | q in WeakCells(g2)
      ensures q in WeakCells(g1)
    {
      var j, i :| 0 <= j < |g2| && 0 <= i < |g2[j]| && g2[j][i] == 128 && q == Point(i, j);
      assert g1[j][i] == 128;
    }
  }

  /** The weak pixels among the first `n` pixels of row `p.y + j` around `p`, left to
      right from column `p.x - 1`: what one pass of the inner neighbour loop pushes. */
  function RowNeighbours(g: Grid, p: Point, j: int, n: nat): seq<Point>
    requires n <= 3
  {
    if n == 0 then []
    else
      var q := Point(p.x + n - 2, p.y + j);
      RowNeighbours(g, p, j, n - 1) + (if Weak(g, q) then [q] else [])
  }

  /** The weak pixels among the first `r` rows of the 3x3 window around `p`, the pixel
      itself included, in the order `traceEdge` pushes them. */
  function WeakNeighbours(g: Grid, p: Point, r: nat): seq<Point>
    requires r <= 3
  {
    if r == 0 then [] else WeakNeighbours(g, p, r - 1) + RowNeighbours(g, p, r - 2, 3)
  }

  lemma {:induction false} RowNeighboursSound(g: Grid, p: Point, j: int, n: nat)
    requires -1 <= j <= 1 && n <= 3
    ensures |RowNeighbours(g, p, j, n)| <= n
    ensures forall q :: q in RowNeighbours(g, p, j, n) ==> Adjacent(p, q) && Weak(g, q)
  {
    if n > 0 {
      RowNeighboursSound(g, p, j, n - 1);
    }
  }

  /** Every pushed pixel is a weak neighbour. */
  lemma {:induction false} WeakNeighboursSound(g: Grid, p: Point, r: nat)
    requires r <= 3
    ensures |WeakNeighbours(g, p, r)| <= 3 * r
    ensures forall q :: q in WeakNeighbours(g, p, r) ==> Adjacent(p, q) && Weak(g, q)
  {
    if r > 0 {
      WeakNeighboursSound(g, p, r - 1);
      RowNeighboursSound(g, p, r - 2, 3);
    }
  }

  /** Every weak neighbour is pushed. */
  lemma WeakNeighboursComplete(g: Grid, p: Point, q: Point)
    requires Adjacent(p, q) && Weak(g, q)
    ensures q in WeakNeighbours(g, p, 3)
  {
    var j := q.y - p.y;
    var n := q.x - p.x + 2;
    assert q in RowNeighbours(g, p, j, n);
    if n == 1 {
      assert q in RowNeighbours(g, p, j, 2);
    }
    assert q in RowNeighbours(g, p, j, 3);
    assert q in WeakNeighbours(g, p, j + 2);
    if j == -1 {
      assert q in WeakNeighbours(g, p, 2);
    }
    assert j + 2 <= 2 ==> q in WeakNeighbours(g, p, 2);
  }

  /** The inner neighbour loop of `traceEdge`: row `j` of the window around `p`. */
  method PushWeakRow(src: array2<Byte>, p: Point, j: int, s0: seq<Point>) returns (s: seq<Point>)
    ensures s == s0 + RowNeighbours(Pixels(src), p, j, 3)
  {
    ghost var g := Pixels(src);
    s := s0;
    var i := -1;
    while i <= 1
      invariant -1 <= i <= 2
      invariant s == s0 + RowNeighbours(g, p, j, i + 1)
    {
      if At(src, p.x + i, p.y + j) == 128 {
        Associative(s0, RowNeighbours(g, p, j, i + 1), [Point(p.x + i, p.y + j)]);
        s := s + [Point(p.x + i, p.y + j)];
      }
      i := i + 1;
    }
  }

  /** The neighbour loops of `traceEdge`: append the weak neighbours of `p`. */
  method PushWeakNeighbours(src: array2<Byte>, p: Point, stack: seq<Point>) returns (s: seq<Point>)
    ensures s == stack + WeakNeighbours(Pixels(src), p, 3)
  {
    ghost var g := Pixels(src);
    s := stack;
    var j := -1;
    while j <= 1
      invariant -1 <= j <= 2
      invariant s == stack + WeakNeighbours(g, p, j + 1)
    {
      Associative(stack, WeakNeighbours(g, p, j + 1), RowNeighbours(g, p, j, 3));
      s := PushWeakRow(src, p, j, s);
      j := j + 1;
    }
  }

  // The state of `traceEdge`'s loop, on grids: `g0` is the source when the trace
  // started, `g` the source now.

  /** Pixel `c` has been consumed by the trace: it differs from its starting value. */
  ghost predicate Taken(g: Grid, g0: Grid, c: Point)
  {
    GAt(g, c.x, c.y) != GAt(g0, c.x, c.y)
  }

  /** `g` is `before` with pixel `p` set to `v`. */
  ghost predicate SetOnly(before: Grid, g: Grid, p: Point, v: Byte)
  {
    GAt(g, p.x, p.y) == v && forall c :: c != p ==> GAt(g, c.x, c.y) == GAt(before, c.x, c.y)
  }

  /** The loop invariant of `traceEdge`:
      - a consumed pixel was weak, is now 0 and lies in the component of `start`;
      - every pixel on the stack that was weak lies in that component;
      - `start`, when weak, is on the stack or consumed;
      - every weak neighbour of a consumed pixel is on the stack. */
  ghost predicate TraceInv(g: Grid, g0: Grid, start: Point, stack: seq<Point>)
  {
    (forall c :: Taken(g, g0, c) ==> GAt(g, c.x, c.y) == 0 && Weak(g0, c) && Connected(g0, start, c)) &&
    (forall k :: 0 <= k < |stack| && Weak(g0, stack[k]) ==> Connected(g0, start, stack[k])) &&
    (Weak(g0, start) ==> start in stack || Taken(g, g0, start)) &&
    (forall z, c :: Taken(g, g0, z) && Adjacent(z, c) && Weak(g, c) ==> c in stack)
  }

  lemma TraceInvInit(g0: Grid, start: Point)
    ensures TraceInv(g0, g0, start, [start])
  {
    if Weak(g0, start) {
      ConnectedSelf(g0, start);
    }
  }

  lemma PopSplits(stack: seq<Point>)
    requires |stack| > 0
    ensures stack[..|stack| - 1] + [stack[|stack| - 1]] == stack
  {
  }

  /** A popped pixel that is not weak any more is dropped. */
  lemma TraceInvSkip(g: Grid, g0: Grid, start: Point, rest: seq<Point>, p: Point)
    requires TraceInv(g, g0, start, rest + [p])
    requires !Weak(g, p)
    ensures TraceInv(g, g0, start, rest)
  {
    var stack := rest + [p];
    forall k | 0 <= k < |rest| && Weak(g0, rest[k])
      ensures Connected(g0, start, rest[k])
    {
      assert rest[k] == stack[k];
    }
    if Weak(g0, start) && start == p {
      assert Taken(g, g0, start);
    }
    forall z, c | Taken(g, g0, z) && Adjacent(z, c) && Weak(g, c)
      ensures c in rest
    {
      assert c in stack && c != p;
    }
  }

  /** A popped weak pixel is consumed and its weak neighbours are pushed. */
  lemma TraceInvConsume(before: Grid, g: Grid, g0: Grid, start: Point, rest: seq<Point>, p: Point,
                        pushed: seq<Point>)
    requires TraceInv(before, g0, start, rest + [p])
    requires Weak(before, p) && SetOnly(before, g, p, 0)
    requires forall q :: q in pushed ==> Adjacent(p, q) && Weak(g, q)
    requires forall q :: Adjacent(p, q) && Weak(g, q) ==> q in pushed
    ensures TraceInv(g, g0, start, rest + pushed)
  {
    var stack := rest + [p];
    var stack' := rest + pushed;
    assert stack[|rest|] == p;
    assert !Taken(before, g0, p);
    assert Connected(g0, start, p);
    assert Taken(g, g0, p);
    forall c | Taken(g, g0, c)
      ensures GAt(g, c.x, c.y) == 0 && Weak(g0, c) && Connected(g0, start, c)
    {
      if c != p {
        assert Taken(before, g0, c);
      }
    }
    forall k | 0 <= k < |stack'| && Weak(g0, stack'[k])
      ensures Connected(g0, start, stack'[k])
    {
      if k < |rest| {
        assert stack'[k] == stack[k];
      } else {
        var q := stack'[k];
        assert q in pushed;
        ConnectedStep(g0, start, p, q);
      }
    }
    if Weak(g0, start) && start != p && !Taken(g, g0, start) {
      assert start in rest;
    }
    forall z, c | Taken(g, g0, z) && Adjacent(z, c) && Weak(g, c)
      ensures c in stack'
    {
      if z == p {
        assert c in pushed;
      } else {
        assert Taken(before, g0, z) && c != p && Weak(before, c);
        assert c in stack;
        assert c in rest;
      }
    }
  }

  /** When the stack is empty the consumed pixels are exactly the component of `start`. */
  lemma TraceInvDone(g: Grid, g0: Grid, start: Point)
    requires TraceInv(g, g0, start, [])
    ensures forall c :: Taken(g, g0, c) <==> Connected(g0, start, c)
    ensures forall c :: Taken(g, g0, c) ==> GAt(g, c.x, c.y) == 0
  {
    forall c | Connected(g0, start, c)
      ensures Taken(g, g0, c)
    {
      ConnectedEnds(g0, start, c);
      forall z, n | Taken(g, g0, z) && Adjacent(z, n) && Weak(g0, n)
        ensures Taken(g, g0, n)
      {
        if !Taken(g, g0, n) {
          assert Weak(g, n);
        }
      }
      ClosedHoldsComponent(g0, (q: Point) => Taken(g, g0, q), start, c);
    }
  }

  /** `dst` holds 255 on the consumed pixels and its starting value `d0` elsewhere. */
  ghost predicate Marked(dst: array2<Byte>, g: Grid, g0: Grid, d0: Grid)
    reads dst
  {
    IsGrid(d0, dst.Length1, dst.Length0) &&
    forall j, i :: 0 <= j < dst.Length0 && 0 <= i < dst.Length1 ==>
      dst[j, i] == if Taken(g, g0, Point(i, j)) then 255 else d0[j][i]
  }

  /** The body of `traceEdge`'s loop for a popped pixel that is still weak. */
  method ConsumePixel(src: array2<Byte>, dst: array2<Byte>, p: Point, rest: seq<Point>,
                      ghost g0: Grid, ghost d0: Grid, ghost start: Point)
    returns (stack': seq<Point>)
    requires src != dst && At(src, p.x, p.y) == 128
    requires TraceInv(Pixels(src), g0, start, rest + [p])
    requires Marked(dst, Pixels(src), g0, d0)
    modifies src, dst
    ensures TraceInv(Pixels(src), g0, start, stack')
    ensures Marked(dst, Pixels(src), g0, d0)
    ensures WeakCells(Pixels(src)) < old(WeakCells(Pixels(src)))
  {
    ghost var before := Pixels(src);
    Set(dst, p.x, p.y, 255);
    Set(src, p.x, p.y, 0);
    ghost var g := Pixels(src);
    forall c | c != p
      ensures GAt(g, c.x, c.y) == GAt(before, c.x, c.y)
    {
    }
    WeakCellsShrink(before, g, src.Length1, src.Length0, p);
    stack' := PushWeakNeighbours(src, p, rest);
    WeakNeighboursSound(g, p, 3);
    forall q | Adjacent(p, q) && Weak(g, q)
      ensures q in WeakNeighbours(g, p, 3)
    {
      WeakNeighboursComplete(g, p, q);
    }
    TraceInvConsume(before, g, g0, start, rest, p, WeakNeighbours(g, p, 3));
    forall j, i | 0 <= j < dst.Length0 && 0 <= i < dst.Length1
      ensures dst[j, i] == if Taken(g, g0, Point(i, j)) then 255 else d0[j][i]
    {
      if Point(i, j) != p {
        assert Taken(g, g0, Point(i, j)) == Taken(before, g0, Point(i, j));
      }
    }
  }

  /** One iteration of `traceEdge`'s loop: pop a pixel; when it is still weak, mark it
      in `dst`, consume it in `src` and push its weak neighbours. Either fewer pixels are
      weak afterwards, or nothing changed but the stack got shorter. */
  method TraceStep(src: array2<Byte>, dst: array2<Byte>, stack: seq<Point>,
                   ghost g0: Grid, ghost d0: Grid, ghost start: Point)
    returns (stack': seq<Point>)
    requires src != dst && |stack| > 0
    requires TraceInv(Pixels(src), g0, start, stack)
    requires Marked(dst, Pixels(src), g0, d0)
    modifies src, dst
    ensures TraceInv(Pixels(src), g0, start, stack')
    ensures Marked(dst, Pixels(src), g0, d0)
    ensures WeakCells(Pixels(src)) < old(WeakCells(Pixels(src))) ||
      (Pixels(src) == old(Pixels(src)) && |stack'| < |stack|)
  {
    var p := stack[|stack| - 1];
    stack' := stack[..|stack| - 1];
    PopSplits(stack);
    if At(src, p.x, p.y) == 128 {
      stack' := ConsumePixel(src, dst, p, stack', g0, d0, start);
    } else {
      TraceInvSkip(Pixels(src), g0, start, stack', p);
    }
  }

  /** `traceEdge`: a flood fill with an explicit stack. Every pixel of the weak
      component of the start is set to 255 in `dst` and consumed (set to 0) in `src`;
      nothing else changes in either. From a pixel that is not weak nothing happens. */
  method TraceEdge(src: array2<Byte>, dst: array2<Byte>, x: int, y: int)
    requires src != dst
    modifies src, dst
    ensures forall j, i :: 0 <= j < src.Length0 && 0 <= i < src.Length1 ==>
      src[j, i] == if Connected(old(Pixels(src)), Point(x, y), Point(i, j)) then 0 else old(src[j, i])
    ensures forall j, i :: 0 <= j < dst.Length0 && 0 <= i < dst.Length1 ==>
      dst[j, i] == if Connected(old(Pixels(src)), Point(x, y), Point(i, j)) then 255 else old(dst[j, i])
  {
    ghost var g0 := Pixels(src);
    ghost var d0 := Pixels(dst);
    ghost var start := Point(x, y);
    var stack := [Point(x, y)];
    TraceInvInit(g0, start);
    while |stack| > 0
      invariant TraceInv(Pixels(src), g0, start, stack)
      invariant Marked(dst, Pixels(src), g0, d0)
      decreases WeakCells(Pixels(src)), |stack|
    {
      stack := TraceStep(src, dst, stack, g0, d0, start);
    }
    ghost var g1 := Pixels(src);
    TraceInvDone(g1, g0, start);
  }

  // ---------------------------------------------------------------------------------
  // Edge tracking by hysteresis

  /** A seed of the hysteresis scan: an interior weak pixel next to a strong one. */
  predicate Seed(g: Grid, w: int, h: int, s: Point)
  {
    Interior(w, h, s.x, s.y) && Weak(g, s) && StrongAt(g, s.x, s.y)
  }

  /** Row-major scan order: `s` is visited before (x, y). */
  predicate Before(s: Point, x: int, y: int)
  {
    s.y < y || (s.y == y && s.x < x)
  }

  /** Pixel `c` is promoted by a seed the scan visits before (x, y). */
  ghost predicate PromotedBefore(g0: Grid, w: int, h: int, x: int, y: int, c: Point)
  {
    exists s :: Seed(g0, w, h, s) && Before(s, x, y) && Connected(g0, s, c)
  }

  /** The result of hysteresis: the weak pixels 8-connected to a seed. */
  ghost predicate Promoted(g0: Grid, w: int, h: int, c: Point)
  {
    exists s :: Seed(g0, w, h, s) && Connected(g0, s, c)
  }

  /** The state of the scan before (x, y): the images are the start image `g0` with
      every component promoted so far consumed (0) in `gi` and set (255) in `gr`. */
  ghost predicate ScanState(gi: Grid, gr: Grid, g0: Grid, w: int, h: int, x: int, y: int)
  {
    IsGrid(gi, w, h) && IsGrid(gr, w, h) &&
    (forall c: Point :: GAt(gi, c.x, c.y) == if PromotedBefore(g0, w, h, x, y, c) then 0 else GAt(g0, c.x, c.y)) &&
    (forall c: Point :: GAt(gr, c.x, c.y) == if PromotedBefore(g0, w, h, x, y, c) then 255 else 0)
  }

  lemma ScanStart(g0: Grid, gr: Grid, w: int, h: int)
    requires IsGrid(g0, w, h) && IsGrid(gr, w, h)
    requires forall j, i :: 0 <= j < h && 0 <= i < w ==> gr[j][i] == 0
    ensures ScanState(g0, gr, g0, w, h, 1, 1)
  {
    forall c: Point
      ensures !PromotedBefore(g0, w, h, 1, 1, c)
    {
    }
  }

  /** The end of a row of the scan is the start of the next. */
  lemma ScanNextRow(gi: Grid, gr: Grid, g0: Grid, w: int, h: int, y: int)
    requires ScanState(gi, gr, g0, w, h, w - 1, y)
    ensures ScanState(gi, gr, g0, w, h, 1, y + 1)
  {
    var last, next := w - 1, y + 1;
    forall c: Point
      ensures PromotedBefore(g0, w, h, last, y, c) == PromotedBefore(g0, w, h, 1, next, c)
    {
      if PromotedBefore(g0, w, h, last, y, c) {
        var s :| Seed(g0, w, h, s) && Before(s, last, y) && Connected(g0, s, c);
        assert Before(s, 1, next);
      }
      if PromotedBefore(g0, w, h, 1, next, c) {
        var s :| Seed(g0, w, h, s) && Before(s, 1, next) && Connected(g0, s, c);
        assert Before(s, last, y);
      }
    }
  }

  /** After the last interior row every seed has been visited. */
  lemma ScanDone(gi: Grid, gr: Grid, g0: Grid, w: int, h: int, y: int)
    requires ScanState(gi, gr, g0, w, h, 1, y) && y >= h - 1
    ensures forall c: Point :: GAt(gi, c.x, c.y) == if Promoted(g0, w, h, c) then 0 else GAt(g0, c.x, c.y)
    ensures forall c: Point :: GAt(gr, c.x, c.y) == if Promoted(g0, w, h, c) then 255 else 0
  {
    forall c: Point
      ensures PromotedBefore(g0, w, h, 1, y, c) == Promoted(g0, w, h, c)
    {
      if Promoted(g0, w, h, c) {
        var s :| Seed(g0, w, h, s) && Connected(g0, s, c);
        assert Before(s, 1, y);
      }
    }
  }

  /** Weak pixels are weak in the start image and not promoted yet; strong pixels are
      the start image's. */
  lemma ScanStateWeakStrong(gi: Grid, gr: Grid, g0: Grid, w: int, h: int, x: int, y: int, c: Point)
    requires ScanState(gi, gr, g0, w, h, x, y)
    ensures Weak(gi, c) <==> Weak(g0, c) && !PromotedBefore(g0, w, h, x, y, c)
    ensures GAt(gi, c.x, c.y) == 255 <==> GAt(g0, c.x, c.y) == 255
  {
    if PromotedBefore(g0, w, h, x, y, c) {
      var s :| Seed(g0, w, h, s) && Before(s, x, y) && Connected(g0, s, c);
      ConnectedEnds(g0, s, c);
    }
  }

  lemma StrongUnchanged(gi: Grid, gr: Grid, g0: Grid, w: int, h: int, x: int, y: int, sx: int, sy: int)
    requires ScanState(gi, gr, g0, w, h, x, y)
    ensures StrongAt(gi, sx, sy) <==> StrongAt(g0, sx, sy)
  {
    forall j, i
      ensures GAt(gi, i, j) == 255 <==> GAt(g0, i, j) == 255
    {
      ScanStateWeakStrong(gi, gr, g0, w, h, x, y, Point(i, j));
    }
  }

  /** Promoted pixels form whole components: a pixel connected to a promoted one is
      promoted. */
  lemma PromotedClosed(g0: Grid, w: int, h: int, x: int, y: int, a: Point, b: Point)
    requires PromotedBefore(g0, w, h, x, y, a) && Connected(g0, a, b)
    ensures PromotedBefore(g0, w, h, x, y, b)
  {
    var s :| Seed(g0, w, h, s) && Before(s, x, y) && Connected(g0, s, a);
    ConnectedTransitive(g0, s, a, b);
  }

  /** In `g0` a path from `s` runs through pixels connected to `s` only. */
  lemma {:induction false} ConnectedWithin(g0: Grid, g: Grid, s: Point, c: Point)
    requires forall q :: Connected(g0, s, q) ==> Weak(g, q)
    requires Connected(g0, s, c)
    ensures Connected(g, s, c)
  {
    var path :| WeakPath(g0, path) && path[0] == s && path[|path| - 1] == c;
    forall k | 0 <= k < |path|
      ensures Weak(g, path[k])
    {
      var prefix := path[..k + 1];
      assert WeakPath(g0, prefix);
      assert Connected(g0, s, path[k]);
    }
    assert WeakPath(g, path);
  }

  /** A seed that is still weak has the same component now as in the start image. */
  lemma ComponentSurvives(gi: Grid, gr: Grid, g0: Grid, w: int, h: int, x: int, y: int, s: Point, c: Point)
    requires ScanState(gi, gr, g0, w, h, x, y) && Weak(gi, s)
    ensures Connected(gi, s, c) <==> Connected(g0, s, c)
  {
    ScanStateWeakStrong(gi, gr, g0, w, h, x, y, s);
    if Connected(gi, s, c) {
      forall q | Weak(gi, q)
        ensures Weak(g0, q)
      {
        ScanStateWeakStrong(gi, gr, g0, w, h, x, y, q);
      }
      ConnectedMonotone(gi, g0, s, c);
    }
    if Connected(g0, s, c) {
      forall q | Connected(g0, s, q)
        ensures Weak(gi, q)
      {
        ConnectedEnds(g0, s, q);
        ScanStateWeakStrong(gi, gr, g0, w, h, x, y, q);
        if PromotedBefore(g0, w, h, x, y, q) {
          ConnectedSymmetric(g0, s, q);
          PromotedClosed(g0, w, h, x, y, q, s);
        }
      }
      ConnectedWithin(g0, gi, s, c);
    }
  }

  /** One pixel of the scan: a weak pixel with a strong neighbour starts a trace; any
      other pixel changes nothing. Either way the state moves past (x, y). */
  lemma ScanStep(gi: Grid, gr: Grid, gi': Grid, gr': Grid, g0: Grid, w: int, h: int, x: int, y: int)
    requires ScanState(gi, gr, g0, w, h, x, y) && Interior(w, h, x, y)
    requires IsGrid(gi', w, h) && IsGrid(gr', w, h)
    requires Weak(gi, Point(x, y)) && StrongAt(gi, x, y) ==>
      (forall c: Point :: GAt(gi', c.x, c.y) == if Connected(gi, Point(x, y), c) then 0 else GAt(gi, c.x, c.y)) &&
      (forall c: Point :: GAt(gr', c.x, c.y) == if Connected(gi, Point(x, y), c) then 255 else GAt(gr, c.x, c.y))
    requires !(Weak(gi, Point(x, y)) && StrongAt(gi, x, y)) ==> gi' == gi && gr' == gr
    ensures ScanState(gi', gr', g0, w, h, x + 1, y)
  {
    var s := Point(x, y);
    StrongUnchanged(gi, gr, g0, w, h, x, y, x, y);
    ScanStateWeakStrong(gi, gr, g0, w, h, x, y, s);
    forall c: Point
      ensures PromotedBefore(g0, w, h, x + 1, y, c) ==
        (PromotedBefore(g0, w, h, x, y, c) || (Seed(g0, w, h, s) && Connected(g0, s, c)))
    {
      if PromotedBefore(g0, w, h, x + 1, y, c) {
        var t :| Seed(g0, w, h, t) && Before(t, x + 1, y) && Connected(g0, t, c);
        if t != s {
          assert Before(t, x, y);
        }
      }
      if PromotedBefore(g0, w, h, x, y, c) {
        var t :| Seed(g0, w, h, t) && Before(t, x, y) && Connected(g0, t, c);
        assert Before(t, x + 1, y);
      }
      if Seed(g0, w, h, s) && Connected(g0, s, c) {
        assert Before(s, x + 1, y);
      }
    }
    if Weak(gi, s) && StrongAt(gi, x, y) {
      forall c: Point
        ensures Connected(gi, s, c) <==> Connected(g0, s, c)
      {
        ComponentSurvives(gi, gr, g0, w, h, x, y, s, c);
      }
    } else if Seed(g0, w, h, s) {
      forall c | Connected(g0, s, c)
        ensures PromotedBefore(g0, w, h, x, y, c)
      {
        PromotedClosed(g0, w, h, x, y, s, c);
      }
    }
  }

  /** The body of the scan loops of `edgeTrackingByHysteresis` at an interior pixel. */
  method ScanPixel(img: array2<Byte>, result: array2<Byte>, x: int, y: int, ghost g0: Grid)
    requires img != result
    requires ScanState(Pixels(img), Pixels(result), g0, img.Length1, img.Length0, x, y)
    requires Interior(img.Length1, img.Length0, x, y)
    modifies img, result
    ensures ScanState(Pixels(img), Pixels(result), g0, img.Length1, img.Length0, x + 1, y)
  {
    ghost var gi, gr := Pixels(img), Pixels(result);
    if At(img, x, y) == 128 {
      var strong := IsStrongEdge(img, x, y);
      if strong {
        TraceEdge(img, result, x, y);
        forall c: Point
          ensures GAt(Pixels(img), c.x, c.y) == if Connected(gi, Point(x, y), c) then 0 else GAt(gi, c.x, c.y)
          ensures GAt(Pixels(result), c.x, c.y) == if Connected(gi, Point(x, y), c) then 255 else GAt(gr, c.x, c.y)
        {
          if Connected(gi, Point(x, y), c) {
            ConnectedEnds(gi, Point(x, y), c);
          }
        }
      }
    }
    ScanStep(gi, gr, Pixels(img), Pixels(result), g0, img.Length1, img.Length0, x, y);
  }

  /** The inner scan loop of `edgeTrackingByHysteresis`: interior row `y`. */
  method ScanRow(img: array2<Byte>, result: array2<Byte>, y: int, ghost g0: Grid)
    requires img != result && 1 <= y < img.Length0 - 1
    requires ScanState(Pixels(img), Pixels(result), g0, img.Length1, img.Length0, 1, y)
    modifies img, result
    ensures ScanState(Pixels(img), Pixels(result), g0, img.Length1, img.Length0, 1, y + 1)
  {
    var w, h := img.Length1, img.Length0;
    var x := 1;
    while x < w - 1
      invariant 1 <= x && (x <= w - 1 || x == 1)
      invariant ScanState(Pixels(img), Pixels(result), g0, w, h, x, y)
    {
      ScanPixel(img, result, x, y, g0);
      x := x + 1;
    }
    ScanNextRow(Pixels(img), Pixels(result), g0, w, h, y);
  }

  /** `edgeTrackingByHysteresis`, with the goroutines run one after another in scan
      order: on a fresh zero image, every interior weak pixel that still is weak when
      the scan reaches it, and has a strong neighbour, is traced. The result is 255
      exactly on the weak pixels connected to a seed; the seeds' consumed pixels are 0
      in `img` afterwards. */
  method EdgeTrackingByHysteresis(img: array2<Byte>) returns (result: array2<Byte>)
    modifies img
    ensures fresh(result) && result.Length0 == img.Length0 && result.Length1 == img.Length1
    ensures forall j, i :: 0 <= j < result.Length0 && 0 <= i < result.Length1 ==>
      result[j, i] == if Promoted(old(Pixels(img)), img.Length1, img.Length0, Point(i, j)) then 255 else 0
    ensures forall j, i :: 0 <= j < img.Length0 && 0 <= i < img.Length1 ==>
      img[j, i] == if Promoted(old(Pixels(img)), img.Length1, img.Length0, Point(i, j)) then 0 else old(img[j, i])
  {
    ghost var g0 := Pixels(img);
    var w, h := img.Length1, img.Length0;
    result := new Byte[h, w]((_, _) => 0);
    ScanStart(g0, Pixels(result), w, h);
    var y := 1;
    while y < h - 1
      modifies img, result
      invariant 1 <= y && (y <= h - 1 || y == 1)
      invariant ScanState(Pixels(img), Pixels(result), g0, w, h, 1, y)
    {
      ScanRow(img, result, y, g0);
      y := y + 1;
    }
    ScanDone(Pixels(img), Pixels(result), g0, w, h, y);
    forall j, i | 0 <= j < h && 0 <= i < w
      ensures result[j, i] == if Promoted(g0, w, h, Point(i, j)) then 255 else 0
      ensures img[j, i] == if Promoted(g0, w, h, Point(i, j)) then 0 else g0[j][i]
    {
      assert GAt(Pixels(result), i, j) == result[j, i];
      assert GAt(Pixels(img), i, j) == img[j, i];
    }
  }

  /** Only weak pixels are promoted: a strong input pixel is never copied to the
      result, and neither is a 0. */
  lemma PromotedOnlyWeak(g0: Grid, w: int, h: int, c: Point)
    requires Promoted(g0, w, h, c)
    ensures Weak(g0, c)
    ensures GAt(g0, c.x, c.y) != 255
  {
    var s :| Seed(g0, w, h, s) && Connected(g0, s, c);
    ConnectedEnds(g0, s, c);
  }

  /** Every seed is promoted, and with it its whole weak component. */
  lemma SeedComponentPromoted(g0: Grid, w: int, h: int, s: Point, c: Point)
    requires Seed(g0, w, h, s) && Connected(g0, s, c)
    ensures Promoted(g0, w, h, s) && Promoted(g0, w, h, c)
  {
    ConnectedSelf(g0, s);
  }

  /** An image without a weak pixel, such as the output of hysteresis itself, promotes
      nothing: running the stage again on its own output adds no pixel. */
  lemma NoWeakNoEdges(g0: Grid, w: int, h: int)
    requires forall j, i :: 0 <= j < |g0| && 0 <= i < |g0[j]| ==> g0[j][i] != 128
    ensures forall c: Point :: !Promoted(g0, w, h, c)
  {
    forall c: Point | Promoted(g0, w, h, c)
      ensures false
    {
      PromotedOnlyWeak(g0, w, h, c);
    }
  }

  // ---------------------------------------------------------------------------------
  // The back half of `CannyEdgeDetection`

  /** The thresholded suppressed gradient that hysteresis starts from. */
  ghost function Thresholded(mag: Grid, dir: Grid, w: nat, h: nat, low: real, high: real): (g: Grid)
    ensures IsGrid(g, w, h)
    ensures forall j, i :: 0 <= j < h && 0 <= i < w ==>
      g[j][i] == ThresholdAt(SuppressedAt(mag, dir, w, h, i, j), low, high)
  {
    seq(h, (j: int) => seq(w, (i: int) => ThresholdAt(SuppressedAt(mag, dir, w, h, i, j), low, high)))
  }

  /** `CannyEdgeDetection` from the gradient on: suppression, thresholding and
      hysteresis, in that order. */
  method CannyFromGradient(magnitude: array2<Byte>, direction: array2<Byte>, low: real, high: real)
    returns (edges: array2<Byte>)
    ensures fresh(edges) && edges.Length0 == magnitude.Length0 && edges.Length1 == magnitude.Length1
    ensures forall j, i :: 0 <= j < edges.Length0 && 0 <= i < edges.Length1 ==>
      edges[j, i] == if Promoted(Thresholded(Pixels(magnitude), Pixels(direction), magnitude.Length1,
                                             magnitude.Length0, low, high),
                                 magnitude.Length1, magnitude.Length0, Point(i, j)) then 255 else 0
  {
    ghost var t := Thresholded(Pixels(magnitude), Pixels(direction), magnitude.Length1, magnitude.Length0, low, high);
    var suppressed := NonMaximumSuppression(magnitude, direction);
    var thresholded := DoubleThreshold(suppressed, low, high);
    GridExt(Pixels(thresholded), t, magnitude.Length1, magnitude.Length0);
    edges := EdgeTrackingByHysteresis(thresholded);
  }

  /** A Canny edge lies where the suppressed magnitude is at least `low` and below
      `high`: the strong pixels themselves are not edges of the result. */
  lemma CannyEdgesAreWeak(mag: Grid, dir: Grid, w: nat, h: nat, low: real, high: real, c: Point)
    requires Promoted(Thresholded(mag, dir, w, h, low, high), w, h, c)
    ensures 0 <= c.x < w && 0 <= c.y < h
    ensures low <= SuppressedAt(mag, dir, w, h, c.x, c.y) as real < high
  {
    PromotedOnlyWeak(Thresholded(mag, dir, w, h, low, high), w, h, c);
  }
}
