/** The integer skeleton of `custom_resize.go`: `ClampInt`, the validation and
    dispatch of `ResizeGray`, the sizes of the two separable passes and the
    clamped sampling windows they read.

    Scale factors are real numbers. The filter arithmetic is not modelled:
    for output position `x` a pass is given the unclamped window ends
    `window(x)` (the source's `int(ix-radius+0.5)` and `int(ix+radius)`) and a
    function `blend` that turns the samples of the clamped window into the
    output pixel (the source's weighted sum, division and rounding). */
module Resize {
  import opened Common

  /** `ClampInt`: `min` below the range, `max` above it, the value otherwise. */
  function ClampInt(value: int, min: int, max: int): (r: int)
    ensures value < min ==> r == min
    ensures min <= value && value > max ==> r == max
    ensures min <= value <= max ==> r == value
  {
    if value < min then min else if value > max then max else value
  }

  /** On a non-empty range the result lies in it, and clamping twice is
      clamping once. */
  lemma ClampIntRange(value: int, min: int, max: int)
    requires min <= max
    ensures min <= ClampInt(value, min, max) <= max
    ensures ClampInt(ClampInt(value, min, max), min, max) == ClampInt(value, min, max)
  {
  }

  /** Every index read by `for i := start; i < end; i++`, with both ends
      clamped into [0, size], is a valid sample index, whatever the
      floating-point window arithmetic produced. */
  lemma WindowInBounds(lo: int, hi: int, size: nat, i: int)
    requires ClampInt(lo, 0, size) <= i < ClampInt(hi, 0, size)
    ensures 0 <= i < size
  {
  }

  // ---------------------------------------------------------------------------
  // Validation and dispatch
  // ---------------------------------------------------------------------------

  /** `Interpolation` is an `int` in the source; only 0 to 3 name a method. */
  type Interpolation = int

  const InterNearest: Interpolation := 0
  const InterLinear: Interpolation := 1
  const InterCatmullRom: Interpolation := 2
  const InterLanczos: Interpolation := 3

  datatype Filter = Linear | CatmullRom | Lanczos

  /** One pass over the image. */
  datatype Pass = Nearest | Horizontal(filter: Filter) | Vertical(filter: Filter)

  const NegativeScale := "scale value should be greater than 0"
  const UnknownInterpolation := "invalid interpolation method"

  /** `ResizeGray`'s checks and choice of passes: the negative-scale error takes
      precedence; a plan is one nearest-neighbour pass, or a horizontal pass then a
      vertical pass with one filter. */
  function ResizePlan(fx: real, fy: real, interpolation: Interpolation): (r: Result<seq<Pass>, string>)
    ensures r.Err? ==> (r.error == NegativeScale <==> fx < 0.0 || fy < 0.0)
    ensures r.Err? ==> r.error in {NegativeScale, UnknownInterpolation}
    ensures r.Ok? ==>
      r.value == [Nearest] || (|r.value| == 2 && r.value[0].Horizontal? && r.value[1] == Vertical(r.value[0].filter))
  {
    if fx < 0.0 || fy < 0.0 then Err(NegativeScale)
    else if interpolation == InterNearest then Ok([Nearest])
    else if interpolation == InterLinear then Ok([Horizontal(Linear), Vertical(Linear)])
    else if interpolation == InterCatmullRom then Ok([Horizontal(CatmullRom), Vertical(CatmullRom)])
    else if interpolation == InterLanczos then Ok([Horizontal(Lanczos), Vertical(Lanczos)])
    else Err(UnknownInterpolation)
  }

  /** A negative factor is rejected before the method is looked at; a zero
      factor is accepted; an unknown method is rejected; every filter runs the
      horizontal pass, then the vertical pass, with the same filter. */
  lemma ResizePlanCases(fx: real, fy: real, interpolation: Interpolation)
    ensures (fx < 0.0 || fy < 0.0) ==> ResizePlan(fx, fy, interpolation) == Err(NegativeScale)
    ensures ResizePlan(fx, fy, interpolation).Ok? <==>
      fx >= 0.0 && fy >= 0.0 && InterNearest <= interpolation <= InterLanczos
    ensures fx >= 0.0 && fy >= 0.0 && !(InterNearest <= interpolation <= InterLanczos) ==>
      ResizePlan(fx, fy, interpolation) == Err(UnknownInterpolation)
    ensures ResizePlan(fx, fy, interpolation).Ok? && interpolation != InterNearest ==>
      exists f :: ResizePlan(fx, fy, interpolation).value == [Horizontal(f), Vertical(f)]
    ensures fx >= 0.0 && fy >= 0.0 && interpolation == InterNearest ==> ResizePlan(fx, fy, interpolation) == Ok([Nearest])
    ensures fx >= 0.0 && fy >= 0.0 && interpolation == InterLinear ==>
      ResizePlan(fx, fy, interpolation) == Ok([Horizontal(Linear), Vertical(Linear)])
    ensures fx >= 0.0 && fy >= 0.0 && interpolation == InterCatmullRom ==>
      ResizePlan(fx, fy, interpolation) == Ok([Horizontal(CatmullRom), Vertical(CatmullRom)])
    ensures fx >= 0.0 && fy >= 0.0 && interpolation == InterLanczos ==>
      ResizePlan(fx, fy, interpolation) == Ok([Horizontal(Lanczos), Vertical(Lanczos)])
  {
    if fx >= 0.0 && fy >= 0.0 {
      if interpolation == InterLinear {
        assert ResizePlan(fx, fy, interpolation).value == [Horizontal(Linear), Vertical(Linear)];
      } else if interpolation == InterCatmullRom {
        assert ResizePlan(fx, fy, interpolation).value == [Horizontal(CatmullRom), Vertical(CatmullRom)];
      } else if interpolation == InterLanczos {
        assert ResizePlan(fx, fy, interpolation).value == [Horizontal(Lanczos), Vertical(Lanczos)];
      }
    }
  }

  // ---------------------------------------------------------------------------
  // Sizes and windows
  // ---------------------------------------------------------------------------

  /** Go's `int(f)`: truncation toward zero. */
  function Trunc(r: real): (n: int)
    ensures r >= 0.0 ==> n as real <= r < n as real + 1.0
    ensures r < 0.0 ==> n as real - 1.0 < r <= n as real
  {
    if r >= 0.0 then r.Floor else -((-r).Floor)
  }

  /** A side of `n` samples scaled by factor `f >= 0`: `int(float64(n) * f)`. */
  function Scaled(n: nat, f: real): (m: nat)
    requires f >= 0.0
    ensures m as real <= n as real * f < m as real + 1.0
  {
    Trunc(n as real * f)
  }

  /** Scaling by 1 keeps the size, scaling by 0 gives an empty side. */
  lemma ScaledIdentity(n: nat)
    ensures Scaled(n, 1.0) == n && Scaled(n, 0.0) == 0
  {
  }

  /** The samples a pass reads for one output pixel: those of `line` from the
      clamped start up to the clamped end, none when the window is empty. */
  function WindowOf(line: seq<Byte>, lo: int, hi: int): (w: seq<Byte>)
    ensures var s, e := ClampInt(lo, 0, |line|), ClampInt(hi, 0, |line|);
      (s < e ==> w == line[s..e]) && (e <= s ==> w == [])
  {
    var s, e := ClampInt(lo, 0, |line|), ClampInt(hi, 0, |line|);
    if s < e then line[s..e] else []
  }

  /** The output pixel at position `x` along `line`. */
  function Resampled(line: seq<Byte>, x: int, window: int -> (int, int),
                     blend: (int, int, seq<Byte>) -> Byte): Byte
  {
    blend(x, ClampInt(window(x).0, 0, |line|), WindowOf(line, window(x).0, window(x).1))
  }

  /** Column `x` of a grid. */
  function Column(g: Grid, x: int): (c: seq<Byte>)
    ensures |c| == |g| && forall y :: 0 <= y < |g| ==> c[y] == GAt(g, x, y)
  {
    seq(|g|, (y: int) => GAt(g, x, y))
  }

  /** The image the horizontal pass produces from grid `g`. */
  function HorizontalGrid(g: Grid, newWidth: nat, window: int -> (int, int),
                          blend: (int, int, seq<Byte>) -> Byte): (r: Grid)
    ensures IsGrid(r, newWidth, |g|)
    ensures forall y, x :: 0 <= y < |g| && 0 <= x < newWidth ==> r[y][x] == Resampled(g[y], x, window, blend)
  {
    seq(|g|, (y: int) requires 0 <= y < |g| =>
      seq(newWidth, (x: int) => Resampled(g[y], x, window, blend)))
  }

  // ---------------------------------------------------------------------------
  // The passes
  // ---------------------------------------------------------------------------

  /** Copies the clamped window of row `y` out of `img`, as the inner loop
      reads it. */
  method ReadRow(img: array2<Byte>, y: nat, lo: int, hi: int) returns (samples: seq<Byte>)
    requires y < img.Length0
    ensures samples == WindowOf(Pixels(img)[y], lo, hi)
  {
    var start := ClampInt(lo, 0, img.Length1);
    var end := ClampInt(hi, 0, img.Length1);
    samples := [];
    var i := start;
    while i < end
      invariant start <= i && (start < end ==> i <= end)
      invariant samples == Pixels(img)[y][start..if start < end then i else start]
    {
      samples := samples + [img[y, i]];
      i := i + 1;
    }
  }

  /** Copies the clamped window of column `x` out of `img`. */
  method ReadColumn(img: array2<Byte>, x: nat, lo: int, hi: int) returns (samples: seq<Byte>)
    requires x < img.Length1
    ensures samples == WindowOf(Column(Pixels(img), x), lo, hi)
  {
    var start := ClampInt(lo, 0, img.Length0);
    var end := ClampInt(hi, 0, img.Length0);
    ghost var col := Column(Pixels(img), x);
    samples := [];
    var i := start;
    while i < end
      invariant start <= i && (start < end ==> i <= end)
      invariant samples == col[start..if start < end then i else start]
    {
      samples := samples + [img[i, x]];
      i := i + 1;
    }
  }

  /** `resizeHorizontalGray`: the width becomes `int(width * fx)`, the height
      is kept, and pixel (x, y) is blended from the clamped window of row y. */
  method ResizeHorizontalGray(img: array2<Byte>, fx: real, window: int -> (int, int),
                              blend: (int, int, seq<Byte>) -> Byte) returns (res: array2<Byte>)
    requires fx >= 0.0
    ensures fresh(res)
    ensures res.Length0 == img.Length0 && res.Length1 == Scaled(img.Length1, fx)
    ensures forall y, x :: 0 <= y < res.Length0 && 0 <= x < res.Length1 ==>
      res[y, x] == Resampled(Pixels(img)[y], x, window, blend)
  {
    var newWidth := Scaled(img.Length1, fx);
    res := new Byte[img.Length0, newWidth];
    var y := 0;
    while y < img.Length0
      invariant 0 <= y <= img.Length0
      invariant forall yy, x :: 0 <= yy < y && 0 <= x < newWidth ==>
        res[yy, x] == Resampled(Pixels(img)[yy], x, window, blend)
    {
      var x := 0;
      while x < newWidth
        invariant 0 <= x <= newWidth
        invariant forall yy, xx :: 0 <= yy < y && 0 <= xx < newWidth ==>
          res[yy, xx] == Resampled(Pixels(img)[yy], xx, window, blend)
        invariant forall xx :: 0 <= xx < x ==> res[y, xx] == Resampled(Pixels(img)[y], xx, window, blend)
      {
        var bounds := window(x);
        var samples := ReadRow(img, y, bounds.0, bounds.1);
        res[y, x] := blend(x, ClampInt(bounds.0, 0, img.Length1), samples);
        x := x + 1;
      }
      y := y + 1;
    }
  }

  /** `resizeVerticalGray`: the height becomes `int(height * fy)`, the width
      is kept, and pixel (x, y) is blended from the clamped window of column x. */
  method ResizeVerticalGray(img: array2<Byte>, fy: real, window: int -> (int, int),
                            blend: (int, int, seq<Byte>) -> Byte) returns (res: array2<Byte>)
    requires fy >= 0.0
    ensures fresh(res)
    ensures res.Length1 == img.Length1 && res.Length0 == Scaled(img.Length0, fy)
    ensures forall y, x :: 0 <= y < res.Length0 && 0 <= x < res.Length1 ==>
      res[y, x] == Resampled(Column(Pixels(img), x), y, window, blend)
  {
    var newHeight := Scaled(img.Length0, fy);
    res := new Byte[newHeight, img.Length1];
    var x := 0;
    while x < img.Length1
      invariant 0 <= x <= img.Length1
      invariant forall y, xx :: 0 <= y < newHeight && 0 <= xx < x ==>
        res[y, xx] == Resampled(Column(Pixels(img), xx), y, window, blend)
    {
      var y := 0;
      while y < newHeight
        invariant 0 <= y <= newHeight
        invariant forall yy, xx :: 0 <= yy < newHeight && 0 <= xx < x ==>
          res[yy, xx] == Resampled(Column(Pixels(img), xx), yy, window, blend)
        invariant forall yy :: 0 <= yy < y ==> res[yy, x] == Resampled(Column(Pixels(img), x), yy, window, blend)
      {
        var bounds := window(y);
        var samples := ReadColumn(img, x, bounds.0, bounds.1);
        res[y, x] := blend(y, ClampInt(bounds.0, 0, img.Length0), samples);
        y := y + 1;
      }
      x := x + 1;
    }
  }

  /** `resizeLinearGray`, `resizeCatmullRomGray` and `resizeLanczosGray`: the
      horizontal pass, then the vertical pass on its result. The output is
      `int(width * fx)` by `int(height * fy)`. */
  method ResizeSeparableGray(img: array2<Byte>, fx: real, fy: real,
                             hWindow: int -> (int, int), hBlend: (int, int, seq<Byte>) -> Byte,
                             vWindow: int -> (int, int), vBlend: (int, int, seq<Byte>) -> Byte)
    returns (res: array2<Byte>)
    requires fx >= 0.0 && fy >= 0.0
    ensures fresh(res)
    ensures res.Length1 == Scaled(img.Length1, fx) && res.Length0 == Scaled(img.Length0, fy)
    ensures forall y, x :: 0 <= y < res.Length0 && 0 <= x < res.Length1 ==>
      res[y, x] == Resampled(Column(HorizontalGrid(Pixels(img), res.Length1, hWindow, hBlend), x), y, vWindow, vBlend)
  {
    var mid := ResizeHorizontalGray(img, fx, hWindow, hBlend);
    GridExt(Pixels(mid), HorizontalGrid(Pixels(img), mid.Length1, hWindow, hBlend), mid.Length1, mid.Length0);
    res := ResizeVerticalGray(mid, fy, vWindow, vBlend);
  }
}
