/** Convolution of a grayscale image with a kernel (remarkablepage/custom_comvolution.go).

    `ConvolveGray` pads the image for the kernel and anchor, then sets every output
    pixel to the clamped weighted sum of the padded window whose top-left corner is the
    pixel's own position; the kernel is not flipped. The only kernels that reach it are
    the integer Laplacians, so weights are integers here and the window sum is exact. */
module Convolution {
  import opened Common
  import opened Padding

  /** A `width` x `height` grid of integer weights; `At(kx, ky)` is `content[ky][kx]`. */
  datatype Kernel = Kernel(width: nat, height: nat, content: seq<seq<int>>)

  predicate ValidKernel(k: Kernel)
  {
    |k.content| == k.height && forall ky :: 0 <= ky < k.height ==> |k.content[ky]| == k.width
  }

  /** `Kernel.Size`: the kernel extent as a point. */
  function Size(k: Kernel): (r: Point)
    ensures r.x == k.width && r.y == k.height
  {
    Point(k.width, k.height)
  }

  /** `Kernel.At`; 0 outside the kernel. */
  function KAt(k: Kernel, kx: int, ky: int): int
  {
    if 0 <= ky < |k.content| && 0 <= kx < |k.content[ky]| then k.content[ky][kx] else 0
  }

  /** `ClampF64`: `value` limited to [min, max]. */
  function ClampF64(value: real, min: real, max: real): (r: real)
    ensures min <= max ==> min <= r <= max
    ensures min <= value <= max ==> r == value
    ensures value < min ==> r == min
    ensures min <= max < value ==> r == max
  {
    if value < min then min
    else if value > max then max
    else value
  }

  /** Clamping is idempotent and leaves values already in range alone. */
  lemma ClampF64Idempotent(value: real, min: real, max: real)
    requires min <= max
    ensures ClampF64(ClampF64(value, min, max), min, max) == ClampF64(value, min, max)
  {
  }

  /** Go's `uint8(v)` for a float already clamped into [0, 255]: truncation. */
  function ToByte(v: real): (b: Byte)
    requires 0.0 <= v <= 255.0
    ensures b as real <= v < b as real + 1.0
  {
    v.Floor as Byte
  }

  // The accumulator of the two kernel loops, ky outer and kx inner.

  /** The first `n` terms of kernel row `ky` for output pixel (x, y). */
  function RowSum(g: Grid, k: Kernel, x: int, y: int, ky: int, n: nat): int
  {
    if n == 0 then 0 else RowSum(g, k, x, y, ky, n - 1) + GAt(g, x + n - 1, y + ky) as int * KAt(k, n - 1, ky)
  }

  /** The terms of the first `m` kernel rows for output pixel (x, y). */
  function WindowSum(g: Grid, k: Kernel, x: int, y: int, m: nat): int
  {
    if m == 0 then 0 else WindowSum(g, k, x, y, m - 1) + RowSum(g, k, x, y, m - 1, k.width)
  }

  /** Output pixel (x, y) of a convolution over the padded image `g`. */
  function Pixel(g: Grid, k: Kernel, x: int, y: int): Byte
  {
    ToByte(ClampF64(WindowSum(g, k, x, y, k.height) as real, 0.0, 255.0))
  }

  /** Every output pixel is the window sum clamped to [0, 255]: negative responses
      become 0 and large ones 255. */
  lemma PixelIsClampedSum(g: Grid, k: Kernel, x: int, y: int)
    ensures var s := WindowSum(g, k, x, y, k.height);
      Pixel(g, k, x, y) as int == if s < 0 then 0 else if s > 255 then 255 else s
  {
    var s := WindowSum(g, k, x, y, k.height);
    var c := ClampF64(s as real, 0.0, 255.0);
    if s < 0 {
      assert c == 0.0;
    } else if s > 255 {
      assert c == 255.0;
    } else {
      assert c == s as real;
      assert (s as real).Floor == s;
    }
  }

  function Convolved(g: Grid, k: Kernel, w: nat, h: nat): (r: Grid)
    ensures IsGrid(r, w, h)
  {
    seq(h, (y: int) => seq(w, (x: int) => Pixel(g, k, x, y)))
  }

  /** `ConvolveGray` as a value: the padding error unchanged, or an image of the
      input's size made of the window pixels. */
  function Convolve(img: Grid, w: nat, h: nat, k: Kernel, anchor: Point, border: int): (r: Result<Grid, PadError>)
    ensures r.Err? <==> Pad(img, w, h, Size(k), anchor, border).Err?
    ensures r.Err? ==> r.error == Pad(img, w, h, Size(k), anchor, border).error
    ensures r.Ok? ==> IsGrid(r.value, w, h)
  {
    match Pad(img, w, h, Size(k), anchor, border)
    case Err(e) => Err(e)
    case Ok(padded) => Ok(Convolved(padded, k, w, h))
  }

  /** The sum of the first `n` weights of row `ky`. */
  function RowWeight(k: Kernel, ky: int, n: nat): int
  {
    if n == 0 then 0 else RowWeight(k, ky, n - 1) + KAt(k, n - 1, ky)
  }

  /** The sum of the weights of the first `m` rows. */
  function WeightSum(k: Kernel, m: nat): int
  {
    if m == 0 then 0 else WeightSum(k, m - 1) + RowWeight(k, m - 1, k.width)
  }

  lemma {:induction false} RowOfConstant(g: Grid, k: Kernel, x: int, y: int, ky: int, n: nat, c: Byte)
    requires forall j, i :: j == y + ky && x <= i < x + n ==> GAt(g, i, j) == c
    ensures RowSum(g, k, x, y, ky, n) == c as int * RowWeight(k, ky, n)
  {
    if n > 0 {
      RowOfConstant(g, k, x, y, ky, n - 1, c);
      assert GAt(g, x + n - 1, y + ky) == c;
    }
  }

  /** Over a window of equal pixels the sum is that pixel times the kernel's total
      weight. */
  lemma {:induction false} WindowOfConstant(g: Grid, k: Kernel, x: int, y: int, m: nat, c: Byte)
    requires forall j, i :: y <= j < y + m && x <= i < x + k.width ==> GAt(g, i, j) == c
    ensures WindowSum(g, k, x, y, m) == c as int * WeightSum(k, m)
  {
    if m > 0 {
      WindowOfConstant(g, k, x, y, m - 1, c);
      RowOfConstant(g, k, x, y, m - 1, k.width, c);
    }
  }

  /** A 1x1 kernel of weight 1 anchored at (0, 0) gives back the image under every
      border policy: all four margins are 0. */
  lemma ConvolveIdentity(img: Grid, w: nat, h: nat, border: int)
    requires IsGrid(img, w, h)
    requires border in {CBorderConstant, CBorderReplicate, CBorderReflect}
    ensures Convolve(img, w, h, Kernel(1, 1, [[1]]), Point(0, 0), border).Ok?
    ensures forall y, x :: 0 <= y < h && 0 <= x < w ==>
      Convolve(img, w, h, Kernel(1, 1, [[1]]), Point(0, 0), border).value[y][x] == img[y][x]
  {
    var k := Kernel(1, 1, [[1]]);
    var p := Paddings(0, 0, 0, 0);
    forall y, x | 0 <= y < h && 0 <= x < w
      ensures Convolve(img, w, h, k, Point(0, 0), border).value[y][x] == img[y][x]
    {
      assert CalculatePaddings(Size(k), Point(0, 0)) == Ok(p);
      ConvolveCell(img, w, h, k, Point(0, 0), border, x, y);
      IdentityPixel(img, w, h, border, x, y);
    }
  }

  /** When the padding succeeds, output pixel (x, y) is the window pixel of the padded
      image. */
  lemma ConvolveCell(img: Grid, w: nat, h: nat, k: Kernel, anchor: Point, border: int, x: int, y: int)
    requires Pad(img, w, h, Size(k), anchor, border).Ok?
    requires 0 <= y < h && 0 <= x < w
    ensures Convolve(img, w, h, k, anchor, border).Ok?
    ensures Convolve(img, w, h, k, anchor, border).value[y][x] == Pixel(Pad(img, w, h, Size(k), anchor, border).value, k, x, y)
  {
  }

  lemma IdentityPixel(img: Grid, w: nat, h: nat, border: int, x: int, y: int)
    requires IsGrid(img, w, h)
    requires border in {CBorderConstant, CBorderReplicate, CBorderReflect}
    requires 0 <= y < h && 0 <= x < w
    ensures Pixel(PadWith(img, w, h, Paddings(0, 0, 0, 0), border).value, Kernel(1, 1, [[1]]), x, y) == img[y][x]
  {
    var k := Kernel(1, 1, [[1]]);
    var p := Paddings(0, 0, 0, 0);
    var padded := PadWith(img, w, h, p, border).value;
    PadKeepsOriginal(img, w, h, p, border, x, y);
    assert GAt(padded, x, y) == img[y][x];
    assert RowSum(padded, k, x, y, 0, 1) == img[y][x] as int;
    PixelIsClampedSum(padded, k, x, y);
  }

  /** The kernel loops for one output pixel of the buffer `padded`, whose cells are
      those of `g`: the clamped window sum. */
  method WindowPixel(padded: array2<Byte>, ghost g: Grid, kernel: Kernel, x: int, y: int) returns (v: Byte)
    requires IsGrid(g, padded.Length1, padded.Length0)
    requires forall j, i :: 0 <= j < padded.Length0 && 0 <= i < padded.Length1 ==> padded[j, i] == g[j][i]
    ensures v == Pixel(g, kernel, x, y)
  {
    var sum := 0;
    var ky := 0;
    while ky < kernel.height
      invariant 0 <= ky <= kernel.height
      invariant sum == WindowSum(g, kernel, x, y, ky)
    {
      var kx := 0;
      while kx < kernel.width
        invariant 0 <= kx <= kernel.width
        invariant sum == WindowSum(g, kernel, x, y, ky) + RowSum(g, kernel, x, y, ky, kx)
      {
        var pixel := At(padded, x + kx, y + ky);
        assert pixel == GAt(g, x + kx, y + ky);
        var kE := KAt(kernel, kx, ky);
        sum := sum + pixel as int * kE;
        kx := kx + 1;
      }
      ky := ky + 1;
    }
    var clamped := ClampF64(sum as real, 0.0, 255.0);
    v := ToByte(clamped);
  }

  /** The pixel loops of `ConvolveGray` over a padded buffer whose cells are those of
      `g`: a fresh `h` x `w` image of window pixels. */
  method ConvolvePadded(padded: array2<Byte>, ghost g: Grid, kernel: Kernel, w: nat, h: nat) returns (result: array2<Byte>)
    requires IsGrid(g, padded.Length1, padded.Length0)
    requires forall j, i :: 0 <= j < padded.Length0 && 0 <= i < padded.Length1 ==> padded[j, i] == g[j][i]
    ensures fresh(result) && result.Length0 == h && result.Length1 == w
    ensures forall y, x :: 0 <= y < h && 0 <= x < w ==> result[y, x] == Pixel(g, kernel, x, y)
  {
    result := new Byte[h, w]((_, _) => 0);
    var y := 0;
    while y < h
      modifies result
      invariant 0 <= y <= h
      invariant forall yy, xx :: 0 <= yy < y && 0 <= xx < w ==> result[yy, xx] == Pixel(g, kernel, xx, yy)
    {
      var x := 0;
      while x < w
        modifies result
        invariant 0 <= x <= w
        invariant forall yy, xx :: 0 <= yy < y && 0 <= xx < w ==> result[yy, xx] == Pixel(g, kernel, xx, yy)
        invariant forall xx :: 0 <= xx < x ==> result[y, xx] == Pixel(g, kernel, xx, y)
      {
        var v := WindowPixel(padded, g, kernel, x, y);
        result[y, x] := v;
        x := x + 1;
      }
      y := y + 1;
    }
  }

  /** `ConvolveGray`, the pixel loops run sequentially in row-major order. */
  method ConvolveGray(img: array2<Byte>, kernel: Kernel, anchor: Point, border: int)
    returns (r: Result<array2<Byte>, PadError>)
    ensures r.Err? <==> Convolve(Pixels(img), img.Length1, img.Length0, kernel, anchor, border).Err?
    ensures r.Err? ==> r.error == Convolve(Pixels(img), img.Length1, img.Length0, kernel, anchor, border).error
    ensures r.Ok? ==> fresh(r.value) && r.value.Length0 == img.Length0 && r.value.Length1 == img.Length1
    ensures r.Ok? ==> forall y, x :: 0 <= y < img.Length0 && 0 <= x < img.Length1 ==>
      r.value[y, x] == Convolve(Pixels(img), img.Length1, img.Length0, kernel, anchor, border).value[y][x]
  {
    ghost var src := Pixels(img);
    var pr := PaddingGray(img, Size(kernel), anchor, border);
    if pr.Err? {
      return Err(pr.error);
    }
    ghost var pg := Pad(src, img.Length1, img.Length0, Size(kernel), anchor, border).value;
    var result := ConvolvePadded(pr.value, pg, kernel, img.Length1, img.Length0);
    forall y, x | 0 <= y < img.Length0 && 0 <= x < img.Length1
      ensures result[y, x] == Convolve(src, img.Length1, img.Length0, kernel, anchor, border).value[y][x]
    {
      ConvolveCell(src, img.Length1, img.Length0, kernel, anchor, border, x, y);
    }
    return Ok(result);
  }
}
