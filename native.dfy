/** The native pipeline (remarkablepage/main.c): a grayscale screenshot is blurred,
    filtered with a Laplacian, turned into a boolean mask and vectorised into
    horizontal segments.

    Images are flat row-major buffers, pixel (x, y) at index `y * width + x`
    (`Idx`), exactly as the C code lays them out. The mask is `bool **` indexed
    `[x][z]`, column first; it is modelled as a rectangular `array2<bool>` whose
    first index is the column. The blur's float kernel has weights that are
    multiples of 1/16 and pixel values are integers below 256, so every partial
    sum is an exact float; the model keeps the sum in sixteenths (an integer) and
    the truncating cast to `unsigned char` is a division by 16. */
module Native {
  import opened Common
  import HorizontalLines

  /** The index of pixel (x, y) in a row-major buffer of rows `w` long. */
  function Idx(w: int, x: int, y: int): int
  {
    y * w + x
  }

  lemma IdxBounds(w: int, h: int, x: int, y: int)
    requires 0 <= x < w && 0 <= y < h
    ensures 0 <= Idx(w, x, y) < w * h
  {
    assert y * w <= (h - 1) * w;
  }

  lemma IdxInjective(w: int, x1: int, y1: int, x2: int, y2: int)
    requires 0 <= x1 < w && 0 <= x2 < w && Idx(w, x1, y1) == Idx(w, x2, y2)
    ensures x1 == x2 && y1 == y2
  {
    MulMonotone(y1 - y2, w);
    assert (y1 - y2) * w == x2 - x1;
  }

  lemma MulMonotone(d: int, w: int)
    requires 0 <= w
    ensures d >= 1 ==> d * w >= w
    ensures d <= -1 ==> d * w <= -w
  {
  }

  /** Writing pixel (x, y) touches no other pixel's index. */
  lemma IdxDistinct(w: int, x: int, y: int)
    requires 0 <= x < w
    ensures forall xx, yy :: 0 <= xx < w && (xx != x || yy != y) ==> Idx(w, xx, yy) != Idx(w, x, y)
  {
    forall xx, yy | 0 <= xx < w && (xx != x || yy != y)
      ensures Idx(w, xx, yy) != Idx(w, x, y)
    {
      if Idx(w, xx, yy) == Idx(w, x, y) {
        IdxInjective(w, xx, yy, x, y);
      }
    }
  }

  /** Every index of a `w` by `h` buffer is the index of exactly one pixel. */
  lemma IdxOnto(w: int, h: int, k: int)
    requires 0 < w && 0 <= k < w * h
    ensures 0 <= k % w < w && 0 <= k / w < h && Idx(w, k % w, k / w) == k
  {
    MulMonotone(k / w - h + 1, w);
    assert (k / w - h + 1) * w == k / w * w - h * w + w;
  }

  /** A pixel of a buffer; the filters only read pixels inside the buffer. */
  function Px(img: seq<Byte>, w: int, x: int, y: int): int
  {
    if 0 <= Idx(w, x, y) < |img| then img[Idx(w, x, y)] as int else 0
  }

  /** The pixels the 3x3 filters write: every one not on the image border. */
  predicate Inner(w: int, h: int, x: int, y: int)
  {
    1 <= x < w - 1 && 1 <= y < h - 1
  }

  /** A 3x3 integer kernel, `k[ky + 1][kx + 1]` being the weight of the pixel at
      offset (kx, ky). */
  predicate Kernel3(k: seq<seq<int>>)
  {
    |k| == 3 && |k[0]| == 3 && |k[1]| == 3 && |k[2]| == 3
  }

  /** The Gaussian kernel of `apply_gaussian_blur`, in sixteenths. */
  const BlurKernel: seq<seq<int>> := [[1, 2, 1], [2, 4, 2], [1, 2, 1]]

  /** The kernel of `apply_laplace_filter`. */
  const LaplaceKernel: seq<seq<int>> := [[1, 4, 1], [4, -20, 4], [1, 4, 1]]

  /** The sum of the first `n` of the nine window terms, in the order of the C loops
      (`ky` outer, `kx` inner, both from -1 to 1). */
  function PartialSum(img: seq<Byte>, w: int, x: int, y: int, k: seq<seq<int>>, n: int): int
    requires Kernel3(k) && 0 <= n <= 9
  {
    if n == 0 then 0
    else
      var i := n - 1;
      PartialSum(img, w, x, y, k, i) + k[i / 3][i % 3] * Px(img, w, x + i % 3 - 1, y + i / 3 - 1)
  }

  /** The sum of the weights of the first `n` terms. */
  function WeightUpTo(k: seq<seq<int>>, n: int): int
    requires Kernel3(k) && 0 <= n <= 9
  {
    if n == 0 then 0 else WeightUpTo(k, n - 1) + k[(n - 1) / 3][(n - 1) % 3]
  }

  /** On a constant image the window sum is the constant times the weights. */
  lemma {:induction false} PartialSumOfConstant(img: seq<Byte>, w: int, h: int, x: int, y: int,
                                                k: seq<seq<int>>, n: int, c: Byte)
    requires Kernel3(k) && 0 <= n <= 9 && |img| == w * h && Inner(w, h, x, y)
    requires forall i :: 0 <= i < |img| ==> img[i] == c
    ensures PartialSum(img, w, x, y, k, n) == c as int * WeightUpTo(k, n)
  {
    if n > 0 {
      var i := n - 1;
      PartialSumOfConstant(img, w, h, x, y, k, i, c);
      IdxBounds(w, h, x + i % 3 - 1, y + i / 3 - 1);
      AddTerm(c as int, WeightUpTo(k, i), k[i / 3][i % 3]);
    }
  }

  /** Adding one more weighted term to a sum of weighted constants. */
  lemma AddTerm(c: int, ws: int, wt: int)
    ensures c * ws + wt * c == c * (ws + wt)
  {
  }

  /** With non-negative weights, the window sum lies between 0 and 255 times the
      weights. */
  lemma {:induction false} PartialSumBounds(img: seq<Byte>, w: int, x: int, y: int, k: seq<seq<int>>, n: int)
    requires Kernel3(k) && 0 <= n <= 9
    requires forall i, j :: 0 <= i < 3 && 0 <= j < 3 ==> k[i][j] >= 0
    ensures 0 <= PartialSum(img, w, x, y, k, n) <= 255 * WeightUpTo(k, n)
  {
    if n > 0 {
      var i := n - 1;
      PartialSumBounds(img, w, x, y, k, i);
      var p := Px(img, w, x + i % 3 - 1, y + i / 3 - 1);
      var wt := k[i / 3][i % 3];
      TermBounds(wt, p);
    }
  }

  /** One non-negative weight times one pixel value. */
  lemma TermBounds(wt: int, p: int)
    requires 0 <= wt && 0 <= p <= 255
    ensures 0 <= wt * p <= 255 * wt
  {
    MulLe(p, 255, wt);
  }

  /** The blurred value of an inner pixel: the truncated weighted mean. */
  function BlurAt(img: seq<Byte>, w: int, x: int, y: int): (v: Byte)
    ensures 16 * (v as int) <= PartialSum(img, w, x, y, BlurKernel, 9) < 16 * (v as int) + 16
  {
    PartialSumBounds(img, w, x, y, BlurKernel, 9);
    (PartialSum(img, w, x, y, BlurKernel, 9) / 16) as Byte
  }

  /** The C clamp `sum > 255 ? 255 : (sum < 0 ? 0 : sum)`. */
  function Clamp(sum: int): (v: Byte)
    ensures 0 <= sum <= 255 ==> v as int == sum
    ensures sum < 0 ==> v == 0
    ensures sum > 255 ==> v == 255
  {
    if sum > 255 then 255 else if sum < 0 then 0 else sum as Byte
  }

  /** The filtered value of an inner pixel. */
  function LaplaceAt(img: seq<Byte>, w: int, x: int, y: int): Byte
  {
    Clamp(PartialSum(img, w, x, y, LaplaceKernel, 9))
  }

  /** A flat image stays flat inside under the blur. */
  lemma BlurOfConstant(img: seq<Byte>, w: int, h: int, x: int, y: int, c: Byte)
    requires |img| == w * h && Inner(w, h, x, y)
    requires forall i :: 0 <= i < |img| ==> img[i] == c
    ensures BlurAt(img, w, x, y) == c
  {
    PartialSumOfConstant(img, w, h, x, y, BlurKernel, 9, c);
    assert WeightUpTo(BlurKernel, 9) == 16;
  }

  /** The Laplacian weights sum to zero, so a flat image filters to 0 inside. */
  lemma LaplaceOfConstant(img: seq<Byte>, w: int, h: int, x: int, y: int, c: Byte)
    requires |img| == w * h && Inner(w, h, x, y)
    requires forall i :: 0 <= i < |img| ==> img[i] == c
    ensures LaplaceAt(img, w, x, y) == 0
  {
    PartialSumOfConstant(img, w, h, x, y, LaplaceKernel, 9, c);
    assert WeightUpTo(LaplaceKernel, 9) == 0;
  }

  /** The term at offset (kx, ky) is the one after the first `3 * (ky + 1) + kx + 1`. */
  lemma PartialSumStep(img: seq<Byte>, w: int, x: int, y: int, k: seq<seq<int>>, kx: int, ky: int)
    requires Kernel3(k) && -1 <= kx <= 1 && -1 <= ky <= 1
    ensures PartialSum(img, w, x, y, k, 3 * (ky + 1) + kx + 2) ==
            PartialSum(img, w, x, y, k, 3 * (ky + 1) + kx + 1) + k[ky + 1][kx + 1] * Px(img, w, x + kx, y + ky)
  {
    var i := 3 * (ky + 1) + kx + 1;
    assert i / 3 == ky + 1 && i % 3 == kx + 1;
  }

  /** The inner `kx` loop for kernel row `ky`. */
  method WindowRow(image: array<Byte>, width: int, height: int, x: int, y: int, kernel: seq<seq<int>>,
                   ky: int, sum0: int, ghost img: seq<Byte>)
    returns (sum: int)
    requires image.Length == width * height && Inner(width, height, x, y) && Kernel3(kernel)
    requires img == image[..] && -1 <= ky <= 1 && sum0 == PartialSum(img, width, x, y, kernel, 3 * (ky + 1))
    ensures sum == PartialSum(img, width, x, y, kernel, 3 * (ky + 1) + 3)
  {
    sum := sum0;
    var kx := -1;
    while kx <= 1
      invariant -1 <= kx <= 2
      invariant sum == PartialSum(img, width, x, y, kernel, 3 * (ky + 1) + kx + 1)
    {
      IdxBounds(width, height, x + kx, y + ky);
      var pixel := image[(y + ky) * width + (x + kx)] as int;
      assert pixel == Px(img, width, x + kx, y + ky);
      PartialSumStep(img, width, x, y, kernel, kx, ky);
      sum := sum + pixel * kernel[ky + 1][kx + 1];
      kx := kx + 1;
    }
  }

  /** The two nested `ky`/`kx` loops of either filter at the inner pixel (x, y). */
  method WindowSum(image: array<Byte>, width: int, height: int, x: int, y: int, kernel: seq<seq<int>>)
    returns (sum: int)
    requires image.Length == width * height && Inner(width, height, x, y) && Kernel3(kernel)
    ensures sum == PartialSum(image[..], width, x, y, kernel, 9)
  {
    ghost var img := image[..];
    sum := 0;
    var ky := -1;
    while ky <= 1
      invariant -1 <= ky <= 2
      invariant sum == PartialSum(img, width, x, y, kernel, 3 * (ky + 1))
    {
      sum := WindowRow(image, width, height, x, y, kernel, ky, sum, img);
      ky := ky + 1;
    }
  }

  /** Pixels of rows before `y`, and of row `y` before column `x`, have been visited
      by the row-major scan. */
  predicate Visited(y: int, x: int, yy: int, xx: int)
  {
    yy < y || (yy == y && xx < x)
  }

  /** The blur's scratch buffer after visiting the pixels before (x, y): visited
      inner pixels hold the blurred value, every other pixel its initial byte. */
  ghost predicate BlurredUpTo(temp: array<Byte>, img: seq<Byte>, w: int, h: int, mem: seq<Byte>, y: int, x: int)
    reads temp
  {
    forall yy, xx :: 0 <= yy < h && 0 <= xx < w ==>
      0 <= Idx(w, xx, yy) < temp.Length && Idx(w, xx, yy) < |mem| &&
      temp[Idx(w, xx, yy)] == if Inner(w, h, xx, yy) && Visited(y, x, yy, xx) then BlurAt(img, w, xx, yy)
                              else mem[Idx(w, xx, yy)]
  }

  /** One row of the blur loop. */
  method BlurRow(image: array<Byte>, temp: array<Byte>, width: int, height: int, y: int,
                 ghost img: seq<Byte>, ghost mem: seq<Byte>)
    requires image != temp && image.Length == width * height && 1 <= y < height - 1 && img == image[..]
    requires BlurredUpTo(temp, img, width, height, mem, y, 0)
    modifies temp
    ensures BlurredUpTo(temp, img, width, height, mem, y + 1, 0)
  {
    var x := 1;
    while x < width - 1
      invariant 1 <= x <= width - 1 || (x == 1 && width < 2)
      invariant BlurredUpTo(temp, img, width, height, mem, y, x)
    {
      var sum := WindowSum(image, width, height, x, y, BlurKernel);
      IdxBounds(width, height, x, y);
      IdxDistinct(width, x, y);
      var v := sum / 16;
      assert v == BlurAt(img, width, x, y) as int;
      temp[y * width + x] := v as Byte;
      x := x + 1;
    }
  }

  /** The image after `apply_gaussian_blur` as written: inner pixels are blurred,
      border pixels come from `mem`, the scratch buffer as `malloc` left it. */
  ghost function BlurResult(img: seq<Byte>, w: int, h: int, mem: seq<Byte>): (r: seq<Byte>)
    requires 0 < w && |img| == w * h && |mem| == w * h
    ensures |r| == w * h
    ensures forall x, y :: 0 <= x < w && 0 <= y < h ==>
      Idx(w, x, y) < |r| && r[Idx(w, x, y)] == if Inner(w, h, x, y) then BlurAt(img, w, x, y) else mem[Idx(w, x, y)]
  {
    var r := seq(w * h, k requires 0 <= k < w * h =>
      IdxOnto(w, h, k); if Inner(w, h, k % w, k / w) then BlurAt(img, w, k % w, k / w) else mem[k]);
    assert forall x, y :: 0 <= x < w && 0 <= y < h ==>
      Idx(w, x, y) < |r| && r[Idx(w, x, y)] == if Inner(w, h, x, y) then BlurAt(img, w, x, y) else mem[Idx(w, x, y)] by {
      forall x, y | 0 <= x < w && 0 <= y < h
        ensures Idx(w, x, y) < |r| && r[Idx(w, x, y)] == if Inner(w, h, x, y) then BlurAt(img, w, x, y) else mem[Idx(w, x, y)]
      {
        var k := Idx(w, x, y);
        IdxBounds(w, h, x, y);
        IdxOnto(w, h, k);
        IdxInjective(w, k % w, k / w, x, y);
      }
    }
    r
  }

  /** Before the loop the scratch buffer holds its initial bytes. */
  lemma BlurredStart(temp: array<Byte>, img: seq<Byte>, w: int, h: int, mem: seq<Byte>)
    requires temp[..] == mem && |mem| == w * h
    ensures BlurredUpTo(temp, img, w, h, mem, 1, 0)
  {
    forall yy, xx | 0 <= yy < h && 0 <= xx < w
      ensures 0 <= Idx(w, xx, yy) < temp.Length
    {
      IdxBounds(w, h, xx, yy);
    }
  }

  /** After the loop the scratch buffer is the blurred image. */
  lemma BlurredDone(temp: array<Byte>, img: seq<Byte>, w: int, h: int, mem: seq<Byte>, y: int)
    requires 0 < w && |img| == w * h && |mem| == w * h && temp.Length == w * h
    requires (y == h - 1 || (y == 1 && h < 2)) && BlurredUpTo(temp, img, w, h, mem, y, 0)
    ensures temp[..] == BlurResult(img, w, h, mem)
  {
    var r := BlurResult(img, w, h, mem);
    forall k | 0 <= k < w * h
      ensures temp[k] == r[k]
    {
      IdxOnto(w, h, k);
    }
  }

  /** `memcpy(dst, src, n)` for two buffers of `n` bytes. */
  method Memcpy(dst: array<Byte>, src: array<Byte>)
    requires dst != src && dst.Length == src.Length
    modifies dst
    ensures dst[..] == src[..]
  {
    forall i | 0 <= i < dst.Length {
      dst[i] := src[i];
    }
  }

  /** `apply_gaussian_blur`. `memory` is what `malloc` returns: `None` when it fails
      (the image is left as it was), otherwise the uninitialised bytes of the
      scratch buffer, which the final `memcpy` copies onto the border. */
  method ApplyGaussianBlur(image: array<Byte>, width: int, height: int, memory: Option<seq<Byte>>)
    requires 0 < width && 0 <= height && image.Length == width * height
    requires memory.Some? ==> |memory.value| == width * height
    modifies image
    ensures memory.None? ==> image[..] == old(image[..])
    ensures memory.Some? ==> image[..] == BlurResult(old(image[..]), width, height, memory.value)
  {
    if memory.None? {
      return;
    }
    var mem := memory.value;
    var temp := new Byte[width * height](i => if 0 <= i < |mem| then mem[i] else 0);
    assert temp[..] == mem;
    ghost var img := image[..];
    BlurredStart(temp, img, width, height, mem);
    var y := 1;
    while y < height - 1
      modifies temp
      invariant 1 <= y <= height - 1 || (y == 1 && height < 2)
      invariant BlurredUpTo(temp, img, width, height, mem, y, 0)
    {
      BlurRow(image, temp, width, height, y, img, mem);
      y := y + 1;
    }
    BlurredDone(temp, img, width, height, mem, y);
    Memcpy(image, temp);
  }

  /** `apply_gaussian_blur` with the scratch buffer first filled with the image, so
      that the border keeps its pixels (see the finding on the blur's border). */
  method ApplyGaussianBlurInitialised(image: array<Byte>, width: int, height: int)
    requires 0 < width && 0 <= height && image.Length == width * height
    modifies image
    ensures image[..] == BlurResult(old(image[..]), width, height, old(image[..]))
  {
    ApplyGaussianBlur(image, width, height, Some(image[..]));
  }

  /** A flat image with an uninitialised scratch buffer of zeros: the blur of the
      flat 3x3 image of 128s has a 0 in its corner. */
  lemma BlurBorderFromMemory()
    ensures BlurResult(seq(9, _ => 128 as Byte), 3, 3, seq(9, _ => 0 as Byte))[0] == 0
  {
    var r := BlurResult(seq(9, _ => 128 as Byte), 3, 3, seq(9, _ => 0 as Byte));
    assert Idx(3, 0, 0) == 0;
  }

  /** With the scratch buffer initialised from the image, a flat image stays flat
      everywhere, border included. */
  lemma BlurInitialisedOfConstant(img: seq<Byte>, w: int, h: int, c: Byte)
    requires 0 < w && |img| == w * h
    requires forall i :: 0 <= i < |img| ==> img[i] == c
    ensures forall i :: 0 <= i < w * h ==> BlurResult(img, w, h, img)[i] == c
  {
    var r := BlurResult(img, w, h, img);
    forall i | 0 <= i < w * h
      ensures r[i] == c
    {
      IdxOnto(w, h, i);
      var x, y := i % w, i / w;
      if Inner(w, h, x, y) {
        BlurOfConstant(img, w, h, x, y, c);
      }
    }
  }

  /** The output buffer after visiting the pixels before (x, y). */
  ghost predicate FilteredUpTo(output: array<Byte>, img: seq<Byte>, w: int, h: int, out0: seq<Byte>, y: int, x: int)
    reads output
  {
    forall yy, xx :: 0 <= yy < h && 0 <= xx < w ==>
      0 <= Idx(w, xx, yy) < output.Length && Idx(w, xx, yy) < |out0| &&
      output[Idx(w, xx, yy)] == if Inner(w, h, xx, yy) && Visited(y, x, yy, xx) then LaplaceAt(img, w, xx, yy)
                                else out0[Idx(w, xx, yy)]
  }

  /** One row of the Laplace loop. */
  method LaplaceRow(image: array<Byte>, output: array<Byte>, width: int, height: int, y: int,
                    ghost img: seq<Byte>, ghost out0: seq<Byte>)
    requires image != output && image.Length == width * height && 1 <= y < height - 1 && img == image[..]
    requires FilteredUpTo(output, img, width, height, out0, y, 0)
    modifies output
    ensures FilteredUpTo(output, img, width, height, out0, y + 1, 0)
  {
    var x := 1;
    while x < width - 1
      invariant 1 <= x <= width - 1 || (x == 1 && width < 2)
      invariant FilteredUpTo(output, img, width, height, out0, y, x)
    {
      var sum := WindowSum(image, width, height, x, y, LaplaceKernel);
      sum := if sum > 255 then 255 else if sum < 0 then 0 else sum;
      IdxBounds(width, height, x, y);
      IdxDistinct(width, x, y);
      output[y * width + x] := sum as Byte;
      x := x + 1;
    }
  }

  /** `apply_laplace_filter`: inner pixels of `output` get the clamped filter value,
      border pixels of `output` are not written. */
  method ApplyLaplaceFilter(image: array<Byte>, output: array<Byte>, width: int, height: int)
    requires image != output && image.Length == width * height && output.Length == width * height
    modifies output
    ensures forall x, y :: 0 <= x < width && 0 <= y < height ==>
      0 <= Idx(width, x, y) < output.Length &&
      output[Idx(width, x, y)] == if Inner(width, height, x, y) then LaplaceAt(image[..], width, x, y)
                                  else old(output[Idx(width, x, y)])
  {
    ghost var img := image[..];
    ghost var out0 := output[..];
    forall x, y | 0 <= x < width && 0 <= y < height
      ensures 0 <= Idx(width, x, y) < output.Length
    {
      IdxBounds(width, height, x, y);
    }
    var y := 1;
    while y < height - 1
      invariant 1 <= y <= height - 1 || (y == 1 && height < 2)
      invariant FilteredUpTo(output, img, width, height, out0, y, 0)
    {
      LaplaceRow(image, output, width, height, y, img, out0);
      y := y + 1;
    }
  }

  /** `build_boolean_matrix`: column `i`, row `j` of the mask is set when pixel
      (i, j) is not 0. */
  method BuildBooleanMatrix(image: array<Byte>, width: int, height: int) returns (m: array2<bool>)
    requires 0 <= width && 0 <= height && image.Length == width * height
    ensures fresh(m) && m.Length0 == width && m.Length1 == height
    ensures forall i, j :: 0 <= i < width && 0 <= j < height ==>
      0 <= Idx(width, i, j) < image.Length && m[i, j] == (image[Idx(width, i, j)] > 0)
  {
    m := new bool[width, height];
    for i := 0 to width
      invariant forall ii, j :: 0 <= ii < i && 0 <= j < height ==>
        0 <= Idx(width, ii, j) < image.Length && m[ii, j] == (image[Idx(width, ii, j)] > 0)
    {
      for j := 0 to height
        invariant forall ii, jj :: 0 <= ii < i && 0 <= jj < height ==>
          0 <= Idx(width, ii, jj) < image.Length && m[ii, jj] == (image[Idx(width, ii, jj)] > 0)
        invariant forall jj :: 0 <= jj < j ==>
          0 <= Idx(width, i, jj) < image.Length && m[i, jj] == (image[Idx(width, i, jj)] > 0)
      {
        IdxBounds(width, height, i, j);
        m[i, j] := image[j * width + i] > 0;
      }
    }
  }

  /** The mask as columns, the form the run definitions of the Go vectoriser take. */
  ghost function Columns(m: array2<bool>): (pm: seq<seq<bool>>)
    reads m
    ensures |pm| == m.Length0
    ensures forall i :: 0 <= i < m.Length0 ==> |pm[i]| == m.Length1
    ensures forall i, j :: 0 <= i < m.Length0 && 0 <= j < m.Length1 ==> pm[i][j] == m[i, j]
  {
    seq(m.Length0, i reads m requires 0 <= i < m.Length0 =>
      seq(m.Length1, j reads m requires 0 <= j < m.Length1 => m[i, j]))
  }

  lemma ColumnsValid(m: array2<bool>, w: int, h: int)
    requires w <= m.Length0 && h <= m.Length1
    ensures HorizontalLines.Valid(Columns(m), w, h)
  {
  }

  /** The first `3 * |runs|` ints of `list` are the triples `z, from, to` of `runs`. */
  ghost predicate Stored(list: array<int>, listSize: int, runs: seq<HorizontalLines.Run>)
    reads list
  {
    listSize == 3 * |runs| <= list.Length &&
    forall n :: 0 <= n < |runs| ==>
      list[3 * n] == runs[n].z && list[3 * n + 1] == runs[n].from && list[3 * n + 2] == runs[n].to
  }

  /** The three stores `list[listSize++] = z; ... = from; ... = to;`. */
  method Append(list: array<int>, listSize: int, z: int, from: int, to: int, ghost runs: seq<HorizontalLines.Run>)
    returns (size: int)
    requires Stored(list, listSize, runs) && listSize + 3 <= list.Length
    modifies list
    ensures size == listSize + 3 && Stored(list, size, runs + [HorizontalLines.Run(z, from, to)])
  {
    list[listSize] := z;
    list[listSize + 1] := from;
    list[listSize + 2] := to;
    size := listSize + 3;
  }

  /** One cell of the C scan: the body of the inner loop at column `x`, with the
      three stores of a run that closes here. */
  method ScanCell(list: array<int>, listSize0: int, ghost runs0: seq<HorizontalLines.Run>,
                  ghost row: seq<bool>, width: int, z: int, x: int, isPixel: bool,
                  isLine0: bool, from0: int, to0: int, ghost total: seq<HorizontalLines.Run>)
    returns (isLine: bool, from: int, to: int, listSize: int, ghost runs: seq<HorizontalLines.Run>)
    requires width == |row| && 0 <= x < width && isPixel == row[x]
    requires HorizontalLines.ScanInv(row, z, x, isLine0, from0, to0, runs0, total)
    requires Stored(list, listSize0, runs0) && 3 * |total| <= list.Length
    modifies list
    ensures HorizontalLines.ScanInv(row, z, x + 1, isLine, from, to, runs, total)
    ensures x + 1 == |row| ==> !isLine
    ensures Stored(list, listSize, runs)
  {
    isLine, from, to, listSize, runs := isLine0, from0, to0, listSize0, runs0;
    if isLine {
      if isPixel {
        assert HorizontalLines.RunEnd(row, to) == HorizontalLines.RunEnd(row, x);
        to := x;
        if x + 1 == width {
          Associative(runs, [HorizontalLines.Run(z, from, to)], []);
          listSize := Append(list, listSize, z, from, to, runs);
          runs := runs + [HorizontalLines.Run(z, from, to)];
          isLine := false;
        }
      } else {
        assert HorizontalLines.RunEnd(row, to) == to;
        HorizontalLines.RunsFromSkip(row, z, x);
        Associative(runs, [HorizontalLines.Run(z, from, to)], HorizontalLines.RunsFrom(row, z, x));
        listSize := Append(list, listSize, z, from, to, runs);
        runs := runs + [HorizontalLines.Run(z, from, to)];
        isLine := false;
      }
    } else {
      if isPixel {
        HorizontalLines.RunsFromStart(row, z, x);
        from := x;
        to := x;
        if x + 1 == width {
          Associative(runs, [HorizontalLines.Run(z, from, to)], []);
          listSize := Append(list, listSize, z, from, to, runs);
          runs := runs + [HorizontalLines.Run(z, from, to)];
        } else {
          isLine := true;
        }
      } else {
        HorizontalLines.RunsFromSkip(row, z, x);
      }
    }
  }

  /** The inner loop of the C scan over row `z`; it has the state machine of the Go
      scan and stores the same runs. */
  method ScanRow(pointMatrix: array2<bool>, imageWidth: int, imageHeight: int, z: int,
                 list: array<int>, listSize0: int, ghost runs0: seq<HorizontalLines.Run>, ghost pm: seq<seq<bool>>)
    returns (listSize: int, ghost runs: seq<HorizontalLines.Run>)
    requires 0 <= imageWidth <= pointMatrix.Length0 && 0 <= z < imageHeight <= pointMatrix.Length1
    requires pm == Columns(pointMatrix) && HorizontalLines.Valid(pm, imageWidth, imageHeight)
    requires Stored(list, listSize0, runs0)
    requires 3 * (|runs0| + |HorizontalLines.RunsFrom(HorizontalLines.Row(pm, imageWidth, imageHeight, z), z, 0)|)
             <= list.Length
    modifies list
    ensures runs == runs0 + HorizontalLines.RunsFrom(HorizontalLines.Row(pm, imageWidth, imageHeight, z), z, 0)
    ensures Stored(list, listSize, runs)
  {
    ghost var row := HorizontalLines.Row(pm, imageWidth, imageHeight, z);
    ghost var total := runs0 + HorizontalLines.RunsFrom(row, z, 0);
    listSize, runs := listSize0, runs0;
    var from, to := 0, 0;
    var isLine := false;
    var x := 0;
    while x < imageWidth
      invariant 0 <= x <= imageWidth
      invariant Stored(list, listSize, runs)
      invariant HorizontalLines.ScanInv(row, z, x, isLine, from, to, runs, total)
      invariant x == imageWidth ==> !isLine
    {
      var isPixel := pointMatrix[x, z];
      assert isPixel == row[x];
      isLine, from, to, listSize, runs :=
        ScanCell(list, listSize, runs, row, imageWidth, z, x, isPixel, isLine, from, to, total);
      x := x + 1;
    }
    assert !isLine;
  }

  lemma MulLe(a: int, b: int, w: int)
    requires 0 <= a <= b && 0 <= w
    ensures a * w <= b * w
  {
  }

  /** The runs up to row `z` and those of row `z` fit in `w * h * 3` ints. */
  lemma RoomForRow(pm: seq<seq<bool>>, w: int, h: int, z: int)
    requires HorizontalLines.Valid(pm, w, h) && 0 <= w && 0 <= z < h
    ensures 3 * (|HorizontalLines.RunsUpTo(pm, w, h, z)| +
                 |HorizontalLines.RunsFrom(HorizontalLines.Row(pm, w, h, z), z, 0)|) <= w * h * 3
  {
    HorizontalLines.RunsUpToCount(pm, w, h, z);
    RoomArithmetic(|HorizontalLines.RunsUpTo(pm, w, h, z)|,
                   |HorizontalLines.RunsFrom(HorizontalLines.Row(pm, w, h, z), z, 0)|, w, h, z);
  }

  lemma RoomArithmetic(c1: int, c2: int, w: int, h: int, z: int)
    requires c1 <= z * w && c2 <= w && 0 <= w && 0 <= z < h
    ensures 3 * (c1 + c2) <= w * h * 3
  {
    MulLe(z + 1, h, w);
    assert (z + 1) * w == z * w + w;
  }

  /** The scan of the C `GetHorizontalLines` into `list`: every row, top to bottom,
      within the `imageWidth * imageHeight * 3` ints allocated for it. */
  method CollectRuns(pointMatrix: array2<bool>, imageWidth: int, imageHeight: int, ghost pm: seq<seq<bool>>)
    returns (list: array<int>, listSize: int, ghost runs: seq<HorizontalLines.Run>)
    requires 0 <= imageWidth <= pointMatrix.Length0 && 0 <= imageHeight <= pointMatrix.Length1
    requires pm == Columns(pointMatrix) && HorizontalLines.Valid(pm, imageWidth, imageHeight)
    ensures fresh(list)
    ensures runs == HorizontalLines.AllRuns(pm, imageWidth, imageHeight) && Stored(list, listSize, runs)
  {
    MulLe(0, imageHeight, imageWidth);
    list := new int[imageWidth * imageHeight * 3];
    listSize, runs := 0, [];
    var z := 0;
    while z < imageHeight
      modifies list
      invariant 0 <= z <= imageHeight
      invariant runs == HorizontalLines.RunsUpTo(pm, imageWidth, imageHeight, z)
      invariant Stored(list, listSize, runs)
    {
      RoomForRow(pm, imageWidth, imageHeight, z);
      listSize, runs := ScanRow(pointMatrix, imageWidth, imageHeight, z, list, listSize, runs, pm);
      z := z + 1;
    }
  }

  /** The first `n` segments of `out`: four ints `from, z, to, z` per run, the start
      and end points of the segment (x, y) = (column, row). */
  ghost predicate Segments(out: array<int>, n: int, runs: seq<HorizontalLines.Run>)
    reads out
  {
    0 <= n <= |runs| && 4 * n <= out.Length &&
    forall m :: 0 <= m < n ==>
      out[4 * m] == runs[m].from && out[4 * m + 1] == runs[m].z &&
      out[4 * m + 2] == runs[m].to && out[4 * m + 3] == runs[m].z
  }

  /** One iteration of the C conversion loop: the triple at `i = 3 * n` becomes the
      four ints of segment `n`. */
  method WriteSegment(lines: array<int>, linesSize: int, list: array<int>, listSize: int, i: int,
                      ghost n: int, ghost runs: seq<HorizontalLines.Run>)
    requires lines != list && Stored(list, listSize, runs) && i == 3 * n && linesSize == 4 * n && n < |runs|
    requires 4 * |runs| <= lines.Length && Segments(lines, n, runs)
    modifies lines
    ensures Segments(lines, n + 1, runs)
  {
    var startX, startY := list[i + 1], list[i];
    if list[i + 1] != list[i + 2] {
      var endX, endY := list[i + 2], list[i];
      lines[linesSize] := startX;
      lines[linesSize + 1] := startY;
      lines[linesSize + 2] := endX;
      lines[linesSize + 3] := endY;
    } else {
      lines[linesSize] := startX;
      lines[linesSize + 1] := startY;
      lines[linesSize + 2] := startX;
      lines[linesSize + 3] := startY;
    }
  }

  /** The C `GetHorizontalLines`: `lines` holds `size` segments, one per run of the
      mask in scan order; a single-cell run is a segment from a point to itself. */
  method GetHorizontalLines(pointMatrix: array2<bool>, imageWidth: int, imageHeight: int)
    returns (lines: array<int>, size: int)
    requires 0 <= imageWidth <= pointMatrix.Length0 && 0 <= imageHeight <= pointMatrix.Length1
    ensures HorizontalLines.Valid(Columns(pointMatrix), imageWidth, imageHeight)
    ensures size == |HorizontalLines.AllRuns(Columns(pointMatrix), imageWidth, imageHeight)|
    ensures fresh(lines) && lines.Length == 4 * size
    ensures Segments(lines, size, HorizontalLines.AllRuns(Columns(pointMatrix), imageWidth, imageHeight))
  {
    ghost var pm := Columns(pointMatrix);
    ColumnsValid(pointMatrix, imageWidth, imageHeight);
    var list, listSize, runs := CollectRuns(pointMatrix, imageWidth, imageHeight, pm);
    lines := new int[listSize / 3 * 4];
    var linesSize := 0;
    ghost var n := 0;
    var i := 0;
    while i < listSize
      invariant i == 3 * n && linesSize == 4 * n && Stored(list, listSize, runs)
      invariant Segments(lines, n, runs)
    {
      WriteSegment(lines, linesSize, list, listSize, i, n, runs);
      linesSize := linesSize + 4;
      i := i + 3;
      n := n + 1;
    }
    size := linesSize / 4;
  }
}
