/** The Laplacian filter of a grayscale image (remarkablepage/custom-laplacian.go).

    `LaplacianGray` picks one of two constant 3x3 kernels and convolves with it,
    anchored at the kernel's centre, so every margin of the padded image is 1 pixel.
    The documentation comment of `K8` shows the 4-neighbour kernel with a centre of
    -8; the code uses the full 8-neighbour kernel, and that is what is modelled. */
module Laplacian {
  import opened Common
  import opened Padding
  import opened Convolution

  /** `LaplacianKernel` is an integer enumeration, so other values reach the switch. */
  const K4: int := 0
  const K8: int := 1

  const Kernel4: Kernel := Kernel(3, 3, [[0, 1, 0], [1, -4, 1], [0, 1, 0]])
  const Kernel8: Kernel := Kernel(3, 3, [[1, 1, 1], [1, -8, 1], [1, 1, 1]])

  /** The anchor `LaplacianGray` passes: the kernel's centre. */
  const Centre: Point := Point(1, 1)

  datatype LaplacianError = InvalidKernel | ConvolutionFailed(cause: PadError)

  /** The `switch` of `LaplacianGray`: a symmetric 3x3 kernel whose weights sum to 0
      for `K4` and `K8`, nothing for any other value. */
  function SelectKernel(kernel: int): (r: Option<Kernel>)
    ensures r.Some? <==> kernel == K4 || kernel == K8
    ensures r.Some? ==> ValidKernel(r.value) && Size(r.value) == Point(3, 3)
    ensures r.Some? ==> WeightSum(r.value, 3) == 0
    ensures r.Some? ==> forall kx, ky :: KAt(r.value, kx, ky) == KAt(r.value, ky, kx)
    ensures r.Some? ==> KAt(r.value, 1, 1) < 0
  {
    if kernel == K4 then Some(Kernel4)
    else if kernel == K8 then Some(Kernel8)
    else None
  }

  /** `LaplacianGray` as a value. */
  function Laplacian(img: Grid, w: nat, h: nat, border: int, kernel: int): (r: Result<Grid, LaplacianError>)
    ensures r.Ok? ==> IsGrid(r.value, w, h)
  {
    match SelectKernel(kernel)
    case None => Err(InvalidKernel)
    case Some(k) =>
      match Convolve(img, w, h, k, Centre, border)
      case Err(e) => Err(ConvolutionFailed(e))
      case Ok(g) => Ok(g)
  }

  /** The centre anchor of a 3x3 kernel gives a 1-pixel margin on every side. */
  lemma CentrePaddings()
    ensures CalculatePaddings(Point(3, 3), Centre) == Ok(Paddings(1, 1, 1, 1))
  {
  }

  /** The errors: an invalid kernel is rejected first; with a valid kernel only an
      unknown border fails, since the padding for the centre anchor always succeeds. */
  lemma LaplacianErrors(img: Grid, w: nat, h: nat, border: int, kernel: int)
    ensures Laplacian(img, w, h, border, kernel) == Err(InvalidKernel) <==> kernel != K4 && kernel != K8
    ensures Laplacian(img, w, h, border, kernel) == Err(ConvolutionFailed(UnknownBorder)) <==>
      (kernel == K4 || kernel == K8) && border !in {CBorderConstant, CBorderReplicate, CBorderReflect}
    ensures Laplacian(img, w, h, border, kernel).Ok? <==>
      (kernel == K4 || kernel == K8) && border in {CBorderConstant, CBorderReplicate, CBorderReflect}
  {
    CentrePaddings();
  }

  /** The padded image the kernel runs over. */
  function PaddedForLaplacian(img: Grid, w: nat, h: nat, border: int): (g: Grid)
    requires border in {CBorderConstant, CBorderReplicate, CBorderReflect}
    ensures IsGrid(g, w + 2, h + 2)
  {
    PadWith(img, w, h, Paddings(1, 1, 1, 1), border).value
  }

  /** Output pixel (x, y) is the window sum of the selected kernel over the padded
      image, clamped into [0, 255]: negative responses become 0. */
  lemma LaplacianCell(img: Grid, w: nat, h: nat, border: int, kernel: int, x: int, y: int)
    requires kernel == K4 || kernel == K8
    requires border in {CBorderConstant, CBorderReplicate, CBorderReflect}
    requires 0 <= y < h && 0 <= x < w
    ensures Laplacian(img, w, h, border, kernel).Ok?
    ensures var s := WindowSum(PaddedForLaplacian(img, w, h, border), SelectKernel(kernel).value, x, y, 3);
      Laplacian(img, w, h, border, kernel).value[y][x] as int == if s < 0 then 0 else if s > 255 then 255 else s
  {
    var k := SelectKernel(kernel).value;
    CentrePaddings();
    ConvolveCell(img, w, h, k, Centre, border, x, y);
    PixelIsClampedSum(PaddedForLaplacian(img, w, h, border), k, x, y);
  }

  /** A 3-wide kernel row, term by term. */
  lemma RowSum3(g: Grid, k: Kernel, x: int, y: int, ky: int)
    requires k.width == 3
    ensures RowSum(g, k, x, y, ky, 3) ==
      GAt(g, x, y + ky) as int * KAt(k, 0, ky) + GAt(g, x + 1, y + ky) as int * KAt(k, 1, ky)
      + GAt(g, x + 2, y + ky) as int * KAt(k, 2, ky)
  {
    assert RowSum(g, k, x, y, ky, 1) == GAt(g, x, y + ky) as int * KAt(k, 0, ky);
  }

  /** The K4 window sum is the 4-neighbour Laplacian around the window's centre. */
  lemma Kernel4Stencil(g: Grid, x: int, y: int)
    ensures WindowSum(g, Kernel4, x, y, 3) ==
      GAt(g, x + 1, y) as int + GAt(g, x, y + 1) as int - 4 * GAt(g, x + 1, y + 1) as int
      + GAt(g, x + 2, y + 1) as int + GAt(g, x + 1, y + 2) as int
  {
    var k := Kernel4;
    RowSum3(g, k, x, y, 0);
    RowSum3(g, k, x, y, 1);
    RowSum3(g, k, x, y, 2);
    assert KAt(k, 0, 0) == 0 && KAt(k, 1, 0) == 1 && KAt(k, 2, 0) == 0;
    assert KAt(k, 0, 1) == 1 && KAt(k, 1, 1) == -4 && KAt(k, 2, 1) == 1;
    assert KAt(k, 0, 2) == 0 && KAt(k, 1, 2) == 1 && KAt(k, 2, 2) == 0;
    assert WindowSum(g, k, x, y, 1) == RowSum(g, k, x, y, 0, 3);
  }

  /** The K8 window sum is the sum of the 8 neighbours less 8 times the centre. */
  lemma Kernel8Stencil(g: Grid, x: int, y: int)
    ensures WindowSum(g, Kernel8, x, y, 3) ==
      GAt(g, x, y) as int + GAt(g, x + 1, y) as int + GAt(g, x + 2, y) as int
      + GAt(g, x, y + 1) as int - 8 * GAt(g, x + 1, y + 1) as int + GAt(g, x + 2, y + 1) as int
      + GAt(g, x, y + 2) as int + GAt(g, x + 1, y + 2) as int + GAt(g, x + 2, y + 2) as int
  {
    var k := Kernel8;
    RowSum3(g, k, x, y, 0);
    RowSum3(g, k, x, y, 1);
    RowSum3(g, k, x, y, 2);
    assert KAt(k, 0, 0) == 1 && KAt(k, 1, 0) == 1 && KAt(k, 2, 0) == 1;
    assert KAt(k, 0, 1) == 1 && KAt(k, 1, 1) == -8 && KAt(k, 2, 1) == 1;
    assert KAt(k, 0, 2) == 1 && KAt(k, 1, 2) == 1 && KAt(k, 2, 2) == 1;
    assert WindowSum(g, k, x, y, 1) == RowSum(g, k, x, y, 0, 3);
  }

  /** Away from the image's edge the 3x3 window of the padded image is the image's
      own 3x3 neighbourhood: the margins are not read. */
  lemma InteriorWindow(img: Grid, w: nat, h: nat, border: int, x: int, y: int)
    requires IsGrid(img, w, h)
    requires border in {CBorderConstant, CBorderReplicate, CBorderReflect}
    requires 1 <= x < w - 1 && 1 <= y < h - 1
    ensures var g := PaddedForLaplacian(img, w, h, border);
      GAt(g, x, y) == img[y - 1][x - 1] && GAt(g, x + 1, y) == img[y - 1][x] && GAt(g, x + 2, y) == img[y - 1][x + 1]
    ensures var g := PaddedForLaplacian(img, w, h, border);
      GAt(g, x, y + 1) == img[y][x - 1] && GAt(g, x + 1, y + 1) == img[y][x] && GAt(g, x + 2, y + 1) == img[y][x + 1]
    ensures var g := PaddedForLaplacian(img, w, h, border);
      GAt(g, x, y + 2) == img[y + 1][x - 1] && GAt(g, x + 1, y + 2) == img[y + 1][x] && GAt(g, x + 2, y + 2) == img[y + 1][x + 1]
  {
    var p := Paddings(1, 1, 1, 1);
    PadKeepsOriginal(img, w, h, p, border, x - 1, y - 1);
    PadKeepsOriginal(img, w, h, p, border, x, y - 1);
    PadKeepsOriginal(img, w, h, p, border, x + 1, y - 1);
    PadKeepsOriginal(img, w, h, p, border, x - 1, y);
    PadKeepsOriginal(img, w, h, p, border, x, y);
    PadKeepsOriginal(img, w, h, p, border, x + 1, y);
    PadKeepsOriginal(img, w, h, p, border, x - 1, y + 1);
    PadKeepsOriginal(img, w, h, p, border, x, y + 1);
    PadKeepsOriginal(img, w, h, p, border, x + 1, y + 1);
  }

  /** Away from the image's edge, K4 yields the clamped 4-neighbour Laplacian of the
      image itself. */
  lemma InteriorLaplacian4(img: Grid, w: nat, h: nat, border: int, x: int, y: int)
    requires IsGrid(img, w, h)
    requires border in {CBorderConstant, CBorderReplicate, CBorderReflect}
    requires 1 <= x < w - 1 && 1 <= y < h - 1
    ensures Laplacian(img, w, h, border, K4).Ok?
    ensures var s := img[y - 1][x] as int + img[y][x - 1] as int - 4 * img[y][x] as int
                     + img[y][x + 1] as int + img[y + 1][x] as int;
      Laplacian(img, w, h, border, K4).value[y][x] as int == if s < 0 then 0 else if s > 255 then 255 else s
  {
    LaplacianCell(img, w, h, border, K4, x, y);
    Kernel4Stencil(PaddedForLaplacian(img, w, h, border), x, y);
    InteriorWindow(img, w, h, border, x, y);
  }

  /** Away from the image's edge, K8 yields the clamped 8-neighbour Laplacian of the
      image itself. */
  lemma InteriorLaplacian8(img: Grid, w: nat, h: nat, border: int, x: int, y: int)
    requires IsGrid(img, w, h)
    requires border in {CBorderConstant, CBorderReplicate, CBorderReflect}
    requires 1 <= x < w - 1 && 1 <= y < h - 1
    ensures Laplacian(img, w, h, border, K8).Ok?
    ensures var s := img[y - 1][x - 1] as int + img[y - 1][x] as int + img[y - 1][x + 1] as int
                     + img[y][x - 1] as int - 8 * img[y][x] as int + img[y][x + 1] as int
                     + img[y + 1][x - 1] as int + img[y + 1][x] as int + img[y + 1][x + 1] as int;
      Laplacian(img, w, h, border, K8).value[y][x] as int == if s < 0 then 0 else if s > 255 then 255 else s
  {
    LaplacianCell(img, w, h, border, K8, x, y);
    Kernel8Stencil(PaddedForLaplacian(img, w, h, border), x, y);
    InteriorWindow(img, w, h, border, x, y);
  }

  /** A constant image has a constant window under the border policies that copy
      image pixels, provided every copied row and column exists. */
  lemma ConstantWindow(img: Grid, w: nat, h: nat, border: int, c: Byte, x: int, y: int)
    requires IsGrid(img, w, h)
    requires forall j, i :: 0 <= j < h && 0 <= i < w ==> img[j][i] == c
    requires (border == CBorderReplicate && h >= 2) || (border == CBorderReflect && w >= 2 && h >= 2)
    requires 0 <= y < h && 0 <= x < w
    ensures forall j, i :: y <= j < y + 3 && x <= i < x + 3 ==> GAt(PaddedForLaplacian(img, w, h, border), i, j) == c
  {
    var p := Paddings(1, 1, 1, 1);
    forall j, i | y <= j < y + 3 && x <= i < x + 3
      ensures GAt(PaddedForLaplacian(img, w, h, border), i, j) == c
    {
      if border == CBorderReplicate {
        ReplicateOfConstant(img, w, h, p, c, i, j);
      } else {
        ReflectOfConstant(img, w, h, p, c, i, j);
      }
    }
  }

  /** In the padded image of a constant image no cell exceeds the constant: every
      cell is an image pixel, a copy of another cell, or 0. */
  lemma PaddedAtMostConstant(img: Grid, w: nat, h: nat, p: Paddings, border: int, c: Byte, x: int, y: int)
    requires IsGrid(img, w, h)
    requires forall j, i :: 0 <= j < h && 0 <= i < w ==> img[j][i] == c
    ensures PaddedAt(img, w, h, p, border, x, y) <= c
  {
    forall i, j ensures GAt(img, i, j) <= c {
      if 0 <= j < h && 0 <= i < w {
        assert GAt(img, i, j) == img[j][i];
      }
    }
  }

  /** Both kernels weigh 0 in total around a negative centre, so a constant image
      gives an all-zero response under every border policy: the centre is the
      constant, no other window cell exceeds it, and the negative sum clamps to 0. */
  lemma LaplacianOfConstant(img: Grid, w: nat, h: nat, border: int, kernel: int, c: Byte)
    requires IsGrid(img, w, h)
    requires forall j, i :: 0 <= j < h && 0 <= i < w ==> img[j][i] == c
    requires kernel == K4 || kernel == K8
    requires border in {CBorderConstant, CBorderReplicate, CBorderReflect}
    ensures Laplacian(img, w, h, border, kernel).Ok?
    ensures forall y, x :: 0 <= y < h && 0 <= x < w ==> Laplacian(img, w, h, border, kernel).value[y][x] == 0
  {
    LaplacianErrors(img, w, h, border, kernel);
    forall y, x | 0 <= y < h && 0 <= x < w
      ensures Laplacian(img, w, h, border, kernel).value[y][x] == 0
    {
      ConstantCell(img, w, h, border, kernel, c, x, y);
    }
  }

  lemma ConstantCell(img: Grid, w: nat, h: nat, border: int, kernel: int, c: Byte, x: int, y: int)
    requires IsGrid(img, w, h)
    requires forall j, i :: 0 <= j < h && 0 <= i < w ==> img[j][i] == c
    requires kernel == K4 || kernel == K8
    requires border in {CBorderConstant, CBorderReplicate, CBorderReflect}
    requires 0 <= y < h && 0 <= x < w
    ensures Laplacian(img, w, h, border, kernel).Ok?
    ensures Laplacian(img, w, h, border, kernel).value[y][x] == 0
  {
    var p := Paddings(1, 1, 1, 1);
    var g := PaddedForLaplacian(img, w, h, border);
    LaplacianCell(img, w, h, border, kernel, x, y);
    forall j, i | y <= j < y + 3 && x <= i < x + 3
      ensures GAt(g, i, j) <= c
    {
      PaddedAtMostConstant(img, w, h, p, border, c, i, j);
    }
    PadKeepsOriginal(img, w, h, p, border, x, y);
    assert GAt(g, x + 1, y + 1) == c;
    if kernel == K4 {
      Kernel4Stencil(g, x, y);
    } else {
      Kernel8Stencil(g, x, y);
    }
  }

  /** `LaplacianGray`: the kernel switch, then `ConvolveGray` at the centre anchor. */
  method LaplacianGray(gray: array2<Byte>, border: int, kernel: int) returns (r: Result<array2<Byte>, LaplacianError>)
    ensures r.Err? <==> Laplacian(Pixels(gray), gray.Length1, gray.Length0, border, kernel).Err?
    ensures r.Err? ==> r.error == Laplacian(Pixels(gray), gray.Length1, gray.Length0, border, kernel).error
    ensures r.Ok? ==> fresh(r.value) && r.value.Length0 == gray.Length0 && r.value.Length1 == gray.Length1
    ensures r.Ok? ==> forall y, x :: 0 <= y < gray.Length0 && 0 <= x < gray.Length1 ==>
      r.value[y, x] == Laplacian(Pixels(gray), gray.Length1, gray.Length0, border, kernel).value[y][x]
  {
    var laplacianKernel: Kernel;
    if kernel == K4 {
      laplacianKernel := Kernel4;
    } else if kernel == K8 {
      laplacianKernel := Kernel8;
    } else {
      return Err(InvalidKernel);
    }
    var c := ConvolveGray(gray, laplacianKernel, Centre, border);
    if c.Err? {
      return Err(ConvolutionFailed(c.error));
    }
    return Ok(c.value);
  }
}
