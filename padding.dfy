/** Border padding of a grayscale image (remarkablepage/custom-padding.go).

    `PaddingGray` derives four margins from a kernel size and an anchor, copies the
    image into the middle of a larger buffer and fills the margins under one of three
    border policies. The pure functions below give the value of each cell of the buffer
    after each step; the methods perform the steps on the buffer, loop by loop, as the source does,
    and are proved to produce exactly those values. */
module Padding {
  import opened Common

  /** Go's `image.Point`. */
  datatype Point = Point(x: int, y: int)

  /** `CBorder` is an integer enumeration in the source, so any other value can reach
      `PaddingGray` and is rejected there. */
  const CBorderConstant: int := 0
  const CBorderReplicate: int := 1
  const CBorderReflect: int := 2

  datatype Paddings = Paddings(left: int, right: int, top: int, bottom: int)

  datatype PadError = NegativeSize | NegativeAnchor | AnchorOutsideKernel | UnknownBorder

  /** What `calculatePaddings` guarantees on success: the anchor margins are
      non-negative and the far margins are at least -1 (an anchor equal to the kernel
      size is accepted). */
  predicate ValidPaddings(p: Paddings)
  {
    p.left >= 0 && p.top >= 0 && p.right >= -1 && p.bottom >= -1
  }

  /** `calculatePaddings`: the anchor cell plus the margins on either side span the
      kernel, the anchor margins being the anchor's coordinates. */
  function CalculatePaddings(kernelSize: Point, anchor: Point): (r: Result<Paddings, PadError>)
    ensures r == Err(NegativeSize) <==> kernelSize.x < 0 || kernelSize.y < 0
    ensures r == Err(NegativeAnchor) <==>
      kernelSize.x >= 0 && kernelSize.y >= 0 && (anchor.x < 0 || anchor.y < 0)
    ensures r == Err(AnchorOutsideKernel) <==>
      kernelSize.x >= 0 && kernelSize.y >= 0 && anchor.x >= 0 && anchor.y >= 0 &&
      (anchor.x > kernelSize.x || anchor.y > kernelSize.y)
    ensures r.Ok? <==>
      kernelSize.x >= 0 && kernelSize.y >= 0 && 0 <= anchor.x <= kernelSize.x && 0 <= anchor.y <= kernelSize.y
    ensures r.Err? ==> r.error != UnknownBorder
    ensures r.Ok? ==> ValidPaddings(r.value)
    ensures r.Ok? ==> r.value.left == anchor.x && r.value.top == anchor.y
    ensures r.Ok? ==> r.value.left + 1 + r.value.right == kernelSize.x
    ensures r.Ok? ==> r.value.top + 1 + r.value.bottom == kernelSize.y
  {
    if kernelSize.x < 0 || kernelSize.y < 0 then Err(NegativeSize)
    else if anchor.x < 0 || anchor.y < 0 then Err(NegativeAnchor)
    else if anchor.x > kernelSize.x || anchor.y > kernelSize.y then Err(AnchorOutsideKernel)
    else Ok(Paddings(anchor.x, kernelSize.x - anchor.x - 1, anchor.y, kernelSize.y - anchor.y - 1))
  }

  /** `getRectangleFromPaddings`: the extent of the padded image. */
  function GetRectangleFromPaddings(p: Paddings, imgSize: Point): (r: Point)
    ensures r.x - p.left - p.right == imgSize.x && r.y - p.top - p.bottom == imgSize.y
  {
    Point(p.left + p.right + imgSize.x, p.top + p.bottom + imgSize.y)
  }

  // The padded image cell by cell. Each function below is the value of cell (x, y)
  // once the corresponding step has run; every one is 0 outside the buffer, which is
  // what a read of a cell past the edge yields.

  predicate InBuffer(w: int, h: int, p: Paddings, x: int, y: int)
  {
    0 <= y < h + p.top + p.bottom && 0 <= x < w + p.left + p.right
  }

  predicate InImage(w: int, h: int, p: Paddings, x: int, y: int)
  {
    p.left <= x < p.left + w && p.top <= y < p.top + h
  }

  /** After the copy: image pixel (x - left, y - top) inside the image, zero elsewhere
      (the fresh buffer of `image.NewGray`). */
  function BaseAt(img: Grid, w: int, h: int, p: Paddings, x: int, y: int): Byte
  {
    if InBuffer(w, h, p, x, y) && InImage(w, h, p, x, y) then GAt(img, x - p.left, y - p.top) else 0
  }

  /** After `topPaddingReplicate`: image columns above the image copy ORIGINAL row
      `top` (not row 0: this is the row the code reads). */
  function TopReplicateAt(img: Grid, w: int, h: int, p: Paddings, x: int, y: int): Byte
  {
    if InBuffer(w, h, p, x, y) && p.left <= x < w + p.left && 0 <= y < p.top
    then GAt(img, x - p.left, p.top) else BaseAt(img, w, h, p, x, y)
  }

  /** After `bottomPaddingReplicate`: image columns below the image copy its last row. */
  function BottomReplicateAt(img: Grid, w: int, h: int, p: Paddings, x: int, y: int): Byte
  {
    if InBuffer(w, h, p, x, y) && p.left <= x < w + p.left && p.top + h <= y < h + p.top + p.bottom
    then GAt(img, x - p.left, h - 1) else TopReplicateAt(img, w, h, p, x, y)
  }

  /** After `leftPaddingReplicate`: every row's left margin copies padded column `left`. */
  function LeftReplicateAt(img: Grid, w: int, h: int, p: Paddings, x: int, y: int): Byte
  {
    if InBuffer(w, h, p, x, y) && 0 <= x < p.left
    then BottomReplicateAt(img, w, h, p, p.left, y) else BottomReplicateAt(img, w, h, p, x, y)
  }

  /** After `rightPaddingReplicate`: every row's right margin copies padded column
      `left + w - 1`. */
  function RightReplicateAt(img: Grid, w: int, h: int, p: Paddings, x: int, y: int): Byte
  {
    if InBuffer(w, h, p, x, y) && w + p.left <= x < w + p.left + p.right
    then LeftReplicateAt(img, w, h, p, w + p.left - 1, y) else LeftReplicateAt(img, w, h, p, x, y)
  }

  /** After `topPaddingReflect`: padded row y above the image shows original row `top - y`. */
  function TopReflectAt(img: Grid, w: int, h: int, p: Paddings, x: int, y: int): Byte
  {
    if InBuffer(w, h, p, x, y) && p.left <= x < w + p.left && 0 <= y < p.top
    then GAt(img, x - p.left, p.top - y) else BaseAt(img, w, h, p, x, y)
  }

  /** After `bottomPaddingReflect`: padded row `top + h + j` shows original row `h - j - 2`. */
  function BottomReflectAt(img: Grid, w: int, h: int, p: Paddings, x: int, y: int): Byte
  {
    if InBuffer(w, h, p, x, y) && p.left <= x < w + p.left && p.top + h <= y < h + p.top + p.bottom
    then GAt(img, x - p.left, h - (y - p.top - h) - 2) else TopReflectAt(img, w, h, p, x, y)
  }

  /** After `leftPaddingReflect`: column x of the left margin shows padded column
      `2 left - x` as it was before this step (which may be the still-empty right margin). */
  function LeftReflectAt(img: Grid, w: int, h: int, p: Paddings, x: int, y: int): Byte
  {
    if InBuffer(w, h, p, x, y) && 0 <= x < p.left
    then BottomReflectAt(img, w, h, p, 2 * p.left - x, y) else BottomReflectAt(img, w, h, p, x, y)
  }

  /** After `rightPaddingReflect`: column `left + w + j` shows padded column
      `left + w - j - 2`. */
  function RightReflectAt(img: Grid, w: int, h: int, p: Paddings, x: int, y: int): Byte
  {
    if InBuffer(w, h, p, x, y) && w + p.left <= x < w + p.left + p.right
    then LeftReflectAt(img, w, h, p, w + p.left - (x - w - p.left) - 2, y) else LeftReflectAt(img, w, h, p, x, y)
  }

  /** Cell (x, y) of the padded image under `border`. */
  function PaddedAt(img: Grid, w: int, h: int, p: Paddings, border: int, x: int, y: int): Byte
  {
    if border == CBorderReplicate then RightReplicateAt(img, w, h, p, x, y)
    else if border == CBorderReflect then RightReflectAt(img, w, h, p, x, y)
    else BaseAt(img, w, h, p, x, y)
  }

  /** The number of cells `image.Rect(0, 0, n, ...)` spans along one axis: the
      rectangle orders its corners, so a far corner at -1 spans the one cell -1..0. */
  function Span(n: int): nat
  {
    if n < 0 then -n else n
  }

  /** The buffer `PaddingGray` returns for an image with margins `p`, or the error for
      an unknown border value. The padded image is (w + left + right) x
      (h + top + bottom) under every border; that extent is -1 only for an empty image
      under a kernel of extent 0, and then the buffer is one all-zero cell across. */
  function PadWith(img: Grid, w: int, h: int, p: Paddings, border: int): (r: Result<Grid, PadError>)
    requires w >= 0 && h >= 0 && ValidPaddings(p)
    ensures r.Ok? <==> border in {CBorderConstant, CBorderReplicate, CBorderReflect}
    ensures r.Err? ==> r.error == UnknownBorder
    ensures r.Ok? ==> IsGrid(r.value, Span(w + p.left + p.right), Span(h + p.top + p.bottom))
    ensures w + p.left + p.right >= 0 && h + p.top + p.bottom >= 0 ==>
      Span(w + p.left + p.right) == w + p.left + p.right && Span(h + p.top + p.bottom) == h + p.top + p.bottom
    ensures w + p.left + p.right < 0 ==> w == 0 && Span(w + p.left + p.right) == 1
    ensures h + p.top + p.bottom < 0 ==> h == 0 && Span(h + p.top + p.bottom) == 1
  {
    if border in {CBorderConstant, CBorderReplicate, CBorderReflect} then
      Ok(seq(Span(h + p.top + p.bottom), (y: int) =>
        seq(Span(w + p.left + p.right), (x: int) => PaddedAt(img, w, h, p, border, x, y))))
    else Err(UnknownBorder)
  }

  /** `PaddingGray` as a value: the padding error, the unknown-border error, or the
      padded image. */
  function Pad(img: Grid, w: int, h: int, kernelSize: Point, anchor: Point, border: int): (r: Result<Grid, PadError>)
    requires w >= 0 && h >= 0
    ensures r.Ok? <==> CalculatePaddings(kernelSize, anchor).Ok? && border in {CBorderConstant, CBorderReplicate, CBorderReflect}
    ensures r.Ok? ==> IsGrid(r.value, Span(w + kernelSize.x - 1), Span(h + kernelSize.y - 1))
  {
    match CalculatePaddings(kernelSize, anchor)
    case Err(e) => Err(e)
    case Ok(p) => PadWith(img, w, h, p, border)
  }

  // ---------------------------------------------------------------------------------
  // Properties of the padded image

  /** A padding error is reported as such; otherwise only an unknown border fails. */
  lemma PadErrors(img: Grid, w: int, h: int, kernelSize: Point, anchor: Point, border: int)
    requires w >= 0 && h >= 0
    ensures CalculatePaddings(kernelSize, anchor).Err? ==>
      Pad(img, w, h, kernelSize, anchor, border) == Err(CalculatePaddings(kernelSize, anchor).error)
    ensures CalculatePaddings(kernelSize, anchor).Ok? ==>
      (Pad(img, w, h, kernelSize, anchor, border).Err? <==>
       border !in {CBorderConstant, CBorderReplicate, CBorderReflect})
  {
  }

  /** Every original pixel lands at (x + left, y + top) under every border; when a far
      margin is -1 the padded image is one short and that last column or row is lost. */
  lemma PadKeepsOriginal(img: Grid, w: int, h: int, p: Paddings, border: int, x: int, y: int)
    requires IsGrid(img, w, h) && w >= 0 && h >= 0 && ValidPaddings(p)
    requires PadWith(img, w, h, p, border).Ok?
    requires 0 <= x < w + p.right && 0 <= y < h + p.bottom && x < w && y < h
    ensures PadWith(img, w, h, p, border).value[y + p.top][x + p.left] == img[y][x]
  {
    assert InBuffer(w, h, p, x + p.left, y + p.top) && InImage(w, h, p, x + p.left, y + p.top);
  }

  /** An empty image (no column or no row) pads to an all-zero buffer under every
      border: nothing is copied, and every read of the image falls outside it. */
  lemma EmptyImagePadsToZero(img: Grid, w: int, h: int, p: Paddings, border: int, x: int, y: int)
    requires IsGrid(img, w, h) && w >= 0 && h >= 0 && ValidPaddings(p) && (w == 0 || h == 0)
    requires PadWith(img, w, h, p, border).Ok?
    requires 0 <= y < Span(h + p.top + p.bottom) && 0 <= x < Span(w + p.left + p.right)
    ensures PadWith(img, w, h, p, border).value[y][x] == 0
  {
    forall i, j ensures GAt(img, i, j) == 0 {
      if 0 <= j < |img| {
        assert |img[j]| == 0;
      }
    }
  }

  /** Constant border: every cell outside the copied image is 0. */
  lemma ConstantMarginsAreZero(img: Grid, w: int, h: int, p: Paddings, x: int, y: int)
    requires w >= 0 && h >= 0 && ValidPaddings(p)
    requires 0 <= y < h + p.top + p.bottom && 0 <= x < w + p.left + p.right
    requires !(p.left <= x < p.left + w && p.top <= y < p.top + h)
    ensures PadWith(img, w, h, p, CBorderConstant).value[y][x] == 0
  {
  }

  /** Replicate border, first step: above the image, its columns repeat original row
      `top`; below it, they repeat the last row. */
  lemma ReplicateTopBottom(img: Grid, w: int, h: int, p: Paddings, x: int, y: int)
    requires IsGrid(img, w, h) && w >= 0 && h >= 0 && ValidPaddings(p)
    requires p.left <= x < p.left + w && x < w + p.left + p.right
    requires 0 <= y < h + p.top + p.bottom
    ensures y < p.top ==> PadWith(img, w, h, p, CBorderReplicate).value[y][x] == GAt(img, x - p.left, p.top)
    ensures p.top + h <= y ==> PadWith(img, w, h, p, CBorderReplicate).value[y][x] == GAt(img, x - p.left, h - 1)
  {
  }

  /** Replicate border, second step: every cell of the left (right) margin, corners
      included, equals padded column `left` (`left + w - 1`) of its row. */
  lemma ReplicateLeftRight(img: Grid, w: int, h: int, p: Paddings, x: int, y: int)
    requires IsGrid(img, w, h) && w >= 0 && h >= 0 && ValidPaddings(p)
    requires 0 <= x < w + p.left + p.right && 0 <= y < h + p.top + p.bottom
    ensures x < p.left ==>
      PadWith(img, w, h, p, CBorderReplicate).value[y][x] == GAt(PadWith(img, w, h, p, CBorderReplicate).value, p.left, y)
    ensures w + p.left <= x ==>
      PadWith(img, w, h, p, CBorderReplicate).value[y][x] == GAt(PadWith(img, w, h, p, CBorderReplicate).value, w + p.left - 1, y)
  {
  }

  /** The top-replicate quirk: a 1-wide, 2-high image [0; 7] padded for a 3x3 kernel
      anchored at (1, 1) gets 7 above the 0, i.e. row 1 rather than the nearest row. */
  lemma ReplicateTopCopiesRowPaddingTop()
    ensures PadWith([[0], [7]], 1, 2, Paddings(1, 1, 1, 1), CBorderReplicate).value[0][1] == 7
  {
    ReplicateTopBottom([[0], [7]], 1, 2, Paddings(1, 1, 1, 1), 1, 0);
  }

  /** Reflect border, top and bottom: padded row y above the image mirrors original
      row `top - y`; padded row `top + h + j` mirrors original row `h - 2 - j`. */
  lemma ReflectTopBottom(img: Grid, w: int, h: int, p: Paddings, x: int, y: int)
    requires IsGrid(img, w, h) && w >= 0 && h >= 0 && ValidPaddings(p)
    requires p.left <= x < p.left + w && x < w + p.left + p.right
    requires 0 <= y < h + p.top + p.bottom
    ensures y < p.top ==> PadWith(img, w, h, p, CBorderReflect).value[y][x] == GAt(img, x - p.left, p.top - y)
    ensures p.top + h <= y ==>
      PadWith(img, w, h, p, CBorderReflect).value[y][x] == GAt(img, x - p.left, h - 2 - (y - p.top - h))
  {
  }

  /** Reflect border, left margin: column x mirrors padded column `2 left - x`, which
      is that column of the result when the mirror lies before the right margin; a
      mirror in the right margin (not yet filled when this step runs) or past the
      buffer reads 0. */
  lemma ReflectLeft(img: Grid, w: int, h: int, p: Paddings, x: int, y: int)
    requires IsGrid(img, w, h) && w >= 0 && h >= 0 && ValidPaddings(p)
    requires 0 <= x < p.left && 0 <= y < h + p.top + p.bottom
    ensures 2 * p.left - x < w + p.left + p.right && 2 * p.left - x < w + p.left ==>
      PadWith(img, w, h, p, CBorderReflect).value[y][x] == PadWith(img, w, h, p, CBorderReflect).value[y][2 * p.left - x]
    ensures 2 * p.left - x >= w + p.left && x < w + p.left + p.right ==>
      PadWith(img, w, h, p, CBorderReflect).value[y][x] == 0
  {
  }

  /** Reflect border, right margin: column `left + w + j` mirrors padded column
      `left + w - 2 - j` of the result (0 when that lies left of the buffer). */
  lemma ReflectRight(img: Grid, w: int, h: int, p: Paddings, x: int, y: int)
    requires IsGrid(img, w, h) && w >= 0 && h >= 0 && ValidPaddings(p)
    requires w + p.left <= x < w + p.left + p.right && 0 <= y < h + p.top + p.bottom
    ensures PadWith(img, w, h, p, CBorderReflect).value[y][x] ==
      GAt(PadWith(img, w, h, p, CBorderReflect).value, w + p.left - 2 - (x - w - p.left), y)
  {
  }

  /** Reflect-101 left of the image: the cell k to the left of the image's first
      column shows image column k; the edge pixel itself is not repeated. */
  lemma ReflectMirrorsLeft(img: Grid, w: int, h: int, p: Paddings, y: int, k: int)
    requires IsGrid(img, w, h) && w >= 0 && h >= 0 && ValidPaddings(p)
    requires p.top <= y < p.top + h && y < h + p.top + p.bottom
    requires 1 <= k <= p.left && k < w && k < w + p.right
    ensures PadWith(img, w, h, p, CBorderReflect).value[y][p.left - k] == img[y - p.top][k]
  {
  }

  /** Reflect-101 right of the image: the cell j to the right of the image's last
      column shows image column w - 2 - j. */
  lemma ReflectMirrorsRight(img: Grid, w: int, h: int, p: Paddings, y: int, j: int)
    requires IsGrid(img, w, h) && w >= 0 && h >= 0 && ValidPaddings(p)
    requires p.top <= y < p.top + h && y < h + p.top + p.bottom
    requires 0 <= j < p.right && j <= w - 2
    ensures PadWith(img, w, h, p, CBorderReflect).value[y][p.left + w + j] == img[y - p.top][w - 2 - j]
  {
  }

  /** Padding a constant image under replicate keeps it constant, provided the row the
      top margin copies exists and the padded buffer keeps a column of the image. */
  lemma ReplicateOfConstant(img: Grid, w: int, h: int, p: Paddings, c: Byte, x: int, y: int)
    requires IsGrid(img, w, h) && w >= 0 && h >= 0 && ValidPaddings(p)
    requires forall j, i :: 0 <= j < h && 0 <= i < w ==> img[j][i] == c
    requires p.top < h && 1 <= w && w + p.right >= 1
    requires 0 <= x < w + p.left + p.right && 0 <= y < h + p.top + p.bottom
    ensures PadWith(img, w, h, p, CBorderReplicate).value[y][x] == c
  {
  }

  /** Padding a constant image under reflect keeps it constant, provided every mirror
      falls inside the image. */
  lemma ReflectOfConstant(img: Grid, w: int, h: int, p: Paddings, c: Byte, x: int, y: int)
    requires IsGrid(img, w, h) && w >= 0 && h >= 0 && ValidPaddings(p)
    requires forall j, i :: 0 <= j < h && 0 <= i < w ==> img[j][i] == c
    requires p.top < h && p.bottom < h && p.left < w && p.left < w + p.right && p.right < w
    requires 0 <= x < w + p.left + p.right && 0 <= y < h + p.top + p.bottom
    ensures PadWith(img, w, h, p, CBorderReflect).value[y][x] == c
  {
  }

  // ---------------------------------------------------------------------------------
  // The buffer operations. Each step is specified by the cell function of the step
  // before it (what it finds in the buffer) and its own (what it leaves there).

  /** `ParallelForEachPixel` with the copying closure of `PaddingGray`, run row by row:
      original pixel (x, y) is set at (x + left, y + top) of the zeroed buffer. */
  method CopyOriginal(img: array2<Byte>, p: Paddings, padded: array2<Byte>)
    requires img != padded && ValidPaddings(p)
    requires padded.Length0 == img.Length0 + p.top + p.bottom
    requires padded.Length1 == img.Length1 + p.left + p.right
    requires forall y, x :: 0 <= y < padded.Length0 && 0 <= x < padded.Length1 ==> padded[y, x] == 0
    modifies padded
    ensures forall y, x :: 0 <= y < padded.Length0 && 0 <= x < padded.Length1 ==>
      padded[y, x] == BaseAt(Pixels(img), img.Length1, img.Length0, p, x, y)
  {
    var w, h := img.Length1, img.Length0;
    ghost var src := Pixels(img);
    var j := 0;
    while j < h
      invariant 0 <= j <= h
      invariant forall yy, xx :: 0 <= yy < padded.Length0 && 0 <= xx < padded.Length1 ==>
        padded[yy, xx] == (if yy < p.top + j then BaseAt(src, w, h, p, xx, yy) else 0)
    {
      var i := 0;
      while i < w
        invariant 0 <= i <= w
        invariant forall yy, xx :: 0 <= yy < padded.Length0 && 0 <= xx < padded.Length1 ==>
          padded[yy, xx] == (if yy < p.top + j || (yy == p.top + j && xx < p.left + i)
                             then BaseAt(src, w, h, p, xx, yy) else 0)
      {
        Set(padded, i + p.left, j + p.top, img[j, i]);
        i := i + 1;
      }
      j := j + 1;
    }
  }

  /** `topPaddingReplicate`. */
  method TopPaddingReplicate(img: array2<Byte>, p: Paddings, padded: array2<Byte>)
    requires img != padded && ValidPaddings(p)
    requires padded.Length0 == img.Length0 + p.top + p.bottom
    requires padded.Length1 == img.Length1 + p.left + p.right
    requires forall y, x :: 0 <= y < padded.Length0 && 0 <= x < padded.Length1 ==>
      padded[y, x] == BaseAt(Pixels(img), img.Length1, img.Length0, p, x, y)
    modifies padded
    ensures forall y, x :: 0 <= y < padded.Length0 && 0 <= x < padded.Length1 ==>
      padded[y, x] == TopReplicateAt(Pixels(img), img.Length1, img.Length0, p, x, y)
  {
    ghost var src := Pixels(img);
    var w, h := img.Length1, img.Length0;
    var x := p.left;
    while x < w + p.left
      invariant p.left <= x <= w + p.left
      invariant forall yy, xx :: 0 <= yy < padded.Length0 && 0 <= xx < padded.Length1 ==>
        padded[yy, xx] == (if xx < x then TopReplicateAt(src, w, h, p, xx, yy) else BaseAt(src, w, h, p, xx, yy))
    {
      var firstPixel := At(img, x - p.left, p.top);
      var y := 0;
      while y < p.top
        invariant 0 <= y <= p.top
        invariant forall yy, xx :: 0 <= yy < padded.Length0 && 0 <= xx < padded.Length1 ==>
          padded[yy, xx] == (if xx < x || (xx == x && yy < y)
                             then TopReplicateAt(src, w, h, p, xx, yy) else BaseAt(src, w, h, p, xx, yy))
      {
        Set(padded, x, y, firstPixel);
        y := y + 1;
      }
      x := x + 1;
    }
  }

  /** `bottomPaddingReplicate`. */
  method BottomPaddingReplicate(img: array2<Byte>, p: Paddings, padded: array2<Byte>)
    requires img != padded && ValidPaddings(p)
    requires padded.Length0 == img.Length0 + p.top + p.bottom
    requires padded.Length1 == img.Length1 + p.left + p.right
    requires forall y, x :: 0 <= y < padded.Length0 && 0 <= x < padded.Length1 ==>
      padded[y, x] == TopReplicateAt(Pixels(img), img.Length1, img.Length0, p, x, y)
    modifies padded
    ensures forall y, x :: 0 <= y < padded.Length0 && 0 <= x < padded.Length1 ==>
      padded[y, x] == BottomReplicateAt(Pixels(img), img.Length1, img.Length0, p, x, y)
  {
    ghost var src := Pixels(img);
    var w, h := img.Length1, img.Length0;
    var x := p.left;
    while x < w + p.left
      invariant p.left <= x <= w + p.left
      invariant forall yy, xx :: 0 <= yy < padded.Length0 && 0 <= xx < padded.Length1 ==>
        padded[yy, xx] == (if xx < x then BottomReplicateAt(src, w, h, p, xx, yy) else TopReplicateAt(src, w, h, p, xx, yy))
    {
      var lastPixel := At(img, x - p.left, h - 1);
      var y := p.top + h;
      while y < h + p.top + p.bottom
        invariant p.top + h <= y
        invariant y <= h + p.top + p.bottom || y == p.top + h
        invariant forall yy, xx :: 0 <= yy < padded.Length0 && 0 <= xx < padded.Length1 ==>
          padded[yy, xx] == (if xx < x || (xx == x && yy < y)
                             then BottomReplicateAt(src, w, h, p, xx, yy) else TopReplicateAt(src, w, h, p, xx, yy))
      {
        Set(padded, x, y, lastPixel);
        y := y + 1;
      }
      x := x + 1;
    }
  }

  /** `leftPaddingReplicate`: the value copied is read from the buffer being filled. */
  method LeftPaddingReplicate(img: array2<Byte>, padded: array2<Byte>, p: Paddings)
    requires img != padded && ValidPaddings(p)
    requires padded.Length0 == img.Length0 + p.top + p.bottom
    requires padded.Length1 == img.Length1 + p.left + p.right
    requires forall y, x :: 0 <= y < padded.Length0 && 0 <= x < padded.Length1 ==>
      padded[y, x] == BottomReplicateAt(Pixels(img), img.Length1, img.Length0, p, x, y)
    modifies padded
    ensures forall y, x :: 0 <= y < padded.Length0 && 0 <= x < padded.Length1 ==>
      padded[y, x] == LeftReplicateAt(Pixels(img), img.Length1, img.Length0, p, x, y)
  {
    ghost var src := Pixels(img);
    var w, h := img.Length1, img.Length0;
    var y := 0;
    while y < h + p.bottom + p.top
      invariant 0 <= y
      invariant y <= h + p.bottom + p.top || y == 0
      invariant forall yy, xx :: 0 <= yy < padded.Length0 && 0 <= xx < padded.Length1 ==>
        padded[yy, xx] == (if yy < y then LeftReplicateAt(src, w, h, p, xx, yy) else BottomReplicateAt(src, w, h, p, xx, yy))
    {
      var firstPixel := At(padded, p.left, y);
      assert firstPixel == BottomReplicateAt(src, w, h, p, p.left, y);
      var x := 0;
      while x < p.left
        invariant 0 <= x <= p.left
        invariant forall yy, xx :: 0 <= yy < padded.Length0 && 0 <= xx < padded.Length1 ==>
          padded[yy, xx] == (if yy < y || (yy == y && xx < x)
                             then LeftReplicateAt(src, w, h, p, xx, yy) else BottomReplicateAt(src, w, h, p, xx, yy))
      {
        Set(padded, x, y, firstPixel);
        x := x + 1;
      }
      y := y + 1;
    }
  }

  /** `rightPaddingReplicate`. */
  method RightPaddingReplicate(img: array2<Byte>, padded: array2<Byte>, p: Paddings)
    requires img != padded && ValidPaddings(p)
    requires padded.Length0 == img.Length0 + p.top + p.bottom
    requires padded.Length1 == img.Length1 + p.left + p.right
    requires forall y, x :: 0 <= y < padded.Length0 && 0 <= x < padded.Length1 ==>
      padded[y, x] == LeftReplicateAt(Pixels(img), img.Length1, img.Length0, p, x, y)
    modifies padded
    ensures forall y, x :: 0 <= y < padded.Length0 && 0 <= x < padded.Length1 ==>
      padded[y, x] == RightReplicateAt(Pixels(img), img.Length1, img.Length0, p, x, y)
  {
    ghost var src := Pixels(img);
    var w, h := img.Length1, img.Length0;
    var y := 0;
    while y < h + p.bottom + p.top
      invariant 0 <= y
      invariant y <= h + p.bottom + p.top || y == 0
      invariant forall yy, xx :: 0 <= yy < padded.Length0 && 0 <= xx < padded.Length1 ==>
        padded[yy, xx] == (if yy < y then RightReplicateAt(src, w, h, p, xx, yy) else LeftReplicateAt(src, w, h, p, xx, yy))
    {
      var lastPixel := At(padded, w + p.left - 1, y);
      assert lastPixel == LeftReplicateAt(src, w, h, p, w + p.left - 1, y) by {
        if w + p.left - 1 < 0 || w + p.left - 1 >= padded.Length1 {
          assert !InBuffer(w, h, p, w + p.left - 1, y);
        } else {
          assert padded[y, w + p.left - 1] == LeftReplicateAt(src, w, h, p, w + p.left - 1, y);
        }
      }
      var x := w + p.left;
      while x < w + p.left + p.right
        invariant w + p.left <= x
        invariant x <= w + p.left + p.right || x == w + p.left
        invariant forall yy, xx :: 0 <= yy < padded.Length0 && 0 <= xx < padded.Length1 ==>
          padded[yy, xx] == (if yy < y || (yy == y && xx < x)
                             then RightReplicateAt(src, w, h, p, xx, yy) else LeftReplicateAt(src, w, h, p, xx, yy))
      {
        Set(padded, x, y, lastPixel);
        x := x + 1;
      }
      y := y + 1;
    }
  }

  /** `topPaddingReflect`. */
  method TopPaddingReflect(img: array2<Byte>, p: Paddings, padded: array2<Byte>)
    requires img != padded && ValidPaddings(p)
    requires padded.Length0 == img.Length0 + p.top + p.bottom
    requires padded.Length1 == img.Length1 + p.left + p.right
    requires forall y, x :: 0 <= y < padded.Length0 && 0 <= x < padded.Length1 ==>
      padded[y, x] == BaseAt(Pixels(img), img.Length1, img.Length0, p, x, y)
    modifies padded
    ensures forall y, x :: 0 <= y < padded.Length0 && 0 <= x < padded.Length1 ==>
      padded[y, x] == TopReflectAt(Pixels(img), img.Length1, img.Length0, p, x, y)
  {
    ghost var src := Pixels(img);
    var w, h := img.Length1, img.Length0;
    var x := p.left;
    while x < w + p.left
      invariant p.left <= x <= w + p.left
      invariant forall yy, xx :: 0 <= yy < padded.Length0 && 0 <= xx < padded.Length1 ==>
        padded[yy, xx] == (if xx < x then TopReflectAt(src, w, h, p, xx, yy) else BaseAt(src, w, h, p, xx, yy))
    {
      var y := 0;
      while y < p.top
        invariant 0 <= y <= p.top
        invariant forall yy, xx :: 0 <= yy < padded.Length0 && 0 <= xx < padded.Length1 ==>
          padded[yy, xx] == (if xx < x || (xx == x && yy < y)
                             then TopReflectAt(src, w, h, p, xx, yy) else BaseAt(src, w, h, p, xx, yy))
      {
        var pixel := At(img, x - p.left, p.top - y);
        Set(padded, x, y, pixel);
        y := y + 1;
      }
      x := x + 1;
    }
  }

  /** `bottomPaddingReflect`. */
  method BottomPaddingReflect(img: array2<Byte>, p: Paddings, padded: array2<Byte>)
    requires img != padded && ValidPaddings(p)
    requires padded.Length0 == img.Length0 + p.top + p.bottom
    requires padded.Length1 == img.Length1 + p.left + p.right
    requires forall y, x :: 0 <= y < padded.Length0 && 0 <= x < padded.Length1 ==>
      padded[y, x] == TopReflectAt(Pixels(img), img.Length1, img.Length0, p, x, y)
    modifies padded
    ensures forall y, x :: 0 <= y < padded.Length0 && 0 <= x < padded.Length1 ==>
      padded[y, x] == BottomReflectAt(Pixels(img), img.Length1, img.Length0, p, x, y)
  {
    ghost var src := Pixels(img);
    var w, h := img.Length1, img.Length0;
    var x := p.left;
    while x < w + p.left
      invariant p.left <= x <= w + p.left
      invariant forall yy, xx :: 0 <= yy < padded.Length0 && 0 <= xx < padded.Length1 ==>
        padded[yy, xx] == (if xx < x then BottomReflectAt(src, w, h, p, xx, yy) else TopReflectAt(src, w, h, p, xx, yy))
    {
      var y := p.top + h;
      while y < h + p.top + p.bottom
        invariant p.top + h <= y
        invariant y <= h + p.top + p.bottom || y == p.top + h
        invariant forall yy, xx :: 0 <= yy < padded.Length0 && 0 <= xx < padded.Length1 ==>
          padded[yy, xx] == (if xx < x || (xx == x && yy < y)
                             then BottomReflectAt(src, w, h, p, xx, yy) else TopReflectAt(src, w, h, p, xx, yy))
      {
        var pixel := At(img, x - p.left, h - (y - p.top - h) - 2);
        Set(padded, x, y, pixel);
        y := y + 1;
      }
      x := x + 1;
    }
  }

  /** `leftPaddingReflect`: the mirrored value is read from the buffer being filled. */
  method LeftPaddingReflect(img: array2<Byte>, padded: array2<Byte>, p: Paddings)
    requires img != padded && ValidPaddings(p)
    requires padded.Length0 == img.Length0 + p.top + p.bottom
    requires padded.Length1 == img.Length1 + p.left + p.right
    requires forall y, x :: 0 <= y < padded.Length0 && 0 <= x < padded.Length1 ==>
      padded[y, x] == BottomReflectAt(Pixels(img), img.Length1, img.Length0, p, x, y)
    modifies padded
    ensures forall y, x :: 0 <= y < padded.Length0 && 0 <= x < padded.Length1 ==>
      padded[y, x] == LeftReflectAt(Pixels(img), img.Length1, img.Length0, p, x, y)
  {
    ghost var src := Pixels(img);
    var w, h := img.Length1, img.Length0;
    var y := 0;
    while y < h + p.bottom + p.top
      invariant 0 <= y
      invariant y <= h + p.bottom + p.top || y == 0
      invariant forall yy, xx :: 0 <= yy < padded.Length0 && 0 <= xx < padded.Length1 ==>
        padded[yy, xx] == (if yy < y then LeftReflectAt(src, w, h, p, xx, yy) else BottomReflectAt(src, w, h, p, xx, yy))
    {
      var x := 0;
      while x < p.left
        invariant 0 <= x <= p.left
        invariant forall yy, xx :: 0 <= yy < padded.Length0 && 0 <= xx < padded.Length1 ==>
          padded[yy, xx] == (if yy < y || (yy == y && xx < x)
                             then LeftReflectAt(src, w, h, p, xx, yy) else BottomReflectAt(src, w, h, p, xx, yy))
      {
        var m := 2 * p.left - x;
        var pixel := At(padded, m, y);
        assert pixel == BottomReflectAt(src, w, h, p, m, y) by {
          if m >= padded.Length1 {
            assert !InBuffer(w, h, p, m, y);
          }
        }
        Set(padded, x, y, pixel);
        x := x + 1;
      }
      y := y + 1;
    }
  }

  /** `rightPaddingReflect`. */
  method RightPaddingReflect(img: array2<Byte>, padded: array2<Byte>, p: Paddings)
    requires img != padded && ValidPaddings(p)
    requires padded.Length0 == img.Length0 + p.top + p.bottom
    requires padded.Length1 == img.Length1 + p.left + p.right
    requires forall y, x :: 0 <= y < padded.Length0 && 0 <= x < padded.Length1 ==>
      padded[y, x] == LeftReflectAt(Pixels(img), img.Length1, img.Length0, p, x, y)
    modifies padded
    ensures forall y, x :: 0 <= y < padded.Length0 && 0 <= x < padded.Length1 ==>
      padded[y, x] == RightReflectAt(Pixels(img), img.Length1, img.Length0, p, x, y)
  {
    ghost var src := Pixels(img);
    var w, h := img.Length1, img.Length0;
    var y := 0;
    while y < h + p.bottom + p.top
      invariant 0 <= y
      invariant y <= h + p.bottom + p.top || y == 0
      invariant forall yy, xx :: 0 <= yy < padded.Length0 && 0 <= xx < padded.Length1 ==>
        padded[yy, xx] == (if yy < y then RightReflectAt(src, w, h, p, xx, yy) else LeftReflectAt(src, w, h, p, xx, yy))
    {
      var x := w + p.left;
      while x < w + p.left + p.right
        invariant w + p.left <= x
        invariant x <= w + p.left + p.right || x == w + p.left
        invariant forall yy, xx :: 0 <= yy < padded.Length0 && 0 <= xx < padded.Length1 ==>
          padded[yy, xx] == (if yy < y || (yy == y && xx < x)
                             then RightReflectAt(src, w, h, p, xx, yy) else LeftReflectAt(src, w, h, p, xx, yy))
      {
        var m := w + p.left - (x - w - p.left) - 2;
        var pixel := At(padded, m, y);
        assert pixel == LeftReflectAt(src, w, h, p, m, y) by {
          if m < 0 {
            assert !InBuffer(w, h, p, m, y);
          }
        }
        Set(padded, x, y, pixel);
        x := x + 1;
      }
      y := y + 1;
    }
  }

  /** `PaddingGray`: the error of `calculatePaddings`, the unknown-border error, or a
      fresh buffer holding exactly the padded image. */
  method PaddingGray(img: array2<Byte>, kernelSize: Point, anchor: Point, border: int)
    returns (r: Result<array2<Byte>, PadError>)
    ensures r.Err? <==> Pad(Pixels(img), img.Length1, img.Length0, kernelSize, anchor, border).Err?
    ensures r.Err? ==> r.error == Pad(Pixels(img), img.Length1, img.Length0, kernelSize, anchor, border).error
    ensures r.Ok? ==> fresh(r.value)
    ensures r.Ok? ==>
      IsGrid(Pad(Pixels(img), img.Length1, img.Length0, kernelSize, anchor, border).value, r.value.Length1, r.value.Length0)
    ensures r.Ok? ==> forall y, x :: 0 <= y < r.value.Length0 && 0 <= x < r.value.Length1 ==>
      r.value[y, x] == Pad(Pixels(img), img.Length1, img.Length0, kernelSize, anchor, border).value[y][x]
  {
    var res := CalculatePaddings(kernelSize, anchor);
    if res.Err? {
      return Err(res.error);
    }
    var p := res.value;
    var rect := GetRectangleFromPaddings(p, Point(img.Length1, img.Length0));
    var padded := new Byte[Span(rect.y), Span(rect.x)]((_, _) => 0);
    if rect.x < 0 || rect.y < 0 {
      // An empty image under a kernel of extent 0: the copy and every margin loop
      // run zero times, so the buffer stays zero whatever the border.
      if border !in {CBorderConstant, CBorderReplicate, CBorderReflect} {
        return Err(UnknownBorder);
      }
      return Ok(padded);
    }
    CopyOriginal(img, p, padded);
    if border == CBorderConstant {
    } else if border == CBorderReplicate {
      TopPaddingReplicate(img, p, padded);
      BottomPaddingReplicate(img, p, padded);
      LeftPaddingReplicate(img, padded, p);
      RightPaddingReplicate(img, padded, p);
    } else if border == CBorderReflect {
      TopPaddingReflect(img, p, padded);
      BottomPaddingReflect(img, p, padded);
      LeftPaddingReflect(img, padded, p);
      RightPaddingReflect(img, padded, p);
    } else {
      return Err(UnknownBorder);
    }
    return Ok(padded);
  }
}
