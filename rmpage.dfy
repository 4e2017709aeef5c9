/** The stroke page and its encoder (remarkablepage/rmPage.go): a page is an
    append-only list of lines, each an append-only list of points, and `Export`
    appends the page, in the little-endian version 5 `.lines` layout, to the page's
    output buffer.

    `float32` values are opaque 32-bit words (the IEEE 754 bit patterns that
    `binary.Write` stores); the few float operations of the source (`x - 0.01`,
    `pageHeight - y`, the trigonometry of `DrawCircle`) are supplied by the caller as
    functions. */
module RmPage {
  import opened Common

  /** An IEEE 754 single-precision value, as its bit pattern. */
  newtype F32 = x: int | 0 <= x < 0x1_0000_0000

  /** A Go `int32`. */
  newtype Int32 = x: int | -0x8000_0000 <= x < 0x8000_0000

  const One: F32 := 0x3F80_0000       // 1.0
  const Two: F32 := 0x4000_0000       // 2.0
  const Zero: F32 := 0                // 0.0
  const PointSpeed: F32 := 0x3DCC_CCCD   // 0.1, rounded to float32
  const PixelOffset: F32 := 0x3C23_D70A  // 0.01, rounded to float32
  const YMax: F32 := 0x44EA_0000      // 1872.0

  const HeaderText: string := "reMarkable .lines file, version=5          "

  /** HEADER_V5 as bytes: 43 ASCII characters, padded with spaces. */
  function Header(): (h: seq<Byte>)
    ensures |h| == 43
    ensures forall i :: 0 <= i < 43 ==> h[i] as int == HeaderText[i] as int
  {
    seq(43, i requires 0 <= i < 43 => HeaderText[i] as int as Byte)
  }

  datatype Rgba = Rgba(r: Byte, g: Byte, b: Byte, a: Byte)

  /** `rmPoint`; points are never changed once added. */
  datatype RmPoint = RmPoint(x: F32, y: F32, speed: F32, direction: F32, width: F32, pressure: F32)

  /** The value of an `rmLine` at one moment. */
  datatype LineValue = LineValue(brushType: Int32, color: Int32, padding: Int32,
                                 brushBaseSize: F32, unknownLineAttribute: F32, points: seq<RmPoint>)

  /** `rmLine`: its point list grows in place through `AddPoint`. */
  class RmLine {
    var brushType: Int32
    var color: Int32
    var padding: Int32
    var brushBaseSize: F32
    var unknownLineAttribute: F32
    var pointList: seq<RmPoint>

    /** The Go struct literal of `AddLine`; the unnamed fields are zero. */
    constructor ()
      ensures Value() == LineValue(17, 0, 0, One, Zero, [])
    {
      brushType, color, padding := 17, 0, 0;
      brushBaseSize, unknownLineAttribute := One, Zero;
      pointList := [];
    }

    ghost function Value(): LineValue
      reads this
    {
      LineValue(brushType, color, padding, brushBaseSize, unknownLineAttribute, pointList)
    }

    /** `AddPoint`: one point at the end, with the pen defaults. */
    method AddPoint(x: F32, y: F32)
      modifies this
      ensures Value() == old(Value()).(points := old(pointList) + [PenPoint(x, y)])
    {
      pointList := pointList + [PenPoint(x, y)];
    }
  }

  /** The coordinates of `curve` moved by `transformPoint` on a page of height `h`. */
  function Transformed(curve: int -> (F32, F32), fsub: (F32, F32) -> F32, h: F32): int -> (F32, F32)
  {
    (i: int) => (curve(i).0, fsub(h, curve(i).1))
  }

  /** A point as `AddPoint` stores it, with the pen defaults. */
  function PenPoint(x: F32, y: F32): RmPoint
  {
    RmPoint(x, y, PointSpeed, Zero, Two, One)
  }

  /** The first `n` pen points at the coordinates `f(0)`, ..., `f(n - 1)`. */
  function PenPoints(f: int -> (F32, F32), n: nat): (ps: seq<RmPoint>)
    ensures |ps| == n
  {
    seq(n, (i: int) => PenPoint(f(i).0, f(i).1))
  }

  lemma PenPointsSnoc(f: int -> (F32, F32), n: nat)
    ensures PenPoints(f, n + 1) == PenPoints(f, n) + [PenPoint(f(n).0, f(n).1)]
  {
  }

  /** The values of a list of lines. */
  ghost function Values(ls: seq<RmLine>): (vs: seq<LineValue>)
    reads ls
    ensures |vs| == |ls|
    ensures forall i :: 0 <= i < |ls| ==> vs[i] == ls[i].Value()
  {
    seq(|ls|, i requires 0 <= i < |ls| reads ls => ls[i].Value())
  }

  lemma ValuesSnoc(ls: seq<RmLine>, l: RmLine)
    ensures Values(ls + [l]) == Values(ls) + [l.Value()]
  {
    assert (ls + [l])[..|ls|] == ls;
  }

  // ---------------------------------------------------------------- encoding

  /** `binary.Write` of a 32-bit word, little-endian. */
  function LE32(w: int): (bs: seq<Byte>)
    requires 0 <= w < 0x1_0000_0000
    ensures |bs| == 4
  {
    var q1 := w / 256;
    var q2 := q1 / 256;
    [(w % 256) as Byte, (q1 % 256) as Byte, (q2 % 256) as Byte, (q2 / 256) as Byte]
  }

  /** A little-endian word from the first four bytes. */
  function ReadWord(bs: seq<Byte>): (w: int)
    requires |bs| >= 4
    ensures 0 <= w < 0x1_0000_0000
  {
    bs[0] as int + 256 * (bs[1] as int + 256 * (bs[2] as int + 256 * bs[3] as int))
  }

  /** The two's-complement word of an `int32`. */
  function Word(v: Int32): (w: int)
    ensures 0 <= w < 0x1_0000_0000
  {
    if v < 0 then v as int + 0x1_0000_0000 else v as int
  }

  /** The `int32` whose word is `w`. */
  function Signed(w: int): Int32
    requires 0 <= w < 0x1_0000_0000
  {
    if w >= 0x8000_0000 then (w - 0x1_0000_0000) as Int32 else w as Int32
  }

  /** Go's `int32(n)` of a length: the low 32 bits, read as signed. */
  function Int32Of(n: nat): (v: Int32)
    ensures n < 0x8000_0000 ==> v as int == n
    ensures Word(v) == n % 0x1_0000_0000
  {
    Signed(n % 0x1_0000_0000)
  }

  /** Words, each written little-endian, one after the other. */
  function Words(ws: seq<int>): (bs: seq<Byte>)
    requires forall i :: 0 <= i < |ws| ==> 0 <= ws[i] < 0x1_0000_0000
    ensures |bs| == 4 * |ws|
  {
    if |ws| == 0 then [] else LE32(ws[0]) + Words(ws[1..])
  }

  function PointWords(p: RmPoint): seq<int>
  {
    [p.x as int, p.y as int, p.speed as int, p.direction as int, p.width as int, p.pressure as int]
  }

  /** `writePoint`: the six float32 fields. */
  function EncodePoint(p: RmPoint): (bs: seq<Byte>)
    ensures |bs| == 24
  {
    Words(PointWords(p))
  }

  function EncodePoints(ps: seq<RmPoint>): (bs: seq<Byte>)
    ensures |bs| == 24 * |ps|
  {
    if |ps| == 0 then [] else EncodePoint(ps[0]) + EncodePoints(ps[1..])
  }

  /** The attributes of a line and its point count, as `writeLine` writes them. */
  function LineWords(l: LineValue): seq<int>
  {
    [Word(l.brushType), Word(l.color), Word(l.padding), l.brushBaseSize as int, l.unknownLineAttribute as int,
     Word(Int32Of(|l.points|))]
  }

  /** `writeLine`: the attributes, the point count and the points. */
  function EncodeLine(l: LineValue): (bs: seq<Byte>)
    ensures |bs| == 24 + 24 * |l.points|
  {
    Words(LineWords(l)) + EncodePoints(l.points)
  }

  function EncodeLines(ls: seq<LineValue>): seq<Byte>
  {
    if |ls| == 0 then [] else EncodeLine(ls[0]) + EncodeLines(ls[1..])
  }

  /** One fresh `Export`: the header, the layer count 1, the line count and the lines.
      The count word reads back as `int32(len(lines))`. */
  function EncodePage(ls: seq<LineValue>): (bs: seq<Byte>)
    ensures |bs| >= 51 && bs[..43] == Header() && ReadWord(bs[43..]) == 1
    ensures Signed(ReadWord(bs[47..])) == Int32Of(|ls|)
  {
    var w := Word(Int32Of(|ls|));
    var bs := Header() + LE32(1) + LE32(w) + EncodeLines(ls);
    assert bs[43..] == LE32(1) + (LE32(w) + EncodeLines(ls));
    ReadLE32(1, LE32(w) + EncodeLines(ls));
    assert bs[47..] == LE32(w) + EncodeLines(ls);
    ReadLE32(w, EncodeLines(ls));
    SignedWord(Int32Of(|ls|));
    bs
  }

  /** The bytes of the lines: 24 per line and 24 per point. */
  function LinesSize(ls: seq<LineValue>): int
  {
    if |ls| == 0 then 0 else 24 + 24 * |ls[0].points| + LinesSize(ls[1..])
  }

  lemma {:induction false} EncodeLinesLength(ls: seq<LineValue>)
    ensures |EncodeLines(ls)| == LinesSize(ls)
  {
    if |ls| > 0 {
      EncodeLinesLength(ls[1..]);
    }
  }

  /** A fresh `Export` is 51 bytes plus 24 per line and 24 per point. */
  lemma ExportLength(ls: seq<LineValue>)
    ensures |EncodePage(ls)| == 51 + LinesSize(ls)
  {
    EncodeLinesLength(ls);
  }

  lemma {:induction false} EncodePointsAppend(ps: seq<RmPoint>, p: RmPoint)
    ensures EncodePoints(ps + [p]) == EncodePoints(ps) + EncodePoint(p)
  {
    if |ps| == 0 {
      assert ps + [p] == [p];
    } else {
      assert (ps + [p])[1..] == ps[1..] + [p];
      EncodePointsAppend(ps[1..], p);
    }
  }

  lemma {:induction false} EncodeLinesAppend(ls: seq<LineValue>, l: LineValue)
    ensures EncodeLines(ls + [l]) == EncodeLines(ls) + EncodeLine(l)
  {
    if |ls| == 0 {
      assert ls + [l] == [l];
    } else {
      assert (ls + [l])[1..] == ls[1..] + [l];
      EncodeLinesAppend(ls[1..], l);
    }
  }

  // ---------------------------------------------------------------- decoding

  /** `k` little-endian words from the front of `bs`, and the bytes after them. */
  function GetWords(bs: seq<Byte>, k: nat): (r: Option<(seq<int>, seq<Byte>)>)
    ensures r.Some? <==> |bs| >= 4 * k
    ensures r.Some? ==> |r.value.0| == k && forall i :: 0 <= i < k ==> 0 <= r.value.0[i] < 0x1_0000_0000
    ensures r.Some? ==> r.value.1 == bs[4 * k..]
    ensures r.Some? && k > 0 ==> r.value.0[0] == ReadWord(bs)
  {
    if k == 0 then Some(([], bs))
    else if |bs| < 4 then None
    else match GetWords(bs[4..], k - 1)
      case None => None
      case Some((ws, rest)) =>
        assert rest == bs[4 * k..] by {
          assert bs[4..][4 * (k - 1)..] == bs[4 * k..];
        }
        Some(([ReadWord(bs)] + ws, rest))
  }

  function DecodePoints(bs: seq<Byte>, n: nat): (r: Option<(seq<RmPoint>, seq<Byte>)>)
    ensures r.Some? ==> |r.value.0| == n
    decreases n
  {
    if n == 0 then Some(([], bs))
    else match GetWords(bs, 6)
      case None => None
      case Some((ws, rest)) =>
        var p := RmPoint(ws[0] as F32, ws[1] as F32, ws[2] as F32, ws[3] as F32, ws[4] as F32, ws[5] as F32);
        match DecodePoints(rest, n - 1)
        case None => None
        case Some((ps, rest')) => Some(([p] + ps, rest'))
  }

  function DecodeLine(bs: seq<Byte>): Option<(LineValue, seq<Byte>)>
  {
    match GetWords(bs, 6)
    case None => None
    case Some((ws, rest)) =>
      var count := Signed(ws[5]);
      if count < 0 then None
      else match DecodePoints(rest, count as int)
        case None => None
        case Some((ps, rest')) =>
          Some((LineValue(Signed(ws[0]), Signed(ws[1]), Signed(ws[2]), ws[3] as F32, ws[4] as F32, ps), rest'))
  }

  function DecodeLines(bs: seq<Byte>, n: nat): (r: Option<(seq<LineValue>, seq<Byte>)>)
    ensures r.Some? ==> |r.value.0| == n
    decreases n
  {
    if n == 0 then Some(([], bs))
    else match DecodeLine(bs)
      case None => None
      case Some((l, rest)) =>
        match DecodeLines(rest, n - 1)
        case None => None
        case Some((ls, rest')) => Some(([l] + ls, rest'))
  }

  /** Reads a page back, using the counts embedded in it: `None` unless the bytes are
      exactly one encoded page. A page that decodes starts with the header and a layer
      count of 1, and its line count word gives the number of lines read. */
  function DecodePage(bs: seq<Byte>): (r: Option<seq<LineValue>>)
    ensures r.Some? ==> |bs| >= 51 && bs[..43] == Header() && ReadWord(bs[43..]) == 1
    ensures r.Some? ==> |r.value| == Signed(ReadWord(bs[47..])) as int
  {
    if |bs| < 43 || bs[..43] != Header() then None
    else match GetWords(bs[43..], 2)
      case None => None
      case Some((ws, rest)) =>
        var count := Signed(ws[1]);
        if ws[0] != 1 || count < 0 then None
        else match DecodeLines(rest, count as int)
          case Some((ls, rest')) => if rest' == [] then Some(ls) else None
          case None => None
  }

  lemma ReadLE32(w: int, rest: seq<Byte>)
    requires 0 <= w < 0x1_0000_0000
    ensures ReadWord(LE32(w) + rest) == w && (LE32(w) + rest)[4..] == rest
  {
    var q1 := w / 256;
    var q2 := q1 / 256;
    assert w == w % 256 + 256 * q1;
    assert q1 == q1 % 256 + 256 * q2;
    assert q2 == q2 % 256 + 256 * (q2 / 256);
  }

  lemma Words6(a: int, b: int, c: int, d: int, e: int, f: int)
    requires 0 <= a < 0x1_0000_0000 && 0 <= b < 0x1_0000_0000 && 0 <= c < 0x1_0000_0000
    requires 0 <= d < 0x1_0000_0000 && 0 <= e < 0x1_0000_0000 && 0 <= f < 0x1_0000_0000
    ensures Words([a, b, c, d, e, f]) == LE32(a) + LE32(b) + LE32(c) + LE32(d) + LE32(e) + LE32(f)
  {
    assert Words([f]) == LE32(f) + Words([]);
    assert Words([e, f]) == LE32(e) + Words([f]);
    assert Words([d, e, f]) == LE32(d) + Words([e, f]);
    assert Words([c, d, e, f]) == LE32(c) + Words([d, e, f]);
    assert Words([b, c, d, e, f]) == LE32(b) + Words([c, d, e, f]);
    assert Words([a, b, c, d, e, f]) == LE32(a) + Words([b, c, d, e, f]);
  }

  lemma {:induction false} GetWordsRoundTrip(ws: seq<int>, rest: seq<Byte>)
    requires forall i :: 0 <= i < |ws| ==> 0 <= ws[i] < 0x1_0000_0000
    ensures GetWords(Words(ws) + rest, |ws|) == Some((ws, rest))
  {
    if |ws| > 0 {
      var tail := Words(ws[1..]) + rest;
      var bs := Words(ws) + rest;
      assert bs == LE32(ws[0]) + tail;
      ReadLE32(ws[0], tail);
      assert bs[4..] == tail;
      assert ReadWord(bs) == ws[0];
      GetWordsRoundTrip(ws[1..], rest);
      assert GetWords(tail, |ws| - 1) == Some((ws[1..], rest));
      assert GetWords(bs, |ws|) == Some(([ws[0]] + ws[1..], rest));
      assert [ws[0]] + ws[1..] == ws;
    } else {
      assert Words(ws) + rest == rest;
    }
  }

  lemma SignedWord(v: Int32)
    ensures Signed(Word(v)) == v
  {
  }

  lemma {:induction false} PointsRoundTrip(ps: seq<RmPoint>, rest: seq<Byte>)
    ensures DecodePoints(EncodePoints(ps) + rest, |ps|) == Some((ps, rest))
  {
    if |ps| > 0 {
      var p := ps[0];
      var tail := EncodePoints(ps[1..]) + rest;
      assert EncodePoints(ps) + rest == Words(PointWords(p)) + tail by {
        Associative(EncodePoint(p), EncodePoints(ps[1..]), rest);
      }
      assert GetWords(EncodePoints(ps) + rest, 6) == Some((PointWords(p), tail)) by {
        GetWordsRoundTrip(PointWords(p), tail);
      }
      assert DecodePoints(tail, |ps| - 1) == Some((ps[1..], rest)) by {
        PointsRoundTrip(ps[1..], rest);
      }
      assert [p] + ps[1..] == ps;
    } else {
      assert EncodePoints(ps) + rest == rest;
    }
  }

  lemma LineRoundTrip(l: LineValue, rest: seq<Byte>)
    requires |l.points| < 0x8000_0000
    ensures DecodeLine(EncodeLine(l) + rest) == Some((l, rest))
  {
    assert EncodeLine(l) + rest == Words(LineWords(l)) + (EncodePoints(l.points) + rest);
    GetWordsRoundTrip(LineWords(l), EncodePoints(l.points) + rest);
    PointsRoundTrip(l.points, rest);
    SignedWord(l.brushType);
    SignedWord(l.color);
    SignedWord(l.padding);
    SignedWord(Int32Of(|l.points|));
  }

  /** Every line has fewer than 2^31 points: beyond that `int32(len(...))` wraps. */
  predicate Countable(ls: seq<LineValue>)
  {
    |ls| < 0x8000_0000 && forall i :: 0 <= i < |ls| ==> |ls[i].points| < 0x8000_0000
  }

  lemma {:induction false} LinesRoundTrip(ls: seq<LineValue>, rest: seq<Byte>)
    requires Countable(ls)
    ensures DecodeLines(EncodeLines(ls) + rest, |ls|) == Some((ls, rest))
  {
    if |ls| > 0 {
      var tail := EncodeLines(ls[1..]) + rest;
      assert EncodeLines(ls) + rest == EncodeLine(ls[0]) + tail;
      LineRoundTrip(ls[0], tail);
      assert DecodeLine(EncodeLines(ls) + rest) == Some((ls[0], tail));
      CountableTail(ls);
      LinesRoundTrip(ls[1..], rest);
      assert [ls[0]] + ls[1..] == ls;
    } else {
      assert EncodeLines(ls) + rest == rest;
    }
  }

  lemma CountableTail(ls: seq<LineValue>)
    requires Countable(ls) && |ls| > 0
    ensures Countable(ls[1..])
  {
    forall i | 0 <= i < |ls[1..]|
      ensures |ls[1..][i].points| < 0x8000_0000
    {
      assert ls[1..][i] == ls[i + 1];
    }
  }

  /** Reading a fresh `Export` back recovers every line's attributes and points. */
  lemma PageRoundTrip(ls: seq<LineValue>)
    requires Countable(ls)
    ensures DecodePage(EncodePage(ls)) == Some(ls)
  {
    var bs := EncodePage(ls);
    var words := [1, Word(Int32Of(|ls|))];
    PageSplits(ls);
    GetWordsRoundTrip(words, EncodeLines(ls));
    assert GetWords(bs[43..], 2) == Some((words, EncodeLines(ls)));
    LinesRoundTrip(ls, []);
    assert EncodeLines(ls) + [] == EncodeLines(ls);
    assert DecodeLines(EncodeLines(ls), |ls|) == Some((ls, []));
  }

  /** An encoded page is the header followed by the two count words and the lines. */
  lemma PageSplits(ls: seq<LineValue>)
    ensures |EncodePage(ls)| >= 43 && EncodePage(ls)[..43] == Header()
    ensures EncodePage(ls)[43..] == Words([1, Word(Int32Of(|ls|))]) + EncodeLines(ls)
  {
    var bs := EncodePage(ls);
    var w := Word(Int32Of(|ls|));
    assert Words([1, w]) == LE32(1) + LE32(w) by {
      assert Words([1, w]) == LE32(1) + Words([w]);
      assert Words([w]) == LE32(w) + Words([]);
    }
    assert bs == Header() + (LE32(1) + LE32(w) + EncodeLines(ls)) by {
      Associative(Header(), LE32(1), LE32(w));
      Associative(Header(), LE32(1) + LE32(w), EncodeLines(ls));
    }
  }

  // ---------------------------------------------------------------- the page

  /** `ReMarkablePage`. The mutex is left out: the model is sequential. */
  class ReMarkablePage {
    var lines: seq<RmLine>
    var debug: bool
    var out: seq<Byte>
    var colors: map<string, Rgba>
    var pageHeight: F32

    /** `NewReMarkablePage`. */
    constructor ()
      ensures lines == [] && !debug && out == [] && pageHeight == YMax
      ensures colors == map["red" := Rgba(217, 7, 7, 255), "blue" := Rgba(0, 98, 204, 255),
                            "black" := Rgba(0, 0, 0, 255)]
    {
      lines := [];
      debug := false;
      out := [];
      colors := map["red" := Rgba(217, 7, 7, 255), "blue" := Rgba(0, 98, 204, 255), "black" := Rgba(0, 0, 0, 255)];
      pageHeight := YMax;
    }

    /** The page's lines as values. */
    ghost function Contents(): seq<LineValue>
      reads this, lines
    {
      Values(lines)
    }

    /** `AddLine`: one new line with the default attributes and no points, at the
        end; earlier lines are unchanged. */
    method AddLine() returns (line: RmLine)
      modifies this
      ensures fresh(line) && lines == old(lines) + [line]
      ensures line.Value() == LineValue(17, 0, 0, One, Zero, [])
      ensures Contents() == old(Contents()) + [LineValue(17, 0, 0, One, Zero, [])]
      ensures out == old(out) && pageHeight == old(pageHeight) && debug == old(debug) && colors == old(colors)
    {
      line := new RmLine();
      lines := lines + [line];
      assert lines[..|lines| - 1] == old(lines);
    }

    /** `transformPoint`: x is kept, y becomes `pageHeight - y` (float32 subtraction
        `fsub`). */
    function TransformPoint(x: F32, y: F32, fsub: (F32, F32) -> F32): (r: (F32, F32))
      reads this
      ensures r.0 == x
    {
      (x, fsub(pageHeight, y))
    }

    /** `AddPixel`: one new line of three points at height `y`, at `x - 0.01`, `x` and
        `x + 0.01` (float32 arithmetic `fsub`/`fadd`). */
    method AddPixel(x: F32, y: F32, fsub: (F32, F32) -> F32, fadd: (F32, F32) -> F32)
      modifies this
      ensures Contents() == old(Contents()) +
        [LineValue(17, 0, 0, One, Zero, [PenPoint(fsub(x, PixelOffset), y), PenPoint(x, y), PenPoint(fadd(x, PixelOffset), y)])]
      ensures out == old(out) && pageHeight == old(pageHeight) && debug == old(debug) && colors == old(colors)
    {
      ghost var prefix := lines;
      var line := AddLine();
      assert line !in prefix;
      line.AddPoint(fsub(x, PixelOffset), y);
      line.AddPoint(x, y);
      line.AddPoint(fadd(x, PixelOffset), y);
      assert line.Value() == LineValue(17, 0, 0, One, Zero,
        [PenPoint(fsub(x, PixelOffset), y), PenPoint(x, y), PenPoint(fadd(x, PixelOffset), y)]);
      assert Values(prefix) == old(Contents());
      ValuesSnoc(prefix, line);
    }

    /** `DrawCircle`: one new line of 361 points, point `i` at the float32
        coordinates `circle(i)` the trigonometry yields for angle `i` degrees. */
    method DrawCircle(circle: int -> (F32, F32))
      modifies this
      ensures Contents() == old(Contents()) +
        [LineValue(17, 0, 0, One, Zero, PenPoints(circle, 361))]
      ensures out == old(out) && pageHeight == old(pageHeight) && debug == old(debug) && colors == old(colors)
    {
      ghost var prefix := lines;
      var line := AddLine();
      assert line !in prefix;
      var i := 0;
      while i <= 360
        modifies line
        invariant 0 <= i <= 361
        invariant line.Value() == LineValue(17, 0, 0, One, Zero, PenPoints(circle, i))
      {
        var p := circle(i);
        line.AddPoint(p.0, p.1);
        PenPointsSnoc(circle, i);
        i := i + 1;
      }
      assert line.Value() == LineValue(17, 0, 0, One, Zero, PenPoints(circle, 361));
      assert Values(prefix) == old(Contents());
      ValuesSnoc(prefix, line);
    }

    /** `DrawBezierCurve`: one new line of 101 points, point `i` being the float32
        curve point `curve(i)` at t = i/100, moved by `transformPoint`. */
    method DrawBezierCurve(curve: int -> (F32, F32), fsub: (F32, F32) -> F32)
      modifies this
      ensures Contents() == old(Contents()) +
        [LineValue(17, 0, 0, One, Zero, PenPoints(Transformed(curve, fsub, old(pageHeight)), 101))]
      ensures out == old(out) && pageHeight == old(pageHeight) && debug == old(debug) && colors == old(colors)
    {
      ghost var prefix := lines;
      var line := AddLine();
      assert line !in prefix;
      ghost var h := pageHeight;
      var i := 0;
      while i <= 100
        modifies line
        invariant 0 <= i <= 101
        invariant line.Value() == LineValue(17, 0, 0, One, Zero, PenPoints(Transformed(curve, fsub, h), i))
      {
        var c := curve(i);
        var t := TransformPoint(c.0, c.1, fsub);
        line.AddPoint(t.0, t.1);
        PenPointsSnoc(Transformed(curve, fsub, h), i);
        i := i + 1;
      }
      assert line.Value() == LineValue(17, 0, 0, One, Zero, PenPoints(Transformed(curve, fsub, h), 101));
      assert Values(prefix) == old(Contents());
      ValuesSnoc(prefix, line);
    }

    /** `writePoint`. */
    method WritePoint(point: RmPoint)
      modifies this
      ensures out == old(out) + EncodePoint(point)
      ensures lines == old(lines)
      ensures pageHeight == old(pageHeight) && debug == old(debug) && colors == old(colors)
    {
      var buf := LE32(point.x as int) + LE32(point.y as int) + LE32(point.speed as int) +
                 LE32(point.direction as int) + LE32(point.width as int) + LE32(point.pressure as int);
      Words6(point.x as int, point.y as int, point.speed as int, point.direction as int,
             point.width as int, point.pressure as int);
      out := out + buf;
    }

    /** `writeLine`: attributes, point count, then every point. */
    method WriteLine(line: RmLine)
      modifies this
      ensures out == old(out) + EncodeLine(line.Value())
      ensures lines == old(lines)
      ensures pageHeight == old(pageHeight) && debug == old(debug) && colors == old(colors)
    {
      var nbPoints := Int32Of(|line.pointList|);
      var buf := LE32(Word(line.brushType)) + LE32(Word(line.color)) + LE32(Word(line.padding)) +
                 LE32(line.brushBaseSize as int) + LE32(line.unknownLineAttribute as int) + LE32(Word(nbPoints));
      Words6(Word(line.brushType), Word(line.color), Word(line.padding), line.brushBaseSize as int,
             line.unknownLineAttribute as int, Word(nbPoints));
      out := out + buf;
      ghost var start := out;
      var i := 0;
      while i < |line.pointList|
        invariant 0 <= i <= |line.pointList| && lines == old(lines)
        invariant pageHeight == old(pageHeight) && debug == old(debug) && colors == old(colors)
        invariant out == start + EncodePoints(line.pointList[..i])
      {
        EncodePointsAppend(line.pointList[..i], line.pointList[i]);
        assert line.pointList[..i + 1] == line.pointList[..i] + [line.pointList[i]];
        WritePoint(line.pointList[i]);
        i := i + 1;
      }
      assert line.pointList[..i] == line.pointList;
    }

    /** One iteration of `writeLayer`'s loop: line `i` extends the encoding
        of the lines before it. */
    method WriteLineAt(ghost cs: seq<LineValue>, ghost start: seq<Byte>, i: nat)
      requires i < |lines| == |cs| && lines[i].Value() == cs[i]
      requires out == start + EncodeLines(cs[..i])
      modifies this
      ensures out == start + EncodeLines(cs[..i + 1])
      ensures lines == old(lines)
      ensures pageHeight == old(pageHeight) && debug == old(debug) && colors == old(colors)
    {
      assert cs[..i + 1] == cs[..i] + [cs[i]];
      EncodeLinesAppend(cs[..i], cs[i]);
      WriteLine(lines[i]);
    }

    /** `writeLayer`: the line count, then every line. */
    method WriteLayer()
      modifies this
      ensures out == old(out) + LE32(Word(Int32Of(|lines|))) + EncodeLines(Contents())
      ensures lines == old(lines)
      ensures pageHeight == old(pageHeight) && debug == old(debug) && colors == old(colors)
    {
      ghost var cs := Contents();
      out := out + LE32(Word(Int32Of(|lines|)));
      ghost var start := out;
      var i := 0;
      while i < |lines|
        invariant 0 <= i <= |lines| && lines == old(lines)
        invariant pageHeight == old(pageHeight) && debug == old(debug) && colors == old(colors)
        invariant out == start + EncodeLines(cs[..i])
      {
        WriteLineAt(cs, start, i);
        i := i + 1;
      }
      assert cs[..i] == cs;
    }

    /** `Export`: appends one full encoding of the page to `out`, which is never
        reset, and returns all of `out`. */
    method Export() returns (result: seq<Byte>)
      modifies this
      ensures out == old(out) + EncodePage(old(Contents())) && result == out
      ensures lines == old(lines) && Contents() == old(Contents())
      ensures pageHeight == old(pageHeight) && debug == old(debug) && colors == old(colors)
    {
      ghost var start, cs := out, Contents();
      out := out + Header();
      out := out + LE32(1);
      WriteLayer();
      ghost var count := LE32(Word(Int32Of(|lines|)));
      assert out == start + (Header() + LE32(1) + count + EncodeLines(cs)) by {
        Associative(start, Header(), LE32(1));
        Associative(start, Header() + LE32(1), count);
        Associative(start, Header() + LE32(1) + count, EncodeLines(cs));
      }
      result := out;
    }
  }
}
