/** The run-length vectoriser (remarkablepage/horizontal_lines.go): the true cells of a
    boolean mask, row by row, become horizontal segments.

    The mask is indexed `pointMatrix[x][z]`, column first, as in the source. A run
    is a maximal stretch of true cells in one row `z`, from column `from` to column
    `to`. The reference definition of the runs is `AllRuns`; the scan with its
    `isLine`/`from`/`to` state is `GetHorizontalLines`, proved to record exactly
    those runs. Coordinates are integers: the source converts them to `float64`,
    which is exact for every image width and height below 2^53. */
module HorizontalLines {
  import opened Common

  /** Row `z`, columns `from` to `to` inclusive: the source's `[]int{z, from, to}`. */
  datatype Run = Run(z: int, from: int, to: int)

  /** Every column `x < w` has a cell for every row `z < h`; the scan reads no other. */
  predicate Valid(pm: seq<seq<bool>>, w: int, h: int)
  {
    w <= |pm| && forall x :: 0 <= x < w ==> h <= |pm[x]|
  }

  /** Row `z` of the mask, left to right. */
  function Row(pm: seq<seq<bool>>, w: int, h: int, z: int): (row: seq<bool>)
    requires Valid(pm, w, h) && 0 <= z < h
    ensures |row| == if w < 0 then 0 else w
    ensures forall x :: 0 <= x < |row| ==> row[x] == pm[x][z]
  {
    if w <= 0 then [] else seq(w, (x: int) requires 0 <= x < w && Valid(pm, w, h) => pm[x][z])
  }

  /** Run `r` lies in `row`, its cells are true, and the cell after it is false or
      past the end. */
  predicate RowRun(row: seq<bool>, r: Run)
  {
    0 <= r.from <= r.to < |row| &&
    (forall i :: r.from <= i <= r.to ==> row[i]) &&
    (r.to == |row| - 1 || !row[r.to + 1])
  }

  /** The last column of the stretch of true cells that holds column `x`, looking
      right from `x`. */
  function RunEnd(row: seq<bool>, x: int): (e: int)
    requires 0 <= x < |row| && row[x]
    ensures x <= e < |row|
    ensures forall i :: x <= i <= e ==> row[i]
    ensures e == |row| - 1 || !row[e + 1]
    decreases |row| - x
  {
    if x + 1 < |row| && row[x + 1] then RunEnd(row, x + 1) else x
  }

  /** The runs of row `z` that start at column `x` or later, left to right. Each one
      that does not start at `x` follows a false cell. */
  function RunsFrom(row: seq<bool>, z: int, x: int): (rs: seq<Run>)
    requires 0 <= x
    ensures |rs| <= if x < |row| then |row| - x else 0
    ensures forall r :: r in rs ==>
      r.z == z && x <= r.from && RowRun(row, r) && (r.from == x || !row[r.from - 1])
    decreases |row| - x
  {
    if x >= |row| then []
    else if !row[x] then RunsFrom(row, z, x + 1)
    else
      var e := RunEnd(row, x);
      [Run(z, x, e)] + RunsFrom(row, z, e + 1)
  }

  /** Runs of one row, left to right, with at least one false cell between neighbours. */
  predicate Separated(rs: seq<Run>)
  {
    forall k, l :: 0 <= k < l < |rs| ==> rs[k].to + 1 < rs[l].from
  }

  lemma ConsSeparated(r: Run, rest: seq<Run>, rs: seq<Run>)
    requires Separated(rest) && rs == [r] + rest
    requires forall l :: 0 <= l < |rest| ==> r.to + 1 < rest[l].from
    ensures Separated(rs)
  {
    forall k, l | 0 <= k < l < |rs|
      ensures rs[k].to + 1 < rs[l].from
    {
      assert rs[l] == rest[l - 1];
      if k > 0 {
        assert rs[k] == rest[k - 1];
      }
    }
  }

  /** After a false cell at `x`, every run starts right of `x`. */
  lemma RunsAfterGap(row: seq<bool>, z: int, x: int)
    requires 0 <= x && (x < |row| ==> !row[x])
    ensures forall l :: 0 <= l < |RunsFrom(row, z, x)| ==> x < RunsFrom(row, z, x)[l].from
  {
    var rs := RunsFrom(row, z, x);
    forall l | 0 <= l < |rs|
      ensures x < rs[l].from
    {
      assert rs[l] in rs;
    }
  }

  /** The runs of one row are strictly ordered, with a false cell between neighbours. */
  lemma {:induction false} RunsFromOrdered(row: seq<bool>, z: int, x: int)
    requires 0 <= x
    ensures Separated(RunsFrom(row, z, x))
    decreases |row| - x
  {
    if x < |row| {
      if !row[x] {
        assert RunsFrom(row, z, x) == RunsFrom(row, z, x + 1);
        RunsFromOrdered(row, z, x + 1);
      } else {
        var e := RunEnd(row, x);
        var rest := RunsFrom(row, z, e + 1);
        assert Separated(rest) && forall l :: 0 <= l < |rest| ==> e + 1 < rest[l].from by {
          RunsFromOrdered(row, z, e + 1);
          RunsAfterGap(row, z, e + 1);
        }
        ConsSeparated(Run(z, x, e), rest, RunsFrom(row, z, x));
      }
    }
  }

  /** Every true cell of `row` at column `x` or later lies in a run of `RunsFrom`. */
  lemma {:induction false} RunsFromCover(row: seq<bool>, z: int, x: int, c: int)
    requires 0 <= x <= c < |row| && row[c]
    ensures exists r :: r in RunsFrom(row, z, x) && r.from <= c <= r.to
    decreases |row| - x
  {
    if !row[x] {
      RunsFromCover(row, z, x + 1, c);
    } else {
      var e := RunEnd(row, x);
      if c <= e {
        assert Run(z, x, e) in RunsFrom(row, z, x);
      } else {
        RunsFromCover(row, z, e + 1, c);
      }
    }
  }

  /** The runs of the first `k` rows, row by row. */
  function RunsUpTo(pm: seq<seq<bool>>, w: int, h: int, k: int): seq<Run>
    requires Valid(pm, w, h) && (k <= 0 || k <= h)
    decreases k
  {
    if k <= 0 then [] else RunsUpTo(pm, w, h, k - 1) + RunsFrom(Row(pm, w, h, k - 1), k - 1, 0)
  }

  /** Every run of the mask, ordered by row and then by column. */
  function AllRuns(pm: seq<seq<bool>>, w: int, h: int): seq<Run>
    requires Valid(pm, w, h)
  {
    RunsUpTo(pm, w, h, h)
  }

  /** A run lies in the mask, its cells are true, and it cannot be extended to either
      side. */
  predicate MaximalRun(pm: seq<seq<bool>>, w: int, h: int, r: Run)
    requires Valid(pm, w, h)
  {
    0 <= r.z < h && 0 <= r.from <= r.to < w &&
    (forall i :: r.from <= i <= r.to ==> pm[i][r.z]) &&
    (r.from == 0 || !pm[r.from - 1][r.z]) &&
    (r.to == w - 1 || !pm[r.to + 1][r.z])
  }

  /** Run `a` comes before run `b`: an earlier row, or the same row further left with
      at least one false cell between them. */
  predicate Precedes(a: Run, b: Run)
  {
    a.z < b.z || (a.z == b.z && a.to + 1 < b.from)
  }

  /** Run `r` holds the cell at column `c` of row `z`. */
  predicate Covers(r: Run, c: int, z: int)
  {
    r.z == z && r.from <= c <= r.to
  }

  /** The recorded runs of the first `k` rows lie in those rows. */
  lemma {:induction false} RunsUpToRows(pm: seq<seq<bool>>, w: int, h: int, k: int)
    requires Valid(pm, w, h) && 0 <= k <= h
    ensures forall r :: r in RunsUpTo(pm, w, h, k) ==> r.z < k
  {
    if k > 0 {
      RunsUpToRows(pm, w, h, k - 1);
    }
  }

  /** Every recorded run of the first `k` rows is a maximal run of the mask. */
  lemma {:induction false} RunsUpToMaximal(pm: seq<seq<bool>>, w: int, h: int, k: int)
    requires Valid(pm, w, h) && 0 <= k <= h
    ensures forall r :: r in RunsUpTo(pm, w, h, k) ==> MaximalRun(pm, w, h, r)
  {
    if k > 0 {
      RunsUpToMaximal(pm, w, h, k - 1);
      var row := Row(pm, w, h, k - 1);
      forall r | r in RunsFrom(row, k - 1, 0)
        ensures MaximalRun(pm, w, h, r)
      {
        assert RowRun(row, r);
      }
    }
  }

  /** There are at most `k * w` runs in the first `k` rows: one per cell at most. */
  lemma {:induction false} RunsUpToCount(pm: seq<seq<bool>>, w: int, h: int, k: int)
    requires Valid(pm, w, h) && 0 <= k <= h && w >= 0
    ensures |RunsUpTo(pm, w, h, k)| <= k * w
  {
    if k > 0 {
      RunsUpToCount(pm, w, h, k - 1);
      assert k * w == (k - 1) * w + w;
    }
  }

  /** Each run precedes every later one. */
  predicate Ordered(rs: seq<Run>)
  {
    forall n, m :: 0 <= n < m < |rs| ==> Precedes(rs[n], rs[m])
  }

  /** The runs of one row are ordered. */
  lemma RowOrdered(row: seq<bool>, z: int)
    ensures Ordered(RunsFrom(row, z, 0))
  {
    var rs := RunsFrom(row, z, 0);
    RunsFromOrdered(row, z, 0);
    forall n, m | 0 <= n < m < |rs|
      ensures Precedes(rs[n], rs[m])
    {
      assert rs[n] in rs && rs[m] in rs;
    }
  }

  /** Ordered runs of earlier rows followed by ordered runs of a later row are ordered. */
  lemma ConcatOrdered(a: seq<Run>, b: seq<Run>, z: int, rs: seq<Run>)
    requires Ordered(a) && Ordered(b) && rs == a + b
    requires forall r :: r in a ==> r.z < z
    requires forall r :: r in b ==> r.z == z
    ensures Ordered(rs)
  {
    forall n, m | 0 <= n < m < |rs|
      ensures Precedes(rs[n], rs[m])
    {
      if m < |a| {
        assert rs[n] == a[n] && rs[m] == a[m];
      } else if n < |a| {
        assert rs[n] == a[n] && rs[m] == b[m - |a|];
        assert a[n] in a && b[m - |a|] in b;
      } else {
        assert rs[n] == b[n - |a|] && rs[m] == b[m - |a|];
      }
    }
  }

  /** Appending the runs of row `k - 1` keeps the recorded runs ordered. */
  lemma AppendRowOrdered(pm: seq<seq<bool>>, w: int, h: int, k: int)
    requires Valid(pm, w, h) && 0 < k <= h
    requires Ordered(RunsUpTo(pm, w, h, k - 1))
    ensures Ordered(RunsUpTo(pm, w, h, k))
  {
    var a := RunsUpTo(pm, w, h, k - 1);
    var row := Row(pm, w, h, k - 1);
    var b := RunsFrom(row, k - 1, 0);
    assert forall r :: r in a ==> r.z < k - 1 by {
      RunsUpToRows(pm, w, h, k - 1);
    }
    assert Ordered(b) by {
      RowOrdered(row, k - 1);
    }
    ConcatOrdered(a, b, k - 1, RunsUpTo(pm, w, h, k));
  }

  /** The recorded runs are strictly ordered: by row, then left to right with a false
      cell between any two in one row. */
  lemma {:induction false} RunsUpToOrdered(pm: seq<seq<bool>>, w: int, h: int, k: int)
    requires Valid(pm, w, h) && 0 <= k <= h
    ensures Ordered(RunsUpTo(pm, w, h, k))
  {
    if k > 0 {
      RunsUpToOrdered(pm, w, h, k - 1);
      AppendRowOrdered(pm, w, h, k);
    }
  }

  /** Every true cell of the first `k` rows lies in a recorded run. */
  lemma {:induction false} RunsUpToCover(pm: seq<seq<bool>>, w: int, h: int, k: int, c: int, z: int)
    requires Valid(pm, w, h) && 0 <= z < k <= h && 0 <= c < w && pm[c][z]
    ensures exists r :: r in RunsUpTo(pm, w, h, k) && Covers(r, c, z)
  {
    var a := RunsUpTo(pm, w, h, k - 1);
    var b := RunsFrom(Row(pm, w, h, k - 1), k - 1, 0);
    assert RunsUpTo(pm, w, h, k) == a + b;
    if z < k - 1 {
      RunsUpToCover(pm, w, h, k - 1, c, z);
    } else {
      RunsFromCover(Row(pm, w, h, z), z, 0, c);
      var r :| r in b && r.from <= c <= r.to;
      assert r in a + b && Covers(r, c, z);
    }
  }

  /** The recorded runs are maximal, ordered by row and then by column, at most one per
      cell, and every true cell lies in exactly one of them. */
  lemma AllRunsPartition(pm: seq<seq<bool>>, w: int, h: int)
    requires Valid(pm, w, h) && w >= 0 && h >= 0
    ensures forall r :: r in AllRuns(pm, w, h) ==> MaximalRun(pm, w, h, r)
    ensures Ordered(AllRuns(pm, w, h))
    ensures |AllRuns(pm, w, h)| <= h * w
    ensures forall z, c :: 0 <= z < h && 0 <= c < w && pm[c][z] ==>
      exists r :: r in AllRuns(pm, w, h) && Covers(r, c, z)
    ensures forall n, m, z, c :: 0 <= n < m < |AllRuns(pm, w, h)| && Covers(AllRuns(pm, w, h)[n], c, z) ==>
      !Covers(AllRuns(pm, w, h)[m], c, z)
  {
    RunsUpToMaximal(pm, w, h, h);
    RunsUpToCount(pm, w, h, h);
    RunsUpToOrdered(pm, w, h, h);
    forall z, c | 0 <= z < h && 0 <= c < w && pm[c][z]
      ensures exists r :: r in AllRuns(pm, w, h) && Covers(r, c, z)
    {
      RunsUpToCover(pm, w, h, h, c, z);
    }
  }

  /** A width-7 row 0,1,1,1,0,1,0 holds the run (1, 3) and then the run (5, 5). */
  lemma ExampleRow()
    ensures AllRuns([[false], [true], [true], [true], [false], [true], [false]], 7, 1) ==
      [Run(0, 1, 3), Run(0, 5, 5)]
  {
    var pm := [[false], [true], [true], [true], [false], [true], [false]];
    var row := Row(pm, 7, 1, 0);
    assert row == [false, true, true, true, false, true, false];
    assert RunEnd(row, 1) == 3 by {
      assert RunEnd(row, 3) == 3;
      assert RunEnd(row, 2) == 3;
    }
    assert RunEnd(row, 5) == 5;
    assert RunsFrom(row, 0, 6) == [];
    assert RunsFrom(row, 0, 4) == [Run(0, 5, 5)];
    assert RunsFrom(row, 0, 0) == [Run(0, 1, 3), Run(0, 5, 5)];
    assert RunsUpTo(pm, 7, 1, 1) == RunsUpTo(pm, 7, 1, 0) + RunsFrom(row, 0, 0);
  }

  /** The output entry for a run: start and end point, or a single point when the run
      is one cell long. Points are (x, y) = (column, row). */
  function Entry(r: Run): (e: seq<int>)
    ensures r.from != r.to ==> |e| == 4 && e[2] == r.to && e[3] == r.z
    ensures r.from == r.to ==> |e| == 2
    ensures e[0] == r.from && e[1] == r.z
  {
    if r.from != r.to then [r.from, r.z, r.to, r.z] else [r.from, r.z]
  }

  /** A false cell starts no run. */
  lemma RunsFromSkip(row: seq<bool>, z: int, x: int)
    requires 0 <= x < |row| && !row[x]
    ensures RunsFrom(row, z, x) == RunsFrom(row, z, x + 1)
  {
  }

  /** A true cell starts the run that ends at `RunEnd`. */
  lemma RunsFromStart(row: seq<bool>, z: int, x: int)
    requires 0 <= x < |row| && row[x]
    ensures RunsFrom(row, z, x) == [Run(z, x, RunEnd(row, x))] + RunsFrom(row, z, RunEnd(row, x) + 1)
  {
  }

  /** The scan state inside a run: cells `from` to `to` = `x - 1` are true, and the
      runs still to come are the one starting at `from` and those after it. */
  predicate OpenRun(row: seq<bool>, z: int, x: int, from: int, to: int, list: seq<Run>, total: seq<Run>)
  {
    0 <= from <= to && to == x - 1 && x < |row| && row[to] && row[from] &&
    RunEnd(row, from) == RunEnd(row, to) &&
    list + ([Run(z, from, RunEnd(row, from))] + RunsFrom(row, z, RunEnd(row, from) + 1)) == total
  }

  /** The state of the scan of one row before cell `x`. */
  predicate ScanInv(row: seq<bool>, z: int, x: int, isLine: bool, from: int, to: int,
                    list: seq<Run>, total: seq<Run>)
  {
    0 <= x &&
    (!isLine ==> list + RunsFrom(row, z, x) == total) &&
    (isLine ==> OpenRun(row, z, x, from, to, list, total))
  }

  /** One cell of the scan: the `isLine`/`isPixel` cases of the loop body. */
  method ScanCell(ghost row: seq<bool>, width: int, z: int, x: int, isPixel: bool, isLine0: bool,
                  from0: int, to0: int, list0: seq<Run>, ghost total: seq<Run>)
    returns (isLine: bool, from: int, to: int, list: seq<Run>)
    requires width == |row| && 0 <= x < width && isPixel == row[x]
    requires ScanInv(row, z, x, isLine0, from0, to0, list0, total)
    ensures ScanInv(row, z, x + 1, isLine, from, to, list, total)
    ensures x + 1 == |row| ==> !isLine
  {
    isLine, from, to, list := isLine0, from0, to0, list0;
    if isLine {
      if isPixel {
        assert RunEnd(row, to) == RunEnd(row, x);
        to := x;
        if x + 1 == width {
          Associative(list, [Run(z, from, to)], []);
          list := list + [Run(z, from, to)];
          isLine := false;
        }
      } else {
        assert RunEnd(row, to) == to;
        RunsFromSkip(row, z, x);
        Associative(list, [Run(z, from, to)], RunsFrom(row, z, x));
        list := list + [Run(z, from, to)];
        isLine := false;
      }
    } else {
      if isPixel {
        RunsFromStart(row, z, x);
        from := x;
        to := x;
        if x + 1 == width {
          Associative(list, [Run(z, from, to)], []);
          list := list + [Run(z, from, to)];
        } else {
          isLine := true;
        }
      } else {
        RunsFromSkip(row, z, x);
      }
    }
  }

  /** The inner loop of the scan over row `z`: the runs of that row are appended to
      `list`. `isLine` is false after the row, so the source's "Assertion failed"
      message is never printed. */
  method ScanRow(pointMatrix: seq<seq<bool>>, imageWidth: int, imageHeight: int, z: int, list0: seq<Run>)
    returns (list: seq<Run>)
    requires Valid(pointMatrix, imageWidth, imageHeight) && 0 <= z < imageHeight
    ensures list == list0 + RunsFrom(Row(pointMatrix, imageWidth, imageHeight, z), z, 0)
  {
    ghost var row := Row(pointMatrix, imageWidth, imageHeight, z);
    ghost var total := list0 + RunsFrom(row, z, 0);
    list := list0;
    var from, to := 0, 0;
    var isLine := false;
    var x := 0;
    while x < imageWidth
      invariant 0 <= x <= imageWidth || (x == 0 && imageWidth < 0)
      invariant ScanInv(row, z, x, isLine, from, to, list, total)
      invariant x == imageWidth ==> !isLine
    {
      var isPixel := pointMatrix[x][z];
      isLine, from, to, list := ScanCell(row, imageWidth, z, x, isPixel, isLine, from, to, list, total);
      x := x + 1;
    }
    assert !isLine;
  }

  /** The scan of `GetHorizontalLines`: every row, top to bottom. */
  method CollectRuns(pointMatrix: seq<seq<bool>>, imageWidth: int, imageHeight: int) returns (list: seq<Run>)
    requires Valid(pointMatrix, imageWidth, imageHeight)
    ensures list == AllRuns(pointMatrix, imageWidth, imageHeight)
  {
    list := [];
    var z := 0;
    while z < imageHeight
      invariant 0 <= z <= imageHeight || (z == 0 && imageHeight < 0)
      invariant list == RunsUpTo(pointMatrix, imageWidth, imageHeight, z)
    {
      list := ScanRow(pointMatrix, imageWidth, imageHeight, z, list);
      assert list == RunsUpTo(pointMatrix, imageWidth, imageHeight, z + 1);
      z := z + 1;
    }
  }

  /** `GetHorizontalLines`: one output entry per run, in scan order. */
  method GetHorizontalLines(pointMatrix: seq<seq<bool>>, imageWidth: int, imageHeight: int)
    returns (horizontalLines: seq<seq<int>>)
    requires Valid(pointMatrix, imageWidth, imageHeight)
    ensures |horizontalLines| == |AllRuns(pointMatrix, imageWidth, imageHeight)|
    ensures forall n :: 0 <= n < |horizontalLines| ==>
      horizontalLines[n] == Entry(AllRuns(pointMatrix, imageWidth, imageHeight)[n])
  {
    var list := CollectRuns(pointMatrix, imageWidth, imageHeight);
    var lines := new seq<int>[|list|];
    var n := 0;
    while n < |list|
      invariant 0 <= n <= |list|
      invariant forall m :: 0 <= m < n ==> lines[m] == Entry(list[m])
    {
      var line := list[n];
      if line.from != line.to {
        lines[n] := [line.from, line.z, line.to, line.z];
      } else {
        lines[n] := [line.from, line.z];
      }
      n := n + 1;
    }
    horizontalLines := lines[..];
  }
}
