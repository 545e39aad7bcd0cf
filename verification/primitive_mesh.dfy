/**
 * Index lists of the plane, sphere and torus primitives.
 *
 * Each primitive lays its vertices out as a grid of rows of `w + 1`
 * vertices, row after row, so the vertex in row `r` and column `c` has index
 * `(w + 1) * r + c`. Each cell between rows `r` and `r + 1` and columns `c`
 * and `c + 1` is split into two triangles; the three primitives differ in
 * the winding of those triangles, and the sphere leaves out the triangles
 * that would have two corners on a pole.
 */
module MeshIndices {
  import opened Multiples

  type Triangle = (int, int, int)

  datatype Shape = Plane | Sphere | Torus

  /** A triangle list written out flat, three indices per triangle. */
  function Flatten3(ts: seq<Triangle>): (r: seq<int>)
    ensures |r| == 3 * |ts|
  {
    if |ts| == 0 then []
    else
      var t := ts[|ts| - 1];
      Flatten3(ts[..|ts| - 1]) + [t.0, t.1, t.2]
  }

  /**
   * The two triangles of the cell at column `c` between the rows starting at
   * indices `a` and `b`, in the order and winding each primitive pushes them.
   */
  function FirstTriangle(shape: Shape, a: int, b: int, c: int): Triangle {
    match shape
    case Plane => (c + a, c + b, c + 1 + a)
    case Sphere => (a + c + 1, a + c, b + c + 1)
    case Torus => (b + c, a + c, b + c + 1)
  }

  function SecondTriangle(shape: Shape, a: int, b: int, c: int): Triangle {
    match shape
    case Plane => (c + b, c + 1 + b, c + 1 + a)
    case Sphere => (a + c, b + c, b + c + 1)
    case Torus => (a + c, a + c + 1, b + c + 1)
  }

  /** The triangles of the first `n` cells of a row; `first` and `second` say which of each cell's two are kept. */
  function RowTriangles(shape: Shape, a: int, b: int, n: nat, first: bool, second: bool): seq<Triangle>
  {
    if n == 0 then []
    else
      RowTriangles(shape, a, b, n - 1, first, second) +
      (if first then [FirstTriangle(shape, a, b, n - 1)] else []) +
      (if second then [SecondTriangle(shape, a, b, n - 1)] else [])
  }

  /** The sphere drops the first triangle of each cell in row 0 and the second in the last row. */
  predicate KeepsFirst(shape: Shape, r: nat) {
    shape != Sphere || r != 0
  }

  predicate KeepsSecond(shape: Shape, r: nat, h: nat) {
    shape != Sphere || r != h - 1
  }

  /** The triangles of cell row `r` of a grid with `w` cells per row and `h` cell rows. */
  function Row(shape: Shape, w: nat, h: nat, r: nat): seq<Triangle>
  {
    RowTriangles(shape, Stride(w + 1, r), Stride(w + 1, r + 1), w, KeepsFirst(shape, r), KeepsSecond(shape, r, h))
  }

  /** The triangles of the first `k` cell rows. */
  function Rows(shape: Shape, w: nat, h: nat, k: nat): seq<Triangle>
  {
    if k == 0 then [] else Rows(shape, w, h, k - 1) + Row(shape, w, h, k - 1)
  }

  /** The index list of a primitive with `w` by `h` cells. */
  function GridIndices(shape: Shape, w: nat, h: nat): seq<int>
  {
    Flatten3(Rows(shape, w, h, h))
  }

  lemma {:induction false} Flatten3Append(s: seq<Triangle>, t: seq<Triangle>)
    ensures Flatten3(s + t) == Flatten3(s) + Flatten3(t)
    decreases |t|
  {
    if |t| > 0 {
      var m := |t| - 1;
      assert (s + t)[..|s + t| - 1] == s + t[..m];
      Flatten3Append(s, t[..m]);
    } else {
      assert s + t == s;
    }
  }

  /** Every index of a flat triangle list is a corner of one of its triangles. */
  lemma {:induction false} Flatten3Corners(ts: seq<Triangle>, p: nat)
    requires p < |Flatten3(ts)|
    ensures exists k :: 0 <= k < |ts| && Flatten3(ts)[p] in {ts[k].0, ts[k].1, ts[k].2}
  {
    var m := |ts| - 1;
    if p < 3 * m {
      Flatten3Corners(ts[..m], p);
      var k :| 0 <= k < m && Flatten3(ts[..m])[p] in {ts[..m][k].0, ts[..m][k].1, ts[..m][k].2};
      assert ts[..m][k] == ts[k];
    } else {
      assert Flatten3(ts)[p] in {ts[m].0, ts[m].1, ts[m].2};
    }
  }

  /** The corners of every triangle lie in [lo, hi). */
  predicate CornersIn(ts: seq<Triangle>, lo: int, hi: int) {
    forall k :: 0 <= k < |ts| ==>
      lo <= ts[k].0 < hi && lo <= ts[k].1 < hi && lo <= ts[k].2 < hi
  }

  lemma {:induction false} RowCorners(shape: Shape, a: int, b: int, n: nat, first: bool, second: bool)
    requires a <= b
    ensures CornersIn(RowTriangles(shape, a, b, n, first, second), a, b + n + 1)
  {
    if n > 0 {
      RowCorners(shape, a, b, n - 1, first, second);
    }
  }

  lemma {:induction false} RowsCorners(shape: Shape, w: nat, h: nat, k: nat)
    requires k <= h
    ensures CornersIn(Rows(shape, w, h, k), 0, Stride(w + 1, h + 1))
  {
    if k > 0 {
      RowsCorners(shape, w, h, k - 1);
      RowCorners(shape, Stride(w + 1, k - 1), Stride(w + 1, k), w, KeepsFirst(shape, k - 1), KeepsSecond(shape, k - 1, h));
      StrideFits(w + 1, k, h + 1);
    }
  }

  /** Every index of a plane, sphere or torus lies below the vertex count `(w + 1) * (h + 1)`. */
  lemma GridBounds(shape: Shape, w: nat, h: nat)
    ensures forall x :: x in GridIndices(shape, w, h) ==> 0 <= x < (w + 1) * (h + 1)
  {
    var ts := Rows(shape, w, h, h);
    RowsCorners(shape, w, h, h);
    StrideIsProduct(w + 1, h + 1);
    forall x | x in Flatten3(ts)
      ensures 0 <= x < (w + 1) * (h + 1)
    {
      var p :| 0 <= p < |Flatten3(ts)| && Flatten3(ts)[p] == x;
      Flatten3Corners(ts, p);
    }
  }

  lemma {:induction false} RowLength(shape: Shape, a: int, b: int, n: nat, first: bool, second: bool)
    ensures |RowTriangles(shape, a, b, n, first, second)| == Stride((if first then 1 else 0) + (if second then 1 else 0), n)
  {
    if n > 0 {
      RowLength(shape, a, b, n - 1, first, second);
    }
  }

  lemma {:induction false} FullRowsLength(shape: Shape, w: nat, h: nat, k: nat)
    requires shape != Sphere && k <= h
    ensures |Rows(shape, w, h, k)| == Stride(Stride(2, w), k)
  {
    if k > 0 {
      FullRowsLength(shape, w, h, k - 1);
      RowLength(shape, Stride(w + 1, k - 1), Stride(w + 1, k), w, true, true);
    }
  }

  /** The plane and the torus emit two triangles, six indices, per cell. */
  lemma FullGridLength(shape: Shape, w: nat, h: nat)
    requires shape != Sphere
    ensures |GridIndices(shape, w, h)| == 6 * w * h
  {
    FullRowsLength(shape, w, h, h);
    StrideIsProduct(2, w);
    StrideIsProduct(2 * w, h);
    assert 3 * ((2 * w) * h) == 6 * w * h;
  }

  lemma {:induction false} SphereRowsLength(w: nat, h: nat, k: nat)
    requires 1 <= k < h
    ensures |Rows(Sphere, w, h, k)| + w == Stride(Stride(2, w), k)
  {
    RowLength(Sphere, Stride(w + 1, k - 1), Stride(w + 1, k), w, KeepsFirst(Sphere, k - 1), KeepsSecond(Sphere, k - 1, h));
    StrideIsProduct(1, w);
    StrideIsProduct(2, w);
    if k > 1 {
      SphereRowsLength(w, h, k - 1);
    }
  }

  /**
   * The sphere emits one triangle per cell in its first and last rows and two
   * elsewhere: `6 * w * (h - 1)` indices for `h >= 1` rows of cells.
   */
  lemma SphereLength(w: nat, h: nat)
    requires h >= 1
    ensures |GridIndices(Sphere, w, h)| == 6 * w * (h - 1)
  {
    StrideIsProduct(2, w);
    if h == 1 {
      assert Rows(Sphere, w, h, h) == Row(Sphere, w, h, 0);
      RowLength(Sphere, Stride(w + 1, 0), Stride(w + 1, 1), w, false, false);
      StrideIsProduct(0, w);
    } else {
      SphereRowsLength(w, h, h - 1);
      RowLength(Sphere, Stride(w + 1, h - 1), Stride(w + 1, h), w, true, false);
      StrideIsProduct(1, w);
      StrideIsProduct(2 * w, h - 1);
      assert 3 * ((2 * w) * (h - 1)) == 6 * w * (h - 1);
    }
  }

  /** How many corners of `t` lie in [lo, hi). */
  function CornersInRange(t: Triangle, lo: int, hi: int): nat {
    (if lo <= t.0 < hi then 1 else 0) + (if lo <= t.1 < hi then 1 else 0) + (if lo <= t.2 < hi then 1 else 0)
  }

  /** No triangle of `ts` has two corners in [lo, hi). */
  predicate AtMostOneCornerIn(ts: seq<Triangle>, lo: int, hi: int) {
    forall k :: 0 <= k < |ts| ==> CornersInRange(ts[k], lo, hi) <= 1
  }

  /**
   * In a sphere row whose next row starts `w + 1` indices later, no triangle
   * has two corners in [lo, hi) when that range misses both rows, or is the
   * upper row with the first triangles dropped, or the lower row with the
   * second triangles dropped.
   */
  lemma {:induction false} RowPoles(a: int, w: nat, n: nat, first: bool, second: bool, lo: int, hi: int)
    requires n <= w
    requires (hi <= a || a + 2 * (w + 1) <= lo) ||
             (!first && lo == a && hi == a + w + 1) ||
             (!second && lo == a + w + 1 && hi == a + 2 * (w + 1))
    ensures AtMostOneCornerIn(RowTriangles(Sphere, a, a + w + 1, n, first, second), lo, hi)
  {
    if n > 0 {
      RowPoles(a, w, n - 1, first, second, lo, hi);
    }
  }

  /**
   * The vertices of sphere row 0 all sit at one pole, and those of row `h` at
   * the other: no sphere triangle has two corners in either row, so none is
   * degenerate there.
   */
  lemma SpherePoles(w: nat, h: nat)
    ensures AtMostOneCornerIn(Rows(Sphere, w, h, h), 0, w + 1)
    ensures AtMostOneCornerIn(Rows(Sphere, w, h, h), (w + 1) * h, (w + 1) * (h + 1))
  {
    StrideIsProduct(w + 1, h);
    StrideIsProduct(w + 1, h + 1);
    SpherePolesUpTo(w, h, h);
  }

  lemma {:induction false} SpherePolesUpTo(w: nat, h: nat, k: nat)
    requires k <= h
    ensures AtMostOneCornerIn(Rows(Sphere, w, h, k), 0, w + 1)
    ensures AtMostOneCornerIn(Rows(Sphere, w, h, k), Stride(w + 1, h), Stride(w + 1, h + 1))
  {
    if k > 0 {
      SpherePolesUpTo(w, h, k - 1);
      var r := k - 1;
      var a, b := Stride(w + 1, r), Stride(w + 1, r + 1);
      var first, second := KeepsFirst(Sphere, r), KeepsSecond(Sphere, r, h);
      var top, bottom := Stride(w + 1, h), Stride(w + 1, h + 1);
      var row := Row(Sphere, w, h, r);
      if r + 1 < h {
        StrideFits(w + 1, r + 1, h);
      }
      if r > 0 {
        StrideFits(w + 1, 0, r);
      }
      RowPoles(a, w, w, first, second, 0, w + 1);
      RowPoles(a, w, w, first, second, top, bottom);
      assert Rows(Sphere, w, h, k) == Rows(Sphere, w, h, r) + row;
    }
  }

  /** Pushing one triangle's three indices. */
  lemma PushTriangle(ts: seq<Triangle>, t: Triangle)
    ensures Flatten3(ts + [t]) == Flatten3(ts) + [t.0, t.1, t.2]
  {
    assert (ts + [t])[..|ts|] == ts;
  }

  /** One more cell of a row, after the rows before it. */
  lemma CellStep(prefix: seq<Triangle>, shape: Shape, a: int, b: int, i: nat, first: bool, second: bool)
    ensures prefix + RowTriangles(shape, a, b, i + 1, first, second) ==
      prefix + RowTriangles(shape, a, b, i, first, second) +
      (if first then [FirstTriangle(shape, a, b, i)] else []) +
      (if second then [SecondTriangle(shape, a, b, i)] else [])
  {
  }

  /** The plane's index loops: two triangles per cell, row after row. */
  method CreatePlaneIndices(segmentsW: nat, segmentsH: nat) returns (indexList: seq<int>)
    ensures indexList == GridIndices(Plane, segmentsW, segmentsH)
  {
    indexList := [];
    ghost var tris: seq<Triangle> := [];
    var wVertices := segmentsW + 1;
    var j := 0;
    while j < segmentsH
      invariant j <= segmentsH
      invariant tris == Rows(Plane, segmentsW, segmentsH, j) && indexList == Flatten3(tris)
    {
      var j0 := wVertices * j;
      var j1 := wVertices * (j + 1);
      assert j0 == Stride(wVertices, j) && j1 == Stride(wVertices, j + 1) by {
        StrideIsProduct(wVertices, j);
        StrideIsProduct(wVertices, j + 1);
      }
      ghost var done := tris;
      var i := 0;
      while i < segmentsW
        invariant i <= segmentsW
        invariant tris == done + RowTriangles(Plane, j0, j1, i, true, true) && indexList == Flatten3(tris)
      {
        CellStep(done, Plane, j0, j1, i, true, true);
        indexList, tris := PlaneCell(indexList, tris, i, j0, j1);
        i := i + 1;
      }
      j := j + 1;
    }
  }

  /** The body of the plane's inner loop: the two triangles of the cell at column `i`. */
  method PlaneCell(indexList: seq<int>, ghost tris: seq<Triangle>, i: nat, j0: int, j1: int)
    returns (indexList': seq<int>, ghost tris': seq<Triangle>)
    requires indexList == Flatten3(tris)
    ensures indexList' == Flatten3(tris')
    ensures tris' == tris + [FirstTriangle(Plane, j0, j1, i)] + [SecondTriangle(Plane, j0, j1, i)]
  {
    var i0 := i + j0;
    var i1 := i + j1;
    var i2 := i + 1 + j1;
    var i3 := i + 1 + j0;
    PushTriangle(tris, (i0, i1, i3));
    indexList', tris' := indexList + [i0, i1, i3], tris + [(i0, i1, i3)];
    PushTriangle(tris', (i1, i2, i3));
    indexList', tris' := indexList' + [i1, i2, i3], tris' + [(i1, i2, i3)];
  }

  /** The sphere's vertex grid: row `j` lists the indices of its `segmentsW + 1` vertices. */
  method SphereGrid(segmentsW: nat, segmentsH: nat) returns (grid: seq<seq<int>>)
    ensures |grid| == segmentsH + 1
    ensures forall j :: 0 <= j < |grid| ==> |grid[j]| == segmentsW + 1
    ensures forall j, i :: 0 <= j < |grid| && 0 <= i < |grid[j]| ==> grid[j][i] == (segmentsW + 1) * j + i
  {
    grid := [];
    var idx := 0;
    var j := 0;
    while j <= segmentsH
      invariant j <= segmentsH + 1 && |grid| == j && idx == Stride(segmentsW + 1, j)
      invariant forall r :: 0 <= r < j ==> |grid[r]| == segmentsW + 1
      invariant forall r, c :: 0 <= r < j && 0 <= c < |grid[r]| ==> grid[r][c] == Stride(segmentsW + 1, r) + c
    {
      var verticesRow := [];
      var i := 0;
      while i <= segmentsW
        invariant i <= segmentsW + 1 && |verticesRow| == i && idx == Stride(segmentsW + 1, j) + i
        invariant forall c :: 0 <= c < i ==> verticesRow[c] == Stride(segmentsW + 1, j) + c
      {
        verticesRow := verticesRow + [idx];
        idx := idx + 1;
        i := i + 1;
      }
      grid := grid + [verticesRow];
      j := j + 1;
    }
    forall r, c | 0 <= r < |grid| && 0 <= c < |grid[r]|
      ensures grid[r][c] == (segmentsW + 1) * r + c
    {
      StrideIsProduct(segmentsW + 1, r);
    }
  }

  /** The sphere's index loops, reading corners from the vertex grid and skipping the pole triangles. */
  method CreateSphereIndices(segmentsW: nat, segmentsH: nat) returns (indexList: seq<int>)
    ensures indexList == GridIndices(Sphere, segmentsW, segmentsH)
  {
    var grid := SphereGrid(segmentsW, segmentsH);
    indexList := [];
    ghost var tris: seq<Triangle> := [];
    var j := 0;
    while j < segmentsH
      invariant j <= segmentsH
      invariant tris == Rows(Sphere, segmentsW, segmentsH, j) && indexList == Flatten3(tris)
    {
      indexList, tris := SphereRow(indexList, tris, grid, segmentsW, segmentsH, j);
      j := j + 1;
    }
  }

  /** The body of the sphere's outer loop: the kept triangles of cell row `j`, read from the vertex grid. */
  method SphereRow(indexList: seq<int>, ghost tris: seq<Triangle>, grid: seq<seq<int>>, segmentsW: nat, segmentsH: nat, j: nat)
    returns (indexList': seq<int>, ghost tris': seq<Triangle>)
    requires j < segmentsH && indexList == Flatten3(tris)
    requires |grid| == segmentsH + 1
    requires forall r :: 0 <= r < |grid| ==> |grid[r]| == segmentsW + 1
    requires forall r, c :: 0 <= r < |grid| && 0 <= c < |grid[r]| ==> grid[r][c] == (segmentsW + 1) * r + c
    ensures indexList' == Flatten3(tris')
    ensures tris' == tris + Row(Sphere, segmentsW, segmentsH, j)
  {
    var gridJ0 := grid[j];
    var gridJ1 := grid[j + 1];
    ghost var a, b := Stride(segmentsW + 1, j), Stride(segmentsW + 1, j + 1);
    assert forall c :: 0 <= c < |gridJ0| ==> gridJ0[c] == a + c by {
      StrideIsProduct(segmentsW + 1, j);
    }
    assert forall c :: 0 <= c < |gridJ1| ==> gridJ1[c] == b + c by {
      StrideIsProduct(segmentsW + 1, j + 1);
    }
    ghost var first, second := KeepsFirst(Sphere, j), KeepsSecond(Sphere, j, segmentsH);
    indexList', tris' := indexList, tris;
    var i := 0;
    while i < segmentsW
      invariant i <= segmentsW
      invariant tris' == tris + RowTriangles(Sphere, a, b, i, first, second) && indexList' == Flatten3(tris')
    {
      CellStep(tris, Sphere, a, b, i, first, second);
      indexList', tris' := SphereCell(indexList', tris', gridJ0, gridJ1, i, j, segmentsH, a, b);
      i := i + 1;
    }
  }

  /** The body of the sphere's inner loop: the kept triangles of the cell at column `i` of row `j`. */
  method SphereCell(indexList: seq<int>, ghost tris: seq<Triangle>, gridJ0: seq<int>, gridJ1: seq<int>,
                    i: nat, j: nat, segmentsH: nat, ghost a: int, ghost b: int)
    returns (indexList': seq<int>, ghost tris': seq<Triangle>)
    requires i + 1 < |gridJ0| && i + 1 < |gridJ1| && indexList == Flatten3(tris)
    requires forall c :: 0 <= c < |gridJ0| ==> gridJ0[c] == a + c
    requires forall c :: 0 <= c < |gridJ1| ==> gridJ1[c] == b + c
    ensures indexList' == Flatten3(tris')
    ensures tris' == tris +
      (if KeepsFirst(Sphere, j) then [FirstTriangle(Sphere, a, b, i)] else []) +
      (if KeepsSecond(Sphere, j, segmentsH) then [SecondTriangle(Sphere, a, b, i)] else [])
  {
    var i0 := gridJ0[i + 1];
    var i1 := gridJ0[i];
    var i2 := gridJ1[i];
    var i3 := gridJ1[i + 1];
    indexList', tris' := indexList, tris;
    if j != 0 {
      PushTriangle(tris', (i0, i1, i3));
      indexList', tris' := indexList' + [i0, i1, i3], tris' + [(i0, i1, i3)];
    }
    ghost var kept := tris';
    if j != segmentsH - 1 {
      PushTriangle(tris', (i1, i2, i3));
      indexList', tris' := indexList' + [i1, i2, i3], tris' + [(i1, i2, i3)];
    }
    if j == 0 {
      assert kept == tris + [];
    }
    if j == segmentsH - 1 {
      assert tris' == kept + [];
    }
  }

  /** The body of the torus's inner loop: the two triangles of the cell at one-based column `i` of one-based row `j`. */
  method TorusCell(indexList: seq<int>, ghost tris: seq<Triangle>, segmentsT: nat, i: nat, j: nat, ghost a: int, ghost b: int)
    returns (indexList': seq<int>, ghost tris': seq<Triangle>)
    requires i >= 1 && j >= 1 && indexList == Flatten3(tris)
    requires a == Stride(segmentsT + 1, j - 1) && b == Stride(segmentsT + 1, j)
    ensures indexList' == Flatten3(tris')
    ensures tris' == tris + [FirstTriangle(Torus, a, b, i - 1)] + [SecondTriangle(Torus, a, b, i - 1)]
  {
    var seg := segmentsT + 1;
    assert seg * j == b && seg * (j - 1) == a by {
      StrideIsProduct(seg, j);
      StrideIsProduct(seg, j - 1);
    }
    var i0 := seg * j + i - 1;
    var i1 := seg * (j - 1) + i - 1;
    var i2 := seg * (j - 1) + i;
    var i3 := seg * j + i;
    PushTriangle(tris, (i0, i1, i3));
    indexList', tris' := indexList + [i0, i1, i3], tris + [(i0, i1, i3)];
    PushTriangle(tris', (i1, i2, i3));
    indexList', tris' := indexList' + [i1, i2, i3], tris' + [(i1, i2, i3)];
  }

  /** The torus's index loops, one-based over rings and tube segments. */
  method CreateTorusIndices(segmentsR: nat, segmentsT: nat) returns (indexList: seq<int>)
    ensures indexList == GridIndices(Torus, segmentsT, segmentsR)
  {
    indexList := [];
    ghost var tris: seq<Triangle> := [];
    var j := 1;
    while j <= segmentsR
      invariant 1 <= j <= segmentsR + 1
      invariant tris == Rows(Torus, segmentsT, segmentsR, j - 1) && indexList == Flatten3(tris)
    {
      ghost var a, b := Stride(segmentsT + 1, j - 1), Stride(segmentsT + 1, j);
      ghost var done := tris;
      var i := 1;
      while i <= segmentsT
        invariant 1 <= i <= segmentsT + 1
        invariant tris == done + RowTriangles(Torus, a, b, i - 1, true, true) && indexList == Flatten3(tris)
      {
        CellStep(done, Torus, a, b, i - 1, true, true);
        indexList, tris := TorusCell(indexList, tris, segmentsT, i, j, a, b);
        i := i + 1;
      }
      j := j + 1;
    }
  }
}
