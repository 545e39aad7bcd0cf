/**
 * Wireframe indices: the line list drawn for a triangle list, with every
 * edge written as (smaller index, larger index) and each edge emitted once,
 * at its first occurrence.
 */
module Wireframe {

  /** An undirected edge as the pair (imin, imax). */
  type Edge = (int, int)

  /** The edge between vertices `a` and `b`, ordered as the line list stores it. */
  function EdgeOf(a: int, b: int): (e: Edge)
    ensures e.0 <= e.1
    ensures (e.0 == a && e.1 == b) || (e.0 == b && e.1 == a)
  {
    var imin := if a > b then b else a;
    var imax := if a > b then a else b;
    (imin, imax)
  }

  /** The edges of the first `n` triangles, three per triangle: i0-i1, i1-i2, i2-i0. */
  function Edges(tris: seq<int>, n: nat): (r: seq<Edge>)
    requires 3 * n <= |tris|
    ensures |r| == 3 * n
  {
    if n == 0 then []
    else
      var t := 3 * (n - 1);
      Edges(tris, n - 1) + [EdgeOf(tris[t], tris[t + 1]), EdgeOf(tris[t + 1], tris[t + 2]), EdgeOf(tris[t + 2], tris[t])]
  }

  /** The first occurrence of each edge, in order. */
  function Dedup(edges: seq<Edge>): (kept: seq<Edge>)
  {
    if |edges| == 0 then []
    else
      var kept := Dedup(edges[..|edges| - 1]);
      var last := edges[|edges| - 1];
      if last in kept then kept else kept + [last]
  }

  /** A list of pairs written out flat, as the line index list is. */
  function Flat(pairs: seq<Edge>): (r: seq<int>)
    ensures |r| == 2 * |pairs|
  {
    if |pairs| == 0 then [] else Flat(pairs[..|pairs| - 1]) + [pairs[|pairs| - 1].0, pairs[|pairs| - 1].1]
  }

  /** The line index list for the first `n` triangles. */
  function Wire(tris: seq<int>, n: nat): seq<int>
    requires 3 * n <= |tris|
  {
    Flat(Dedup(Edges(tris, n)))
  }

  lemma {:induction false} DedupMembers(edges: seq<Edge>)
    ensures forall x :: x in Dedup(edges) <==> x in edges
  {
    if |edges| > 0 {
      var m := |edges| - 1;
      DedupMembers(edges[..m]);
      assert edges == edges[..m] + [edges[m]];
    }
  }

  lemma {:induction false} DedupDistinct(edges: seq<Edge>)
    ensures forall a, b :: 0 <= a < b < |Dedup(edges)| ==> Dedup(edges)[a] != Dedup(edges)[b]
  {
    if |edges| > 0 {
      DedupDistinct(edges[..|edges| - 1]);
    }
  }

  lemma {:induction false} FlatAt(pairs: seq<Edge>, k: nat)
    requires k < |pairs|
    ensures Flat(pairs)[2 * k] == pairs[k].0 && Flat(pairs)[2 * k + 1] == pairs[k].1
  {
    if k < |pairs| - 1 {
      FlatAt(pairs[..|pairs| - 1], k);
    }
  }

  lemma {:induction false} EdgesOfTriangles(tris: seq<int>, n: nat)
    requires 3 * n <= |tris|
    ensures forall t :: 0 <= t < n ==>
      Edges(tris, n)[3 * t] == EdgeOf(tris[3 * t], tris[3 * t + 1]) &&
      Edges(tris, n)[3 * t + 1] == EdgeOf(tris[3 * t + 1], tris[3 * t + 2]) &&
      Edges(tris, n)[3 * t + 2] == EdgeOf(tris[3 * t + 2], tris[3 * t])
  {
    if n > 0 {
      EdgesOfTriangles(tris, n - 1);
    }
  }

  lemma EdgesStep(tris: seq<int>, i: nat)
    requires 3 * i + 3 <= |tris|
    ensures Edges(tris, i + 1) ==
      Edges(tris, i) + [EdgeOf(tris[i * 3], tris[i * 3 + 1])] + [EdgeOf(tris[i * 3 + 1], tris[i * 3 + 2])] + [EdgeOf(tris[i * 3 + 2], tris[i * 3])]
  {
  }

  /** `x` is one of the three edges of triangle `t`. */
  predicate OfTriangle(tris: seq<int>, t: nat, x: Edge)
    requires 3 * t + 3 <= |tris|
  {
    x == EdgeOf(tris[3 * t], tris[3 * t + 1]) || x == EdgeOf(tris[3 * t + 1], tris[3 * t + 2]) || x == EdgeOf(tris[3 * t + 2], tris[3 * t])
  }

  /** Pair `k` of a flat line list. */
  function Line(lines: seq<int>, k: nat): Edge
    requires 2 * k + 2 <= |lines|
  {
    (lines[2 * k], lines[2 * k + 1])
  }

  /** `x` is an edge of one of the first `n` triangles. */
  predicate OfSomeTriangle(tris: seq<int>, n: nat, x: Edge)
    requires 3 * n <= |tris|
  {
    exists t :: 0 <= t < n && OfTriangle(tris, t, x)
  }

  /** `x` is one of the pairs of a flat line list. */
  predicate InLines(lines: seq<int>, x: Edge) {
    exists k :: 0 <= k < |lines| / 2 && Line(lines, k) == x
  }

  /** Every edge in the list belongs to some triangle. */
  lemma {:induction false} EdgeFromTriangle(tris: seq<int>, n: nat, x: Edge)
    requires 3 * n <= |tris| && x in Edges(tris, n)
    ensures OfSomeTriangle(tris, n, x)
  {
    if x !in Edges(tris, n - 1) {
      assert OfTriangle(tris, n - 1, x);
    } else {
      EdgeFromTriangle(tris, n - 1, x);
    }
  }

  /**
   * The line list holds pairs (min, max) with min <= max, no pair twice,
   * every edge of every triangle, and nothing else.
   */
  lemma WireframeEdges(tris: seq<int>, n: nat)
    requires 3 * n <= |tris|
    ensures var lines := Wire(tris, n);
      |lines| % 2 == 0 &&
      (forall k :: 0 <= k < |lines| / 2 ==> Line(lines, k).0 <= Line(lines, k).1) &&
      (forall a, b :: 0 <= a < b < |lines| / 2 ==> Line(lines, a) != Line(lines, b)) &&
      (forall t, x :: 0 <= t < n && OfTriangle(tris, t, x) ==> InLines(lines, x)) &&
      (forall k :: 0 <= k < |lines| / 2 ==> OfSomeTriangle(tris, n, Line(lines, k)))
  {
    var edges := Edges(tris, n);
    var pairs := Dedup(edges);
    var lines := Flat(pairs);
    DedupMembers(edges);
    DedupDistinct(edges);
    EdgesOfTriangles(tris, n);
    assert |lines| / 2 == |pairs|;
    forall k | 0 <= k < |pairs|
      ensures Line(lines, k) == pairs[k]
    {
      FlatAt(pairs, k);
    }
    forall k | 0 <= k < |lines| / 2
      ensures OfSomeTriangle(tris, n, Line(lines, k))
    {
      assert pairs[k] in edges;
      EdgeFromTriangle(tris, n, pairs[k]);
    }
    forall t, x | 0 <= t < n && OfTriangle(tris, t, x)
      ensures InLines(lines, x)
    {
      assert x in edges by {
        assert edges[3 * t] == x || edges[3 * t + 1] == x || edges[3 * t + 2] == x;
      }
      var k :| 0 <= k < |pairs| && pairs[k] == x;
      assert Line(lines, k) == x;
    }
  }

  /**
   * One edge block of the loop: the edge is pushed, and remembered in the
   * hash, unless the hash already holds it.
   */
  method AddEdge(hash: set<Edge>, lines: seq<int>, a: int, b: int, ghost edges: seq<Edge>)
    returns (hash': set<Edge>, lines': seq<int>)
    requires lines == Flat(Dedup(edges)) && (forall x :: x in hash <==> x in edges)
    ensures lines' == Flat(Dedup(edges + [EdgeOf(a, b)]))
    ensures forall x :: x in hash' <==> x in edges + [EdgeOf(a, b)]
  {
    var imin := if a > b then b else a;
    var imax := if a > b then a else b;
    var key := (imin, imax);
    assert (edges + [key])[..|edges|] == edges;
    DedupMembers(edges);
    if key !in hash {
      hash' := hash + {key};
      lines' := lines + [imin, imax];
    } else {
      hash', lines' := hash, lines;
    }
  }

  /** Builds the line index list of a triangle index list. */
  method CreateWireframeIndices(triangleIndexList: seq<int>) returns (lineIndexList: seq<int>)
    requires |triangleIndexList| % 3 == 0
    ensures lineIndexList == Wire(triangleIndexList, |triangleIndexList| / 3)
  {
    var hash: set<Edge> := {};
    lineIndexList := [];
    var length := |triangleIndexList| / 3;
    assert 3 * length == |triangleIndexList|;
    var i := 0;
    while i < length
      invariant i <= length && 3 * length == |triangleIndexList|
      invariant lineIndexList == Flat(Dedup(Edges(triangleIndexList, i)))
      invariant forall x :: x in hash <==> x in Edges(triangleIndexList, i)
    {
      var i0 := triangleIndexList[i * 3];
      var i1 := triangleIndexList[i * 3 + 1];
      var i2 := triangleIndexList[i * 3 + 2];
      ghost var e0 := Edges(triangleIndexList, i);
      hash, lineIndexList := AddEdge(hash, lineIndexList, i0, i1, e0);
      ghost var e1 := e0 + [EdgeOf(i0, i1)];
      hash, lineIndexList := AddEdge(hash, lineIndexList, i1, i2, e1);
      ghost var e2 := e1 + [EdgeOf(i1, i2)];
      hash, lineIndexList := AddEdge(hash, lineIndexList, i2, i0, e2);
      EdgesStep(triangleIndexList, i);
      i := i + 1;
    }
  }
}
