/** The mesh linkage model: variables sit on a toroidal grid with `K + 1` axes, and
    every variable links to its successor along each axis. */
module Mesh {
  import opened Indices

  function Pow(b: nat, e: nat): nat {
    if e == 0 then 1 else b * Pow(b, e - 1)
  }

  lemma {:induction false} PowAtLeastBase(b: nat, e: nat)
    requires e >= 1
    ensures Pow(b, e) >= b
    ensures b == 0 ==> Pow(b, e) == 0
  {
    if e > 1 {
      PowAtLeastBase(b, e - 1);
      if b > 0 {
        assert Pow(b, e) == b * Pow(b, e - 1) >= b * 1;
      }
    }
  }

  lemma {:induction false} PowPositive(b: nat, e: nat)
    requires b > 0
    ensures Pow(b, e) > 0
  {
    if e > 0 {
      PowPositive(b, e - 1);
    }
  }

  // ---------------------------------------------------------------- width

  /** The first width from `w` on whose `dims`-th power reaches `n`. */
  function WidthFrom(w: nat, n: nat, dims: nat): (r: nat)
    requires dims >= 1
    requires w == 0 || Pow(w - 1, dims) < n
    ensures Pow(r, dims) >= n
    ensures r == 0 || Pow(r - 1, dims) < n
    decreases n - w
  {
    if Pow(w, dims) >= n then w
    else
      PowAtLeastBase(w, dims);
      WidthFrom(w + 1, n, dims)
  }

  /** The side of the smallest grid with `dims` axes that has room for `n` vertices:
      the smallest `w` with `w^dims >= n`, which the generator approximates in
      floating point as `ceil(n ** (1 / dims))`. */
  function Width(n: nat, dims: nat): (w: nat)
    requires dims >= 1
    ensures Pow(w, dims) >= n
    ensures w == 0 || Pow(w - 1, dims) < n
  {
    WidthFrom(0, n, dims)
  }

  lemma WidthPositive(n: nat, dims: nat)
    requires dims >= 1 && n >= 1
    ensures Width(n, dims) >= 1
  {
    PowAtLeastBase(0, dims);
  }

  // ---------------------------------------------------------------- coordinates

  /** The first `count` base-`w` digits of `v`, least significant first. */
  function ToDigits(v: nat, w: nat, count: nat): (c: seq<nat>)
    requires w > 0
    ensures |c| == count
    decreases count
  {
    if count == 0 then [] else [v % w] + ToDigits(v / w, w, count - 1)
  }

  /** The number whose base-`w` digits, least significant first, are `c`; a digit may
      exceed the base, as it does right after a coordinate is incremented. */
  function FromDigits(c: seq<nat>, w: nat): nat {
    if c == [] then 0 else c[0] + w * FromDigits(c[1..], w)
  }

  /** `to_coordinates`: peel off one base-`width` digit per axis. */
  method ToCoordinates(value: nat, width: nat, dims: nat) returns (coord: seq<nat>)
    requires width > 0
    ensures coord == ToDigits(value, width, dims)
  {
    coord := [];
    var v: nat := value;
    for j := 0 to dims
      invariant coord + ToDigits(v, width, dims - j) == ToDigits(value, width, dims)
    {
      assert ToDigits(v, width, dims - j) == [v % width] + ToDigits(v / width, width, dims - j - 1);
      coord := coord + [v % width];
      v := v / width;
    }
  }

  /** `from_coordinates`: Horner's rule over the coordinates, most significant first. */
  method FromCoordinates(coord: seq<nat>, width: nat) returns (value: nat)
    ensures value == FromDigits(coord, width)
  {
    value := 0;
    var t := |coord|;
    while t > 0
      invariant 0 <= t <= |coord|
      invariant value == FromDigits(coord[t..], width)
    {
      t := t - 1;
      assert coord[t..][1..] == coord[t + 1..];
      value := value * width + coord[t];
    }
  }

  lemma MulLessCancel(w: nat, a: int, b: int)
    requires w > 0 && w * a < w * b
    ensures a < b
  {
  }

  lemma DivBelow(v: nat, w: nat, p: nat)
    requires w > 0 && v < w * p
    ensures v / w < p
  {
    assert w * (v / w) <= v;
    MulLessCancel(w, v / w, p);
  }

  /** Every coordinate lies below the width. */
  lemma {:induction false} DigitsBelow(v: nat, w: nat, count: nat)
    requires w > 0
    ensures forall t :: 0 <= t < count ==> ToDigits(v, w, count)[t] < w
    decreases count
  {
    if count > 0 {
      DigitsBelow(v / w, w, count - 1);
      assert forall t :: 1 <= t < count ==> ToDigits(v, w, count)[t] == ToDigits(v / w, w, count - 1)[t - 1];
    }
  }

  /** `from_coordinates(to_coordinates(v)) == v` for every vertex of the grid. */
  lemma {:induction false} DigitsRoundTrip(v: nat, w: nat, count: nat)
    requires w > 0 && v < Pow(w, count)
    ensures FromDigits(ToDigits(v, w, count), w) == v
    decreases count
  {
    if count > 0 {
      var count' := count - 1;
      DivBelow(v, w, Pow(w, count'));
      DigitsRoundTrip(v / w, w, count');
      var c := ToDigits(v, w, count);
      assert c[1..] == ToDigits(v / w, w, count');
      DivModSplit(v, w);
    }
  }

  lemma DivModSplit(v: nat, w: nat)
    requires w > 0
    ensures v == v % w + w * (v / w)
  {
  }

  lemma DivModOfDigit(d: nat, q: nat, w: nat)
    requires d < w
    ensures (d + w * q) % w == d && (d + w * q) / w == q
  {
    var n := d + w * q;
    assert n == w * (n / w) + n % w;
    assert w * (n / w - q) == d - n % w;
    assert -(w as int) < d - n % w < w;
    MulLessCancel(w, n / w - q, 1);
    MulLessCancel(w, -1, n / w - q);
  }

  /** `to_coordinates(from_coordinates(c)) == c` for every list of in-range coordinates. */
  lemma {:induction false} CoordinatesRoundTrip(c: seq<nat>, w: nat)
    requires w > 0
    requires forall t :: 0 <= t < |c| ==> c[t] < w
    ensures ToDigits(FromDigits(c, w), w, |c|) == c
  {
    if c != [] {
      CoordinatesRoundTrip(c[1..], w);
      DivModOfDigit(c[0], FromDigits(c[1..], w), w);
    }
  }

  lemma ScaleEquation(w: nat, a: nat, y: nat, b: nat, z: nat)
    requires a + y == b + z
    ensures w * a + w * y == w * b + w * z
  {
    assert w * (a + y) == w * (b + z);
  }

  lemma MulRotate(x: nat, w: nat, p: nat)
    ensures x * (w * p) == w * (x * p)
  {
  }

  /** Replacing one coordinate by `x` moves the index by `(x - c[d]) * w^d`. */
  lemma {:induction false} FromDigitsUpdate(c: seq<nat>, w: nat, d: nat, x: nat)
    requires d < |c|
    ensures FromDigits(c[d := x], w) + c[d] * Pow(w, d) == FromDigits(c, w) + x * Pow(w, d)
  {
    if d > 0 {
      var d' := d - 1;
      var rest := c[1..];
      assert c[d := x][1..] == rest[d' := x];
      var p := Pow(w, d');
      var a, b := FromDigits(rest[d' := x], w), FromDigits(rest, w);
      FromDigitsUpdate(rest, w, d', x);
      ScaleEquation(w, a, c[d] * p, b, x * p);
      MulRotate(c[d], w, p);
      MulRotate(x, w, p);
      assert FromDigits(c[d := x], w) == c[0] + w * a;
      assert FromDigits(c, w) == c[0] + w * b;
    }
  }

  /** Stepping one coordinate up moves the index `w^d` up. */
  lemma FromDigitsBump(c: seq<nat>, w: nat, d: nat)
    requires d < |c|
    ensures FromDigits(c[d := c[d] + 1], w) == FromDigits(c, w) + Pow(w, d)
  {
    FromDigitsUpdate(c, w, d, c[d] + 1);
    SuccMul(c[d], Pow(w, d));
  }

  /** Zeroing one coordinate moves the index `c[d] * w^d` down. */
  lemma FromDigitsZero(c: seq<nat>, w: nat, d: nat)
    requires d < |c|
    ensures FromDigits(c[d := 0], w) + c[d] * Pow(w, d) == FromDigits(c, w)
  {
    FromDigitsUpdate(c, w, d, 0);
    ZeroMul(Pow(w, d));
  }

  // ---------------------------------------------------------------- edges

  /** The vertex the edge of vertex `i` along axis `d` points to: the coordinate on
      that axis goes up by one, and if that leaves the grid or lands on an index of
      `n` or more, the coordinate wraps to zero instead. */
  function Neighbor(n: nat, w: nat, dims: nat, i: nat, d: nat): nat
    requires w > 0 && d < dims
  {
    var coord := ToDigits(i, w, dims);
    var bumped := coord[d := coord[d] + 1];
    if FromDigits(bumped, w) >= n || bumped[d] >= w then FromDigits(coord[d := 0], w)
    else FromDigits(bumped, w)
  }

  /** Without wrapping the edge goes `w^d` indices up; wrapping zeroes one coordinate,
      so the index can only fall. Either way it stays a vertex below `n`. */
  lemma NeighborIndex(n: nat, w: nat, dims: nat, i: nat, d: nat)
    requires w > 0 && d < dims && i < n <= Pow(w, dims)
    ensures var digit := ToDigits(i, w, dims)[d];
      Neighbor(n, w, dims, i, d) ==
        if i + Pow(w, d) < n && digit + 1 < w then i + Pow(w, d) else i - digit * Pow(w, d)
    ensures Neighbor(n, w, dims, i, d) < n
  {
    var coord := ToDigits(i, w, dims);
    DigitsRoundTrip(i, w, dims);
    FromDigitsBump(coord, w, d);
    FromDigitsZero(coord, w, d);
    MulNonneg(coord[d], Pow(w, d));
  }

  /** The edges of vertex `i`, one per axis in axis order. */
  function VertexEdges(n: nat, w: nat, dims: nat, i: nat): (r: Adjacency)
    requires w > 0
    ensures |r| == dims
    ensures forall d :: 0 <= d < dims ==> r[d] == [i, Neighbor(n, w, dims, i, d)]
  {
    seq(dims, d requires 0 <= d < dims => [i, Neighbor(n, w, dims, i, d)])
  }

  /** The edges of the first `m` vertices, vertex by vertex. */
  function MeshEdges(n: nat, w: nat, dims: nat, m: nat): Adjacency
    requires w > 0
  {
    if m == 0 then [] else MeshEdges(n, w, dims, m - 1) + VertexEdges(n, w, dims, m - 1)
  }

  /** Position of the edge of vertex `i` along axis `d` in the edge list. */
  function Slot(i: nat, d: nat, dims: nat): nat {
    i * dims + d
  }

  lemma SlotStep(i: nat, dims: nat)
    ensures Slot(i + 1, 0, dims) == Slot(i, 0, dims) + dims
  {
  }

  lemma SlotBefore(j: nat, d: nat, i: nat, dims: nat)
    requires j < i && d < dims
    ensures Slot(j, d, dims) < Slot(i, 0, dims)
  {
    MulLe(j + 1, i, dims);
  }

  // Nonlinear steps the solver does not take on its own inside the larger proofs above.
  lemma SuccMul(c: nat, p: nat)
    ensures (c + 1) * p == c * p + p
  {
  }

  lemma MulNonneg(c: nat, p: nat)
    ensures c * p >= 0
  {
  }

  lemma ZeroMul(p: nat)
    ensures 0 * p == 0
  {
  }

  lemma MulLe(a: nat, b: nat, c: nat)
    requires a <= b
    ensures a * c <= b * c
  {
  }

  /** The edge list of the first `m` vertices holds `dims` edges per vertex, the edge
      of vertex `i` along axis `d` at `i * dims + d`, and only vertices below `n`. */
  lemma MeshEdgesLayout(n: nat, w: nat, dims: nat, m: nat)
    requires w > 0 && m <= n <= Pow(w, dims)
    ensures |MeshEdges(n, w, dims, m)| == Slot(m, 0, dims)
    ensures forall i, d :: 0 <= i < m && 0 <= d < dims ==>
      Slot(i, d, dims) < Slot(m, 0, dims) && MeshEdges(n, w, dims, m)[Slot(i, d, dims)] == [i, Neighbor(n, w, dims, i, d)]
    ensures forall e :: 0 <= e < |MeshEdges(n, w, dims, m)| ==>
      |MeshEdges(n, w, dims, m)[e]| == 2 && Below(MeshEdges(n, w, dims, m)[e], n)
  {
    MeshEdgesCount(n, w, dims, m);
    forall i, d | 0 <= i < m && 0 <= d < dims
      ensures Slot(i, d, dims) < Slot(m, 0, dims) && MeshEdges(n, w, dims, m)[Slot(i, d, dims)] == [i, Neighbor(n, w, dims, i, d)]
    {
      SlotBefore(i, d, m, dims);
      MeshEdgeAt(n, w, dims, m, i, d);
    }
    MeshEdgesBelow(n, w, dims, m);
  }

  lemma {:induction false} MeshEdgesCount(n: nat, w: nat, dims: nat, m: nat)
    requires w > 0
    ensures |MeshEdges(n, w, dims, m)| == Slot(m, 0, dims)
  {
    if m > 0 {
      var m' := m - 1;
      MeshEdgesCount(n, w, dims, m');
      SlotStep(m', dims);
    }
  }

  lemma {:induction false} MeshEdgeAt(n: nat, w: nat, dims: nat, m: nat, i: nat, d: nat)
    requires w > 0 && i < m && d < dims
    ensures Slot(i, d, dims) < |MeshEdges(n, w, dims, m)|
    ensures MeshEdges(n, w, dims, m)[Slot(i, d, dims)] == [i, Neighbor(n, w, dims, i, d)]
  {
    var m' := m - 1;
    var prev := MeshEdges(n, w, dims, m');
    MeshEdgesCount(n, w, dims, m');
    SlotStep(m', dims);
    assert MeshEdges(n, w, dims, m) == prev + VertexEdges(n, w, dims, m');
    if i < m' {
      MeshEdgeAt(n, w, dims, m', i, d);
    }
  }

  lemma {:induction false} MeshEdgesBelow(n: nat, w: nat, dims: nat, m: nat)
    requires w > 0 && m <= n <= Pow(w, dims)
    ensures forall e :: 0 <= e < |MeshEdges(n, w, dims, m)| ==>
      |MeshEdges(n, w, dims, m)[e]| == 2 && Below(MeshEdges(n, w, dims, m)[e], n)
  {
    if m > 0 {
      var m' := m - 1;
      var prev := MeshEdges(n, w, dims, m');
      var last := VertexEdges(n, w, dims, m');
      MeshEdgesBelow(n, w, dims, m');
      var all := MeshEdges(n, w, dims, m);
      assert all == prev + last;
      forall e | 0 <= e < |all| ensures |all[e]| == 2 && Below(all[e], n) {
        if e >= |prev| {
          NeighborIndex(n, w, dims, m', e - |prev|);
          assert all[e] == last[e - |prev|];
        } else {
          assert all[e] == prev[e];
        }
      }
    }
  }

  /** `Mesh(N, K)`: for each vertex and each axis, the edge `[i, j]` to the vertex one
      step up that axis, in (vertex, axis) order. */
  method Mesh(n: nat, k: nat) returns (edges: Adjacency)
    ensures n > 0 ==> edges == MeshEdges(n, Width(n, k + 1), k + 1, n)
    ensures n == 0 ==> edges == []
  {
    var dims := k + 1;
    var width := Width(n, dims);
    edges := [];
    if n == 0 {
      return;
    }
    WidthPositive(n, dims);
    for i := 0 to n
      invariant edges == MeshEdges(n, width, dims, i)
    {
      var links := VertexLinks(n, width, dims, i);
      edges := edges + links;
    }
  }

  /** The inner loop of `Mesh`: vertex `i`'s edge along each axis, wrapping round at the
      end of the axis or past the last vertex. */
  method VertexLinks(n: nat, width: nat, dims: nat, i: nat) returns (links: Adjacency)
    requires width > 0
    ensures links == VertexEdges(n, width, dims, i)
  {
    var coord := ToCoordinates(i, width, dims);
    links := [];
    for d := 0 to dims
      invariant |links| == d
      invariant forall e :: 0 <= e < d ==> links[e] == [i, Neighbor(n, width, dims, i, e)]
    {
      var neighborCoord := coord[d := coord[d] + 1];
      var neighborIndex := FromCoordinates(neighborCoord, width);
      if neighborIndex >= n || neighborCoord[d] >= width {
        // toroidal wrap-around
        neighborCoord := neighborCoord[d := 0];
        assert neighborCoord == coord[d := 0];
        neighborIndex := FromCoordinates(neighborCoord, width);
      }
      links := links + [[i, neighborIndex]];
    }
  }

  /** N = 5, K = 1 (width 3): vertex 2 sits at (2, 0); along axis 1 it reaches index 5,
      which is past the last vertex, so the axis wraps and the edge is the self-loop [2, 2]. */
  lemma SelfLoopExample()
    ensures Width(5, 2) == 3
    ensures Neighbor(5, 3, 2, 2, 1) == 2
  {
    assert Pow(2, 2) == 4 && Pow(3, 2) == 9;
    assert WidthFrom(3, 5, 2) == 3;
    assert ToDigits(2, 3, 2) == [2, 0] by {
      assert ToDigits(0, 3, 1) == [0] + ToDigits(0, 3, 0);
    }
    NeighborIndex(5, 3, 2, 2, 1);
  }

  /** N = 9, K = 1 (width 3): vertex 8 sits at (2, 2); both of its edges wrap, to
      (0, 2) = 6 along axis 0 and (2, 0) = 2 along axis 1. */
  lemma WrapExample()
    ensures Width(9, 2) == 3
    ensures Neighbor(9, 3, 2, 8, 0) == 6
    ensures Neighbor(9, 3, 2, 8, 1) == 2
  {
    assert Pow(2, 2) == 4 && Pow(3, 2) == 9;
    assert WidthFrom(3, 9, 2) == 3;
    assert ToDigits(8, 3, 2) == [2, 2] by {
      assert ToDigits(2, 3, 1) == [2] + ToDigits(0, 3, 0);
    }
    NeighborIndex(9, 3, 2, 8, 0);
    NeighborIndex(9, 3, 2, 8, 1);
  }
}
