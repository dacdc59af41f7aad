/** Plane geometry of the integrator: points, triangles, the edge/dot-product
    area formula of `_area` and the "triforce" split of a triangle into four
    children through its edge midpoints. Coordinates are exact reals. */
module Geometry {
  import opened Sums

  datatype Point = Point(x: real, y: real)

  /** A triangle by its vertices V0, V1, V2, in the order the caller gives
      them (numpy's leading vertex axis). */
  datatype Triangle = Triangle(v0: Point, v1: Point, v2: Point)

  function Add(p: Point, q: Point): Point { Point(p.x + q.x, p.y + q.y) }

  function Sub(p: Point, q: Point): Point { Point(p.x - q.x, p.y - q.y) }

  function Scale(a: real, p: Point): Point { Point(a * p.x, a * p.y) }

  function Dot(p: Point, q: Point): real { p.x * q.x + p.y * q.y }

  function Cross(p: Point, q: Point): real { p.x * q.y - p.y * q.x }

  function Abs(r: real): real { if r < 0.0 then -r else r }

  /** `0.5 * (a + b)`. */
  function Midpoint(p: Point, q: Point): Point { Scale(0.5, Add(p, q)) }

  // The cyclic edges `triangle[[1, 2, 0]] - triangle`.
  function Edge0(t: Triangle): Point { Sub(t.v1, t.v0) }
  function Edge1(t: Triangle): Point { Sub(t.v2, t.v1) }
  function Edge2(t: Triangle): Point { Sub(t.v0, t.v2) }

  // `ei_dot_ej = edges[[1, 2, 0]] . edges[[2, 0, 1]]`.
  function DotProduct0(t: Triangle): real { Dot(Edge1(t), Edge2(t)) }
  function DotProduct1(t: Triangle): real { Dot(Edge2(t), Edge0(t)) }
  function DotProduct2(t: Triangle): real { Dot(Edge0(t), Edge1(t)) }

  /** The expression under the square root in `_area`. */
  function Radicand(t: Triangle): real
  {
    DotProduct2(t) * DotProduct0(t) + DotProduct0(t) * DotProduct1(t) + DotProduct1(t) * DotProduct2(t)
  }

  /** Twice the signed area: the cross product of two edges. */
  function SignedDoubleArea(t: Triangle): real { Cross(Edge0(t), Edge1(t)) }

  /** `_area`: the triangle's area, half the magnitude of the cross product.
      Lemma AreaIsHalfRootOfRadicand shows it is `0.5 * sqrt(radicand)`. */
  function Area(t: Triangle): (a: real)
    ensures a >= 0.0
  {
    Abs(SignedDoubleArea(t)) / 2.0
  }

  /** The area is the non-negative number whose square is a quarter of the
      source's radicand: exactly what `0.5 * sqrt(radicand)` denotes. */
  lemma AreaIsHalfRootOfRadicand(t: Triangle)
    ensures Radicand(t) >= 0.0
    ensures 4.0 * Area(t) * Area(t) == Radicand(t)
  {
    RadicandIsCrossSquared(t);
  }

  /** Over exact reals the radicand is the Gram determinant of two edges,
      |e0|^2 |e1|^2 - (e0 . e1)^2 (in any dimension, since e2 = -(e0 + e1)). */
  lemma RadicandIsGram(t: Triangle)
    ensures Radicand(t) == Dot(Edge0(t), Edge0(t)) * Dot(Edge1(t), Edge1(t)) - Dot(Edge0(t), Edge1(t)) * Dot(Edge0(t), Edge1(t))
  {
    var a, b := Edge0(t), Edge1(t);
    assert Edge2(t) == Point(-(a.x + b.x), -(a.y + b.y));
    var p, q, r := Dot(a, a), Dot(b, b), Dot(a, b);
    assert DotProduct0(t) == -(r + q);
    assert DotProduct1(t) == -(p + r);
    assert DotProduct2(t) == r;
    calc {
      Radicand(t);
      r * -(r + q) + -(r + q) * -(p + r) + -(p + r) * r;
      p * q - r * r;
    }
  }

  /** In the plane the Gram determinant is the squared cross product
      (Lagrange's identity), so the radicand is never negative. */
  lemma RadicandIsCrossSquared(t: Triangle)
    ensures Radicand(t) == SignedDoubleArea(t) * SignedDoubleArea(t)
    ensures Radicand(t) >= 0.0
  {
    RadicandIsGram(t);
    var a, b := Edge0(t), Edge1(t);
    calc {
      Dot(a, a) * Dot(b, b) - Dot(a, b) * Dot(a, b);
      (a.x * a.x + a.y * a.y) * (b.x * b.x + b.y * b.y) - (a.x * b.x + a.y * b.y) * (a.x * b.x + a.y * b.y);
      (a.x * b.y - a.y * b.x) * (a.x * b.y - a.y * b.x);
    }
  }

  /** Two non-negative reals with the same square are equal. */
  lemma SquareRootUnique(a: real, b: real)
    requires a >= 0.0 && b >= 0.0
    requires a * a == b * b
    ensures a == b
  {
    assert (a - b) * (a + b) == 0.0;
    if a + b != 0.0 {
      assert a - b == 0.0;
    }
  }

  /** Two triangles with the same radicand have the same area. */
  lemma AreaFromRadicand(s: Triangle, t: Triangle)
    requires Radicand(s) == Radicand(t)
    ensures Area(s) == Area(t)
  {
    AreaIsHalfRootOfRadicand(s);
    AreaIsHalfRootOfRadicand(t);
    SquareRootUnique(Area(s), Area(t));
  }

  /** Cyclic relabelling V0, V1, V2 -> V1, V2, V0. */
  function Rotate(t: Triangle): Triangle { Triangle(t.v1, t.v2, t.v0) }

  /** Relabelling that swaps V1 and V2 (a reflection of the orientation). */
  function Reflect(t: Triangle): Triangle { Triangle(t.v0, t.v2, t.v1) }

  /** Relabelling the vertices cyclically permutes the edges and the three dot
      products, and the radicand is symmetric in them: the area is unchanged. */
  lemma RotateKeepsArea(t: Triangle)
    ensures DotProduct0(Rotate(t)) == DotProduct1(t)
    ensures DotProduct1(Rotate(t)) == DotProduct2(t)
    ensures DotProduct2(Rotate(t)) == DotProduct0(t)
    ensures Radicand(Rotate(t)) == Radicand(t)
    ensures Area(Rotate(t)) == Area(t)
  {
    var r := Rotate(t);
    assert DotProduct0(r) == DotProduct1(t);
    assert DotProduct1(r) == DotProduct2(t);
    assert DotProduct2(r) == DotProduct0(t);
    AreaFromRadicand(r, t);
  }

  /** Reversing the orientation negates every edge and permutes the dot
      products; the area (a magnitude) is unchanged. */
  lemma ReflectKeepsArea(t: Triangle)
    ensures Radicand(Reflect(t)) == Radicand(t)
    ensures SignedDoubleArea(Reflect(t)) == -SignedDoubleArea(t)
    ensures Area(Reflect(t)) == Area(t)
  {
    var r := Reflect(t);
    assert Edge0(r) == Scale(-1.0, Edge2(t));
    assert Edge1(r) == Scale(-1.0, Edge1(t));
    CrossScale(-1.0, -1.0, Edge2(t), Edge1(t));
    ThirdEdgeCross(t);
    assert Edge2(r) == Scale(-1.0, Edge0(t));
    assert DotProduct0(r) == DotProduct2(t);
    assert DotProduct1(r) == DotProduct1(t);
    assert DotProduct2(r) == DotProduct0(t);
    AreaFromRadicand(r, t);
  }

  // The midpoints of the edges opposite V0, V1 and V2.
  function M0(t: Triangle): Point { Midpoint(t.v1, t.v2) }
  function M1(t: Triangle): Point { Midpoint(t.v2, t.v0) }
  function M2(t: Triangle): Point { Midpoint(t.v0, t.v1) }

  /** Child k of the triforce split: the three corner triangles (V0, M1, M2),
      (V1, M2, M0), (V2, M0, M1) and then the central one (M0, M1, M2). */
  function Child(t: Triangle, k: nat): Triangle
    requires k < 4
  {
    match k
    case 0 => Triangle(t.v0, M1(t), M2(t))
    case 1 => Triangle(t.v1, M2(t), M0(t))
    case 2 => Triangle(t.v2, M0(t), M1(t))
    case 3 => Triangle(M0(t), M1(t), M2(t))
  }

  /** Each child has exactly a quarter of the parent's area. The central
      child keeps the parent's orientation; the three corner children, whose
      vertices run V_k -> M_(k+1) -> M_(k+2), have the opposite one. */
  lemma ChildQuarterArea(t: Triangle, k: nat)
    requires k < 4
    ensures SignedDoubleArea(Child(t, k)) == (if k == 3 then 1.0 else -1.0) * SignedDoubleArea(t) / 4.0
    ensures Area(Child(t, k)) == Area(t) / 4.0
  {
    ChildSignedArea(t, k);
    QuarterMagnitude(if k == 3 then 1.0 else -1.0, SignedDoubleArea(t));
  }

  lemma ChildSignedArea(t: Triangle, k: nat)
    requires k < 4
    ensures SignedDoubleArea(Child(t, k)) == (if k == 3 then 1.0 else -1.0) * SignedDoubleArea(t) / 4.0
  {
    var e0, e1, e2 := Edge0(t), Edge1(t), Edge2(t);
    ThirdEdgeCross(t);
    var ch := Child(t, k);
    var c0, c1 := Edge0(ch), Edge1(ch);
    if k == 0 {
      assert c0 == Scale(-0.5, e2) && c1 == Scale(-0.5, e1);
      CrossScale(-0.5, -0.5, e2, e1);
    } else if k == 1 {
      assert c0 == Scale(-0.5, e0) && c1 == Scale(-0.5, e2);
      CrossScale(-0.5, -0.5, e0, e2);
    } else if k == 2 {
      assert c0 == Scale(-0.5, e1) && c1 == Scale(-0.5, e0);
      CrossScale(-0.5, -0.5, e1, e0);
    } else {
      assert c0 == Scale(-0.5, e0) && c1 == Scale(-0.5, e1);
      CrossScale(-0.5, -0.5, e0, e1);
    }
  }

  /** Cross products are bilinear. */
  lemma CrossScale(a: real, b: real, p: Point, q: Point)
    ensures Cross(Scale(a, p), Scale(b, q)) == a * b * Cross(p, q)
  {
  }

  /** The cross product is antisymmetric, and since e2 = -(e0 + e1) every
      ordered pair of distinct edges has cross product +-(e0 x e1). */
  lemma ThirdEdgeCross(t: Triangle)
    ensures Cross(Edge1(t), Edge0(t)) == -SignedDoubleArea(t)
    ensures Cross(Edge2(t), Edge1(t)) == -SignedDoubleArea(t)
    ensures Cross(Edge0(t), Edge2(t)) == -SignedDoubleArea(t)
  {
  }

  lemma QuarterMagnitude(sign: real, s: real)
    requires sign == 1.0 || sign == -1.0
    ensures Abs(sign * s / 4.0) / 2.0 == (Abs(s) / 2.0) / 4.0
  {
  }

  /** The areas of a batch, `_area(triangles)`. */
  function Areas(ts: seq<Triangle>): seq<real>
  {
    MapReal(ts, Area)
  }

  /** The block of children with the same index k, one per parent, in the
      parents' order. */
  function Block(ts: seq<Triangle>, k: nat): (r: seq<Triangle>)
    requires k < 4
    ensures |r| == |ts|
    ensures forall j :: 0 <= j < |ts| ==> r[j] == Child(ts[j], k)
  {
    seq(|ts|, j requires 0 <= j < |ts| => Child(ts[j], k))
  }

  /** The batched triforce split: all first-corner children, then all
      second-corner, then all third-corner, then all central children. */
  function Split(ts: seq<Triangle>): seq<Triangle>
  {
    Block(ts, 0) + Block(ts, 1) + Block(ts, 2) + Block(ts, 3)
  }

  /** Each block of children carries a quarter of the parents' total area. */
  lemma {:induction false} BlockArea(ts: seq<Triangle>, k: nat)
    requires k < 4
    ensures Sum(Areas(Block(ts, k))) == Sum(Areas(ts)) / 4.0
    decreases |ts|
  {
    if ts != [] {
      var n := |ts| - 1;
      assert Block(ts, k) == Block(ts[..n], k) + [Child(ts[n], k)];
      assert Areas(Block(ts, k)) == Areas(Block(ts[..n], k)) + [Area(Child(ts[n], k))];
      assert Areas(ts) == Areas(ts[..n]) + [Area(ts[n])];
      BlockArea(ts[..n], k);
      ChildQuarterArea(ts[n], k);
      SumConcat(Areas(Block(ts[..n], k)), [Area(Child(ts[n], k))]);
      SumConcat(Areas(ts[..n]), [Area(ts[n])]);
    }
  }

  lemma AreasConcat(a: seq<Triangle>, b: seq<Triangle>)
    ensures Sum(Areas(a + b)) == Sum(Areas(a)) + Sum(Areas(b))
  {
    assert Areas(a + b) == Areas(a) + Areas(b);
    SumConcat(Areas(a), Areas(b));
  }

  /** Splitting replaces every parent by exactly four children, and the
      children's areas add up to the parents' area. */
  lemma SplitKeepsArea(ts: seq<Triangle>)
    ensures |Split(ts)| == 4 * |ts|
    ensures Sum(Areas(Split(ts))) == Sum(Areas(ts))
  {
    BlockArea(ts, 0);
    BlockArea(ts, 1);
    BlockArea(ts, 2);
    BlockArea(ts, 3);
    AreasConcat(Block(ts, 0), Block(ts, 1));
    AreasConcat(Block(ts, 0) + Block(ts, 1), Block(ts, 2));
    AreasConcat(Block(ts, 0) + Block(ts, 1) + Block(ts, 2), Block(ts, 3));
  }

  /** Where the batched split puts the children: child k of parent j sits at
      position k * n + j. */
  lemma SplitLayout(ts: seq<Triangle>, k: nat, j: nat)
    requires k < 4 && j < |ts|
    ensures k * |ts| + j < |Split(ts)|
    ensures Split(ts)[k * |ts| + j] == Child(ts[j], k)
  {
    var n := |ts|;
    var i := k * n + j;
    assert i < 4 * n by {
      assert k * n <= 3 * n;
    }
    if k == 0 {
    } else if k == 1 {
    } else if k == 2 {
      assert Split(ts)[i] == (Block(ts, 0) + Block(ts, 1) + Block(ts, 2))[i];
    } else {
      assert i == 3 * n + j;
    }
  }

  /** Every child of the split is a quarter of some parent; so if all parents
      have area at most `bound`, all children have area at most `bound / 4`. */
  lemma SplitShrinks(ts: seq<Triangle>, bound: real)
    requires forall t :: t in ts ==> Area(t) <= bound
    ensures forall c :: c in Split(ts) ==> Area(c) <= bound / 4.0
  {
    forall c | c in Split(ts) ensures Area(c) <= bound / 4.0 {
      var k: nat :| k < 4 && c in Block(ts, k);
      var j :| 0 <= j < |ts| && Block(ts, k)[j] == c;
      ChildQuarterArea(ts[j], k);
    }
  }
}
