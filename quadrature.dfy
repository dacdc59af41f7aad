/** The fixed-scheme integrator `integrate`: a reference scheme on the unit
    triangle is mapped onto each target triangle by barycentric
    interpolation, the integrand is evaluated at the mapped points, and the
    weighted values times the triangle's area are summed. */
module Quadrature {
  import opened Sums
  import opened Geometry

  /** One reference point (u, v) of a scheme with its weight w; the
      barycentric coordinates of the point are (1 - u - v, u, v). */
  datatype QuadPoint = QuadPoint(u: real, v: real, w: real)

  /** A scheme: reference points paired one-to-one with weights. The scheme
      catalogue that supplies them is outside this model. */
  type Scheme = seq<QuadPoint>

  /** The integrand: its value in component `c` at a point. A scalar
      integrand is the one-component case. */
  type Integrand = (nat, Point) -> real

  /** `(1 - u - v) V0 + u V1 + v V2`. */
  function MapToTriangle(t: Triangle, u: real, v: real): Point
  {
    Add(Add(Scale(1.0 - u - v, t.v0), Scale(u, t.v1)), Scale(v, t.v2))
  }

  /** The reference corners (0, 0), (1, 0) and (0, 1) land on V0, V1 and V2. */
  lemma MapToTriangleCorners(t: Triangle)
    ensures MapToTriangle(t, 0.0, 0.0) == t.v0
    ensures MapToTriangle(t, 1.0, 0.0) == t.v1
    ensures MapToTriangle(t, 0.0, 1.0) == t.v2
  {
    CornerLandsOnVertex(t, 0.0, 0.0, t.v0);
    CornerLandsOnVertex(t, 1.0, 0.0, t.v1);
    CornerLandsOnVertex(t, 0.0, 1.0, t.v2);
  }

  lemma CornerLandsOnVertex(t: Triangle, u: real, v: real, p: Point)
    requires (u, v, p) in {(0.0, 0.0, t.v0), (1.0, 0.0, t.v1), (0.0, 1.0, t.v2)}
    ensures MapToTriangle(t, u, v) == p
  {
  }

  /** The mapping is affine: V0 + u (V1 - V0) + v (V2 - V0). */
  lemma MapToTriangleAffine(t: Triangle, u: real, v: real)
    ensures MapToTriangle(t, u, v) == Add(t.v0, Add(Scale(u, Sub(t.v1, t.v0)), Scale(v, Sub(t.v2, t.v0))))
  {
    AffinePoint(t.v0, t.v1, t.v2, u, v);
  }

  lemma AffinePoint(a: Point, b: Point, c: Point, u: real, v: real)
    ensures Add(Add(Scale(1.0 - u - v, a), Scale(u, b)), Scale(v, c))
            == Add(a, Add(Scale(u, Sub(b, a)), Scale(v, Sub(c, a))))
  {
    AffineCoordinate(a.x, b.x, c.x, u, v);
    AffineCoordinate(a.y, b.y, c.y, u, v);
  }

  lemma AffineCoordinate(a: real, b: real, c: real, u: real, v: real)
    ensures (1.0 - u - v) * a + u * b + v * c == a + (u * (b - a) + v * (c - a))
  {
  }

  /** One weighted value `w * f(x)` of the rule, at the mapped point. */
  function Term(f: Integrand, c: nat, t: Triangle, q: QuadPoint): real
  {
    q.w * f(c, MapToTriangle(t, q.u, q.v))
  }

  /** The summands `w_i * f(x_i) * area` that the source hands to `sumfun`. */
  function Terms(f: Integrand, c: nat, t: Triangle, s: Scheme, area: real): (r: seq<real>)
    ensures |r| == |s|
  {
    seq(|s|, i requires 0 <= i < |s| => Term(f, c, t, s[i]) * area)
  }

  /** The reference rule applied to the mapped points: sum of w_i f(x_i). */
  function WeightedValue(f: Integrand, c: nat, t: Triangle, s: Scheme): real
  {
    if s == [] then 0.0 else WeightedValue(f, c, t, s[..|s| - 1]) + Term(f, c, t, s[|s| - 1])
  }

  /** Sum of a scheme's weights. */
  function WeightSum(s: Scheme): real
  {
    if s == [] then 0.0 else WeightSum(s[..|s| - 1]) + s[|s| - 1].w
  }

  /** The integral estimate over one triangle in one component. */
  function Integrate(f: Integrand, c: nat, t: Triangle, s: Scheme): real
  {
    Sum(Terms(f, c, t, s, Area(t)))
  }

  /** Summing the area-scaled terms is the same as scaling the reference
      rule's value by the area. */
  lemma IntegrateIsAreaTimesRule(f: Integrand, c: nat, t: Triangle, s: Scheme)
    ensures Integrate(f, c, t, s) == Area(t) * WeightedValue(f, c, t, s)
  {
    SumOfScaledTerms(f, c, t, s, Area(t));
  }

  lemma {:induction false} SumOfScaledTerms(f: Integrand, c: nat, t: Triangle, s: Scheme, area: real)
    ensures Sum(Terms(f, c, t, s, area)) == area * WeightedValue(f, c, t, s)
    decreases |s|
  {
    if s != [] {
      var n := |s| - 1;
      var last := Term(f, c, t, s[n]);
      forall i | 0 <= i < |s|
        ensures Terms(f, c, t, s, area)[i] == (Terms(f, c, t, s[..n], area) + [last * area])[i]
      {
        if i < n {
          assert s[..n][i] == s[i];
        }
      }
      var init := Terms(f, c, t, s[..n], area);
      calc {
        Sum(Terms(f, c, t, s, area));
        { assert Terms(f, c, t, s, area) == init + [last * area]; }
        Sum(init + [last * area]);
        { SumConcat(init, [last * area]); }
        Sum(init) + Sum([last * area]);
        { SumOfScaledTerms(f, c, t, s[..n], area); }
        area * WeightedValue(f, c, t, s[..n]) + last * area;
        { Distribute(area, WeightedValue(f, c, t, s[..n]), last); }
        area * (WeightedValue(f, c, t, s[..n]) + last);
        area * WeightedValue(f, c, t, s);
      }
    }
  }

  lemma Distribute(a: real, x: real, y: real)
    ensures a * x + y * a == a * (x + y)
  {
  }

  /** Constant integrand: the rule returns the constant times the weight sum. */
  lemma {:induction false} WeightedValueOfConstant(f: Integrand, c: nat, t: Triangle, s: Scheme, k: real)
    requires forall x :: f(c, x) == k
    ensures WeightedValue(f, c, t, s) == k * WeightSum(s)
    decreases |s|
  {
    if s != [] {
      WeightedValueOfConstant(f, c, t, s[..|s| - 1], k);
    }
  }

  /** With weights normalised to sum to one, a constant integrand k is
      integrated exactly: k times the area (with k = 1 this is the area
      computation `integrate(lambda x: ones, triangle, Centroid())`). */
  lemma IntegrateConstant(f: Integrand, c: nat, t: Triangle, s: Scheme, k: real)
    requires forall x :: f(c, x) == k
    requires WeightSum(s) == 1.0
    ensures Integrate(f, c, t, s) == k * Area(t)
  {
    IntegrateIsAreaTimesRule(f, c, t, s);
    WeightedValueOfConstant(f, c, t, s, k);
  }

  /** The estimates of one component over a batch, `val[c]`: the area of
      each triangle times the reference rule on it. */
  function ValueRow(f: Integrand, c: nat, ts: seq<Triangle>, s: Scheme): (r: seq<real>)
    ensures |r| == |ts|
    ensures forall j :: 0 <= j < |ts| ==> r[j] == Integrate(f, c, ts[j], s)
  {
    MapReal(ts, (t: Triangle) => Integrate(f, c, t, s))
  }

  /** Batched `integrate` for an integrand with `dim` components, laid out as
      numpy does: row c holds component c over every triangle, and entry
      (c, j) is the single-triangle estimate for triangle j. */
  function IntegrateBatch(f: Integrand, dim: nat, ts: seq<Triangle>, s: Scheme): (r: seq<seq<real>>)
    ensures |r| == dim
    ensures forall c :: 0 <= c < dim ==> |r[c]| == |ts|
    ensures forall c, j :: 0 <= c < dim && 0 <= j < |ts| ==> r[c][j] == Integrate(f, c, ts[j], s)
  {
    seq(dim, c requires 0 <= c < dim => ValueRow(f, c, ts, s))
  }

  /** Every entry of the batched result is the area of its triangle times
      the reference rule evaluated on that triangle. */
  lemma IntegrateBatchIsAreaTimesRule(f: Integrand, dim: nat, ts: seq<Triangle>, s: Scheme)
    ensures forall c, j :: 0 <= c < dim && 0 <= j < |ts| ==>
              IntegrateBatch(f, dim, ts, s)[c][j] == Area(ts[j]) * WeightedValue(f, c, ts[j], s)
  {
    forall c: nat, t: Triangle ensures Integrate(f, c, t, s) == Area(t) * WeightedValue(f, c, t, s) {
      IntegrateIsAreaTimesRule(f, c, t, s);
    }
  }
}
