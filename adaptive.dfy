/** The adaptive integrator `adaptive_integrate`: two schemes are compared
    on a batch of active triangles; triangles whose error is small enough in
    every component are accepted into two running sums, every other triangle
    is split into its four triforce children, and the children become the
    next active batch, until nothing is active or a child is not larger than
    the minimum area. */
module Adaptive {
  import opened Sums
  import opened Geometry
  import opened Quadrature

  datatype Option<T> = None | Some(value: T)

  /** The `triangles` argument: one triangle (a 2-D array, wrapped by
      `expand_dims` into a batch of one) or a batch of triangles. */
  datatype TriangleInput = Single(triangle: Triangle) | Batch(triangles: seq<Triangle>)

  /** What the call produces: the integral and error estimates per component,
      or the failed `assert all(areas > minimum_triangle_area)`, which aborts
      the call without a partial result. */
  datatype Outcome =
    | Converged(quadSum: seq<real>, errorEstimate: seq<real>)
    | BelowMinimumArea

  function AsBatch(input: TriangleInput): seq<Triangle>
  {
    match input
    case Single(t) => [t]
    case Batch(ts) => ts
  }

  /** `total_area = sumfun(areas)` over the original batch. */
  function TotalArea(ts: seq<Triangle>): (total: real)
    ensures total >= 0.0
  {
    SumNonNegative(Areas(ts));
    Sum(Areas(ts))
  }

  /** No triangle of the batch is larger than the total area. */
  lemma TotalAreaBounds(ts: seq<Triangle>)
    ensures forall t :: t in ts ==> Area(t) <= TotalArea(ts)
  {
    forall t | t in ts ensures Area(t) <= TotalArea(ts) {
      var j :| 0 <= j < |ts| && ts[j] == t;
      SumBoundsElement(Areas(ts), j);
    }
  }

  /** `a * 0.25 ** k`: an area after k quarterings. */
  function Quartered(a: real, k: nat): (q: real)
    ensures a > 0.0 ==> 0.0 < q <= a
    ensures a == 0.0 ==> q == 0.0
  {
    if k == 0 then a else Quartered(a, k - 1) * 0.25
  }

  /** The minimum child area: the caller's, or `total_area * 0.25 ** 10`. */
  function MinimumArea(minimumTriangleArea: Option<real>, totalArea: real): real
  {
    if minimumTriangleArea.None? then Quartered(totalArea, 10) else minimumTriangleArea.value
  }

  /** `error < eps * area / total_area`. When the total area is zero every
      area is zero, the right-hand side is numpy's 0/0 = NaN and the
      comparison is false. */
  predicate WithinTolerance(error: real, area: real, totalArea: real, eps: real)
  {
    totalArea != 0.0 && error < eps * area / totalArea
  }

  /** The error estimate of one component over one triangle, |val1 - val2|. */
  function ErrorOf(f: Integrand, c: nat, t: Triangle, scheme1: Scheme, scheme2: Scheme): real
  {
    Abs(Integrate(f, c, t, scheme1) - Integrate(f, c, t, scheme2))
  }

  /** The acceptance test of one triangle: within tolerance in every component. */
  predicate Accepted(f: Integrand, dim: nat, t: Triangle, scheme1: Scheme, scheme2: Scheme, totalArea: real, eps: real)
  {
    forall c :: 0 <= c < dim ==> WithinTolerance(ErrorOf(f, c, t, scheme1, scheme2), Area(t), totalArea, eps)
  }

  /** Shape of a component-major table: `rows` rows of `n` entries each. */
  predicate IsTable<T>(a: seq<seq<T>>, rows: nat, n: nat)
  {
    |a| == rows && forall c :: 0 <= c < |a| ==> |a[c]| == n
  }

  /** `abs(val1 - val2)`, entry by entry. */
  function ErrorTable(val1: seq<seq<real>>, val2: seq<seq<real>>, n: nat): (r: seq<seq<real>>)
    requires IsTable(val1, |val1|, n) && IsTable(val2, |val1|, n)
    ensures IsTable(r, |val1|, n)
    ensures forall c, j :: 0 <= c < |val1| && 0 <= j < n ==> r[c][j] == Abs(val1[c][j] - val2[c][j])
  {
    seq(|val1|, c requires 0 <= c < |val1| => seq(n, j requires 0 <= j < n => Abs(val1[c][j] - val2[c][j])))
  }

  /** `error_estimate < eps * areas / total_area`, entry by entry. */
  function ToleranceTable(errors: seq<seq<real>>, areas: seq<real>, totalArea: real, eps: real): (r: seq<seq<bool>>)
    requires IsTable(errors, |errors|, |areas|)
    ensures IsTable(r, |errors|, |areas|)
    ensures forall c, j :: 0 <= c < |errors| && 0 <= j < |areas| ==>
              r[c][j] == WithinTolerance(errors[c][j], areas[j], totalArea, eps)
  {
    seq(|errors|, c requires 0 <= c < |errors| =>
      seq(|areas|, j requires 0 <= j < |areas| => WithinTolerance(errors[c][j], areas[j], totalArea, eps)))
  }

  /** `_numpy_all_except(a, axis=-1)`: for each index of the last axis, the
      conjunction over all other axes. */
  function AllExceptLast(a: seq<seq<bool>>, n: nat): (r: seq<bool>)
    requires IsTable(a, |a|, n)
    ensures |r| == n
    ensures forall j :: 0 <= j < n ==> (r[j] <==> forall c :: 0 <= c < |a| ==> a[c][j])
  {
    if a == [] then seq(n, j => true)
    else
      var rest := AllExceptLast(a[..|a| - 1], n);
      var row := a[|a| - 1];
      seq(n, j requires 0 <= j < n => rest[j] && row[j])
  }

  /** `sumfun(table[..., mask], axis=-1)`: per component, the sum over the
      selected triangles. */
  function SumSelected(table: seq<seq<real>>, mask: seq<bool>): (r: seq<real>)
    requires IsTable(table, |table|, |mask|)
    ensures |r| == |table|
  {
    seq(|table|, c requires 0 <= c < |table| => Sum(Select(table[c], mask)))
  }

  /** Per component, the sum of the first scheme's estimates over `ts`. */
  function ValueSums(f: Integrand, dim: nat, ts: seq<Triangle>, s: Scheme): (r: seq<real>)
    ensures |r| == dim
  {
    seq(dim, c requires 0 <= c < dim => Sum(ValueRow(f, c, ts, s)))
  }

  function ErrorRow(f: Integrand, c: nat, ts: seq<Triangle>, scheme1: Scheme, scheme2: Scheme): (r: seq<real>)
    ensures |r| == |ts|
    ensures forall j :: 0 <= j < |ts| ==> r[j] == ErrorOf(f, c, ts[j], scheme1, scheme2)
  {
    MapReal(ts, (t: Triangle) => ErrorOf(f, c, t, scheme1, scheme2))
  }

  /** Per component, the sum of the error estimates over `ts`. */
  function ErrorSums(f: Integrand, dim: nat, ts: seq<Triangle>, scheme1: Scheme, scheme2: Scheme): (r: seq<real>)
    ensures |r| == dim
  {
    seq(dim, c requires 0 <= c < dim => Sum(ErrorRow(f, c, ts, scheme1, scheme2)))
  }

  /** Row c of the batched error table is the per-triangle error estimate
      of component c. */
  lemma ErrorRows(f: Integrand, dim: nat, ts: seq<Triangle>, scheme1: Scheme, scheme2: Scheme)
    ensures var errors := ErrorTable(IntegrateBatch(f, dim, ts, scheme1), IntegrateBatch(f, dim, ts, scheme2), |ts|);
            forall c :: 0 <= c < dim ==> errors[c] == ErrorRow(f, c, ts, scheme1, scheme2)
  {
    var val1, val2 := IntegrateBatch(f, dim, ts, scheme1), IntegrateBatch(f, dim, ts, scheme2);
    var errors := ErrorTable(val1, val2, |ts|);
    forall c | 0 <= c < dim ensures errors[c] == ErrorRow(f, c, ts, scheme1, scheme2) {
      assert val1[c] == ValueRow(f, c, ts, scheme1);
      assert val2[c] == ValueRow(f, c, ts, scheme2);
    }
  }

  /** The batched acceptance test computes, for every triangle, exactly the
      per-triangle test: `is_good[j]` holds iff triangle j is within tolerance
      in every component. */
  lemma Classification(f: Integrand, dim: nat, ts: seq<Triangle>, scheme1: Scheme, scheme2: Scheme,
                       totalArea: real, eps: real)
    ensures var errors := ErrorTable(IntegrateBatch(f, dim, ts, scheme1), IntegrateBatch(f, dim, ts, scheme2), |ts|);
            var isGood := AllExceptLast(ToleranceTable(errors, Areas(ts), totalArea, eps), |ts|);
            && |isGood| == |ts|
            && forall j :: 0 <= j < |ts| ==> (isGood[j] <==> Accepted(f, dim, ts[j], scheme1, scheme2, totalArea, eps))
  {
    var errors := ErrorTable(IntegrateBatch(f, dim, ts, scheme1), IntegrateBatch(f, dim, ts, scheme2), |ts|);
    ErrorRows(f, dim, ts, scheme1, scheme2);
    var table := ToleranceTable(errors, Areas(ts), totalArea, eps);
    forall j, c | 0 <= j < |ts| && 0 <= c < dim
      ensures table[c][j] == WithinTolerance(ErrorOf(f, c, ts[j], scheme1, scheme2), Area(ts[j]), totalArea, eps)
    {
      assert errors[c][j] == ErrorRow(f, c, ts, scheme1, scheme2)[j];
    }
    var isGood := AllExceptLast(table, |ts|);
    forall j | 0 <= j < |ts|
      ensures isGood[j] <==> Accepted(f, dim, ts[j], scheme1, scheme2, totalArea, eps)
    {
      assert isGood[j] <==> forall c :: 0 <= c < dim ==> table[c][j];
      if isGood[j] {
        forall c | 0 <= c < dim
          ensures WithinTolerance(ErrorOf(f, c, ts[j], scheme1, scheme2), Area(ts[j]), totalArea, eps)
        {
          assert table[c][j];
        }
      } else {
        var c :| 0 <= c < dim && !table[c][j];
        assert !WithinTolerance(ErrorOf(f, c, ts[j], scheme1, scheme2), Area(ts[j]), totalArea, eps);
      }
    }
  }

  /** `sumfun(val1[..., is_good], axis=-1)` is, per component, the sum of the
      estimates over the selected triangles. */
  lemma SelectedValues(f: Integrand, dim: nat, ts: seq<Triangle>, mask: seq<bool>, s: Scheme)
    requires |mask| == |ts|
    ensures SumSelected(IntegrateBatch(f, dim, ts, s), mask) == ValueSums(f, dim, Select(ts, mask), s)
  {
    var lhs, rhs := SumSelected(IntegrateBatch(f, dim, ts, s), mask), ValueSums(f, dim, Select(ts, mask), s);
    forall c | 0 <= c < dim ensures lhs[c] == rhs[c] {
      var F := (t: Triangle) => Integrate(f, c, t, s);
      assert IntegrateBatch(f, dim, ts, s)[c] == MapReal(ts, F);
      assert ValueRow(f, c, Select(ts, mask), s) == MapReal(Select(ts, mask), F);
      SelectMap(ts, mask, F);
    }
  }

  /** The same for `sumfun(error_estimate[..., is_good], axis=-1)`. */
  lemma SelectedErrors(f: Integrand, dim: nat, ts: seq<Triangle>, mask: seq<bool>, scheme1: Scheme, scheme2: Scheme)
    requires |mask| == |ts|
    ensures var errors := ErrorTable(IntegrateBatch(f, dim, ts, scheme1), IntegrateBatch(f, dim, ts, scheme2), |ts|);
            SumSelected(errors, mask) == ErrorSums(f, dim, Select(ts, mask), scheme1, scheme2)
  {
    ErrorRows(f, dim, ts, scheme1, scheme2);
    var errors := ErrorTable(IntegrateBatch(f, dim, ts, scheme1), IntegrateBatch(f, dim, ts, scheme2), |ts|);
    var lhs, rhs := SumSelected(errors, mask), ErrorSums(f, dim, Select(ts, mask), scheme1, scheme2);
    forall c | 0 <= c < dim ensures lhs[c] == rhs[c] {
      var F := (t: Triangle) => ErrorOf(f, c, t, scheme1, scheme2);
      assert errors[c] == MapReal(ts, F);
      assert ErrorRow(f, c, Select(ts, mask), scheme1, scheme2) == MapReal(Select(ts, mask), F);
      SelectMap(ts, mask, F);
    }
  }

  /** The accumulated sums over two lists of triangles add up (`+=`). */
  lemma ValueSumsConcat(f: Integrand, dim: nat, a: seq<Triangle>, b: seq<Triangle>, s: Scheme)
    ensures ValueSums(f, dim, a + b, s) == VecAdd(ValueSums(f, dim, a, s), ValueSums(f, dim, b, s))
  {
    var lhs, rhs := ValueSums(f, dim, a + b, s), VecAdd(ValueSums(f, dim, a, s), ValueSums(f, dim, b, s));
    forall c | 0 <= c < dim ensures lhs[c] == rhs[c] {
      assert ValueRow(f, c, a + b, s) == ValueRow(f, c, a, s) + ValueRow(f, c, b, s);
      SumConcat(ValueRow(f, c, a, s), ValueRow(f, c, b, s));
    }
  }

  lemma ErrorSumsConcat(f: Integrand, dim: nat, a: seq<Triangle>, b: seq<Triangle>, scheme1: Scheme, scheme2: Scheme)
    ensures ErrorSums(f, dim, a + b, scheme1, scheme2)
            == VecAdd(ErrorSums(f, dim, a, scheme1, scheme2), ErrorSums(f, dim, b, scheme1, scheme2))
  {
    var lhs := ErrorSums(f, dim, a + b, scheme1, scheme2);
    var rhs := VecAdd(ErrorSums(f, dim, a, scheme1, scheme2), ErrorSums(f, dim, b, scheme1, scheme2));
    forall c | 0 <= c < dim ensures lhs[c] == rhs[c] {
      assert ErrorRow(f, c, a + b, scheme1, scheme2) == ErrorRow(f, c, a, scheme1, scheme2) + ErrorRow(f, c, b, scheme1, scheme2);
      SumConcat(ErrorRow(f, c, a, scheme1, scheme2), ErrorRow(f, c, b, scheme1, scheme2));
    }
  }

  /** a * 0.25^k * (k + 1) <= a, since 4^k >= k + 1. */
  lemma {:induction false} QuarteredBound(a: real, k: nat)
    requires a >= 0.0
    ensures Quartered(a, k) * ((k as real) + 1.0) <= a
  {
    if k > 0 {
      QuarteredBound(a, k - 1);
      var q := Quartered(a, k - 1);
      assert q >= 0.0;
      assert Quartered(a, k) * ((k as real) + 1.0) == q * (((k as real) + 1.0) / 4.0);
      ScaleBelowEq(q, ((k as real) + 1.0) / 4.0, k as real);
    }
  }

  lemma ScaleBelowEq(q: real, x: real, y: real)
    requires q >= 0.0 && x <= y
    ensures q * x <= q * y
  {
  }

  /** Quartering strictly shrinks a positive area. */
  lemma {:induction false} QuarteredDecreasing(a: real, j: nat, k: nat)
    requires a > 0.0 && j < k
    ensures Quartered(a, k) < Quartered(a, j)
    decreases k
  {
    if j < k - 1 {
      QuarteredDecreasing(a, j, k - 1);
    }
  }

  /** Every subdivision round quarters the largest possible area and every
      child must stay above the minimum: after k rounds
      minimum < total_area * 0.25^k, so a positive minimum bounds the number
      of rounds by the integer part of total_area / minimum. */
  lemma RoundBudget(totalArea: real, minimum: real, k: nat)
    requires totalArea >= 0.0 && minimum > 0.0
    requires minimum < Quartered(totalArea, k)
    ensures k < (totalArea / minimum).Floor
  {
    QuarteredBound(totalArea, k);
    var q, n := Quartered(totalArea, k), (k as real) + 1.0;
    ScaleBelow(minimum, q, n);
    assert minimum * n < totalArea;
    BelowQuotient(minimum, n, totalArea);
  }

  /** The same bound as a number of rounds fixed up front. */
  lemma RoundLimit(totalArea: real, minimum: real) returns (limit: nat)
    requires totalArea >= 0.0 && minimum > 0.0
    ensures forall k: nat :: minimum < Quartered(totalArea, k) ==> k < limit
  {
    limit := if totalArea / minimum >= 0.0 then (totalArea / minimum).Floor else 0;
    forall k: nat | minimum < Quartered(totalArea, k) ensures k < limit {
      RoundBudget(totalArea, minimum, k);
    }
  }

  lemma ScaleBelow(a: real, b: real, n: real)
    requires a < b && n > 0.0
    ensures a * n < b * n
  {
  }

  lemma BelowQuotient(m: real, n: real, t: real)
    requires m > 0.0 && m * n < t
    ensures n < t / m
  {
    assert t / m * m == t;
  }

  /** With the default minimum `total_area * 0.25 ** 10`, a triangle of area
      total_area * 0.25^k is above the minimum only when k < 10, and for a
      positive total area it is whenever k < 10: at most nine subdivision
      rounds can succeed. */
  lemma DefaultMinimumRounds(totalArea: real, k: nat)
    requires totalArea >= 0.0
    ensures Quartered(totalArea, 10) < Quartered(totalArea, k) ==> k < 10
    ensures totalArea > 0.0 && k < 10 ==> Quartered(totalArea, 10) < Quartered(totalArea, k)
  {
    if totalArea > 0.0 {
      if k < 10 {
        QuarteredDecreasing(totalArea, k, 10);
      } else if k > 10 {
        QuarteredDecreasing(totalArea, 10, k);
      }
    }
  }

  /** Every accumulated error estimate is a sum of absolute differences and
      so is never negative. */
  lemma ErrorSumsNonNegative(f: Integrand, dim: nat, ts: seq<Triangle>, scheme1: Scheme, scheme2: Scheme)
    ensures forall c :: 0 <= c < dim ==> ErrorSums(f, dim, ts, scheme1, scheme2)[c] >= 0.0
  {
    forall c | 0 <= c < dim ensures ErrorSums(f, dim, ts, scheme1, scheme2)[c] >= 0.0 {
      SumNonNegative(ErrorRow(f, c, ts, scheme1, scheme2));
    }
  }

  /** The fixed inputs of one call: the integrand and its number of
      components, the original batch with its total area, the tolerance, the
      minimum child area and the two schemes. */
  datatype Problem = Problem(f: Integrand, dim: nat, batch: seq<Triangle>, totalArea: real, eps: real,
                             minimum: real, scheme1: Scheme, scheme2: Scheme)

  /** `is_good` for a batch, computed as the loop computes it: both schemes'
      estimates, their difference, the tolerance table and the conjunction
      over the components. */
  function GoodMask(p: Problem, ts: seq<Triangle>): seq<bool>
  {
    var errors := ErrorTable(IntegrateBatch(p.f, p.dim, ts, p.scheme1), IntegrateBatch(p.f, p.dim, ts, p.scheme2), |ts|);
    AllExceptLast(ToleranceTable(errors, Areas(ts), p.totalArea, p.eps), |ts|)
  }

  /** The fixed inputs of a call to `adaptive_integrate`. */
  function MakeProblem(f: Integrand, dim: nat, triangles: TriangleInput, eps: real,
                       minimumTriangleArea: Option<real>, scheme1: Scheme, scheme2: Scheme): Problem
  {
    var batch := AsBatch(triangles);
    Problem(f, dim, batch, TotalArea(batch), eps, MinimumArea(minimumTriangleArea, TotalArea(batch)), scheme1, scheme2)
  }

  /** The reference classification: the acceptance test applied to each
      triangle on its own. */
  function Verdicts(p: Problem, ts: seq<Triangle>): (r: seq<bool>)
    ensures |r| == |ts|
  {
    seq(|ts|, j requires 0 <= j < |ts| => Accepted(p.f, p.dim, ts[j], p.scheme1, p.scheme2, p.totalArea, p.eps))
  }

  /** A mask that classifies each triangle by the acceptance test is the
      reference classification. */
  lemma ClassifiedVerdicts(p: Problem, ts: seq<Triangle>, isGood: seq<bool>)
    requires Classified(p, ts, isGood)
    ensures isGood == Verdicts(p, ts)
  {
  }

  /** The batched `is_good` computation agrees with the acceptance test
      applied to each triangle on its own. */
  lemma GoodMaskIsVerdicts(p: Problem, ts: seq<Triangle>)
    ensures GoodMask(p, ts) == Verdicts(p, ts)
  {
    Evaluation(p, ts);
    ClassifiedVerdicts(p, ts, GoodMask(p, ts));
  }

  /** What a run with reference problem `p` ends with, restated for the
      problem the caller's arguments describe. */
  lemma Conclusion(f: Integrand, dim: nat, triangles: TriangleInput, eps: real,
                   minimumTriangleArea: Option<real>, scheme1: Scheme, scheme2: Scheme,
                   p: Problem, accepted: seq<Triangle>, rounds: nat, converged: bool)
    requires p.f == f && p.dim == dim && p.batch == AsBatch(triangles) && p.totalArea == TotalArea(p.batch)
    requires p.eps == eps && p.minimum == MinimumArea(minimumTriangleArea, p.totalArea)
    requires p.scheme1 == scheme1 && p.scheme2 == scheme2
    requires accepted == Leaves(p, rounds) && Terminates(p, rounds, converged)
    requires converged ==> AllAccepted(p, p.batch) ==> rounds == 0 && accepted == p.batch
    requires !converged ==> !AllAccepted(p, p.batch)
    ensures accepted == Leaves(MakeProblem(f, dim, triangles, eps, minimumTriangleArea, scheme1, scheme2), rounds)
    ensures Terminates(MakeProblem(f, dim, triangles, eps, minimumTriangleArea, scheme1, scheme2), rounds, converged)
    ensures AllAccepted(MakeProblem(f, dim, triangles, eps, minimumTriangleArea, scheme1, scheme2), AsBatch(triangles)) ==>
              converged && rounds == 0 && accepted == AsBatch(triangles)
  {
    assert MakeProblem(f, dim, triangles, eps, minimumTriangleArea, scheme1, scheme2) == p;
  }

  /** The triangles of a batch that fail the acceptance test,
      `triangles[..., is_bad, :]`. */
  function Rejected(p: Problem, ts: seq<Triangle>): seq<Triangle>
  {
    Select(ts, Not(Verdicts(p, ts)))
  }

  /** The reference subdivision: the active batch after k rounds is the
      input batch split k times, each time keeping only the rejected
      triangles. */
  function Active(p: Problem, k: nat): seq<Triangle>
  {
    if k == 0 then p.batch else Split(Rejected(p, Active(p, k - 1)))
  }

  /** The triangles accepted in rounds 0 to k, in the order the running sums
      take them in. */
  function Leaves(p: Problem, k: nat): seq<Triangle>
  {
    var ts := Active(p, k);
    if k == 0 then Select(ts, Verdicts(p, ts)) else Leaves(p, k - 1) + Select(ts, Verdicts(p, ts))
  }

  /** Every triangle of the batch passed `assert all(areas > minimum_triangle_area)`. */
  predicate ChildrenPass(p: Problem, ts: seq<Triangle>)
  {
    forall t :: t in ts ==> Area(t) > p.minimum
  }

  /** Every triangle of the batch passes the acceptance test. */
  predicate AllAccepted(p: Problem, ts: seq<Triangle>)
  {
    forall t :: t in ts ==> Accepted(p.f, p.dim, t, p.scheme1, p.scheme2, p.totalArea, p.eps)
  }

  /** k rounds of subdivision happened: every earlier round rejected
      something, and every split so far passed the area assertion. */
  ghost predicate History(p: Problem, k: nat)
  {
    && (forall j :: 0 <= j < k ==> Rejected(p, Active(p, j)) != [])
    && (forall j :: 0 < j <= k ==> ChildrenPass(p, Active(p, j)))
  }

  /** The call stops after k rounds: it converges when round k rejects
      nothing, and it fails when round k rejects something and a child of
      the next split is not above the minimum. */
  ghost predicate Terminates(p: Problem, k: nat, converged: bool)
  {
    && History(p, k)
    && (converged ==> Rejected(p, Active(p, k)) == [])
    && (!converged ==> Rejected(p, Active(p, k)) != [] && !ChildrenPass(p, Active(p, k + 1)))
  }

  /** The number of rounds and the outcome are determined by the inputs. */
  lemma TerminationUnique(p: Problem, k1: nat, converged1: bool, k2: nat, converged2: bool)
    requires Terminates(p, k1, converged1) && Terminates(p, k2, converged2)
    ensures k1 == k2 && converged1 == converged2
  {
    var next1: nat, next2: nat := k1 + 1, k2 + 1;
    assert k1 < k2 ==> Rejected(p, Active(p, k1)) != [] && ChildrenPass(p, Active(p, next1));
    assert k2 < k1 ==> Rejected(p, Active(p, k2)) != [] && ChildrenPass(p, Active(p, next2));
  }

  /** The reference subdivision loses and duplicates no area: the leaves
      accepted so far and the triangles still rejected cover the input
      batch's area exactly. */
  lemma {:induction false} LeavesPartition(p: Problem, k: nat)
    ensures Sum(Areas(Leaves(p, k))) + Sum(Areas(Rejected(p, Active(p, k)))) == Sum(Areas(p.batch))
    decreases k, 1
  {
    if k == 0 {
      FirstPartition(p, k);
    } else {
      NextPartition(p, k - 1, k);
    }
  }

  lemma FirstPartition(p: Problem, k: nat)
    requires k == 0
    ensures Sum(Areas(Leaves(p, k))) + Sum(Areas(Rejected(p, Active(p, k)))) == Sum(Areas(p.batch))
  {
    SelectPartition(p.batch, Verdicts(p, p.batch), Area);
  }

  lemma {:induction false} NextPartition(p: Problem, previous: nat, k: nat)
    requires k == previous + 1
    ensures Sum(Areas(Leaves(p, k))) + Sum(Areas(Rejected(p, Active(p, k)))) == Sum(Areas(p.batch))
    decreases k, 0
  {
    LeavesPartition(p, previous);
    PartitionRound(p, previous, k);
  }

  lemma PartitionRound(p: Problem, previous: nat, k: nat)
    requires k == previous + 1
    requires Sum(Areas(Leaves(p, previous))) + Sum(Areas(Rejected(p, Active(p, previous)))) == Sum(Areas(p.batch))
    ensures Sum(Areas(Leaves(p, k))) + Sum(Areas(Rejected(p, Active(p, k)))) == Sum(Areas(p.batch))
  {
    PartitionStep(Leaves(p, previous), Rejected(p, Active(p, previous)), Verdicts(p, Active(p, k)), Sum(Areas(p.batch)));
  }

  /** Accepting part of the children of the rejected triangles and keeping
      the rest rejected moves area around without changing its total. */
  lemma PartitionStep(leaves: seq<Triangle>, rejected: seq<Triangle>, mask: seq<bool>, total: real)
    requires Sum(Areas(leaves)) + Sum(Areas(rejected)) == total
    requires |mask| == |Split(rejected)|
    ensures Sum(Areas(leaves + Select(Split(rejected), mask))) + Sum(Areas(Select(Split(rejected), Not(mask)))) == total
  {
    var ts := Split(rejected);
    SelectPartition(ts, mask, Area);
    SplitKeepsArea(rejected);
    AreasConcat(leaves, Select(ts, mask));
  }

  /** Every leaf passed the acceptance test. */
  lemma {:induction false} LeavesAccepted(p: Problem, k: nat)
    ensures AllAccepted(p, Leaves(p, k))
    decreases k, 1
  {
    if k == 0 {
      FirstLeavesAccepted(p, k);
    } else {
      NextLeavesAccepted(p, k - 1, k);
    }
  }

  lemma FirstLeavesAccepted(p: Problem, k: nat)
    requires k == 0
    ensures AllAccepted(p, Leaves(p, k))
  {
    SelectedAccepted(p, p.batch);
  }

  /** What the reference classification selects passes the acceptance test. */
  lemma SelectedAccepted(p: Problem, ts: seq<Triangle>)
    ensures AllAccepted(p, Select(ts, Verdicts(p, ts)))
  {
    forall t | t in Select(ts, Verdicts(p, ts))
      ensures Accepted(p.f, p.dim, t, p.scheme1, p.scheme2, p.totalArea, p.eps)
    {
      var j :| 0 <= j < |ts| && Verdicts(p, ts)[j] && ts[j] == t;
    }
  }

  lemma {:induction false} NextLeavesAccepted(p: Problem, previous: nat, k: nat)
    requires k == previous + 1
    ensures AllAccepted(p, Leaves(p, k))
    decreases k, 0
  {
    LeavesAccepted(p, previous);
    AcceptedStep(p, k);
  }

  lemma AcceptedStep(p: Problem, k: nat)
    requires k > 0 && AllAccepted(p, Leaves(p, k - 1))
    ensures AllAccepted(p, Leaves(p, k))
  {
    var ts := Active(p, k);
    SelectedAccepted(p, ts);
    AllAcceptedConcat(p, Leaves(p, k - 1), Select(ts, Verdicts(p, ts)));
  }


  lemma AllAcceptedConcat(p: Problem, a: seq<Triangle>, b: seq<Triangle>)
    requires AllAccepted(p, a) && AllAccepted(p, b)
    ensures AllAccepted(p, a + b)
  {
  }

  /** When the first evaluation accepts every input triangle, nothing is
      rejected and the leaves are the input batch itself. */
  lemma AllAcceptedStart(p: Problem)
    ensures AllAccepted(p, p.batch) ==> Rejected(p, p.batch) == [] && Leaves(p, 0) == p.batch
  {
    if AllAccepted(p, p.batch) {
      var isGood := Verdicts(p, p.batch);
      assert forall j :: 0 <= j < |isGood| ==> isGood[j] by {
        forall j | 0 <= j < |isGood| ensures isGood[j] {
          assert p.batch[j] in p.batch;
        }
      }
      SelectAll(p.batch, isGood);
      SelectNone(p.batch, Not(isGood));
    }
  }

  /** A round that rejects something, after rounds that all did, implies that
      the input batch itself had a rejected triangle. */
  lemma Started(p: Problem, k: nat)
    requires History(p, k) && Rejected(p, Active(p, k)) != []
    ensures Rejected(p, p.batch) != []
  {
    assert Active(p, 0) == p.batch;
  }

  /** After k rounds with nothing rejected at the start, no round happened
      and the leaves are the input batch. */
  lemma ImmediateConvergence(p: Problem, k: nat)
    requires History(p, k)
    ensures AllAccepted(p, p.batch) ==> k == 0 && Leaves(p, k) == p.batch
  {
    AllAcceptedStart(p);
    assert Active(p, 0) == p.batch;
  }

  /** One step of the loop follows the reference subdivision. */
  lemma ActiveStep(p: Problem, k: nat, next: nat, ts: seq<Triangle>, isGood: seq<bool>, children: seq<Triangle>)
    requires next == k + 1 && ts == Active(p, k) && isGood == Verdicts(p, ts)
    requires children == Split(Select(ts, Not(isGood)))
    ensures children == Active(p, next)
  {
  }

  /** The triangles accepted in a round extend the leaves by that round's. */
  lemma LeavesStep(p: Problem, k: nat, next: nat, previous: seq<Triangle>, ts: seq<Triangle>, isGood: seq<bool>,
                   accepted: seq<Triangle>)
    requires next == k + 1 && previous == Leaves(p, k) && ts == Active(p, next) && isGood == Verdicts(p, ts)
    requires accepted == previous + Select(ts, isGood)
    ensures accepted == Leaves(p, next)
  {
  }

  /** A round that rejects something and whose children all pass the area
      assertion extends the history by one round. */
  lemma HistoryStep(p: Problem, k: nat, next: nat, ts: seq<Triangle>, isBad: seq<bool>,
                    children: seq<Triangle>, areas: seq<real>, minimum: real)
    requires next == k + 1 && History(p, k)
    requires ts == Active(p, k) && isBad == Not(Verdicts(p, ts)) && |Select(ts, isBad)| > 0
    requires children == Active(p, next) && areas == Areas(children) && minimum == p.minimum
    requires forall j :: 0 <= j < |areas| ==> areas[j] > minimum
    ensures History(p, next)
  {
    ChildrenAboveMinimum(p, children);
  }

  /** A round that rejects something and has a child not above the minimum
      area ends the call with the failed assertion; the input batch itself
      then had a rejected triangle. */
  lemma FailedRound(p: Problem, k: nat, next: nat, ts: seq<Triangle>, isBad: seq<bool>,
                    children: seq<Triangle>, areas: seq<real>, minimum: real)
    requires next == k + 1 && History(p, k)
    requires ts == Active(p, k) && isBad == Not(Verdicts(p, ts)) && |Select(ts, isBad)| > 0
    requires children == Active(p, next) && areas == Areas(children) && minimum == p.minimum
    requires !(forall j :: 0 <= j < |areas| ==> areas[j] > minimum)
    ensures Terminates(p, k, false)
    ensures !AllAccepted(p, p.batch)
  {
    ChildBelowMinimum(p, children);
    Started(p, k);
    AllAcceptedStart(p);
  }

  /** The failing element-wise test `areas > minimum_triangle_area`. */
  lemma ChildBelowMinimum(p: Problem, children: seq<Triangle>)
    requires !(forall j :: 0 <= j < |children| ==> Areas(children)[j] > p.minimum)
    ensures !ChildrenPass(p, children)
  {
    var j :| 0 <= j < |children| && Areas(children)[j] <= p.minimum;
    assert children[j] in children;
  }

  /** `is_good[j]` is the acceptance test of triangle j. */
  ghost predicate Classified(p: Problem, ts: seq<Triangle>, isGood: seq<bool>)
  {
    && |isGood| == |ts|
    && forall j :: 0 <= j < |ts| ==> (isGood[j] <==> Accepted(p.f, p.dim, ts[j], p.scheme1, p.scheme2, p.totalArea, p.eps))
  }

  /** The running sums are the sums over the accepted triangles, each of
      which passed the acceptance test. */
  ghost predicate Accumulated(p: Problem, quadSum: seq<real>, errorSum: seq<real>, accepted: seq<Triangle>)
  {
    && quadSum == ValueSums(p.f, p.dim, accepted, p.scheme1)
    && errorSum == ErrorSums(p.f, p.dim, accepted, p.scheme1, p.scheme2)
    && forall t :: t in accepted ==> Accepted(p.f, p.dim, t, p.scheme1, p.scheme2, p.totalArea, p.eps)
  }

  /** Every triangle is an original one or a child above the minimum area. */
  ghost predicate AboveMinimum(p: Problem, ts: seq<Triangle>)
  {
    forall t :: t in ts ==> t in p.batch || Area(t) > p.minimum
  }

  /** After `rounds` subdivisions no active triangle is larger than
      total_area * 0.25^rounds, and that bound is still above the minimum. */
  ghost predicate Shrunk(p: Problem, ts: seq<Triangle>, bound: real, rounds: nat)
  {
    && (forall t :: t in ts ==> Area(t) <= bound)
    && bound == Quartered(p.totalArea, rounds)
    && (rounds == 0 || p.minimum < bound)
  }

  /** The loop's state after k rounds is the reference subdivision's:
      the batch under test, its verdicts, the leaves so far, and a history
      of rounds that each rejected something and split into large enough
      children. */
  ghost predicate Follows(p: Problem, ts: seq<Triangle>, isGood: seq<bool>, accepted: seq<Triangle>, k: nat)
  {
    && ts == Active(p, k) && isGood == Verdicts(p, ts)
    && accepted == Leaves(p, k)
    && History(p, k)
  }

  /** The first round follows the reference subdivision. */
  lemma FirstFollows(p: Problem, isGood: seq<bool>, accepted: seq<Triangle>)
    requires isGood == GoodMask(p, p.batch) && accepted == Select(p.batch, isGood)
    ensures Follows(p, p.batch, isGood, accepted, 0)
  {
    GoodMaskIsVerdicts(p, p.batch);
  }

  /** A round that splits the rejected triangles into children all above
      the minimum area and accepts some of them still follows the reference
      subdivision. */
  lemma FollowStep(p: Problem, k: nat, next: nat, ts: seq<Triangle>, isGood: seq<bool>, isBad: seq<bool>,
                   previous: seq<Triangle>, children: seq<Triangle>, areas: seq<real>, minimum: real,
                   newGood: seq<bool>, accepted: seq<Triangle>)
    requires Follows(p, ts, isGood, previous, k) && next == k + 1
    requires isBad == Not(isGood) && |Select(ts, isBad)| > 0
    requires children == Split(Select(ts, isBad)) && areas == Areas(children) && minimum == p.minimum
    requires forall j :: 0 <= j < |areas| ==> areas[j] > minimum
    requires newGood == GoodMask(p, children) && accepted == previous + Select(children, newGood)
    ensures Follows(p, children, newGood, accepted, next)
  {
    ActiveStep(p, k, next, ts, isGood, children);
    HistoryStep(p, k, next, ts, isBad, children, areas, minimum);
    GoodMaskIsVerdicts(p, children);
    LeavesStep(p, k, next, previous, children, newGood, accepted);
  }

  /** A round whose split leaves a child not above the minimum area ends the
      reference run with a failure after k rounds, and the input batch was
      not accepted as a whole. */
  lemma FailedFollow(p: Problem, k: nat, next: nat, ts: seq<Triangle>, isGood: seq<bool>, isBad: seq<bool>,
                     accepted: seq<Triangle>, children: seq<Triangle>, areas: seq<real>, minimum: real)
    requires Follows(p, ts, isGood, accepted, k) && next == k + 1
    requires isBad == Not(isGood) && |Select(ts, isBad)| > 0
    requires children == Split(Select(ts, isBad)) && areas == Areas(children) && minimum == p.minimum
    requires !(forall j :: 0 <= j < |areas| ==> areas[j] > minimum)
    ensures accepted == Leaves(p, k) && Terminates(p, k, false) && !AllAccepted(p, p.batch)
  {
    ActiveStep(p, k, next, ts, isGood, children);
    FailedRound(p, k, next, ts, isBad, children, areas, minimum);
  }

  /** A round that rejects nothing ends the reference run with convergence
      after k rounds; if the whole input was accepted, no round happened. */
  lemma ConvergedFollow(p: Problem, ts: seq<Triangle>, isGood: seq<bool>, accepted: seq<Triangle>, k: nat)
    requires Follows(p, ts, isGood, accepted, k) && !Any(Not(isGood))
    ensures accepted == Leaves(p, k) && Terminates(p, k, true)
    ensures AllAccepted(p, p.batch) ==> k == 0 && accepted == p.batch
  {
    SelectNone(ts, Not(isGood));
    ImmediateConvergence(p, k);
  }

  /** What holds between two rounds of the loop. */
  ghost predicate RoundInvariant(p: Problem, ts: seq<Triangle>, isGood: seq<bool>, quadSum: seq<real>,
                                 errorSum: seq<real>, accepted: seq<Triangle>, bound: real, rounds: nat)
  {
    && Classified(p, ts, isGood)
    && Accumulated(p, quadSum, errorSum, accepted)
    && Sum(Areas(accepted)) + Sum(Areas(Select(ts, Not(isGood)))) == p.totalArea
    && AboveMinimum(p, ts)
    && AboveMinimum(p, accepted)
    && Shrunk(p, ts, bound, rounds)
  }

  /** Evaluating a batch: `is_good` classifies it, and the masked sums of the
      estimate and error tables are the sums over the triangles it accepts. */
  lemma Evaluation(p: Problem, ts: seq<Triangle>)
    ensures var isGood := GoodMask(p, ts);
            && Classified(p, ts, isGood)
            && SumSelected(IntegrateBatch(p.f, p.dim, ts, p.scheme1), isGood)
               == ValueSums(p.f, p.dim, Select(ts, isGood), p.scheme1)
            && SumSelected(ErrorTable(IntegrateBatch(p.f, p.dim, ts, p.scheme1), IntegrateBatch(p.f, p.dim, ts, p.scheme2), |ts|), isGood)
               == ErrorSums(p.f, p.dim, Select(ts, isGood), p.scheme1, p.scheme2)
            && (forall t :: t in Select(ts, isGood) ==> t in ts)
            && (forall t :: t in Select(ts, isGood) ==> Accepted(p.f, p.dim, t, p.scheme1, p.scheme2, p.totalArea, p.eps))
  {
    var isGood := GoodMask(p, ts);
    Classification(p.f, p.dim, ts, p.scheme1, p.scheme2, p.totalArea, p.eps);
    SelectedValues(p.f, p.dim, ts, isGood, p.scheme1);
    SelectedErrors(p.f, p.dim, ts, isGood, p.scheme1, p.scheme2);
    forall t | t in Select(ts, isGood)
      ensures t in ts && Accepted(p.f, p.dim, t, p.scheme1, p.scheme2, p.totalArea, p.eps)
    {
      var j :| 0 <= j < |ts| && isGood[j] && ts[j] == t;
    }
  }

  /** The state after the first evaluation satisfies the loop invariant. */
  lemma FirstRound(p: Problem)
    requires p.totalArea == TotalArea(p.batch)
    ensures var ts, isGood := p.batch, GoodMask(p, p.batch);
            RoundInvariant(p, ts, isGood, ValueSums(p.f, p.dim, Select(ts, isGood), p.scheme1),
                           ErrorSums(p.f, p.dim, Select(ts, isGood), p.scheme1, p.scheme2),
                           Select(ts, isGood), p.totalArea, 0)
  {
    var ts, isGood := p.batch, GoodMask(p, p.batch);
    TotalAreaBounds(ts);
    Evaluation(p, ts);
    SelectPartition(ts, isGood, Area);
  }

  /** Splitting the rejected triangles: if every child is above the minimum,
      the children are bounded by a quarter of the old bound and, with the
      accepted triangles, still cover the total area. */
  lemma SplitRound(p: Problem, ts: seq<Triangle>, isGood: seq<bool>, isBad: seq<bool>, accepted: seq<Triangle>,
                   bound: real, rounds: nat, children: seq<Triangle>, areas: seq<real>, minimum: real,
                   newBound: real, newRounds: nat)
    requires |isGood| == |ts| && isBad == Not(isGood) && Any(isBad)
    requires Shrunk(p, ts, bound, rounds)
    requires Sum(Areas(accepted)) + Sum(Areas(Select(ts, Not(isGood)))) == p.totalArea
    requires children == Split(Select(ts, isBad))
    requires areas == Areas(children) && minimum == p.minimum
    requires forall j :: 0 <= j < |areas| ==> areas[j] > minimum
    requires newBound == bound * 0.25 && newRounds == rounds + 1
    ensures AboveMinimum(p, children)
    ensures Shrunk(p, children, newBound, newRounds)
    ensures Sum(Areas(accepted)) + Sum(Areas(children)) == p.totalArea
  {
    var bad := Select(ts, Not(isGood));
    SelectSome(ts, Not(isGood));
    SplitKeepsArea(bad);
    ChildrenAboveMinimum(p, children);
    ChildrenShrunk(p, bad, bound, rounds, children, newBound, newRounds);
  }

  /** Children of triangles bounded by `bound` are bounded by a quarter of
      it; one of them lies above the minimum, so the new bound does too. */
  lemma ChildrenShrunk(p: Problem, bad: seq<Triangle>, bound: real, rounds: nat,
                       children: seq<Triangle>, newBound: real, newRounds: nat)
    requires |bad| > 0 && children == Split(bad)
    requires forall t :: t in bad ==> Area(t) <= bound
    requires bound == Quartered(p.totalArea, rounds)
    requires forall t :: t in children ==> Area(t) > p.minimum
    requires newBound == bound * 0.25 && newRounds == rounds + 1
    ensures Shrunk(p, children, newBound, newRounds)
  {
    ChildrenBounded(bad, bound, children, newBound);
    ChildAboveMinimum(bad, children, p.minimum, newBound);
  }

  lemma ChildrenBounded(bad: seq<Triangle>, bound: real, children: seq<Triangle>, newBound: real)
    requires children == Split(bad)
    requires forall t :: t in bad ==> Area(t) <= bound
    requires newBound == bound * 0.25
    ensures forall t :: t in children ==> Area(t) <= newBound
  {
    SplitShrinks(bad, bound);
  }

  lemma ChildAboveMinimum(bad: seq<Triangle>, children: seq<Triangle>, minimum: real, newBound: real)
    requires |bad| > 0 && children == Split(bad)
    requires forall t :: t in children ==> Area(t) <= newBound
    requires forall t :: t in children ==> Area(t) > minimum
    ensures minimum < newBound
  {
    SplitKeepsArea(bad);
    assert children[0] in children;
  }

  /** The element-wise test `areas > minimum_triangle_area` as a property of
      every child. */
  lemma ChildrenAboveMinimum(p: Problem, children: seq<Triangle>)
    requires forall j :: 0 <= j < |children| ==> Areas(children)[j] > p.minimum
    ensures forall t :: t in children ==> Area(t) > p.minimum
  {
    forall t | t in children ensures Area(t) > p.minimum {
      var j :| 0 <= j < |children| && children[j] == t;
      assert Areas(children)[j] == Area(t);
    }
  }

  /** Evaluating the children and adding the accepted ones to the running
      sums re-establishes the loop invariant. */
  lemma EvaluateRound(p: Problem, ts: seq<Triangle>, quadSum: seq<real>, errorSum: seq<real>,
                      accepted: seq<Triangle>, bound: real, rounds: nat,
                      isGood: seq<bool>, newQuadSum: seq<real>, newErrorSum: seq<real>, newAccepted: seq<Triangle>)
    requires Accumulated(p, quadSum, errorSum, accepted)
    requires AboveMinimum(p, accepted) && AboveMinimum(p, ts) && Shrunk(p, ts, bound, rounds)
    requires Sum(Areas(accepted)) + Sum(Areas(ts)) == p.totalArea
    requires isGood == GoodMask(p, ts)
    requires newQuadSum == VecAdd(quadSum, SumSelected(IntegrateBatch(p.f, p.dim, ts, p.scheme1), isGood))
    requires newErrorSum == VecAdd(errorSum, SumSelected(ErrorTable(IntegrateBatch(p.f, p.dim, ts, p.scheme1),
                                                                    IntegrateBatch(p.f, p.dim, ts, p.scheme2), |ts|), isGood))
    requires newAccepted == accepted + Select(ts, isGood)
    ensures RoundInvariant(p, ts, isGood, newQuadSum, newErrorSum, newAccepted, bound, rounds)
  {
    var more := Select(ts, isGood);
    Evaluation(p, ts);
    ValueSumsConcat(p.f, p.dim, accepted, more, p.scheme1);
    ErrorSumsConcat(p.f, p.dim, accepted, more, p.scheme1, p.scheme2);
    SelectPartition(ts, isGood, Area);
    AreasConcat(accepted, more);
  }

  /** When nothing is rejected the accepted triangles carry the whole area. */
  lemma LastRound(p: Problem, ts: seq<Triangle>, isGood: seq<bool>, quadSum: seq<real>,
                  errorSum: seq<real>, accepted: seq<Triangle>, bound: real, rounds: nat)
    requires RoundInvariant(p, ts, isGood, quadSum, errorSum, accepted, bound, rounds)
    requires !Any(Not(isGood))
    ensures Sum(Areas(accepted)) == p.totalArea
  {
    SelectNone(ts, Not(isGood));
  }

  /** `adaptive_integrate`. On convergence the two sums are exactly the sums,
      over the accepted triangles, of the first scheme's estimates and of the
      error estimates, one entry per component and every error estimate
      non-negative; every accepted triangle passed the acceptance test;
      and the accepted triangles' areas add up to the input's total area.
      The accepted triangles are the leaves of the reference subdivision
      after the returned number of rounds, and the call stops where that
      subdivision stops: converging when the round rejects nothing, failing
      when a child of the round's split is not above the minimum. */
  method AdaptiveIntegrate(f: Integrand, dim: nat, triangles: TriangleInput, eps: real,
                           minimumTriangleArea: Option<real>, scheme1: Scheme, scheme2: Scheme)
    returns (r: Outcome, ghost accepted: seq<Triangle>, ghost rounds: nat)
    requires minimumTriangleArea.Some? ==> minimumTriangleArea.value > 0.0
    ensures r.Converged? ==> |r.quadSum| == dim && |r.errorEstimate| == dim
    ensures r.Converged? ==> forall c :: 0 <= c < dim ==> r.errorEstimate[c] >= 0.0
    ensures r.Converged? ==> r.quadSum == ValueSums(f, dim, accepted, scheme1)
    ensures r.Converged? ==> r.errorEstimate == ErrorSums(f, dim, accepted, scheme1, scheme2)
    ensures r.Converged? ==> Sum(Areas(accepted)) == TotalArea(AsBatch(triangles))
    ensures forall t :: t in accepted ==>
              Accepted(f, dim, t, scheme1, scheme2, TotalArea(AsBatch(triangles)), eps)
    ensures forall t :: t in accepted ==>
              t in AsBatch(triangles) || Area(t) > MinimumArea(minimumTriangleArea, TotalArea(AsBatch(triangles)))
    ensures rounds == 0 ||
              MinimumArea(minimumTriangleArea, TotalArea(AsBatch(triangles))) < Quartered(TotalArea(AsBatch(triangles)), rounds)
    ensures minimumTriangleArea.None? ==> rounds < 10
    ensures accepted == Leaves(MakeProblem(f, dim, triangles, eps, minimumTriangleArea, scheme1, scheme2), rounds)
    ensures Terminates(MakeProblem(f, dim, triangles, eps, minimumTriangleArea, scheme1, scheme2), rounds, r.Converged?)
    ensures AllAccepted(MakeProblem(f, dim, triangles, eps, minimumTriangleArea, scheme1, scheme2), AsBatch(triangles)) ==>
              && rounds == 0
              && r == Converged(ValueSums(f, dim, AsBatch(triangles), scheme1),
                                ErrorSums(f, dim, AsBatch(triangles), scheme1, scheme2))
  {
    var batch := AsBatch(triangles);
    var ts := batch;
    var areas := Areas(ts);
    var totalArea := Sum(areas);
    assert totalArea == TotalArea(batch);
    var minimum := MinimumArea(minimumTriangleArea, totalArea);
    ghost var p := Problem(f, dim, batch, totalArea, eps, minimum, scheme1, scheme2);
    ghost var budget: nat := 0;
    if minimum > 0.0 {
      budget := RoundLimit(totalArea, minimum);
    }

    var val1 := IntegrateBatch(f, dim, ts, scheme1);
    var val2 := IntegrateBatch(f, dim, ts, scheme2);
    var errorEstimate := ErrorTable(val1, val2, |ts|);
    var isGood := AllExceptLast(ToleranceTable(errorEstimate, areas, totalArea, eps), |ts|);
    Evaluation(p, ts);
    FirstRound(p);

    var quadSum := SumSelected(val1, isGood);
    var globalErrorEstimate := SumSelected(errorEstimate, isGood);
    var isBad := Not(isGood);
    accepted := Select(ts, isGood);
    rounds := 0;
    FirstFollows(p, isGood, accepted);
    ghost var bound := totalArea;

    while Any(isBad)
      invariant isBad == Not(isGood)
      invariant RoundInvariant(p, ts, isGood, quadSum, globalErrorEstimate, accepted, bound, rounds)
      invariant minimum > 0.0 ==> rounds <= budget
      invariant minimum <= 0.0 ==> rounds == 0
      invariant minimumTriangleArea.None? ==> rounds < 10
      invariant Follows(p, ts, isGood, accepted, rounds)
      decreases budget - rounds
    {
      // split the bad triangles into four
      ghost var active, activeGood, activeBad, activeBound, activeRounds := ts, isGood, isBad, bound, rounds;
      ghost var next := rounds + 1;
      ts := Select(ts, isBad);
      ts := Split(ts);
      areas := Areas(ts);
      SelectSome(active, isBad);
      if !(forall j :: 0 <= j < |areas| ==> areas[j] > minimum) {
        FailedFollow(p, activeRounds, next, active, activeGood, isBad, accepted, ts, areas, minimum);
        Conclusion(f, dim, triangles, eps, minimumTriangleArea, scheme1, scheme2, p, accepted, rounds, false);
        return BelowMinimumArea, accepted, rounds;
      }
      bound := bound * 0.25;
      rounds := next;
      SplitRound(p, active, activeGood, activeBad, accepted, activeBound, activeRounds, ts, areas, minimum, bound, rounds);
      if minimumTriangleArea.None? {
        DefaultMinimumRounds(totalArea, rounds);
      }

      // compute values and error estimates for the new triangles
      val1 := IntegrateBatch(f, dim, ts, scheme1);
      val2 := IntegrateBatch(f, dim, ts, scheme2);
      errorEstimate := ErrorTable(val1, val2, |ts|);

      // mark good triangles, gather values and error estimates
      isGood := AllExceptLast(ToleranceTable(errorEstimate, areas, totalArea, eps), |ts|);
      ghost var previousQuadSum, previousErrorSum, previousAccepted := quadSum, globalErrorEstimate, accepted;
      quadSum := VecAdd(quadSum, SumSelected(val1, isGood));
      globalErrorEstimate := VecAdd(globalErrorEstimate, SumSelected(errorEstimate, isGood));
      isBad := Not(isGood);
      accepted := accepted + Select(ts, isGood);
      EvaluateRound(p, ts, previousQuadSum, previousErrorSum, previousAccepted, bound, rounds,
                    isGood, quadSum, globalErrorEstimate, accepted);
      FollowStep(p, activeRounds, next, active, activeGood, activeBad, previousAccepted, ts, areas, minimum,
                 isGood, accepted);
    }
    LastRound(p, ts, isGood, quadSum, globalErrorEstimate, accepted, bound, rounds);
    ErrorSumsNonNegative(f, dim, accepted, scheme1, scheme2);
    ConvergedFollow(p, ts, isGood, accepted, rounds);
    Conclusion(f, dim, triangles, eps, minimumTriangleArea, scheme1, scheme2, p, accepted, rounds, true);
    r := Converged(quadSum, globalErrorEstimate);
  }
}
