# Adaptive integration over triangles

A Dafny model of the triangle tools in quadpy, from `quadpy/triangle/tools.py`:

- `_area`: the area of a triangle, computed from the dot products of its edges.
- `integrate`: a fixed quadrature scheme on the reference triangle is mapped onto a target triangle. The integrand is evaluated at the mapped points. The weighted values, each times the triangle's area, are summed.
- `_numpy_all_except`: a conjunction over every axis except the last.
- `adaptive_integrate`:
  1. Two schemes are applied to a batch of triangles.
  2. A triangle whose two estimates agree within `eps * area / total_area` in every component is accepted. Its estimate and error are added to two running sums.
  3. Every other triangle is split into its four "triforce" children: three corner triangles and the central triangle of the edge midpoints.
  4. The loop ends when nothing is rejected. The call fails when a child is not larger than the minimum triangle area.

The model uses exact real arithmetic. It has four modules:

- `Sums` (`sums.dfy`): exact summation, element-wise maps and numpy's boolean-mask selection.
- `Geometry` (`geometry.dfy`): points, triangles, `_area` and the triforce split.
- `Quadrature` (`quadrature.dfy`): `integrate`, single-triangle and batched.
- `Adaptive` (`adaptive.dfy`):
  - the acceptance test;
  - `_numpy_all_except`;
  - `adaptive_integrate` as a method with a `while` loop. The loop mirrors the source's loop statement by statement.

An integrand is a function from a component index and a point to a real. Batched results are component-major tables, as numpy lays them out: row `c` holds component `c` for every triangle.

What the method proves about a call to `adaptive_integrate`:

- When it converges, `quad_sum` is, per component, the sum of the first scheme's estimates over the accepted triangles.
- `global_error_estimate` is the sum of their error estimates.
- Every accepted triangle passed the acceptance test.
- The accepted triangles are exactly the leaves of a reference subdivision, defined apart from the loop: round k tests every triangle of its batch on its own, keeps the accepted ones as leaves and splits only the rejected ones into the next batch. A triangle accepted in one round is never tested or split again.
- The leaves so far and the still-rejected triangles of every round cover the input's total area exactly. On convergence the accepted areas add up to the total area.
- The call stops at the round where the reference subdivision stops. It converges when that round rejects nothing, and it returns `BelowMinimumArea` exactly when that round rejects something and a child of its split is not above the minimum. That round is unique.
- If every input triangle passes the test, no subdivision happens and the results are the sums over the input triangles.
- Termination is proved. With a positive minimum the number of rounds is bounded by `total_area / minimum`. With the default minimum (`total_area * 0.25**10`), at most nine subdivision rounds can succeed.

## Model

| member | source | states |
|---|---|---|
| Geometry.Area | quadpy/triangle/tools.py:53-64 | the area of a triangle is never negative |
| Geometry.AreaIsHalfRootOfRadicand | quadpy/triangle/tools.py:53-64 | the radicand of `_area` is non-negative, and the area is the non-negative number whose square is a quarter of it, i.e. `0.5 * sqrt(radicand)` |
| Geometry.RadicandIsGram | quadpy/triangle/tools.py:53-64 | the radicand equals the Gram determinant `(e0.e0)(e1.e1) - (e0.e1)^2` of two edges |
| Geometry.RadicandIsCrossSquared | quadpy/triangle/tools.py:53-64 | the radicand equals the squared cross product of two edges, so the area is half the parallelogram spanned by them |
| Geometry.RotateKeepsArea | quadpy/triangle/tools.py:54-63 | cyclically relabelling the vertices permutes the dot products and leaves the radicand and the area unchanged |
| Geometry.ReflectKeepsArea | quadpy/triangle/tools.py:54-63 | swapping two vertices negates the signed area and leaves the radicand and the area unchanged |
| Geometry.ChildQuarterArea | quadpy/triangle/tools.py:129-146 | each of the four triforce children has a quarter of its parent's area; the central child keeps the orientation, the corner children reverse it |
| Geometry.BlockArea | quadpy/triangle/tools.py:135-146 | the children with the same index, one per parent, carry a quarter of the parents' total area |
| Geometry.SplitKeepsArea | quadpy/triangle/tools.py:129-146 | splitting yields four children per parent whose areas add up to the parents' total area |
| Geometry.SplitLayout | quadpy/triangle/tools.py:135-145 | child k of parent j sits at position k * n + j of the split batch, matching the concatenation order of the source |
| Geometry.SplitShrinks | quadpy/triangle/tools.py:129-146 | if every parent's area is at most a bound, every child's area is at most a quarter of it |
| Quadrature.MapToTriangleCorners | quadpy/triangle/tools.py:68-72 | the reference corners (0,0), (1,0), (0,1) are mapped onto the triangle's three vertices |
| Quadrature.MapToTriangleAffine | quadpy/triangle/tools.py:68-72 | the barycentric map equals the affine map V0 + u (V1 - V0) + v (V2 - V0) |
| Quadrature.SumOfScaledTerms | quadpy/triangle/tools.py:74-76 | summing the area-scaled weighted values equals the area times the sum of the weighted values |
| Quadrature.IntegrateIsAreaTimesRule | quadpy/triangle/tools.py:67-76 | the single-triangle estimate is the triangle's area times the reference rule applied at the mapped points |
| Quadrature.WeightedValueOfConstant | quadpy/triangle/tools.py:74-76 | for a constant integrand the reference rule returns the constant times the sum of the weights |
| Quadrature.IntegrateConstant | quadpy/triangle/tools.py:67-76 | with weights summing to one, a constant k is integrated exactly to k times the area |
| Quadrature.IntegrateBatchIsAreaTimesRule | quadpy/triangle/tools.py:67-76 | every entry of the batched estimate is its triangle's area times the reference rule on that triangle |
| Adaptive.AllExceptLast | quadpy/triangle/tools.py:79-82 | entry j of the result holds iff entry j of every row holds (a conjunction over every axis but the last) |
| Adaptive.ErrorRows | quadpy/triangle/tools.py:105-107 | row c of the batched error table is the per-triangle error estimate of component c |
| Adaptive.Classification | quadpy/triangle/tools.py:105-114 | `is_good[j]` holds iff triangle j is within tolerance in every component |
| Adaptive.SelectedValues | quadpy/triangle/tools.py:117 | the masked sum of the first scheme's estimates is, per component, the sum over the selected triangles |
| Adaptive.SelectedErrors | quadpy/triangle/tools.py:118 | the masked sum of the error table is, per component, the sum of the selected triangles' errors |
| Adaptive.ValueSumsConcat | quadpy/triangle/tools.py:160 | the value sums over two lists of triangles add element-wise (the `+=` of the loop) |
| Adaptive.ErrorSumsConcat | quadpy/triangle/tools.py:161 | the error sums over two lists of triangles add element-wise |
| Adaptive.ErrorSumsNonNegative | quadpy/triangle/tools.py:107-118 | every accumulated error estimate is non-negative |
| Adaptive.TotalArea | quadpy/triangle/tools.py:99-100 | the total area is non-negative |
| Adaptive.TotalAreaBounds | quadpy/triangle/tools.py:99-100 | no triangle of the batch is larger than the total area |
| Adaptive.Quartered | quadpy/triangle/tools.py:103 | `a * 0.25**k` is positive and at most a for positive a, and zero for zero a |
| Adaptive.QuarteredBound | quadpy/triangle/tools.py:146-147 | `a * 0.25**k * (k + 1) <= a` |
| Adaptive.QuarteredDecreasing | quadpy/triangle/tools.py:146-147 | quartering strictly shrinks a positive area |
| Adaptive.RoundBudget | quadpy/triangle/tools.py:121-147 | if the bound after k rounds is still above a positive minimum, k is below `floor(total_area / minimum)` |
| Adaptive.RoundLimit | quadpy/triangle/tools.py:121-147 | a positive minimum gives a fixed bound on the number of rounds whose children can pass the area assertion |
| Adaptive.DefaultMinimumRounds | quadpy/triangle/tools.py:102-103 | with the default minimum, the bound after k rounds is above it iff k < 10 (for a positive total area) |
| Adaptive.Evaluation | quadpy/triangle/tools.py:105-118 | evaluating a batch classifies every triangle by the acceptance test, and the masked sums are the sums over the accepted triangles |
| Adaptive.FirstRound | quadpy/triangle/tools.py:94-120 | after the first evaluation the loop invariant holds: sums over the accepted triangles, accepted plus rejected area equal to the total area, every triangle bounded by the total area |
| Adaptive.SplitRound | quadpy/triangle/tools.py:129-147 | if every child passes the area assertion, the children are above the minimum, bounded by a quarter of the old bound, and with the accepted triangles still cover the total area |
| Adaptive.ChildrenShrunk | quadpy/triangle/tools.py:129-147 | children of bounded parents are bounded by a quarter of the bound, and that bound is above the minimum |
| Adaptive.ChildrenBounded | quadpy/triangle/tools.py:129-146 | children of parents bounded by a bound are bounded by a quarter of it |
| Adaptive.ChildAboveMinimum | quadpy/triangle/tools.py:146-147 | when every child passes the area assertion and all are bounded, the bound is above the minimum |
| Adaptive.ChildrenAboveMinimum | quadpy/triangle/tools.py:146-147 | the element-wise test `areas > minimum_triangle_area` holds for every child |
| Adaptive.EvaluateRound | quadpy/triangle/tools.py:149-162 | evaluating the children and adding the accepted ones to the running sums re-establishes the loop invariant |
| Adaptive.LastRound | quadpy/triangle/tools.py:121 | when nothing is rejected, the accepted triangles' areas add up to the total area |
| Adaptive.AdaptiveIntegrate | quadpy/triangle/tools.py:87-164 | on convergence both results have one entry per component, every error estimate is non-negative, and the two results are the sums, over the accepted triangles, of the first scheme's estimates and of the error estimates; the accepted triangles are exactly the leaves of the reference subdivision after the returned number of rounds, and every one passed the test and is an input triangle or above the minimum; the call stops at the reference subdivision's stopping round, converging iff that round rejects nothing and otherwise failing because a child is not above the minimum; if every input triangle passes, no round happens and the results are the sums over the input; the accepted areas add up to the total area; the number of rounds is bounded (below 10 with the default minimum) |
| Adaptive.GoodMaskIsVerdicts | quadpy/triangle/tools.py:105-114 | the batched `is_good` computation equals the acceptance test applied to each triangle on its own |
| Adaptive.ClassifiedVerdicts | quadpy/triangle/tools.py:111-114 | any mask that classifies each triangle by the acceptance test is the per-triangle verdict sequence |
| Adaptive.ActiveStep | quadpy/triangle/tools.py:129-145 | splitting the rejected triangles of the reference batch after k rounds gives the reference batch after k + 1 rounds |
| Adaptive.LeavesStep | quadpy/triangle/tools.py:154-161 | adding the triangles a round accepts to the leaves of the earlier rounds gives the leaves after that round |
| Adaptive.HistoryStep | quadpy/triangle/tools.py:121-147 | a round that rejects something and whose children all pass the area assertion extends the history by one round |
| Adaptive.FailedRound | quadpy/triangle/tools.py:121-147 | a round that rejects something and has a child not above the minimum is the round where the reference run fails, and the input batch had a rejected triangle |
| Adaptive.ChildBelowMinimum | quadpy/triangle/tools.py:146-147 | the failing element-wise test `areas > minimum_triangle_area` means some child is not above the minimum |
| Adaptive.FirstFollows | quadpy/triangle/tools.py:111-120 | after the first evaluation the loop's batch, mask and accepted triangles are the reference subdivision's after zero rounds |
| Adaptive.FollowStep | quadpy/triangle/tools.py:121-162 | a round that passes the area assertion keeps the loop's batch, mask and accepted triangles equal to the reference subdivision's one round later |
| Adaptive.FailedFollow | quadpy/triangle/tools.py:121-147 | a round that fails the area assertion ends with the accepted triangles equal to the reference leaves, the reference run failing at that round, and the input not accepted as a whole |
| Adaptive.ConvergedFollow | quadpy/triangle/tools.py:121 | a round that rejects nothing is the reference run's converging round, and if the whole input was accepted it is round zero with the input as the leaves |
| Adaptive.TerminationUnique | quadpy/triangle/tools.py:121-147 | the round at which the reference run stops, and whether it converges or fails, are determined by the inputs |
| Adaptive.LeavesPartition | quadpy/triangle/tools.py:117-162 | after every round, the leaves so far and the still-rejected triangles cover the input batch's area exactly |
| Adaptive.PartitionStep | quadpy/triangle/tools.py:129-162 | splitting the rejected triangles and accepting some children moves area between the leaves and the rejected triangles without changing the total |
| Adaptive.LeavesAccepted | quadpy/triangle/tools.py:117-118 | every leaf of the reference subdivision passed the acceptance test |
| Adaptive.SelectedAccepted | quadpy/triangle/tools.py:117-118 | every triangle the per-triangle verdicts select passes the acceptance test |
| Adaptive.AllAcceptedStart | quadpy/triangle/tools.py:117-121 | if every input triangle passes the test, the first round rejects nothing and its leaves are the whole input |
| Adaptive.ImmediateConvergence | quadpy/triangle/tools.py:117-121 | if every input triangle passes the test, no round of subdivision happened and the leaves are the input |
| Sums.SelectAll | quadpy/triangle/tools.py:117 | a mask with every entry true selects the whole sequence |
| Sums.SumConcat | quadpy/triangle/tools.py:160-161 | the sum of a concatenation is the sum of the sums |
| Sums.SumBoundsElement | quadpy/triangle/tools.py:99-100 | a sum of non-negative terms is non-negative and at least each term |
| Sums.SelectMap | quadpy/triangle/tools.py:117-118 | boolean-mask selection commutes with an element-wise map |
| Sums.SelectPartition | quadpy/triangle/tools.py:117-129 | what a mask selects and what its negation selects add up to the whole batch |
| Sums.SelectNone | quadpy/triangle/tools.py:121 | a mask with no true entry selects nothing |
| Sums.SelectSome | quadpy/triangle/tools.py:121-129 | a mask with a true entry selects something |

## Left out

- `show` (plotting with matplotlib) is not modelled: it is I/O.
- Floating point is not modelled. Arithmetic is exact over the reals, and `sqrt` is characterised by its square (`Geometry.AreaIsHalfRootOfRadicand`). Rounding error and overflow are outside the model.
- The compensated summation `kahan_sum` is modelled as an exact sum. `helpers.py` is not part of this model.
- The scheme catalogue (`Dunavant`, `Centroid`, the default `Dunavant(5)` and `Dunavant(10)`) is not modelled. A scheme is a sequence of reference points with weights, passed by the caller.
- Integrand values are reals indexed by a component number. Integrands returning arrays of higher rank are modelled as one flat component axis, and numpy's broadcasting rules are not modelled.
- `_numpy_all_except` is modelled for `axis=-1` on a two-axis table, the only way the core calls it.
- Points are 2-D. Triangles given in other array layouts or dimensions are outside the model.
- The failing `assert all(areas > minimum_triangle_area)` is modelled as the `BelowMinimumArea` outcome rather than as an exception.
- When the total area is zero, `eps * area / total_area` is NaN in numpy and every comparison with it is false. The model states that directly in `WithinTolerance`. Other NaN or infinity values are not modelled.
- AdaptiveIntegrate: requires an explicit `minimum_triangle_area` to be positive. With an explicit minimum of zero or below, the source's area assertion can never fail on a non-degenerate triangle, and a non-converging integrand subdivides forever. The default minimum (`None`) is modelled in full.
- AdaptiveIntegrate: its ghost outputs (the accepted triangles and the number of rounds) are not outputs of the source. They name what the results are sums over.
- AdaptiveIntegrate: does not state what a call returns for a particular integrand, such as a constant integrand being integrated exactly. That follows per triangle from `Quadrature.IntegrateConstant`, but it is not carried through the loop.
