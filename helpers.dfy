/** The small helpers of `inference/helpers.py`: composing a list of
    functions, the conversions between relative `[-1, +1]` coordinates and
    image-grid coordinates (over reals), the shape check and cache of
    `identity_grid`, `crop`, the identity case of `downsample`/`upsample`, and
    the stopping rule of `invert` with the optimiser replaced by the sequence
    of costs it produces. */
module Helpers {
  import opened Wrappers
  import opened Slices
  import opened Arith

  // compose_functions

  /** `compose(f1, f2)`: f1 first, then f2. */
  function Then<T>(f1: T -> T, f2: T -> T): T -> T {
    x => f2(f1(x))
  }

  /** `reduce(compose, fseq, acc)`. */
  function Reduce<T>(fs: seq<T -> T>, acc: T -> T): T -> T {
    if fs == [] then acc else Reduce(fs[1..], Then(acc, fs[0]))
  }

  /** `compose_functions(fseq)`: the reduction from the identity. */
  function ComposeFunctions<T>(fs: seq<T -> T>): T -> T {
    Reduce(fs, x => x)
  }

  /** The functions of fs applied to x one after the other, first to last. */
  function ApplyInOrder<T>(fs: seq<T -> T>, x: T): T {
    if fs == [] then x else ApplyInOrder(fs[1..], fs[0](x))
  }

  lemma {:induction false} ReduceApplies<T>(fs: seq<T -> T>, acc: T -> T, x: T)
    decreases |fs|
    ensures Reduce(fs, acc)(x) == ApplyInOrder(fs, acc(x))
  {
    if fs != [] {
      ReduceApplies(fs[1..], Then(acc, fs[0]), x);
    }
  }

  /** `compose_functions([f1, ..., fn])(x) == fn(...f1(x))`; the empty list
      gives the identity, and a list of one function is that function. */
  lemma ComposeFunctionsApplies<T>(fs: seq<T -> T>, x: T)
    ensures ComposeFunctions(fs)(x) == ApplyInOrder(fs, x)
    ensures fs == [] ==> ComposeFunctions(fs)(x) == x
    ensures |fs| == 1 ==> ComposeFunctions(fs)(x) == fs[0](x)
  {
    ReduceApplies(fs, x => x, x);
  }

  /** Composing a concatenation applies the first list and then the second. */
  lemma {:induction false} ApplyConcat<T>(fs: seq<T -> T>, gs: seq<T -> T>, x: T)
    decreases |fs|
    ensures ApplyInOrder(fs + gs, x) == ApplyInOrder(gs, ApplyInOrder(fs, x))
  {
    if fs == [] {
      assert fs + gs == gs;
    } else {
      assert (fs + gs)[1..] == fs[1..] + gs;
      ApplyConcat(fs[1..], gs, fs[0](x));
    }
  }

  // Coordinate conversions

  /** `rel_to_grid_px(u, N) = N * (u + 1) / 2 - 0.5`. */
  function RelToGridPx(u: real, n: real): real {
    n * (u + 1.0) / 2.0 - 0.5
  }

  /** `grid_to_rel_px(v, N) = 2 * (v + 0.5) / N - 1`; N is a tensor dimension,
      positive whenever there is a value to convert. */
  function GridToRelPx(v: real, n: real): real
    requires n > 0.0
  {
    2.0 * (v + 0.5) / n - 1.0
  }

  /** The two conversions are inverse to each other, and the corners -1 and
      +1 of the relative convention are the outer edges -0.5 and N - 0.5 of
      the border pixels. */
  lemma PixelConversions(u: real, v: real, n: real)
    requires n > 0.0
    ensures GridToRelPx(RelToGridPx(u, n), n) == u
    ensures RelToGridPx(GridToRelPx(v, n), n) == v
    ensures RelToGridPx(-1.0, n) == -0.5 && RelToGridPx(1.0, n) == n - 0.5
  {
    var g := RelToGridPx(u, n);
    assert 2.0 * (g + 0.5) == n * (u + 1.0);
    DivCancel(u + 1.0, n);
    var r := GridToRelPx(v, n);
    assert r + 1.0 == 2.0 * (v + 0.5) / n;
    MulDiv(2.0 * (v + 0.5), n);
  }

  lemma DivCancel(a: real, n: real)
    requires n != 0.0
    ensures n * a / n == a
  {
  }

  lemma MulDiv(a: real, n: real)
    requires n != 0.0
    ensures n * (a / n) == a
  {
  }

  /** A vector of a field `1 x X x Y x 2`: channel 0 and channel 1. */
  datatype Vec = Vec(c0: real, c1: real)

  /** A field is X rows of Y vectors each. */
  ghost predicate Rectangular(f: seq<seq<Vec>>) {
    forall i :: 0 <= i < |f| ==> |f[i]| == |f[0]|
  }

  function MapField(f: seq<seq<Vec>>, g: Vec -> Vec): (r: seq<seq<Vec>>)
    ensures |r| == |f|
    ensures forall i :: 0 <= i < |f| ==> |r[i]| == |f[i]| && forall j :: 0 <= j < |f[i]| ==> r[i][j] == g(f[i][j])
  {
    seq(|f|, i requires 0 <= i < |f| => seq(|f[i]|, j requires 0 <= j < |f[i]| => g(f[i][j])))
  }

  /** `rel_to_grid(U)` on a copy of U: channel 0 with `N = shape[1]`, channel 1
      with `M = shape[2]`. */
  function RelToGrid(f: seq<seq<Vec>>): seq<seq<Vec>>
    requires Rectangular(f)
  {
    if f == [] then [] else
      var n, m := |f| as real, |f[0]| as real;
      MapField(f, (v: Vec) => Vec(RelToGridPx(v.c0, n), RelToGridPx(v.c1, m)))
  }

  /** `grid_to_rel(U)` on a copy of U. */
  function GridToRel(f: seq<seq<Vec>>): seq<seq<Vec>>
    requires Rectangular(f)
  {
    if f == [] || f[0] == [] then f else
      var n, m := |f| as real, |f[0]| as real;
      MapField(f, (v: Vec) => Vec(GridToRelPx(v.c0, n), GridToRelPx(v.c1, m)))
  }

  /** Converting a field to grid coordinates and back gives the field again,
      and the same the other way round. */
  lemma FieldConversions(f: seq<seq<Vec>>)
    requires Rectangular(f)
    ensures Rectangular(RelToGrid(f)) && GridToRel(RelToGrid(f)) == f
    ensures Rectangular(GridToRel(f)) && RelToGrid(GridToRel(f)) == f
  {
    if f != [] && f[0] != [] {
      var n, m := |f| as real, |f[0]| as real;
      var g := RelToGrid(f);
      var back := GridToRel(g);
      forall i, j | 0 <= i < |f| && 0 <= j < |f[i]| ensures back[i][j] == f[i][j] {
        PixelConversions(f[i][j].c0, f[i][j].c0, n);
        PixelConversions(f[i][j].c1, f[i][j].c1, m);
      }
      assert forall i :: 0 <= i < |f| ==> back[i] == f[i];
      var h := GridToRel(f);
      var fwd := RelToGrid(h);
      forall i, j | 0 <= i < |f| && 0 <= j < |f[i]| ensures fwd[i][j] == f[i][j] {
        PixelConversions(f[i][j].c0, f[i][j].c0, n);
        PixelConversions(f[i][j].c1, f[i][j].c1, m);
      }
      assert forall i :: 0 <= i < |f| ==> fwd[i] == f[i];
    } else if f != [] {
      assert forall i :: 0 <= i < |f| ==> RelToGrid(f)[i] == [] == f[i];
    }
  }

  // identity_grid

  /** The `size` argument of `identity_grid`: an int, or a `torch.Size`. */
  datatype SizeArg = Side(n: int) | Shape(dims: seq<int>)

  datatype GridError = ValueError | IndexError

  /** The side of the square grid `size` asks for: an int as it is; a size
      `(N, C, H, W)` of a square image, or `(N, H, W, 2)` of a square field,
      gives `H`; any other size is a `ValueError`, and one with fewer than four
      entries fails on the indexing. */
  function GridSide(size: SizeArg): (r: Result<int, GridError>)
    ensures size.Side? ==> r == Ok(size.n)
    ensures size.Shape? && |size.dims| >= 4 ==>
      var d := size.dims;
      (r.Ok? <==> d[2] == d[3] || (d[3] == 2 && d[1] == d[2])) && (r.Ok? ==> r.value == d[2])
    ensures size.Shape? && |size.dims| < 4 ==> r == Err(IndexError)
  {
    match size
    case Side(n) => Ok(n)
    case Shape(d) =>
      if |d| < 4 then Err(IndexError)
      else if d[2] == d[3] || (d[3] == 2 && d[1] == d[2]) then Ok(d[2])
      else Err(ValueError)
  }

  /** The module-level cache `identity_grid._identities`, keyed by side. The
      grid itself is made by `make`, which stands for `_create_identity_grid`. */
  class IdentityCache<G> {
    var identities: map<int, G>

    constructor ()
      ensures identities == map[]
    {
      identities := map[];
    }

    /** `identity_grid(size, cache)`: a cached grid is returned as it is;
        otherwise a new one is made, and kept only when `cache` is set. */
    method IdentityGrid(size: SizeArg, cache: bool, make: int -> G) returns (r: Result<G, GridError>)
      modifies this
      ensures var side := GridSide(size);
        && (r.Err? <==> side.Err?)
        && (side.Err? ==> r.error == side.error && identities == old(identities))
        && (side.Ok? && side.value in old(identities) ==>
              r.value == old(identities)[side.value] && identities == old(identities))
        && (side.Ok? && side.value !in old(identities) ==>
              r.value == make(side.value)
              && identities == if cache then old(identities)[side.value := r.value] else old(identities))
    {
      var side := GridSide(size);
      if side.Err? {
        return Err(side.error);
      }
      if side.value in identities {
        return Ok(identities[side.value]);
      }
      var grid := make(side.value);
      if cache {
        identities := identities[side.value := grid];
      }
      return Ok(grid);
    }
  }

  // crop, downsample, upsample

  /** `crop(data_2d, c) = data_2d[c:-c, c:-c]`. */
  function Crop<T>(d: seq<seq<T>>, c: int): seq<seq<T>> {
    var rows := Slice(d, c, -c);
    seq(|rows|, i requires 0 <= i < |rows| => Slice(rows[i], c, -c))
  }

  /** For `c >= 1` within the array, the crop keeps rows and columns
      `[c, len - c)`; for `c == 0` the slice `[0:-0]` is empty, so nothing is
      kept. */
  lemma CropWindow<T>(d: seq<seq<T>>, c: int)
    requires Rectangular2(d)
    ensures c == 0 ==> Crop(d, c) == []
    ensures 1 <= c && 2 * c <= |d| && (d != [] ==> 2 * c <= |d[0]|) ==>
      var r := Crop(d, c);
      && |r| == |d| - 2 * c
      && forall i :: 0 <= i < |r| ==> r[i] == d[i + c][c..|d[i + c]| - c]
  {
    if 1 <= c && 2 * c <= |d| && (d != [] ==> 2 * c <= |d[0]|) {
      var rows := Slice(d, c, -c);
      assert rows == d[c..|d| - c];
    }
  }

  ghost predicate Rectangular2<T>(d: seq<seq<T>>) {
    forall i :: 0 <= i < |d| ==> |d[i]| == |d[0]|
  }

  /** What `downsample(x)` and `upsample(x)` return: the identity, or a
      pooling or interpolation layer by a factor. */
  datatype Resampler = Identity | AvgPool(factor: nat) | Upsample(factor: nat)

  /** `downsample(x)`: average pooling by `2**x` for positive x, else the
      identity. */
  function Downsample(x: int): (r: Resampler)
    ensures x <= 0 <==> r == Identity
    ensures x > 0 ==> r == AvgPool(Pow2(x)) && r.factor >= 2
  {
    if x > 0 then AvgPool(Pow2(x)) else Identity
  }

  /** `upsample(x)`: bilinear interpolation by `2**x` for positive x, else the
      identity. */
  function UpsampleBy(x: int): (r: Resampler)
    ensures x <= 0 <==> r == Identity
    ensures x > 0 ==> r == Upsample(Pow2(x)) && r.factor >= 2
  {
    if x > 0 then Upsample(Pow2(x)) else Identity
  }

  // invert

  /** `tensor_approx_eq(A, B, eta)`: every entry differs by less than eta. */
  predicate ApproxEq(a: seq<real>, b: seq<real>, eta: real)
    requires |a| == |b|
  {
    forall i :: 0 <= i < |a| ==> RealAbs(a[i] - b[i]) < eta
  }

  function RealAbs(x: real): real {
    if x < 0.0 then -x else x
  }

  function Negate(u: seq<real>): (r: seq<real>)
    ensures |r| == |u| && forall i :: 0 <= i < |u| ==> r[i] == -u[i]
  {
    seq(|u|, i requires 0 <= i < |u| => -u[i])
  }

  /** `invert` returns `-U` at once exactly when every entry of `2U` is below
      `1e-7` in size. */
  lemma ImmediateReturn(u: seq<real>)
    ensures ApproxEq(u, Negate(u), 0.0000001) <==> forall i :: 0 <= i < |u| ==> RealAbs(2.0 * u[i]) < 0.0000001
  {
    assert forall i :: 0 <= i < |u| ==> u[i] - Negate(u)[i] == 2.0 * u[i];
  }

  /** The cost the optimiser reports at a step: a number, or NaN. */
  datatype Cost = NaN | Finite(value: real)

  datatype InvertError = AssertionError | AttributeError | ZeroDivisionError | CostIndexError

  function RealOf(c: Cost): real {
    if c.Finite? then c.value else 0.0
  }

  /** The list `costs` after steps 0 to n - 1. */
  function Costs(cost: nat -> Cost, n: nat): (r: seq<real>)
    ensures |r| == n && forall i :: 0 <= i < n ==> r[i] == RealOf(cost(i))
  {
    if n == 0 then [] else Costs(cost, n - 1) + [RealOf(cost(n - 1))]
  }

  function Sum(s: seq<real>): real {
    if s == [] then 0.0 else s[0] + Sum(s[1..])
  }

  /** The stopping test after a cost is appended: a cost of exactly 0, or,
      once more than `avgn + currn` costs exist, a relative change below eps
      between the mean of the `avgn` costs before the last `currn` and the
      mean of the last `currn`. Each window is summed with `sum(...).item()`:
      the sum of an empty window is the integer 0, which has no `item`, so an
      empty window fails with AttributeError before its division; dividing by
      a zero window size or a zero history mean fails with ZeroDivisionError.
      The history window is computed, and divided, before the current one. */
  function StopTest(costs: seq<real>, currn: int, avgn: int, eps: real): (r: Result<bool, InvertError>)
    requires costs != []
    ensures costs[|costs| - 1] == 0.0 ==> r == Ok(true)
    ensures costs[|costs| - 1] != 0.0 && |costs| <= avgn + currn ==> r == Ok(false)
    ensures r.Err? ==> costs[|costs| - 1] != 0.0 && |costs| > avgn + currn
    ensures r.Err? ==> r.error == AttributeError || r.error == ZeroDivisionError
  {
    if costs[|costs| - 1] == 0.0 then Ok(true)
    else if |costs| > avgn + currn then
      var histWin := Slice(costs, -(avgn + currn), -currn);
      if histWin == [] then Err(AttributeError)
      else if avgn == 0 then Err(ZeroDivisionError)
      else
        var currWin := Slice(costs, -currn, |costs|);
        if currWin == [] then Err(AttributeError)
        else if currn == 0 then Err(ZeroDivisionError)
        else
          var hist := Sum(histWin) / avgn as real;
          var curr := Sum(currWin) / currn as real;
          if hist == 0.0 then Err(ZeroDivisionError)
          else Ok(RealAbs((hist - curr) / hist) < eps)
    else Ok(false)
  }

  /** With positive window sizes the two windows are the `avgn` costs before
      the last `currn`, and the last `currn`. */
  lemma StopWindows(costs: seq<real>, currn: int, avgn: int)
    requires 1 <= currn && 1 <= avgn && |costs| > avgn + currn
    ensures Slice(costs, -(avgn + currn), -currn) == costs[|costs| - avgn - currn..|costs| - currn]
    ensures Slice(costs, -currn, |costs|) == costs[|costs| - currn..]
    ensures |costs[|costs| - avgn - currn..|costs| - currn]| == avgn
  {
  }

  /** With positive window sizes (the defaults are 5 and 20) nothing is empty:
      the test fails only on a zero history mean, and otherwise compares the
      relative change of the two means with eps. */
  lemma StopTestPositive(costs: seq<real>, currn: int, avgn: int, eps: real)
    requires 1 <= currn && 1 <= avgn && costs != []
    ensures StopTest(costs, currn, avgn, eps) != Err(AttributeError)
    ensures costs[|costs| - 1] == 0.0 || |costs| <= avgn + currn ==> StopTest(costs, currn, avgn, eps).Ok?
    ensures costs[|costs| - 1] != 0.0 && |costs| > avgn + currn ==>
      var r := StopTest(costs, currn, avgn, eps);
      var hist := Sum(costs[|costs| - avgn - currn..|costs| - currn]) / avgn as real;
      var curr := Sum(costs[|costs| - currn..]) / currn as real;
      && (r.Err? <==> hist == 0.0)
      && (r.Ok? ==> r.value == (RealAbs((hist - curr) / hist) < eps))
  {
    if |costs| > avgn + currn {
      StopWindows(costs, currn, avgn);
    }
  }

  /** A zero `currn` selects the empty history `costs[-avgn:0]`: once the
      test is reached it fails with AttributeError. */
  lemma StopTestZeroCurrent(costs: seq<real>, avgn: int, eps: real)
    requires costs != [] && costs[|costs| - 1] != 0.0 && |costs| > avgn
    ensures StopTest(costs, 0, avgn, eps) == Err(AttributeError)
  {
    assert Slice(costs, -avgn, 0) == [];
  }

  /** A negative `currn` can leave the current window empty over a non-empty
      history: with two costs, `avgn = 5` and `currn = -4`, the history is
      `costs[-1:4]` and the current window `costs[4:]` is empty. */
  lemma StopTestEmptyCurrent()
    ensures StopTest([1.0, 2.0], -4, 5, 0.5) == Err(AttributeError)
  {
    assert Slice([1.0, 2.0], -1, 4) == [2.0];
    assert Slice([1.0, 2.0], 4, 2) == [];
  }

  /** What step t of the loop ends with: the assert on the new cost fails, or
      the stopping test decides. */
  function StepOutcome(cost: nat -> Cost, t: nat, currn: int, avgn: int, eps: real): Result<bool, InvertError> {
    if cost(t).NaN? then Err(AssertionError) else StopTest(Costs(cost, t + 1), currn, avgn, eps)
  }

  /** Every step's outcome, as a function of the step. */
  function Outcomes(cost: nat -> Cost, currn: int, avgn: int, eps: real): nat -> Result<bool, InvertError> {
    (j: nat) => StepOutcome(cost, j, currn, avgn, eps)
  }

  /** The loop from step t on, given each step's outcome: the number of steps
      run when it stops, or the error. After a loop of no step at all, the
      final `costs[-1]` fails. */
  function RunFrom(outcome: nat -> Result<bool, InvertError>, t: nat, maxIter: int): (r: Result<nat, InvertError>)
    decreases maxIter - t
    ensures r.Ok? ==> 1 <= r.value && t <= r.value && (t < maxIter ==> r.value <= maxIter)
    ensures t == 0 && maxIter <= 0 ==> r == Err(CostIndexError)
  {
    if t >= maxIter then (if t == 0 then Err(CostIndexError) else Ok(t))
    else
      match outcome(t)
      case Err(e) => Err(e)
      case Ok(stop) => if stop then Ok(t + 1) else RunFrom(outcome, t + 1, maxIter)
  }

  /** `invert(U, ...)` reduced to the number of optimiser steps it runs:
      none when `-U` is already its inverse. */
  function InvertSteps(u: seq<real>, cost: nat -> Cost, maxIter: int, currn: int, avgn: int, eps: real): (r: Result<nat, InvertError>)
    ensures r == Ok(0) <==> ApproxEq(u, Negate(u), 0.0000001)
    ensures r.Ok? && r.value > 0 ==> r.value <= maxIter
    ensures !ApproxEq(u, Negate(u), 0.0000001) && maxIter <= 0 ==> r == Err(CostIndexError)
  {
    if ApproxEq(u, Negate(u), 0.0000001) then Ok(0) else RunFrom(Outcomes(cost, currn, avgn, eps), 0, maxIter)
  }

  /** The steps from t to m - 1 all go on. */
  ghost predicate GoesOn(outcome: nat -> Result<bool, InvertError>, t: nat, m: nat) {
    forall j :: t <= j < m ==> outcome(j) == Ok(false)
  }

  /** The steps from t go on up to step m, which fails with e. */
  ghost predicate FailsAt(outcome: nat -> Result<bool, InvertError>, t: nat, m: nat, e: InvertError) {
    GoesOn(outcome, t, m) && outcome(m) == Err(e)
  }

  /** The loop runs at most `max_iter` steps and stops at the first step whose
      test says so; it fails at the first step whose cost is NaN or whose test
      fails (an empty window or a division by zero), and only there. */
  lemma {:induction false} RunFromSound(outcome: nat -> Result<bool, InvertError>, t: nat, maxIter: int)
    requires t < maxIter
    decreases maxIter - t
    ensures var r := RunFrom(outcome, t, maxIter);
      && (r.Ok? ==>
            && t < r.value <= maxIter
            && GoesOn(outcome, t, r.value - 1)
            && outcome(r.value - 1).Ok?
            && (r.value < maxIter ==> outcome(r.value - 1) == Ok(true)))
      && (r.Err? ==> exists m :: t <= m < maxIter && FailsAt(outcome, t, m, r.error))
  {
    var o := outcome(t);
    if o.Err? {
      assert FailsAt(outcome, t, t, o.error);
    } else if !o.value && t + 1 < maxIter {
      RunFromSound(outcome, t + 1, maxIter);
      var r := RunFrom(outcome, t + 1, maxIter);
      if r.Err? {
        var m :| t + 1 <= m < maxIter && FailsAt(outcome, t + 1, m, r.error);
        assert FailsAt(outcome, t, m, r.error);
      }
    }
  }

  /** The optimisation loop of `invert`, run against the costs the optimiser
      reports. */
  method Invert(u: seq<real>, cost: nat -> Cost, maxIter: int, currn: int, avgn: int, eps: real)
    returns (r: Result<nat, InvertError>)
    ensures r == InvertSteps(u, cost, maxIter, currn, avgn, eps)
  {
    var v := Negate(u);
    if ApproxEq(u, v, 0.0000001) {
      return Ok(0);
    }
    var costs: seq<real> := [];
    var t := 0;
    while t < maxIter
      invariant 0 <= t && (maxIter > 0 ==> t <= maxIter)
      invariant costs == Costs(cost, t)
      invariant RunFrom(Outcomes(cost, currn, avgn, eps), 0, maxIter) == RunFrom(Outcomes(cost, currn, avgn, eps), t, maxIter)
      decreases maxIter - t
    {
      var c := cost(t);
      costs := costs + [RealOf(c)];
      if c.NaN? {
        return Err(AssertionError);
      }
      var stop := StopTest(costs, currn, avgn, eps);
      if stop.Err? {
        return Err(stop.error);
      }
      if stop.value {
        return Ok(t + 1);
      }
      t := t + 1;
    }
    if costs == [] {
      return Err(CostIndexError);
    }
    return Ok(t);
  }
}
