/** What a router believes about a model: a running mean and variance, one observation at a time. */
module ModelRouters {
  import opened Prelude

  /** Squared standard deviation after a single observation, and the squared floor of the standard deviation. */
  const FIRST_VARIANCE: real := 6.25
  const VARIANCE_FLOOR: real := 0.0001
  /** The largest number of observations for which the floor cannot matter. */
  const FLOOR_FREE: nat := 62500

  ghost function Sum(xs: seq<real>): real {
    if xs == [] then 0.0 else Sum(xs[..|xs| - 1]) + xs[|xs| - 1]
  }

  ghost function Square(x: real): real {
    x * x
  }

  /** Sum of the squared distances to `m`. */
  ghost function SquaredDistance(xs: seq<real>, m: real): real {
    if xs == [] then 0.0 else SquaredDistance(xs[..|xs| - 1], m) + Square(xs[|xs| - 1] - m)
  }

  ghost function Prod(x: real, y: real): real {
    x * y
  }

  lemma SquareNonNegative(x: real)
    ensures Square(x) >= 0.0
  {
  }

  lemma {:induction false} SquaredDistanceNonNegative(xs: seq<real>, m: real)
    ensures SquaredDistance(xs, m) >= 0.0
  {
    if xs != [] {
      SquaredDistanceNonNegative(xs[..|xs| - 1], m);
      SquareNonNegative(xs[|xs| - 1] - m);
    }
  }

  ghost function Scaled(n: nat, x: real): real {
    n as real * x
  }

  lemma ScaledNext(n: nat, x: real)
    ensures Scaled(n + 1, x) == Scaled(n, x) + x
  {
  }

  /** Sum of the products of `e` with the distances to `m`. */
  ghost function Cross(xs: seq<real>, m: real, e: real): real {
    if xs == [] then 0.0 else Cross(xs[..|xs| - 1], m, e) + Prod(e, xs[|xs| - 1] - m)
  }

  lemma ShiftOne(d: real, e: real)
    ensures Square(d - e) == Square(d) - 2.0 * Prod(e, d) + Square(e)
  {
  }

  /** Moving the reference point by `e` changes the sum of squares by a cross term and by `n` squares of `e`. */
  lemma {:induction false} ShiftAll(xs: seq<real>, m: real, next: real, e: real)
    requires next == m + e
    ensures SquaredDistance(xs, next) == SquaredDistance(xs, m) - 2.0 * Cross(xs, m, e) + Scaled(|xs|, Square(e))
  {
    if xs != [] {
      var init, x := xs[..|xs| - 1], xs[|xs| - 1];
      ShiftAll(init, m, next, e);
      ShiftOne(x - m, e);
      assert x - next == x - m - e;
      ScaledNext(|init|, Square(e));
    }
  }

  lemma Distribute(e: real, a: real, b: real)
    ensures Prod(e, a) + Prod(e, b) == Prod(e, a + b)
  {
  }

  lemma {:induction false} CrossSum(xs: seq<real>, m: real, e: real)
    ensures Cross(xs, m, e) == Prod(e, Sum(xs) - Scaled(|xs|, m))
  {
    if xs != [] {
      var init, x := xs[..|xs| - 1], xs[|xs| - 1];
      CrossSum(init, m, e);
      ScaledNext(|init|, m);
      Distribute(e, Sum(init) - Scaled(|init|, m), x - m);
    }
  }

  /** Around the average the distances cancel out. */
  lemma CrossVanishes(xs: seq<real>, mean: real, e: real)
    requires Scaled(|xs|, mean) == Sum(xs)
    ensures Cross(xs, mean, e) == 0.0
  {
    CrossSum(xs, mean, e);
  }

  /** The two products of Welford's update, written through the step `e` of the mean. */
  lemma WelfordProducts(n: nat, e: real)
    ensures Scaled(n, Square(e)) + Square(Scaled(n, e)) == Prod(Scaled(n + 1, e), Scaled(n, e))
  {
    var k := n as real;
    assert Square(k * e) == k * (k * (e * e));
    assert (k * e + e) * (k * e) == k * (k * (e * e)) + k * (e * e);
  }

  /** One update adds exactly `delta * delta2` to the sum of squared distances from the mean. */
  lemma WelfordStep(xs: seq<real>, mean: real, x: real, next: real)
    requires Scaled(|xs|, mean) == Sum(xs)
    requires x - mean == Scaled(|xs| + 1, next - mean)
    ensures SquaredDistance(xs + [x], next) == SquaredDistance(xs, mean) + Prod(x - mean, x - next)
  {
    var e, n := next - mean, |xs|;
    ShiftAll(xs, mean, next, e);
    CrossVanishes(xs, mean, e);
    ScaledNext(n, e);
    assert x - next == Scaled(n, e);
    WelfordProducts(n, e);
    assert (xs + [x])[..n] == xs;
  }

  lemma MeanStep(xs: seq<real>, mean: real, x: real, next: real)
    requires Scaled(|xs|, mean) == Sum(xs) && x - mean == Scaled(|xs| + 1, next - mean)
    ensures Scaled(|xs| + 1, next) == Sum(xs + [x])
  {
    assert (xs + [x])[..|xs|] == xs;
    var k := |xs| as real;
    assert Scaled(|xs| + 1, next - mean) == (k + 1.0) * next - (k + 1.0) * mean;
  }

  lemma MeanStepBy(xs: seq<real>, mean: real, x: real, step: real)
    requires Scaled(|xs|, mean) == Sum(xs) && x - mean == Scaled(|xs| + 1, step)
    ensures Scaled(|xs| + 1, mean + step) == Sum(xs + [x])
  {
    assert mean + step - mean == step;
    MeanStep(xs, mean, x, mean + step);
  }

  /** The average lies between any bounds of the observations. */
  lemma {:induction false} SumBounds(xs: seq<real>, low: real, high: real)
    requires forall i :: 0 <= i < |xs| ==> low <= xs[i] <= high
    ensures Scaled(|xs|, low) <= Sum(xs) <= Scaled(|xs|, high)
  {
    if xs != [] {
      SumBounds(xs[..|xs| - 1], low, high);
      ScaledNext(|xs| - 1, low);
      ScaledNext(|xs| - 1, high);
    }
  }

  lemma ScaledOrder(n: nat, x: real, y: real)
    requires n > 0
    ensures x <= y <==> Scaled(n, x) <= Scaled(n, y)
  {
  }

  lemma Quotient(n: nat, x: real)
    requires n > 0
    ensures Scaled(n, x / n as real) == x
  {
  }

  /** The belief's mean lies between the least and the greatest observation. */
  lemma MeanBetween(b: Belief, low: real, high: real)
    requires b.Valid() && b.samples > 0
    requires forall i :: 0 <= i < |b.observations| ==> low <= b.observations[i] <= high
    ensures low <= b.mean <= high
  {
    SumBounds(b.observations, low, high);
    ScaledOrder(b.samples, low, b.mean);
    ScaledOrder(b.samples, b.mean, high);
  }

  /** What the new mean and the new variance are, before the floor is applied. */
  lemma UpdateExact(xs: seq<real>, mean: real, variance: real, x: real, newMean: real, newVar: real)
    requires xs != [] && Scaled(|xs|, mean) == Sum(xs)
    requires Scaled(|xs|, variance) == FIRST_VARIANCE + SquaredDistance(xs, mean)
    requires newMean == mean + (x - mean) / (|xs| + 1) as real
    requires newVar == (Scaled(|xs|, variance) + Prod(x - mean, x - newMean)) / (|xs| + 1) as real
    ensures Scaled(|xs| + 1, newVar) == FIRST_VARIANCE + SquaredDistance(xs + [x], newMean)
  {
    Quotient(|xs| + 1, x - mean);
    Quotient(|xs| + 1, Scaled(|xs|, variance) + Prod(x - mean, x - newMean));
    assert newMean - mean == (x - mean) / (|xs| + 1) as real;
    WelfordStep(xs, mean, x, newMean);
  }

  lemma UpdateMean(xs: seq<real>, mean: real, x: real, newMean: real)
    requires Scaled(|xs|, mean) == Sum(xs) && newMean == mean + (x - mean) / (|xs| + 1) as real
    ensures Scaled(|xs| + 1, newMean) == Sum(xs + [x])
  {
    Quotient(|xs| + 1, x - mean);
    MeanStepBy(xs, mean, x, (x - mean) / (|xs| + 1) as real);
  }

  /** The floor cannot fire while it is at most the first variance spread over the samples. */
  lemma FloorFree(xs: seq<real>, mean: real)
    requires |xs| <= FLOOR_FREE
    ensures FIRST_VARIANCE + SquaredDistance(xs, mean) >= Scaled(|xs|, VARIANCE_FLOOR)
  {
    SquaredDistanceNonNegative(xs, mean);
  }

  lemma OneObservation(x: real)
    ensures Scaled(1, x) == Sum([x])
    ensures Scaled(1, FIRST_VARIANCE) == FIRST_VARIANCE + SquaredDistance([x], x)
  {
    assert [x][..0] == [];
  }

  /** A variance that is not below the floor stays what it is. */
  lemma Floored(xs: seq<real>, mean: real, newVar: real, exact: bool)
    requires xs != []
    requires exact ==> Scaled(|xs|, newVar) == FIRST_VARIANCE + SquaredDistance(xs, mean)
    ensures exact && FIRST_VARIANCE + SquaredDistance(xs, mean) >= Scaled(|xs|, VARIANCE_FLOOR) ==>
              Max(Max(newVar, 0.0), VARIANCE_FLOOR) == newVar
    ensures |xs| <= FLOOR_FREE ==> FIRST_VARIANCE + SquaredDistance(xs, mean) >= Scaled(|xs|, VARIANCE_FLOOR)
  {
    ScaledOrder(|xs|, VARIANCE_FLOOR, newVar);
    if |xs| <= FLOOR_FREE {
      FloorFree(xs, mean);
    }
  }

  lemma {:induction false} ConstantDistance(xs: seq<real>, m: real)
    requires forall i :: 0 <= i < |xs| ==> xs[i] == m
    ensures SquaredDistance(xs, m) == 0.0
  {
    if xs != [] {
      ConstantDistance(xs[..|xs| - 1], m);
    }
  }

  /** One more observation and the bound is lost: equal observations then fall below the floor. */
  lemma FloorFreeIsTight(xs: seq<real>, m: real)
    requires |xs| == FLOOR_FREE + 1 && forall i :: 0 <= i < |xs| ==> xs[i] == m
    ensures FIRST_VARIANCE + SquaredDistance(xs, m) < Scaled(|xs|, VARIANCE_FLOOR)
  {
    ConstantDistance(xs, m);
  }

  /** The sum of squared distances with the two products of one more observation added. */
  function WelfordSum(n: nat, variance: real, delta: real, delta2: real): (sum: real)
    ensures sum == Scaled(n, variance) + Prod(delta, delta2)
  {
    n as real * variance + delta * delta2
  }

  class Belief {
    var mean: real
    /** The square of the standard deviation, which is never negative. */
    var variance: real
    var samples: nat
    ghost var observations: seq<real>
    /** False once the floor has replaced a computed variance. */
    ghost var exact: bool

    ghost predicate Valid()
      reads this
    {
      && samples == |observations|
      && (samples == 0 ==> mean == 5.0 && variance == 25.0)
      && Scaled(samples, mean) == (if samples == 0 then 0.0 else Sum(observations))
      && (samples > 0 && exact ==> Scaled(samples, variance) == FIRST_VARIANCE + SquaredDistance(observations, mean))
      && (samples <= FLOOR_FREE ==> exact)
    }

    /** The computed variance is at least the floor. */
    ghost predicate AboveFloor()
      reads this
    {
      FIRST_VARIANCE + SquaredDistance(observations, mean) >= Scaled(samples, VARIANCE_FLOOR)
    }

    constructor Prior()
      ensures Valid() && observations == []
    {
      mean, variance, samples := 5.0, 25.0, 0;
      observations, exact := [], true;
    }

    method Update(observation: real)
      requires Valid()
      modifies this
      ensures Valid() && observations == old(observations) + [observation]
      ensures exact == (old(exact) && (old(samples) == 0 || AboveFloor()))
    {
      if samples == 0 {
        First(observation);
      } else {
        Further(observation);
      }
    }

    method First(observation: real)
      requires Valid() && samples == 0
      modifies this
      ensures Valid() && observations == old(observations) + [observation] && exact == old(exact)
    {
      mean, variance, samples := observation, FIRST_VARIANCE, 1;
      observations := [observation];
      OneObservation(observation);
    }

    method Further(observation: real)
      requires Valid() && samples > 0
      modifies this
      ensures Valid() && observations == old(observations) + [observation]
      ensures exact == (old(exact) && AboveFloor())
    {
      var newMean, newVar := Welford(observation);
      observations := observations + [observation];
      Floored(observations, newMean, newVar, exact);
      mean := newMean;
      variance := Max(Max(newVar, 0.0), VARIANCE_FLOOR);
      samples := samples + 1;
      exact := exact && AboveFloor();
    }

    /** The mean and variance after one more observation, before the floor is applied. */
    method Welford(observation: real) returns (newMean: real, newVar: real)
      requires Valid() && samples > 0
      ensures Scaled(samples + 1, newMean) == Sum(observations + [observation])
      ensures exact ==>
                Scaled(samples + 1, newVar) == FIRST_VARIANCE + SquaredDistance(observations + [observation], newMean)
    {
      var n := samples as real;
      newMean := mean + (observation - mean) / (n + 1.0);
      var delta, delta2 := observation - mean, observation - newMean;
      newVar := WelfordSum(samples, variance, delta, delta2) / (n + 1.0);
      UpdateMean(observations, mean, observation, newMean);
      if exact {
        UpdateExact(observations, mean, variance, observation, newMean, newVar);
      }
    }
  }

  class Router {
    /** Every registered model owns its belief. */
    var models: map<string, Belief>

    ghost predicate Valid()
      reads this, models.Values
    {
      && (forall id :: id in models ==> models[id].Valid())
      && (forall a, b :: a in models && b in models && a != b ==> models[a] != models[b])
    }

    constructor ()
      ensures Valid() && models == map[]
    {
      models := map[];
    }

    /** Updates the model's belief; an unknown model changes nothing, and no other belief changes. */
    method Learn(modelId: string, quality: real)
      requires Valid()
      modifies models.Values
      ensures Valid()
      ensures forall id :: id in models && id != modelId ==> unchanged(models[id])
      ensures modelId in models ==> models[modelId].observations == old(models[modelId].observations) + [quality]
    {
      if modelId in models {
        assert models[modelId] in models.Values;
        models[modelId].Update(quality);
      }
    }
  }
}
