/**
  `GET /api/measurements/metrics?field=`: the mean, minimum, maximum and
  population variance (divide by N) of one field over every stored record,
  whatever date range the dashboard shows. The standard deviation the route
  reports is the square root of this variance.
*/
module Metrics {
  import opened Wrappers
  import Measurements

  datatype MetricsError =
    | InvalidField      // 400 'Invalid or missing field name (field1, field2, field3)'
    | NoDataAvailable   // 404 'No data available to calculate metrics'

  datatype Stats = Stats(average: real, min: real, max: real, variance: real)

  /** The values of field `f`, one per stored record, in store order. */
  function Values(store: seq<Measurements.Measurement>, f: Measurements.Field): (xs: seq<real>)
    ensures |xs| == |store|
    ensures forall i :: 0 <= i < |store| ==> xs[i] == Measurements.Value(store[i], f)
  {
    seq(|store|, i requires 0 <= i < |store| => Measurements.Value(store[i], f))
  }

  function Sum(xs: seq<real>): real {
    if xs == [] then 0.0 else xs[0] + Sum(xs[1..])
  }

  function Min(xs: seq<real>): (r: real)
    requires xs != []
    ensures r in xs
    ensures forall i :: 0 <= i < |xs| ==> r <= xs[i]
  {
    if |xs| == 1 then xs[0]
    else
      var rest := Min(xs[1..]);
      assert forall i :: 1 <= i < |xs| ==> xs[i] == xs[1..][i - 1];
      if xs[0] <= rest then xs[0] else rest
  }

  function Max(xs: seq<real>): (r: real)
    requires xs != []
    ensures r in xs
    ensures forall i :: 0 <= i < |xs| ==> xs[i] <= r
  {
    if |xs| == 1 then xs[0]
    else
      var rest := Max(xs[1..]);
      assert forall i :: 1 <= i < |xs| ==> xs[i] == xs[1..][i - 1];
      if rest <= xs[0] then xs[0] else rest
  }

  /** The sum of squared deviations from `mean`. */
  function SquaredDeviations(xs: seq<real>, mean: real): (r: real)
    ensures 0.0 <= r
  {
    if xs == [] then 0.0 else Square(xs[0] - mean) + SquaredDeviations(xs[1..], mean)
  }

  function Square(d: real): (r: real)
    ensures 0.0 <= r
  {
    d * d
  }

  /** Values that all lie in `[lo, hi]` sum to between `N * lo` and `N * hi`. */
  lemma {:induction false} SumBounds(xs: seq<real>, lo: real, hi: real)
    requires forall i :: 0 <= i < |xs| ==> lo <= xs[i] <= hi
    ensures (|xs| as real) * lo <= Sum(xs) <= (|xs| as real) * hi
  {
    if xs != [] {
      SumBounds(xs[1..], lo, hi);
      assert (|xs| as real) * lo == lo + ((|xs| - 1) as real) * lo;
      assert (|xs| as real) * hi == hi + ((|xs| - 1) as real) * hi;
    }
  }

  /** A total between `n * lo` and `n * hi`, divided by `n`, lies between `lo` and `hi`. */
  lemma QuotientBounds(total: real, n: real, lo: real, hi: real)
    requires 0.0 < n && n * lo <= total <= n * hi
    ensures (total / n) * n == total && lo <= total / n <= hi
  {
    var q := total / n;
    assert q * n == total;
    assert (q - lo) * n >= 0.0 && (hi - q) * n >= 0.0;
  }

  /** The arithmetic mean. */
  function Mean(xs: seq<real>): real
    requires xs != []
  {
    Sum(xs) / (|xs| as real)
  }

  /** The mean of values in `[lo, hi]` is in `[lo, hi]`, and `N` times the mean is the sum. */
  lemma MeanBounds(xs: seq<real>, lo: real, hi: real)
    requires xs != []
    requires forall i :: 0 <= i < |xs| ==> lo <= xs[i] <= hi
    ensures Mean(xs) * (|xs| as real) == Sum(xs) && lo <= Mean(xs) <= hi
  {
    SumBounds(xs, lo, hi);
    QuotientBounds(Sum(xs), |xs| as real, lo, hi);
  }

  /** Dividing a non-negative total by a positive count. */
  lemma DivisionByCount(a: real, n: real)
    requires 0.0 <= a && 0.0 < n
    ensures (a / n) * n == a && 0.0 <= a / n
  {
  }

  /** What the four statistics mean for a non-empty list of values. */
  predicate Describes(st: Stats, xs: seq<real>) {
    var n := |xs| as real;
    && n > 0.0
    && st.average == Sum(xs) / n
    && st.min in xs && (forall i :: 0 <= i < |xs| ==> st.min <= xs[i])
    && st.max in xs && (forall i :: 0 <= i < |xs| ==> xs[i] <= st.max)
    && st.min <= st.average <= st.max
    && st.variance == SquaredDeviations(xs, st.average) / n
    && 0.0 <= st.variance
  }

  /** The population variance: the mean squared deviation from the mean (divide by `N`, not `N - 1`). */
  function Variance(xs: seq<real>): real
    requires xs != []
  {
    SquaredDeviations(xs, Mean(xs)) / (|xs| as real)
  }

  /** Mean, minimum, maximum and population variance of a non-empty list. */
  function Summarize(xs: seq<real>): (st: Stats)
    requires xs != []
    ensures Describes(st, xs)
  {
    MeanBounds(xs, Min(xs), Max(xs));
    DivisionByCount(SquaredDeviations(xs, Mean(xs)), |xs| as real);
    Stats(Mean(xs), Min(xs), Max(xs), Variance(xs))
  }

  /**
    The aggregation over all stored records: 400 for a bad field, 404 for an
    empty store, otherwise the four statistics of the field's values.
  */
  function Metrics(store: seq<Measurements.Measurement>, field: Option<string>): (r: Result<Stats, MetricsError>)
    ensures Measurements.ParseField(field).None? ==> r == Err(InvalidField)
    ensures Measurements.ParseField(field).Some? ==> (r == Err(NoDataAvailable) <==> store == [])
    ensures Measurements.ParseField(field).Some? && store != [] ==> r.Ok?
    ensures r.Ok? ==> Describes(r.value, Values(store, Measurements.ParseField(field).value))
  {
    match Measurements.ParseField(field)
    case None => Err(InvalidField)
    case Some(f) =>
      if store == [] then Err(NoDataAvailable)
      else Ok(Summarize(Values(store, f)))
  }

  /** When every value is the same, the mean, minimum and maximum are that value and the spread is zero. */
  lemma {:induction false} ConstantValuesHaveNoSpread(xs: seq<real>, c: real)
    requires forall i :: 0 <= i < |xs| ==> xs[i] == c
    ensures SquaredDeviations(xs, c) == 0.0
    ensures Sum(xs) == (|xs| as real) * c
  {
    SumBounds(xs, c, c);
    if xs != [] {
      ConstantValuesHaveNoSpread(xs[1..], c);
    }
  }

  /** The population form on 10, 20, 30: mean 20, variance 200/3 (standard deviation about 8.16). */
  lemma PopulationExample()
    ensures var store := [Measurements.Measurement(0, 10.0, 0.0, 0.0),
                          Measurements.Measurement(1, 20.0, 0.0, 0.0),
                          Measurements.Measurement(2, 30.0, 0.0, 0.0)];
            Metrics(store, Some("field1")) == Ok(Stats(20.0, 10.0, 30.0, 200.0 / 3.0))
  {
    var store := [Measurements.Measurement(0, 10.0, 0.0, 0.0),
                  Measurements.Measurement(1, 20.0, 0.0, 0.0),
                  Measurements.Measurement(2, 30.0, 0.0, 0.0)];
    var xs := Values(store, Measurements.Field1);
    assert xs == [10.0, 20.0, 30.0];
    assert xs[1..] == [20.0, 30.0] && xs[1..][1..] == [30.0] && xs[1..][1..][1..] == [];
    assert Sum(xs[1..][1..]) == 30.0;
    assert Sum(xs[1..]) == 50.0;
    assert Sum(xs) == 60.0;
    assert Min(xs) == 10.0;
    assert Max(xs) == 30.0;
    assert SquaredDeviations(xs[1..][1..], 20.0) == 100.0;
    assert SquaredDeviations(xs[1..], 20.0) == 100.0;
    assert SquaredDeviations(xs, 20.0) == 200.0;
  }
}
