/**
  The seed script: delete every stored measurement, generate one record per
  day for the 31 days ending today (each at that day's midnight, with random
  whole-number field values), and insert them. `Math.random` is the list of
  values it returns, in call order: three per day, for field1, field2 and
  field3.
*/
module Seed {
  import Dates
  import Measurements
  import Metrics
  import Store
  import opened Wrappers

  /** Number of days generated: today and the 30 days before it. */
  const Days: nat := 31

  /** A value `Math.random` can return. */
  predicate IsRandom(r: real) {
    0.0 <= r < 1.0
  }

  /** `Math.floor(r * n) + base`: a whole number from `base` to `base + n - 1`. */
  function Draw(r: real, n: nat, base: int): (v: int)
    requires IsRandom(r) && n > 0
    ensures base <= v <= base + n - 1
  {
    var x := r * n as real;
    ScaledBelow(r, n as real);
    var k := x.Floor;
    assert k as real <= x < k as real + 1.0;
    k + base
  }

  /** A random value scaled by a positive `m` lies in `[0, m)`. */
  lemma ScaledBelow(r: real, m: real)
    requires IsRandom(r) && 0.0 < m
    ensures 0.0 <= r * m < m
  {
    var gap := (1.0 - r) * m;
    assert gap > 0.0;
    assert m - r * m == gap;
  }

  /** A whole number between `lo` and `hi`. */
  predicate WholeBetween(x: real, lo: int, hi: int) {
    x == x.Floor as real && lo as real <= x <= hi as real
  }

  /** The shape of a seeded store: 31 midnights ending today, fields within their draw ranges. */
  predicate WellSeeded(ms: seq<Measurements.Measurement>, today: int) {
    && |ms| == Days
    && (forall k :: 0 <= k < |ms| ==> ms[k].timestamp == Dates.Midnight(today - (Days - 1) + k))
    && (forall k :: 0 <= k < |ms| ==> WholeBetween(ms[k].field1, 50, 149))
    && (forall k :: 0 <= k < |ms| ==> WholeBetween(ms[k].field2, 100, 299))
    && (forall k :: 0 <= k < |ms| ==> WholeBetween(ms[k].field3, 10, 59))
  }

  /** Record `k` holds the draws `3k`, `3k + 1` and `3k + 2` of `Math.random`, scaled and shifted. */
  predicate DrawnFrom(ms: seq<Measurements.Measurement>, randoms: seq<real>)
    requires |randoms| == 3 * |ms|
    requires forall j :: 0 <= j < |randoms| ==> IsRandom(randoms[j])
  {
    forall k :: 0 <= k < |ms| ==>
      && ms[k].field1 == Draw(randoms[3 * k], 100, 50) as real
      && ms[k].field2 == Draw(randoms[3 * k + 1], 200, 100) as real
      && ms[k].field3 == Draw(randoms[3 * k + 2], 50, 10) as real
  }

  /**
    The generation loop, `i` from 30 down to 0: the record for `today - i` is
    pushed with three fresh draws.
  */
  method GenerateMeasurements(today: int, randoms: seq<real>) returns (ms: seq<Measurements.Measurement>)
    requires |randoms| == 3 * Days
    requires forall j :: 0 <= j < |randoms| ==> IsRandom(randoms[j])
    ensures WellSeeded(ms, today) && DrawnFrom(ms, randoms)
  {
    ms := [];
    var next := 0;  // index of the next value of Math.random
    var i := 30;
    while i >= 0
      invariant -1 <= i <= 30
      invariant |ms| == 30 - i && next == 3 * |ms|
      invariant forall k :: 0 <= k < |ms| ==> ms[k].timestamp == Dates.Midnight(today - (Days - 1) + k)
      invariant forall k :: 0 <= k < |ms| ==>
                  && ms[k].field1 == Draw(randoms[3 * k], 100, 50) as real
                  && ms[k].field2 == Draw(randoms[3 * k + 1], 200, 100) as real
                  && ms[k].field3 == Draw(randoms[3 * k + 2], 50, 10) as real
      invariant forall k :: 0 <= k < |ms| ==>
                  WholeBetween(ms[k].field1, 50, 149) && WholeBetween(ms[k].field2, 100, 299) &&
                  WholeBetween(ms[k].field3, 10, 59)
    {
      var date := Dates.Midnight(today - i);
      var field1 := Draw(randoms[next], 100, 50);
      var field2 := Draw(randoms[next + 1], 200, 100);
      var field3 := Draw(randoms[next + 2], 50, 10);
      ms := ms + [Measurements.Measurement(date, field1 as real, field2 as real, field3 as real)];
      next := next + 3;
      i := i - 1;
    }
  }

  /** `seedData`: clear the store, generate, insert. Afterwards the store holds exactly the generated records. */
  method SeedStore(store: Store.MeasurementStore, today: int, randoms: seq<real>)
    requires |randoms| == 3 * Days
    requires forall j :: 0 <= j < |randoms| ==> IsRandom(randoms[j])
    modifies store
    ensures WellSeeded(store.records, today) && DrawnFrom(store.records, randoms)
  {
    store.Clear();
    var ms := GenerateMeasurements(today, randoms);
    store.InsertMany(ms);
  }

  /** Seeded timestamps are strictly ascending, one day apart, and the last is today's midnight. */
  lemma SeededTimestampsAscend(ms: seq<Measurements.Measurement>, today: int)
    requires WellSeeded(ms, today)
    ensures forall j, k :: 0 <= j < k < |ms| ==> ms[j].timestamp < ms[k].timestamp
    ensures forall k :: 0 < k < |ms| ==> ms[k].timestamp - ms[k - 1].timestamp == Dates.MsPerDay
    ensures ms[|ms| - 1].timestamp == Dates.Midnight(today)
  {
    forall j, k | 0 <= j < k < |ms| ensures ms[j].timestamp < ms[k].timestamp {
      Dates.MidnightOrder(today - (Days - 1) + j, today - (Days - 1) + k);
    }
  }

  /** After seeding, the field1 metrics lie within the draw range: 50 <= min <= average <= max <= 149. */
  lemma SeededField1Metrics(ms: seq<Measurements.Measurement>, today: int)
    requires WellSeeded(ms, today)
    ensures var r := Metrics.Metrics(ms, Some("field1"));
            r.Ok? && 50.0 <= r.value.min <= r.value.average <= r.value.max <= 149.0
  {
    var r := Metrics.Metrics(ms, Some("field1"));
    var xs := Metrics.Values(ms, Measurements.Field1);
    assert r.Ok?;
    assert r.value.min in xs && r.value.max in xs;
    var i :| 0 <= i < |xs| && xs[i] == r.value.min;
    var j :| 0 <= j < |xs| && xs[j] == r.value.max;
    assert WholeBetween(ms[i].field1, 50, 149) && WholeBetween(ms[j].field1, 50, 149);
  }
}
