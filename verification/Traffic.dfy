/** Rates from cumulative counters, and fewer points from many, in exact arithmetic. */
module Traffic {
  import opened Store

  datatype Point = Point(t: real, rx: real, tx: real)

  datatype Series = Series(points: seq<Point>, bytesIn: nat, bytesOut: nat, peakRx: real, peakTx: real, span: real)

  // ---- rates ----

  function Increment(before: int, after: int): (d: int)
    ensures d >= 0
  {
    if after < before then 0 else after - before
  }

  function RateBetween(a: Reading, b: Reading): Point
    requires a.at < b.at
  {
    Point(b.at,
          Increment(a.bytesIn, b.bytesIn) as real / (b.at - a.at),
          Increment(a.bytesOut, b.bytesOut) as real / (b.at - a.at))
  }

  /** One point for each pair of neighbouring readings between which time advanced. */
  function RatesOf(samples: seq<Reading>): (points: seq<Point>) {
    if |samples| < 2 then []
    else
      var (a, b) := (samples[|samples| - 2], samples[|samples| - 1]);
      RatesOf(samples[..|samples| - 1]) + if a.at < b.at then [RateBetween(a, b)] else []
  }

  method Rates(samples: seq<Reading>) returns (points: seq<Point>)
    ensures points == RatesOf(samples)
  {
    points := [];
    if |samples| == 0 {
      return;
    }
    for i := 1 to |samples|
      invariant points == RatesOf(samples[..i])
    {
      var (a, b) := (samples[i - 1], samples[i]);
      assert samples[..i + 1][..i] == samples[..i];
      var elapsed := b.at - a.at;
      if elapsed <= 0.0 {
        continue;
      }
      points := points + [Point(b.at,
                                Increment(a.bytesIn, b.bytesIn) as real / elapsed,
                                Increment(a.bytesOut, b.bytesOut) as real / elapsed)];
    }
    assert samples[..|samples|] == samples;
  }

  ghost predicate TimesAdvance(samples: seq<Reading>) {
    forall i :: 0 <= i < |samples| - 1 ==> samples[i].at < samples[i + 1].at
  }

  ghost predicate CountersGrow(samples: seq<Reading>) {
    forall i :: 0 <= i < |samples| - 1 ==>
      samples[i].bytesIn <= samples[i + 1].bytesIn && samples[i].bytesOut <= samples[i + 1].bytesOut
  }

  /** A rate kept up for some time. */
  function Over(rate: real, time: real): real {
    rate * time
  }

  /** What one rate amounts to between two readings. */
  function Under(rate: Point -> real, p: Point, a: Reading, b: Reading): real {
    Over(rate(p), b.at - a.at)
  }

  /** The area under the plotted curve: each rate times the time it stands for. */
  function Area(samples: seq<Reading>, points: seq<Point>, rate: Point -> real): real
    requires |points| == |samples| - 1
  {
    if points == [] then 0.0
    else
      var n := |points| - 1;
      Area(samples[..n + 1], points[..n], rate) + Under(rate, points[n], samples[n], samples[n + 1])
  }

  function Transferred(samples: seq<Reading>, counter: Reading -> int): int {
    if |samples| < 2 then 0
    else
      Transferred(samples[..|samples| - 1], counter)
      + Increment(counter(samples[|samples| - 2]), counter(samples[|samples| - 1]))
  }

  function Rx(): Point -> real { (p: Point) => p.rx }
  function Tx(): Point -> real { (p: Point) => p.tx }
  function In(): Reading -> int { (r: Reading) => r.bytesIn }
  function Out(): Reading -> int { (r: Reading) => r.bytesOut }

  lemma RateTimesElapsed(a: Reading, b: Reading)
    requires a.at < b.at
    ensures Under(Rx(), RateBetween(a, b), a, b) == Increment(a.bytesIn, b.bytesIn) as real
    ensures Under(Tx(), RateBetween(a, b), a, b) == Increment(a.bytesOut, b.bytesOut) as real
  {
  }

  /** The rate is the counter's: over its own interval it amounts to what the counter gained. */
  ghost predicate Measures(rate: Point -> real, counter: Reading -> int) {
    forall a: Reading, b: Reading :: a.at < b.at ==>
      Under(rate, RateBetween(a, b), a, b) == Increment(counter(a), counter(b)) as real
  }

  lemma RatesMeasure()
    ensures Measures(Rx(), In()) && Measures(Tx(), Out())
  {
    hide RateBetween, Increment, Under;
    forall a: Reading, b: Reading | a.at < b.at
      ensures Under(Rx(), RateBetween(a, b), a, b) == Increment(a.bytesIn, b.bytesIn) as real
      ensures Under(Tx(), RateBetween(a, b), a, b) == Increment(a.bytesOut, b.bytesOut) as real
    {
      RateTimesElapsed(a, b);
    }
  }

  lemma MeasuresAt(rate: Point -> real, counter: Reading -> int, a: Reading, b: Reading)
    requires Measures(rate, counter) && a.at < b.at
    ensures Under(rate, RateBetween(a, b), a, b) == Increment(counter(a), counter(b)) as real
  {
  }

  lemma AreaSnoc(samples: seq<Reading>, points: seq<Point>, p: Point, rate: Point -> real, gain: real)
    requires |points| == |samples| - 2
    requires Under(rate, p, samples[|samples| - 2], samples[|samples| - 1]) == gain
    ensures Area(samples, points + [p], rate) == Area(samples[..|samples| - 1], points, rate) + gain
  {
    hide Under;
    assert (points + [p])[..|points|] == points;
  }

  lemma LastGain(samples: seq<Reading>, rate: Point -> real, counter: Reading -> int)
    requires |samples| >= 2 && samples[|samples| - 2].at < samples[|samples| - 1].at && Measures(rate, counter)
    requires |RatesOf(samples[..|samples| - 1])| == |samples| - 2
    ensures |RatesOf(samples)| == |samples| - 1
    ensures Area(samples, RatesOf(samples), rate) ==
            Area(samples[..|samples| - 1], RatesOf(samples[..|samples| - 1]), rate)
            + Increment(counter(samples[|samples| - 2]), counter(samples[|samples| - 1])) as real
  {
    var points, a, b := RatesOf(samples[..|samples| - 1]), samples[|samples| - 2], samples[|samples| - 1];
    hide RateBetween, Increment, Measures, Area, Under;
    assert RatesOf(samples) == points + [RateBetween(a, b)];
    hide RatesOf;
    MeasuresAt(rate, counter, a, b);
    AreaSnoc(samples, points, RateBetween(a, b), rate, Increment(counter(a), counter(b)) as real);
  }

  lemma {:induction false} AreaIsGain(samples: seq<Reading>, rate: Point -> real, counter: Reading -> int)
    requires TimesAdvance(samples) && samples != [] && Measures(rate, counter)
    ensures |RatesOf(samples)| == |samples| - 1
    ensures Area(samples, RatesOf(samples), rate) == Transferred(samples, counter) as real
  {
    if |samples| == 1 {
    } else {
      assert samples[|samples| - 2].at < samples[|samples| - 1].at;
      AreaIsGain(samples[..|samples| - 1], rate, counter);
      hide Measures, Area, RatesOf, Increment, TimesAdvance;
      LastGain(samples, rate, counter);
    }
  }

  /** Where time advances, the area under each curve is exactly what its counter gained. */
  lemma AreaIsTransferred(samples: seq<Reading>)
    requires TimesAdvance(samples) && samples != []
    ensures |RatesOf(samples)| == |samples| - 1
    ensures Area(samples, RatesOf(samples), Rx()) == Transferred(samples, In()) as real
    ensures Area(samples, RatesOf(samples), Tx()) == Transferred(samples, Out()) as real
  {
    RatesMeasure();
    hide Measures, TimesAdvance, RatesOf;
    AreaIsGain(samples, Rx(), In());
    AreaIsGain(samples, Tx(), Out());
  }

  lemma {:induction false} GrowthIsTheDifference(samples: seq<Reading>)
    requires CountersGrow(samples) && samples != []
    ensures Transferred(samples, In()) == samples[|samples| - 1].bytesIn - samples[0].bytesIn
    ensures Transferred(samples, Out()) == samples[|samples| - 1].bytesOut - samples[0].bytesOut
  {
    if |samples| == 1 {
    } else {
      GrowthIsTheDifference(samples[..|samples| - 1]);
    }
  }

  /** Each rate is what its counter gained over the time it took, and 0 where the counter went back. */
  lemma RateExactly(samples: seq<Reading>, k: nat)
    requires TimesAdvance(samples) && k + 1 < |samples|
    ensures var (a, b) := (samples[k], samples[k + 1]);
            && |RatesOf(samples)| == |samples| - 1
            && var p := RatesOf(samples)[k];
            && p.t == b.at
            && Over(p.rx, b.at - a.at) == (if b.bytesIn < a.bytesIn then 0.0 else (b.bytesIn - a.bytesIn) as real)
            && Over(p.tx, b.at - a.at) == (if b.bytesOut < a.bytesOut then 0.0 else (b.bytesOut - a.bytesOut) as real)
  {
    RatesAt(samples, k);
    RateTimesElapsed(samples[k], samples[k + 1]);
    hide RatesOf, RateBetween, Over;
  }

  /** A reading later than the one before it. */
  predicate Later(samples: seq<Reading>, i: nat)
    requires i < |samples|
  {
    i > 0 && samples[i - 1].at < samples[i].at
  }

  ghost function Advancing(samples: seq<Reading>): set<nat> {
    set i | 0 <= i < |samples| && Later(samples, i)
  }

  /** There are as many points as readings later than the one before them. */
  lemma {:induction false} RatesNumber(samples: seq<Reading>)
    ensures |RatesOf(samples)| == |Advancing(samples)|
  {
    if |samples| < 2 {
      assert Advancing(samples) == {};
    } else {
      var n := |samples| - 1;
      RatesNumber(samples[..n]);
      assert forall i :: 0 <= i < n ==> Later(samples[..n], i) == Later(samples, i);
      assert Advancing(samples) == Advancing(samples[..n]) + if Later(samples, n) then {n} else {};
      assert n !in Advancing(samples[..n]);
    }
  }

  // ---- buckets ----

  /** Where bucket `i` of `limit` starts: the whole part of `i * n / limit`. */
  function Bound(i: nat, n: nat, limit: nat): (b: nat)
    requires limit >= 1
  {
    i * n / limit
  }

  lemma MulMonotone(a: nat, b: nat, c: nat)
    requires a <= b
    ensures a * c <= b * c
  {
    assert b * c == a * c + (b - a) * c;
  }

  lemma QuotientIs(x: nat, limit: nat, q: nat)
    requires limit >= 1 && q * limit <= x < q * limit + limit
    ensures x / limit == q
  {
    var d := x / limit;
    assert d * limit <= x < d * limit + limit;
    if d < q {
      MulMonotone(d + 1, q, limit);
    } else if q < d {
      MulMonotone(q + 1, d, limit);
    }
  }

  /** `a` whole limits and a remainder part `b` of its own. */
  lemma Whole(a: nat, b: nat, limit: nat)
    requires limit >= 1
    ensures (a * limit + b) / limit == a + b / limit
  {
    var d := b / limit;
    assert d * limit <= b < d * limit + limit;
    assert (a + d) * limit == a * limit + d * limit;
    QuotientIs(a * limit + b, limit, a + d);
  }

  lemma StepOfWhole(x: nat, r: nat, limit: nat)
    requires r < limit
    ensures x / limit <= (x + r) / limit <= x / limit + 1
    ensures r == 0 ==> (x + r) / limit == x / limit
  {
    var d := x / limit;
    assert d * limit <= x < d * limit + limit;
    assert (d + 1) * limit == d * limit + limit;
    if x + r < d * limit + limit {
      QuotientIs(x + r, limit, d);
    } else {
      QuotientIs(x + r, limit, d + 1);
    }
  }

  /** Every bucket holds the floor or the ceiling of n / limit points; the buckets start at 0 and end at n. */
  lemma BucketSizes(i: nat, n: nat, limit: nat)
    requires limit >= 1
    ensures var size := Bound(i + 1, n, limit) - Bound(i, n, limit);
            size == n / limit || (n % limit != 0 && size == n / limit + 1)
    ensures Bound(0, n, limit) == 0 && Bound(limit, n, limit) == n
  {
    var q, r := n / limit, n % limit;
    assert n == q * limit + r;
    assert i * n == i * q * limit + i * r;
    assert (i + 1) * n == (i + 1) * q * limit + (i * r + r);
    Whole(i * q, i * r, limit);
    Whole((i + 1) * q, i * r + r, limit);
    StepOfWhole(i * r, r, limit);
    assert (i + 1) * q == i * q + q;
    assert limit * n == n * limit + 0;
    Whole(n, 0, limit);
  }

  // ---- means ----

  function Sum(s: seq<real>): real {
    if s == [] then 0.0 else Sum(s[..|s| - 1]) + s[|s| - 1]
  }

  function Mean(s: seq<real>): real
    requires s != []
  {
    Sum(s) / |s| as real
  }

  function Values(points: seq<Point>, of: Point -> real): (v: seq<real>)
    ensures |v| == |points|
  {
    seq(|points|, i requires 0 <= i < |points| => of(points[i]))
  }

  function T(): Point -> real { (p: Point) => p.t }

  function MeanPoint(chunk: seq<Point>): Point
    requires chunk != []
  {
    Point(Mean(Values(chunk, T())), Mean(Values(chunk, Rx())), Mean(Values(chunk, Tx())))
  }

  /** The points of bucket `i`. */
  function Bucket(points: seq<Point>, i: nat, limit: nat): (chunk: seq<Point>)
    requires limit >= 1 && i < limit
  {
    BucketSizes(i, |points|, limit);
    BoundsFit(i, |points|, limit);
    points[Bound(i, |points|, limit)..Bound(i + 1, |points|, limit)]
  }

  lemma BoundAtMost(i: nat, n: nat, limit: nat)
    requires limit >= 1 && i <= limit
    ensures Bound(i, n, limit) <= n
  {
    MulMonotone(i, limit, n);
    var b := Bound(i, n, limit);
    assert b * limit <= i * n <= limit * n;
    MulMonotone(if b > n then n + 1 else b, b, limit);
  }

  lemma BoundsFit(i: nat, n: nat, limit: nat)
    requires limit >= 1 && i < limit
    ensures Bound(i, n, limit) <= Bound(i + 1, n, limit) <= n
  {
    BucketSizes(i, n, limit);
    BoundAtMost(i + 1, n, limit);
    hide Bound;
  }

  /** One mean for each of the buckets, none of them empty. */
  ghost predicate BucketsOf(points: seq<Point>, limit: nat, buckets: seq<Point>)
    requires limit >= 1
  {
    && |buckets| == limit
    && forall i :: 0 <= i < limit ==>
         Bucket(points, i, limit) != [] && buckets[i] == MeanPoint(Bucket(points, i, limit))
  }

  method Downsample(points: seq<Point>, limit: int) returns (buckets: seq<Point>)
    ensures limit < 1 || |points| <= limit ==> buckets == points
    ensures 1 <= limit < |points| ==> BucketsOf(points, limit, buckets)
  {
    if limit < 1 || |points| <= limit {
      return points;
    }
    buckets := [];
    for index := 0 to limit
      invariant |buckets| == index
      invariant forall i :: 0 <= i < index ==> Bucket(points, i, limit) != [] && buckets[i] == MeanPoint(Bucket(points, i, limit))
    {
      BucketSizes(index, |points|, limit);
      BoundsFit(index, |points|, limit);
      LeastSize(|points|, limit);
      var start := Bound(index, |points|, limit);
      var end := if index < limit - 1 then Bound(index + 1, |points|, limit) else |points|;
      var chunk := points[start..end];
      assert chunk == Bucket(points, index, limit);
      hide Bound, Mean, Values;
      if |chunk| == 0 {
        continue;
      }
      buckets := buckets + [MeanPoint(chunk)];
    }
  }

  lemma LeastSize(n: nat, limit: nat)
    requires 1 <= limit <= n
    ensures n / limit >= 1
  {
  }

  // ---- what averaging keeps ----

  lemma {:induction false} SumAppend(a: seq<real>, b: seq<real>)
    ensures Sum(a + b) == Sum(a) + Sum(b)
  {
    if b == [] {
      assert a + b == a;
    } else {
      assert (a + b)[..|a + b| - 1] == a + b[..|b| - 1];
      SumAppend(a, b[..|b| - 1]);
    }
  }

  /** A mean taken as often as it has members is their sum. */
  lemma MeanTimesCount(s: seq<real>)
    requires s != []
    ensures |s| as real * Mean(s) == Sum(s)
  {
  }

  /** Which of a point's three values is meant: averaging a bucket averages it. */
  ghost predicate Averaged(of: Point -> real) {
    forall chunk: seq<Point> :: chunk != [] ==> of(MeanPoint(chunk)) == Mean(Values(chunk, of))
  }

  lemma AllAveraged()
    ensures Averaged(T()) && Averaged(Rx()) && Averaged(Tx())
  {
    hide Mean, Values;
  }

  /** What a mean stands for: itself, as often as its bucket has points. */
  function Share(chunk: seq<Point>, mean: Point, of: Point -> real): real {
    |chunk| as real * of(mean)
  }

  /** The first `k` means, each counted as often as its bucket has points. */
  function Carried(points: seq<Point>, limit: nat, buckets: seq<Point>, k: nat, of: Point -> real): real
    requires k <= limit && 1 <= limit == |buckets|
  {
    if k == 0 then 0.0
    else
      Carried(points, limit, buckets, k - 1, of) + Share(Bucket(points, k - 1, limit), buckets[k - 1], of)
  }

  lemma PrefixExtends(points: seq<Point>, i: nat, limit: nat, of: Point -> real)
    requires limit >= 1 && i < limit
    ensures Bound(i, |points|, limit) <= Bound(i + 1, |points|, limit) <= |points|
    ensures Values(points[..Bound(i + 1, |points|, limit)], of) ==
            Values(points[..Bound(i, |points|, limit)], of) + Values(Bucket(points, i, limit), of)
  {
    BoundsFit(i, |points|, limit);
    hide Bound;
  }

  lemma PrefixSum(points: seq<Point>, i: nat, limit: nat, of: Point -> real)
    requires limit >= 1 && i < limit
    ensures Bound(i, |points|, limit) <= |points| && Bound(i + 1, |points|, limit) <= |points|
    ensures Sum(Values(points[..Bound(i + 1, |points|, limit)], of)) ==
            Sum(Values(points[..Bound(i, |points|, limit)], of)) + Sum(Values(Bucket(points, i, limit), of))
  {
    PrefixExtends(points, i, limit, of);
    hide Bound, Bucket, Values, Sum;
    SumAppend(Values(points[..Bound(i, |points|, limit)], of), Values(Bucket(points, i, limit), of));
  }

  lemma BucketCarried(chunk: seq<Point>, mean: Point, of: Point -> real)
    requires chunk != [] && mean == MeanPoint(chunk) && Averaged(of)
    ensures Share(chunk, mean, of) == Sum(Values(chunk, of))
  {
    MeanTimesCount(Values(chunk, of));
    hide Mean, MeanPoint;
  }

  lemma BoundEnds(n: nat, limit: nat)
    requires limit >= 1
    ensures Bound(0, n, limit) == 0 && Bound(limit, n, limit) == n
  {
    BucketSizes(0, n, limit);
  }

  lemma CarriedSnoc(points: seq<Point>, limit: nat, buckets: seq<Point>, k: nat, of: Point -> real)
    requires 0 < k <= limit && 1 <= limit == |buckets|
    ensures Carried(points, limit, buckets, k, of) ==
            Carried(points, limit, buckets, k - 1, of) + Share(Bucket(points, k - 1, limit), buckets[k - 1], of)
  {
    hide Share, Bucket;
  }

  lemma {:induction false} CarriedIsSum(points: seq<Point>, limit: nat, buckets: seq<Point>, k: nat, of: Point -> real)
    requires k <= limit && 1 <= limit && BucketsOf(points, limit, buckets) && Averaged(of)
    ensures Bound(k, |points|, limit) <= |points|
    ensures Carried(points, limit, buckets, k, of) == Sum(Values(points[..Bound(k, |points|, limit)], of))
  {
    hide Bound, Share, Mean;
    if k == 0 {
      BoundEnds(|points|, limit);
      assert Values(points[..0], of) == [];
    } else {
      var chunk := Bucket(points, k - 1, limit);
      assert chunk != [] && buckets[k - 1] == MeanPoint(chunk);
      CarriedSnoc(points, limit, buckets, k, of);
      hide BucketsOf, Bound, Bucket, Values, Averaged, MeanPoint, Sum, Share, Carried;
      CarriedIsSum(points, limit, buckets, k - 1, of);
      PrefixSum(points, k - 1, limit, of);
      BucketCarried(chunk, buckets[k - 1], of);
    }
  }

  /** Counted with their bucket sizes, the means add up to the total of all points: nothing is gained or lost. */
  lemma AveragingConserves(points: seq<Point>, limit: nat, buckets: seq<Point>)
    requires 1 <= limit && BucketsOf(points, limit, buckets)
    ensures Carried(points, limit, buckets, limit, T()) == Sum(Values(points, T()))
    ensures Carried(points, limit, buckets, limit, Rx()) == Sum(Values(points, Rx()))
    ensures Carried(points, limit, buckets, limit, Tx()) == Sum(Values(points, Tx()))
  {
    AllAveraged();
    BoundEnds(|points|, limit);
    assert points[..|points|] == points;
    hide Averaged, Carried, Values, Bound, BucketsOf;
    CarriedIsSum(points, limit, buckets, limit, T());
    CarriedIsSum(points, limit, buckets, limit, Rx());
    CarriedIsSum(points, limit, buckets, limit, Tx());
  }

  // ---- the area under the averaged curve ----

  /** How long point `i` stands for. */
  function Elapsed(samples: seq<Reading>, i: nat): real
    requires i + 1 < |samples|
  {
    samples[i + 1].at - samples[i].at
  }

  lemma OverAdds(a: real, b: real, time: real)
    ensures Over(a + b, time) == Over(a, time) + Over(b, time)
  {
  }

  ghost predicate EvenBetween(samples: seq<Reading>, from: nat, to: nat)
    requires to < |samples|
  {
    forall i, j :: from <= i < to && from <= j < to ==> Elapsed(samples, i) == Elapsed(samples, j)
  }

  /** Where bucket `b` begins among the readings; it ends where the next one begins. */
  function Edge(samples: seq<Reading>, limit: nat, b: nat): (e: nat)
    requires 1 <= limit && b <= limit && samples != []
    ensures e < |samples|
  {
    BoundAtMost(b, |samples| - 1, limit);
    Bound(b, |samples| - 1, limit)
  }

  /** Within every bucket the readings are equally spaced. */
  ghost predicate EvenBuckets(samples: seq<Reading>, limit: nat)
    requires 1 <= limit && samples != []
  {
    forall b :: 0 <= b < limit ==> EvenBetween(samples, Edge(samples, limit, b), Edge(samples, limit, b + 1))
  }

  /** The area under the first `k` averaged points, each over the whole time of its bucket. */
  function AveragedArea(samples: seq<Reading>, limit: nat, buckets: seq<Point>, k: nat, rate: Point -> real): real
    requires k <= limit && 1 <= limit == |buckets| && samples != []
  {
    if k == 0 then 0.0
    else
      AveragedArea(samples, limit, buckets, k - 1, rate)
      + Under(rate, buckets[k - 1], samples[Edge(samples, limit, k - 1)], samples[Edge(samples, limit, k)])
  }

  lemma {:induction false} EvenTime(samples: seq<Reading>, from: nat, to: nat, e: real)
    requires from <= to < |samples| && forall i :: from <= i < to ==> Elapsed(samples, i) == e
    ensures samples[to].at - samples[from].at == Over((to - from) as real, e)
  {
    if from < to {
      EvenTime(samples, from, to - 1, e);
      assert Elapsed(samples, to - 1) == e;
      OverAdds((to - 1 - from) as real, 1.0, e);
      assert Over(1.0, e) == e;
      hide Over;
    }
  }

  /** The area under the points of readings `from` on, equally spaced, is their sum times the spacing. */
  lemma {:induction false} EvenArea(samples: seq<Reading>, points: seq<Point>, from: nat, to: nat, e: real, rate: Point -> real)
    requires |points| == |samples| - 1 && from <= to <= |points|
    requires forall i :: from <= i < to ==> Elapsed(samples, i) == e
    ensures Area(samples[..to + 1], points[..to], rate) ==
            Area(samples[..from + 1], points[..from], rate) + Over(Sum(Values(points[from..to], rate)), e)
  {
    hide Area, Under, Values;
    if to == from {
      assert Values(points[from..to], rate) == [];
    } else {
      hide Sum, Over;
      EvenArea(samples, points, from, to - 1, e, rate);
      assert Elapsed(samples, to - 1) == e;
      AreaAt(samples, points, to, rate);
      SumAt(points, from, to, rate);
      OverAdds(Sum(Values(points[from..to - 1], rate)), rate(points[to - 1]), e);
      UnderIs(rate, points[to - 1], samples[to - 1], samples[to], e);
    }
  }

  lemma UnderIs(rate: Point -> real, p: Point, a: Reading, b: Reading, e: real)
    requires b.at - a.at == e
    ensures Under(rate, p, a, b) == Over(rate(p), e)
  {
  }

  lemma AreaAt(samples: seq<Reading>, points: seq<Point>, to: nat, rate: Point -> real)
    requires |points| == |samples| - 1 && 0 < to <= |points|
    ensures Area(samples[..to + 1], points[..to], rate) ==
            Area(samples[..to], points[..to - 1], rate) + Under(rate, points[to - 1], samples[to - 1], samples[to])
  {
    hide Under;
    assert samples[..to + 1][..to] == samples[..to] && points[..to][..to - 1] == points[..to - 1];
  }

  lemma SumAt(points: seq<Point>, from: nat, to: nat, rate: Point -> real)
    requires from < to <= |points|
    ensures Sum(Values(points[from..to], rate)) == Sum(Values(points[from..to - 1], rate)) + rate(points[to - 1])
  {
    var v := Values(points[from..to], rate);
    assert v[..|v| - 1] == Values(points[from..to - 1], rate);
  }

  lemma ShareOver(chunk: seq<Point>, mean: Point, of: Point -> real, e: real)
    ensures Over(of(mean), Over(|chunk| as real, e)) == Over(Share(chunk, mean, of), e)
  {
  }

  lemma BucketIsSlice(samples: seq<Reading>, points: seq<Point>, b: nat, limit: nat)
    requires |points| == |samples| - 1 && 1 <= limit && b < limit
    ensures Edge(samples, limit, b) <= Edge(samples, limit, b + 1) <= |points|
    ensures Bucket(points, b, limit) == points[Edge(samples, limit, b)..Edge(samples, limit, b + 1)]
  {
    BoundsFit(b, |points|, limit);
    hide Bound;
  }

  lemma ShareIsSum(points: seq<Point>, limit: nat, buckets: seq<Point>, b: nat, of: Point -> real)
    requires 1 <= limit && BucketsOf(points, limit, buckets) && b < limit && Averaged(of)
    ensures Bucket(points, b, limit) != []
    ensures Share(Bucket(points, b, limit), buckets[b], of) == Sum(Values(Bucket(points, b, limit), of))
  {
    var chunk := Bucket(points, b, limit);
    assert chunk != [] && buckets[b] == MeanPoint(chunk);
    hide BucketsOf, Bucket, MeanPoint, Averaged, Sum, Values, Share;
    BucketCarried(chunk, buckets[b], of);
  }

  lemma EvenBucketArea(samples: seq<Reading>, points: seq<Point>, limit: nat, buckets: seq<Point>, b: nat, rate: Point -> real)
    requires |points| == |samples| - 1 && 1 <= limit && b < limit && BucketsOf(points, limit, buckets) && Averaged(rate)
    requires EvenBetween(samples, Edge(samples, limit, b), Edge(samples, limit, b + 1))
    ensures var (from, to) := (Edge(samples, limit, b), Edge(samples, limit, b + 1));
            Area(samples[..to + 1], points[..to], rate) ==
            Area(samples[..from + 1], points[..from], rate) + Under(rate, buckets[b], samples[from], samples[to])
  {
    assert |buckets| == limit;
    hide Area, Over, BucketsOf, Averaged, Sum, Values, Edge, Bucket, Share;
    var from, to := Edge(samples, limit, b), Edge(samples, limit, b + 1);
    BucketIsSlice(samples, points, b, limit);
    ShareIsSum(points, limit, buckets, b, rate);
    var e := Elapsed(samples, from);
    EvenArea(samples, points, from, to, e, rate);
    EvenTime(samples, from, to, e);
    assert |Bucket(points, b, limit)| == to - from;
    ShareOver(Bucket(points, b, limit), buckets[b], rate, e);
  }

  /** Where readings are evenly spaced within each bucket, averaging keeps the area bucket by bucket. */
  lemma {:induction false} EvenAreaKept(samples: seq<Reading>, points: seq<Point>, limit: nat, buckets: seq<Point>, k: nat,
                                        rate: Point -> real)
    requires |points| == |samples| - 1 && 1 <= limit && BucketsOf(points, limit, buckets) && Averaged(rate)
    requires EvenBuckets(samples, limit) && k <= limit
    ensures AveragedArea(samples, limit, buckets, k, rate) ==
            Area(samples[..Edge(samples, limit, k) + 1], points[..Edge(samples, limit, k)], rate)
  {
    hide Under, Averaged, BucketsOf, EvenBetween, Edge;
    if k == 0 {
      EdgeEnds(samples, limit);
    } else {
      assert EvenBetween(samples, Edge(samples, limit, k - 1), Edge(samples, limit, k - 1 + 1));
      hide Area;
      EvenAreaKept(samples, points, limit, buckets, k - 1, rate);
      EvenBucketArea(samples, points, limit, buckets, k - 1, rate);
    }
  }

  lemma EdgeEnds(samples: seq<Reading>, limit: nat)
    requires 1 <= limit && samples != []
    ensures Edge(samples, limit, 0) == 0 && Edge(samples, limit, limit) == |samples| - 1
  {
    hide Bound;
    BoundEnds(|samples| - 1, limit);
  }

  /** The area under the averaged curve is still what each counter gained. */
  ghost predicate AreaKept(samples: seq<Reading>, limit: nat, buckets: seq<Point>)
    requires 1 <= limit == |buckets| && samples != []
  {
    && AveragedArea(samples, limit, buckets, limit, Rx()) == Transferred(samples, In()) as real
    && AveragedArea(samples, limit, buckets, limit, Tx()) == Transferred(samples, Out()) as real
  }

  lemma EvenIsKept(samples: seq<Reading>, limit: nat, buckets: seq<Point>)
    requires TimesAdvance(samples) && samples != [] && 1 <= limit && EvenBuckets(samples, limit)
    requires BucketsOf(RatesOf(samples), limit, buckets)
    ensures AreaKept(samples, limit, buckets)
  {
    AllAveraged();
    EdgeEnds(samples, limit);
    hide TimesAdvance, EvenBuckets, BucketsOf, RatesOf, Area, Averaged, AveragedArea, Transferred, Edge;
    AreaIsTransferred(samples);
    var points := RatesOf(samples);
    assert samples[..|points| + 1] == samples && points[..|points|] == points;
    EvenAreaKept(samples, points, limit, buckets, limit, Rx());
    EvenAreaKept(samples, points, limit, buckets, limit, Tx());
  }

  // ---- and where it is not ----

  /** The same times, with counters that stand still but for one byte received between readings `x` and `x + 1`. */
  function Jump(samples: seq<Reading>, x: nat): (other: seq<Reading>)
    ensures |other| == |samples|
  {
    seq(|samples|, i requires 0 <= i < |samples| => Reading(samples[i].at, if i <= x then 0 else 1, 0))
  }

  ghost predicate SameTimes(a: seq<Reading>, b: seq<Reading>) {
    |a| == |b| && forall i :: 0 <= i < |a| ==> a[i].at == b[i].at
  }

  lemma {:induction false} RatesAt(samples: seq<Reading>, k: nat)
    requires TimesAdvance(samples) && k + 1 < |samples|
    ensures |RatesOf(samples)| == |samples| - 1 && RatesOf(samples)[k] == RateBetween(samples[k], samples[k + 1])
  {
    RatesAdvance(samples);
    if k + 2 < |samples| {
      hide RateBetween;
      RatesAdvance(samples[..|samples| - 1]);
      RatesAt(samples[..|samples| - 1], k);
    }
  }

  lemma JumpRate(samples: seq<Reading>, x: nat, k: nat)
    requires TimesAdvance(samples) && x + 1 < |samples| && k + 1 < |samples|
    ensures |RatesOf(Jump(samples, x))| == |samples| - 1
    ensures k != x ==> RatesOf(Jump(samples, x))[k].rx == 0.0
    ensures k == x ==> Over(RatesOf(Jump(samples, x))[k].rx, Elapsed(samples, x)) == 1.0
  {
    hide RatesOf;
    RatesAt(Jump(samples, x), k);
  }

  lemma ZeroSum(s: seq<real>)
    requires forall i :: 0 <= i < |s| ==> s[i] == 0.0
    ensures Sum(s) == 0.0
  {
    SumBetween(s, 0.0, 0.0);
  }

  lemma {:induction false} SpikeSum(s: seq<real>, p: nat)
    requires p < |s| && forall i :: 0 <= i < |s| && i != p ==> s[i] == 0.0
    ensures Sum(s) == s[p]
  {
    if p == |s| - 1 {
      ZeroSum(s[..p]);
    } else {
      SpikeSum(s[..|s| - 1], p);
    }
  }

  lemma SumOfBucket(samples: seq<Reading>, limit: nat, b: nat, x: nat)
    requires TimesAdvance(samples) && x + 1 < |samples| && 1 <= limit && b < limit
    ensures var points := RatesOf(Jump(samples, x));
            && |points| == |samples| - 1
            && Sum(Values(Bucket(points, b, limit), Rx())) ==
               if Edge(samples, limit, b) <= x < Edge(samples, limit, b + 1) then points[x].rx else 0.0
  {
    JumpRate(samples, x, x);
    var points := RatesOf(Jump(samples, x));
    BucketIsSlice(samples, points, b, limit);
    var from, to := Edge(samples, limit, b), Edge(samples, limit, b + 1);
    var v := Values(points[from..to], Rx());
    hide Edge, RatesOf, Sum, Jump, Over;
    forall i | 0 <= i < |v| && from + i != x
      ensures v[i] == 0.0
    {
      JumpRate(samples, x, from + i);
    }
    if from <= x < to {
      SpikeSum(v, x - from);
    } else {
      ZeroSum(v);
    }
  }

  /** Only the bucket of the jump has any area, and what it has is one byte only if its mean spacing is that of the jump. */
  lemma SpikeArea(samples: seq<Reading>, limit: nat, buckets: seq<Point>, b: nat, x: nat)
    requires TimesAdvance(samples) && x + 1 < |samples| && 1 <= limit && b < limit
    requires BucketsOf(RatesOf(Jump(samples, x)), limit, buckets)
    ensures var (from, to) := (Edge(samples, limit, b), Edge(samples, limit, b + 1));
            var area := Under(Rx(), buckets[b], samples[from], samples[to]);
            && (!(from <= x < to) ==> area == 0.0)
            && (from <= x < to && area == 1.0 ==> Over((to - from) as real, Elapsed(samples, x)) == samples[to].at - samples[from].at)
  {
    AllAveraged();
    assert |buckets| == limit;
    var points := RatesOf(Jump(samples, x));
    var from, to := Edge(samples, limit, b), Edge(samples, limit, b + 1);
    hide BucketsOf, Averaged, RatesOf, Jump, TimesAdvance, Edge, Bucket, Sum, Values;
    JumpRate(samples, x, x);
    SumOfBucket(samples, limit, b, x);
    BucketIsSlice(samples, points, b, limit);
    ShareIsSum(points, limit, buckets, b, Rx());
    assert |Bucket(points, b, limit)| == to - from;
    hide Share, Over;
    SpikeMean(Bucket(points, b, limit), buckets[b], samples[to].at - samples[from].at, Elapsed(samples, x), points[x].rx);
  }

  lemma SpikeMean(chunk: seq<Point>, mean: Point, time: real, e: real, rate: real)
    requires chunk != []
    ensures Share(chunk, mean, Rx()) == 0.0 ==> Over(mean.rx, time) == 0.0
    ensures Share(chunk, mean, Rx()) == rate && Over(rate, e) == 1.0 && Over(mean.rx, time) == 1.0 ==>
              Over(|chunk| as real, e) == time
  {
    var count := |chunk| as real;
    if count * mean.rx == rate && rate * e == 1.0 && mean.rx * time == 1.0 {
      assert mean.rx * (count * e) == 1.0;
      assert mean.rx * (count * e - time) == 0.0;
    }
  }

  lemma {:induction false} EdgesRise(samples: seq<Reading>, limit: nat, a: nat, b: nat)
    requires samples != [] && 1 <= limit && a <= b <= limit
    ensures Edge(samples, limit, a) <= Edge(samples, limit, b)
  {
    if a < b {
      BoundsFit(b - 1, |samples| - 1, limit);
      hide Bound;
      EdgesRise(samples, limit, a, b - 1);
    }
  }

  lemma SameEdge(samples: seq<Reading>, other: seq<Reading>, limit: nat, b: nat)
    requires samples != [] && |other| == |samples| && 1 <= limit && b <= limit
    ensures Edge(other, limit, b) == Edge(samples, limit, b)
  {
    hide Bound;
  }

  lemma SameUnder(samples: seq<Reading>, other: seq<Reading>, limit: nat, b: nat, p: Point, rate: Point -> real)
    requires samples != [] && SameTimes(samples, other) && 1 <= limit && b < limit
    ensures Under(rate, p, other[Edge(other, limit, b)], other[Edge(other, limit, b + 1)]) ==
            Under(rate, p, samples[Edge(samples, limit, b)], samples[Edge(samples, limit, b + 1)])
  {
    SameEdge(samples, other, limit, b);
    SameEdge(samples, other, limit, b + 1);
    hide Edge, Over;
  }

  lemma JumpElsewhere(samples: seq<Reading>, limit: nat, buckets: seq<Point>, b: nat, x: nat, m: nat)
    requires TimesAdvance(samples) && x + 1 < |samples| && 1 <= limit && b < limit && m < limit && m != b
    requires Edge(samples, limit, b) <= x < Edge(samples, limit, b + 1)
    requires BucketsOf(RatesOf(Jump(samples, x)), limit, buckets)
    ensures |buckets| == limit
    ensures Under(Rx(), buckets[m], samples[Edge(samples, limit, m)], samples[Edge(samples, limit, m + 1)]) == 0.0
  {
    assert |buckets| == limit;
    hide *;
    SpikeArea(samples, limit, buckets, m, x);
    if m < b {
      EdgesRise(samples, limit, m + 1, b);
    } else {
      EdgesRise(samples, limit, b + 1, m);
    }
  }

  lemma AveragedNext(samples: seq<Reading>, limit: nat, buckets: seq<Point>, k: nat, x: nat)
    requires samples != [] && 0 < k <= limit && 1 <= limit == |buckets|
    ensures AveragedArea(Jump(samples, x), limit, buckets, k, Rx()) ==
            AveragedArea(Jump(samples, x), limit, buckets, k - 1, Rx())
            + Under(Rx(), buckets[k - 1], samples[Edge(samples, limit, k - 1)], samples[Edge(samples, limit, k)])
  {
    assert SameTimes(samples, Jump(samples, x));
    hide Jump, Edge, Under, SameTimes;
    SameUnder(samples, Jump(samples, x), limit, k - 1, buckets[k - 1], Rx());
  }

  /** All the area of a jump is in its own bucket. */
  lemma {:induction false} JumpArea(samples: seq<Reading>, limit: nat, buckets: seq<Point>, b: nat, x: nat, k: nat)
    requires TimesAdvance(samples) && x + 1 < |samples| && 1 <= limit == |buckets| && b < limit && k <= limit
    requires Edge(samples, limit, b) <= x < Edge(samples, limit, b + 1)
    requires BucketsOf(RatesOf(Jump(samples, x)), limit, buckets)
    ensures AveragedArea(Jump(samples, x), limit, buckets, k, Rx()) ==
            if k <= b then 0.0
            else Under(Rx(), buckets[b], samples[Edge(samples, limit, b)], samples[Edge(samples, limit, b + 1)])
  {
    hide BucketsOf, RatesOf, Jump, TimesAdvance, Edge, Under;
    if k > 0 {
      hide AveragedArea;
      JumpArea(samples, limit, buckets, b, x, k - 1);
      AveragedNext(samples, limit, buckets, k, x);
      if k - 1 != b {
        JumpElsewhere(samples, limit, buckets, b, x, k - 1);
      }
    }
  }

  lemma JumpGain(samples: seq<Reading>, x: nat)
    requires x + 1 < |samples|
    ensures Transferred(Jump(samples, x), In()) == 1
  {
    GrowthIsTheDifference(Jump(samples, x));
    hide Transferred;
  }

  lemma OneIsOff(count: real, e: real, e': real, time: real)
    requires count > 0.0 && e != e'
    ensures Over(count, e) != time || Over(count, e') != time
  {
    assert count * (e - e') != 0.0;
  }

  lemma MeansExist(points: seq<Point>, limit: nat) returns (buckets: seq<Point>)
    requires 1 <= limit <= |points|
    ensures BucketsOf(points, limit, buckets)
  {
    forall i | 0 <= i < limit
      ensures Bucket(points, i, limit) != []
    {
      BucketSizes(i, |points|, limit);
      LeastSize(|points|, limit);
      BucketEnds(points, i, limit);
    }
    hide Bucket, MeanPoint;
    buckets := seq(limit, i requires 0 <= i < limit => MeanPoint(Bucket(points, i, limit)));
  }

  lemma NotEven(samples: seq<Reading>, limit: nat) returns (b: nat, x: nat)
    requires samples != [] && 1 <= limit && !EvenBuckets(samples, limit)
    ensures b < limit && Edge(samples, limit, b) <= x < Edge(samples, limit, b + 1)
    ensures var (from, to) := (Edge(samples, limit, b), Edge(samples, limit, b + 1));
            Over((to - from) as real, Elapsed(samples, x)) != samples[to].at - samples[from].at
  {
    hide Edge;
    b :| b < limit && !EvenBetween(samples, Edge(samples, limit, b), Edge(samples, limit, b + 1));
    var from, to := Edge(samples, limit, b), Edge(samples, limit, b + 1);
    var i, j :| from <= i < to && from <= j < to && Elapsed(samples, i) != Elapsed(samples, j);
    hide Over;
    OneIsOff((to - from) as real, Elapsed(samples, i), Elapsed(samples, j), samples[to].at - samples[from].at);
    x := if Over((to - from) as real, Elapsed(samples, i)) != samples[to].at - samples[from].at then i else j;
  }

  /** Where some bucket's readings are not equally spaced, a single byte at the right moment is plotted as more or less. */
  lemma UnevenMisleads(samples: seq<Reading>, limit: nat) returns (other: seq<Reading>, buckets: seq<Point>)
    requires TimesAdvance(samples) && 1 <= limit < |samples| && !EvenBuckets(samples, limit)
    ensures SameTimes(samples, other) && CountersGrow(other)
    ensures BucketsOf(RatesOf(other), limit, buckets) && !AreaKept(other, limit, buckets)
  {
    var b, x := NotEven(samples, limit);
    other := Jump(samples, x);
    assert SameTimes(samples, other) && CountersGrow(other) && TimesAdvance(other);
    hide EvenBuckets, Jump, RatesOf, Edge, Transferred, TimesAdvance, CountersGrow, SameTimes, Under, AveragedArea;
    JumpRate(samples, x, x);
    buckets := MeansExist(RatesOf(other), limit);
    assert |buckets| == limit;
    hide BucketsOf;
    JumpArea(samples, limit, buckets, b, x, limit);
    SpikeArea(samples, limit, buckets, b, x);
    JumpGain(samples, x);
  }

  lemma SameSpacing(samples: seq<Reading>, other: seq<Reading>, limit: nat)
    requires samples != [] && SameTimes(samples, other) && 1 <= limit && EvenBuckets(samples, limit)
    ensures EvenBuckets(other, limit)
  {
    hide Edge;
    forall b | 0 <= b < limit
      ensures EvenBetween(other, Edge(other, limit, b), Edge(other, limit, b + 1))
    {
      SameEdge(samples, other, limit, b);
      SameEdge(samples, other, limit, b + 1);
      assert EvenBetween(samples, Edge(samples, limit, b), Edge(samples, limit, b + 1));
      forall i, j | Edge(samples, limit, b) <= i < Edge(samples, limit, b + 1) && Edge(samples, limit, b) <= j < Edge(samples, limit, b + 1)
        ensures Elapsed(other, i) == Elapsed(other, j)
      {
        assert Elapsed(samples, i) == Elapsed(samples, j);
      }
    }
  }

  /**
   The area under the averaged curve is what the counters gained, whatever they did, if and only if the readings are
   equally spaced within each bucket.
   */
  lemma AveragedAreaExactly(samples: seq<Reading>, limit: nat)
    requires TimesAdvance(samples) && 1 <= limit < |samples|
    ensures EvenBuckets(samples, limit) <==>
            forall other: seq<Reading>, buckets: seq<Point> ::
              SameTimes(samples, other) && BucketsOf(RatesOf(other), limit, buckets) ==> AreaKept(other, limit, buckets)
  {
    if EvenBuckets(samples, limit) {
      forall other: seq<Reading>, buckets: seq<Point> | SameTimes(samples, other) && BucketsOf(RatesOf(other), limit, buckets)
        ensures AreaKept(other, limit, buckets)
      {
        assert TimesAdvance(other);
        hide EvenBuckets, BucketsOf, RatesOf, AreaKept, SameTimes, TimesAdvance;
        SameSpacing(samples, other, limit);
        EvenIsKept(other, limit, buckets);
      }
    } else {
      hide EvenBuckets, RatesOf, AreaKept, CountersGrow, TimesAdvance;
      var other, buckets := UnevenMisleads(samples, limit);
      hide BucketsOf, SameTimes;
    }
  }

  /** Samples taken at a fixed interval are equally spaced in every bucket. */
  lemma FixedIntervalIsKept(samples: seq<Reading>, limit: nat, buckets: seq<Point>, interval: real)
    requires samples != [] && interval > 0.0 && 1 <= limit && BucketsOf(RatesOf(samples), limit, buckets)
    requires forall i :: 0 <= i < |samples| - 1 ==> samples[i + 1].at == samples[i].at + interval
    ensures AreaKept(samples, limit, buckets)
  {
    hide Edge, BucketsOf, RatesOf, AreaKept;
    assert forall i :: 0 <= i < |samples| - 1 ==> Elapsed(samples, i) == interval;
    EvenIsKept(samples, limit, buckets);
  }

  // ---- bounds ----

  lemma {:induction false} SumBetween(s: seq<real>, low: real, high: real)
    requires forall i :: 0 <= i < |s| ==> low <= s[i] <= high
    ensures low * |s| as real <= Sum(s) <= high * |s| as real
  {
    if s == [] {
    } else {
      var n := |s| - 1;
      SumBetween(s[..n], low, high);
      assert low * (n + 1) as real == low * n as real + low;
      assert high * (n + 1) as real == high * n as real + high;
    }
  }

  lemma QuotientBetween(sum: real, count: real, low: real, high: real)
    requires count > 0.0 && low * count <= sum <= high * count
    ensures low <= sum / count <= high
  {
    assert (sum - low * count) / count == sum / count - low;
    assert (high * count - sum) / count == high - sum / count;
  }

  lemma MeanBetween(s: seq<real>, low: real, high: real)
    requires s != [] && forall i :: 0 <= i < |s| ==> low <= s[i] <= high
    ensures low <= Mean(s) <= high
  {
    SumBetween(s, low, high);
    QuotientBetween(Sum(s), |s| as real, low, high);
  }

  /** The highest value, 0 if there is none. */
  function Peak(points: seq<Point>, of: Point -> real): (peak: real)
    ensures forall i :: 0 <= i < |points| ==> of(points[i]) <= peak
    ensures points != [] ==> exists i :: 0 <= i < |points| && of(points[i]) == peak
  {
    if points == [] then 0.0
    else if |points| == 1 then of(points[0])
    else
      var earlier := Peak(points[..|points| - 1], of);
      if earlier < of(points[|points| - 1]) then of(points[|points| - 1]) else earlier
  }

  lemma BucketBetween(points: seq<Point>, limit: nat, buckets: seq<Point>, i: nat, of: Point -> real, low: real, high: real)
    requires 1 <= limit && BucketsOf(points, limit, buckets) && i < limit && Averaged(of)
    requires forall k :: 0 <= k < |Bucket(points, i, limit)| ==> low <= of(Bucket(points, i, limit)[k]) <= high
    ensures low <= of(buckets[i]) <= high
  {
    var chunk := Bucket(points, i, limit);
    assert chunk != [] && of(MeanPoint(chunk)) == Mean(Values(chunk, of));
    hide Bucket, Mean, MeanPoint, Averaged;
    MeanBetween(Values(chunk, of), low, high);
  }

  lemma BucketIn(points: seq<Point>, i: nat, limit: nat, k: nat)
    requires limit >= 1 && i < limit && k < |Bucket(points, i, limit)|
    ensures Bound(i, |points|, limit) + k < Bound(i + 1, |points|, limit) <= |points|
    ensures Bucket(points, i, limit)[k] == points[Bound(i, |points|, limit) + k]
  {
    BoundsFit(i, |points|, limit);
    hide Bound;
  }

  lemma {:induction false} SomeLow(points: seq<Point>, of: Point -> real) returns (low: real)
    ensures forall i :: 0 <= i < |points| ==> low <= of(points[i])
  {
    if points == [] {
      low := 0.0;
    } else {
      low := SomeLow(points[..|points| - 1], of);
      if of(points[|points| - 1]) < low { low := of(points[|points| - 1]); }
    }
  }

  /** No mean exceeds the reported peak. */
  lemma MeansBelowPeak(points: seq<Point>, limit: nat, buckets: seq<Point>, i: nat)
    requires 1 <= limit && BucketsOf(points, limit, buckets) && i < limit
    ensures buckets[i].rx <= Peak(points, Rx()) && buckets[i].tx <= Peak(points, Tx())
  {
    AllAveraged();
    var lowRx := SomeLow(points, Rx());
    var lowTx := SomeLow(points, Tx());
    var peakRx, peakTx := Peak(points, Rx()), Peak(points, Tx());
    forall k | 0 <= k < |Bucket(points, i, limit)|
      ensures lowRx <= Rx()(Bucket(points, i, limit)[k]) <= peakRx && lowTx <= Tx()(Bucket(points, i, limit)[k]) <= peakTx
    {
      BucketIn(points, i, limit, k);
    }
    hide Averaged, BucketsOf, Bucket, Bound, Peak;
    BucketBetween(points, limit, buckets, i, Rx(), lowRx, peakRx);
    BucketBetween(points, limit, buckets, i, Tx(), lowTx, peakTx);
  }

  ghost predicate Advance(points: seq<Point>) {
    forall i, j :: 0 <= i < j < |points| ==> points[i].t < points[j].t
  }

  /** The mean time of a bucket lies between its first and its last. */
  lemma TimeWithin(points: seq<Point>, limit: nat, buckets: seq<Point>, i: nat)
    requires 1 <= limit && BucketsOf(points, limit, buckets) && i < limit && Advance(points)
    ensures var chunk := Bucket(points, i, limit);
            chunk != [] && chunk[0].t <= buckets[i].t <= chunk[|chunk| - 1].t
  {
    AllAveraged();
    var chunk := Bucket(points, i, limit);
    assert chunk != [];
    forall k | 0 <= k < |chunk|
      ensures chunk[0].t <= T()(chunk[k]) <= chunk[|chunk| - 1].t
    {
      BucketIn(points, i, limit, 0);
      BucketIn(points, i, limit, k);
      BucketIn(points, i, limit, |chunk| - 1);
    }
    hide Averaged, BucketsOf, Bucket, Advance;
    BucketBetween(points, limit, buckets, i, T(), chunk[0].t, chunk[|chunk| - 1].t);
  }

  /** Times that increase still increase after averaging. */
  lemma TimesStillIncrease(points: seq<Point>, limit: nat, buckets: seq<Point>, i: nat)
    requires 1 <= limit && BucketsOf(points, limit, buckets) && i + 1 < limit && Advance(points)
    ensures buckets[i].t < buckets[i + 1].t
  {
    TimeWithin(points, limit, buckets, i);
    TimeWithin(points, limit, buckets, i + 1);
    BucketIn(points, i, limit, |Bucket(points, i, limit)| - 1);
    BucketIn(points, i + 1, limit, 0);
    BucketEnds(points, i, limit);
    hide Bucket, Bound, BucketsOf;
  }

  lemma BucketEnds(points: seq<Point>, i: nat, limit: nat)
    requires limit >= 1 && i < limit
    ensures |Bucket(points, i, limit)| == Bound(i + 1, |points|, limit) - Bound(i, |points|, limit)
  {
    BoundsFit(i, |points|, limit);
    hide Bound;
  }

  lemma {:induction false} RatesAdvance(samples: seq<Reading>)
    requires TimesAdvance(samples) && samples != []
    ensures |RatesOf(samples)| == |samples| - 1
    ensures forall k :: 0 <= k < |RatesOf(samples)| ==> RatesOf(samples)[k].t == samples[k + 1].at
  {
    if |samples| == 1 {
    } else {
      assert samples[|samples| - 2].at < samples[|samples| - 1].at;
      RatesAdvance(samples[..|samples| - 1]);
    }
  }

  // ---- the series ----

  method SeriesOf(samples: seq<Reading>, limit: int) returns (s: Series)
    ensures samples == [] ==> s == Series([], 0, 0, 0.0, 0.0, 0.0)
    ensures samples != [] ==>
            var full, last := RatesOf(samples), samples[|samples| - 1];
            && s.bytesIn == last.bytesIn && s.bytesOut == last.bytesOut
            && s.peakRx == Peak(full, Rx()) && s.peakTx == Peak(full, Tx())
            && s.span == last.at - samples[0].at
            && (if limit < 1 || |full| <= limit then s.points == full else BucketsOf(full, limit, s.points))
  {
    hide BucketsOf, RatesOf, Peak;
    if samples == [] {
      return Series([], 0, 0, 0.0, 0.0, 0.0);
    }
    var full := Rates(samples);
    var points := Downsample(full, limit);
    var last := samples[|samples| - 1];
    s := Series(points, last.bytesIn, last.bytesOut, Peak(full, Rx()), Peak(full, Tx()), last.at - samples[0].at);
  }

  /** With counters that never fall, the reported totals are the first reading plus the area under the full curve. */
  lemma TotalsFit(samples: seq<Reading>)
    requires samples != [] && TimesAdvance(samples) && CountersGrow(samples)
    ensures |RatesOf(samples)| == |samples| - 1
    ensures samples[|samples| - 1].bytesIn as real == samples[0].bytesIn as real + Area(samples, RatesOf(samples), Rx())
    ensures samples[|samples| - 1].bytesOut as real == samples[0].bytesOut as real + Area(samples, RatesOf(samples), Tx())
  {
    AreaIsTransferred(samples);
    GrowthIsTheDifference(samples);
    hide RatesOf, Area, Transferred;
  }
}
