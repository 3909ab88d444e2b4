/**
Benchmark results, one row per iteration and one column per metric, flattened row by row
into one array. Samples are reals: rounding of doubles is not modelled.
*/
module ResultMatrix {
  import opened Text

  // ---- Columns of the flattened array ----

  predicate Sized(d: seq<real>, n: nat, w: nat) {
    |d| == n * w
  }

  // Where a cell lies in the array.
  function Index(w: nat, i: nat, m: nat): nat {
    i * w + m
  }

  // A cell of an earlier row lies before every cell of a later one.
  lemma RowsAreOrdered(w: nat, i: nat, m: nat, i': nat)
    requires m < w && i < i'
    ensures Index(w, i, m) < i' * w
  {
    assert (i + 1) * w <= i' * w;
  }

  lemma CellsAreDistinct(w: nat, i: nat, m: nat, i': nat, m': nat)
    requires m < w && m' < w
    ensures Index(w, i, m) == Index(w, i', m') <==> i == i' && m == m'
  {
    if i < i' {
      RowsAreOrdered(w, i, m, i');
    } else if i' < i {
      RowsAreOrdered(w, i', m', i);
    }
  }

  function At(d: seq<real>, n: nat, w: nat, i: nat, m: nat): real
    requires Sized(d, n, w) && i < n && m < w
  {
    RowsAreOrdered(w, i, m, n);
    d[Index(w, i, m)]
  }

  function Column(d: seq<real>, n: nat, w: nat, m: nat): (c: seq<real>)
    requires Sized(d, n, w) && m < w
    ensures |c| == n && forall i :: 0 <= i < n ==> c[i] == At(d, n, w, i, m)
  {
    seq(n, i requires 0 <= i < n => At(d, n, w, i, m))
  }

  // Writing one cell writes no other.
  lemma OneCell(d: seq<real>, n: nat, w: nat, i: nat, m: nat, v: real, i': nat, m': nat)
    requires Sized(d, n, w) && i < n && m < w && i' < n && m' < w
    requires Index(w, i, m) < |d|
    ensures Sized(d[Index(w, i, m) := v], n, w)
    ensures At(d[Index(w, i, m) := v], n, w, i', m') ==
            if i' == i && m' == m then v else At(d, n, w, i', m')
  {
    CellsAreDistinct(w, i, m, i', m');
    RowsAreOrdered(w, i', m', n);
    hide Index;
  }

  // ---- Order statistics ----

  predicate Sorted(s: seq<real>) {
    forall i, j :: 0 <= i < j < |s| ==> s[i] <= s[j]
  }

  function Inserted(x: real, s: seq<real>): (r: seq<real>)
    ensures |r| == |s| + 1 && multiset(r) == multiset(s) + multiset{x}
  {
    if s == [] then [x]
    else if x <= s[0] then [x] + s
    else
      assert s == [s[0]] + s[1..];
      [s[0]] + Inserted(x, s[1..])
  }

  // The sorted rearrangement of a column.
  function Ranked(c: seq<real>): (r: seq<real>)
    ensures |r| == |c| && multiset(r) == multiset(c)
  {
    if c == [] then []
    else
      assert c == [c[0]] + c[1..];
      Inserted(c[0], Ranked(c[1..]))
  }

  lemma InsertStep(x: real, s: seq<real>)
    requires s != []
    ensures Inserted(x, s) == if x <= s[0] then [x] + s else [s[0]] + Inserted(x, s[1..])
  {
  }

  lemma SortedCons(y: real, s: seq<real>)
    requires Sorted(s) && (s != [] ==> y <= s[0])
    ensures Sorted([y] + s)
  {
    forall k | 0 <= k < |s| ensures y <= s[k] {
      assert k == 0 || s[0] <= s[k];
    }
  }

  lemma SortedTail(s: seq<real>)
    requires s != [] && Sorted(s)
    ensures Sorted(s[1..])
  {
  }

  lemma {:induction false} InsertedSorted(x: real, s: seq<real>)
    requires Sorted(s)
    ensures Sorted(Inserted(x, s))
    decreases |s|
  {
    hide Inserted;
    if s == [] {
      assert Sorted([x]);
      InsertIntoNone(x);
    } else {
      InsertStep(x, s);
      SortedTail(s);
      if x <= s[0] {
        SortedCons(x, s);
      } else {
        InsertedSorted(x, s[1..]);
        if |s| > 1 {
          InsertStep(x, s[1..]);
        } else {
          InsertIntoNone(x);
        }
        SortedCons(s[0], Inserted(x, s[1..]));
      }
    }
  }

  lemma InsertIntoNone(x: real)
    ensures Inserted(x, []) == [x]
  {
  }

  lemma {:induction false} RankedSorted(c: seq<real>)
    ensures Sorted(Ranked(c))
    decreases |c|
  {
    if c != [] {
      RankedSorted(c[1..]);
      InsertedSorted(c[0], Ranked(c[1..]));
    }
  }

  // A sorted sequence is determined by its elements.
  lemma {:induction false} SortedUnique(s: seq<real>, t: seq<real>)
    requires Sorted(s) && Sorted(t) && multiset(s) == multiset(t)
    ensures s == t
    decreases |s|
  {
    assert |multiset(s)| == |s| && |multiset(t)| == |t|;
    if s != [] {
      FirstNotAbove(s, t);
      FirstNotAbove(t, s);
      SortedTail(s);
      SortedTail(t);
      hide Sorted;
      WithoutFirst(s);
      WithoutFirst(t);
      SortedUnique(s[1..], t[1..]);
      assert s == [s[0]] + s[1..] && t == [t[0]] + t[1..];
    }
  }

  lemma FirstNotAbove(s: seq<real>, t: seq<real>)
    requires Sorted(s) && multiset(s) == multiset(t) && s != [] && t != []
    ensures s[0] <= t[0]
  {
    assert t[0] in multiset(s);
    var k :| 0 <= k < |s| && s[k] == t[0];
  }

  lemma WithoutFirst(s: seq<real>)
    requires s != []
    ensures multiset(s[1..]) == multiset(s) - multiset{s[0]}
  {
    assert s == [s[0]] + s[1..];
  }

  method SortInPlace(a: array<real>)
    modifies a
    ensures a[..] == Ranked(old(a[..]))
  {
    for i := 0 to a.Length
      invariant Sorted(a[..i])
      invariant multiset(a[..]) == multiset(old(a[..]))
    {
      Sink(a, i);
    }
    assert a[..a.Length] == a[..];
    RankedSorted(old(a[..]));
    SortedUnique(a[..], Ranked(old(a[..])));
  }

  method Sink(a: array<real>, i: nat)
    requires i < a.Length && Sorted(a[..i])
    modifies a
    ensures Sorted(a[..i + 1]) && multiset(a[..]) == multiset(old(a[..]))
  {
    hide Sorted;
    var j := i;
    SinkStart(a[..], i);
    while j > 0 && a[j - 1] > a[j]
      invariant 0 <= j <= i && Sinking(a[..], i, j)
      invariant multiset(a[..]) == multiset(old(a[..]))
    {
      ghost var before := a[..];
      a[j - 1], a[j] := a[j], a[j - 1];
      assert a[..] == before[j - 1 := before[j]][j := before[j - 1]];
      SinkStep(before, i, j);
      j := j - 1;
    }
    SinkEnd(a[..], i, j);
    assert a[..][..i + 1] == a[..i + 1];
  }

  // Everything up to i is in order, but for the sample at j among those before it.
  ghost predicate Sinking(s: seq<real>, i: nat, j: nat)
    requires j <= i < |s|
  {
    forall p, q :: 0 <= p < q <= i && q != j ==> s[p] <= s[q]
  }

  lemma SinkStart(s: seq<real>, i: nat)
    requires i < |s| && Sorted(s[..i])
    ensures Sinking(s, i, i)
  {
    forall p, q | 0 <= p < q < i ensures s[p] <= s[q] {
      assert s[..i][p] <= s[..i][q];
    }
  }

  lemma SinkStep(s: seq<real>, i: nat, j: nat)
    requires 0 < j <= i < |s| && Sinking(s, i, j) && s[j - 1] > s[j]
    ensures Sinking(s[j - 1 := s[j]][j := s[j - 1]], i, j - 1)
    ensures multiset(s[j - 1 := s[j]][j := s[j - 1]]) == multiset(s)
  {
  }

  lemma SinkEnd(s: seq<real>, i: nat, j: nat)
    requires j <= i < |s| && Sinking(s, i, j) && (j > 0 ==> s[j - 1] <= s[j])
    ensures Sorted(s[..i + 1])
  {
    forall p | 0 <= p < j ensures s[p] <= s[j] {
      assert p == j - 1 || s[p] <= s[j - 1];
    }
  }

  // ---- Percentiles ----

  // The product in column_percentile, before it is cast to an index.
  function Rank(n: nat, pct: int): real
    requires n > 0
  {
    pct as real / 100.0 * (n - 1) as real
  }

  // The cast of a double to size_t truncates; outside these bounds it is undefined.
  predicate CastDefined(rank: real) {
    -1.0 < rank < U64 as real
  }

  function Truncated(rank: real): nat
    requires CastDefined(rank)
  {
    if rank < 0.0 then 0 else rank.Floor
  }

  function Lerp(a: real, b: real, f: real): real {
    a + f * (b - a)
  }

  // The value at a position of a sorted sequence, linear between neighbours.
  function Curve(s: seq<real>, x: real): real
    requires s != [] && CastDefined(x)
  {
    var k := Truncated(x);
    if k + 1 >= |s| then s[|s| - 1] else Lerp(s[k], s[k + 1], x - k as real)
  }

  // A value, the exception, or undefined behaviour.
  datatype Outcome = Value(value: real) | OutOfRange | Undefined

  function Percentile(c: seq<real>, pct: int): Outcome {
    if c == [] then Value(0.0)
    else if !CastDefined(Rank(|c|, pct)) then Undefined
    else Value(Curve(Ranked(c), Rank(|c|, pct)))
  }

  method Interpolate(col: array<real>, rank: real) returns (value: real)
    requires col.Length > 0 && CastDefined(rank)
    ensures value == Curve(col[..], rank)
  {
    var lower := Truncated(rank);
    var frac := rank - lower as real;
    if lower + 1 >= col.Length {
      return col[col.Length - 1];
    }
    value := Lerp(col[lower], col[lower + 1], frac);
  }

  class BenchmarkResultMatrix {
    const iterations: nat
    const metricNames: seq<string>
    const data: array<real>

    ghost predicate Valid()
      reads this, data
    {
      Sized(data[..], iterations, |metricNames|)
    }

    constructor (iterations: nat, metricNames: seq<string>)
      ensures Valid() && fresh(data) && this.iterations == iterations && this.metricNames == metricNames
      ensures forall i :: 0 <= i < data.Length ==> data[i] == 0.0
    {
      this.iterations := iterations;
      this.metricNames := metricNames;
      this.data := new real[iterations * |metricNames|](_ => 0.0);
    }

    // record: false where the source throws.
    method Record(iteration: nat, metric: nat, value: real) returns (ok: bool)
      requires Valid()
      modifies data
      ensures Valid() && ok == (iteration < iterations && metric < |metricNames|)
      ensures forall i: nat, m: nat :: i < iterations && m < |metricNames| ==>
                At(data[..], iterations, |metricNames|, i, m) ==
                if i == iteration && m == metric then value
                else At(old(data[..]), iterations, |metricNames|, i, m)
      ensures !ok ==> data[..] == old(data[..])
    {
      ok := iteration < iterations && metric < |metricNames|;
      if ok {
        var k := Index(|metricNames|, iteration, metric);
        RowsAreOrdered(|metricNames|, iteration, metric, iterations);
        ghost var before := data[..];
        data[k] := value;
        assert data[..] == before[k := value];
        forall i: nat, m: nat | i < iterations && m < |metricNames|
          ensures At(data[..], iterations, |metricNames|, i, m) ==
                  if i == iteration && m == metric then value
                  else At(before, iterations, |metricNames|, i, m)
        {
          OneCell(before, iterations, |metricNames|, iteration, metric, value, i, m);
        }
      }
    }

    method ColumnMean(metric: nat) returns (r: Outcome)
      requires Valid()
      ensures r == if metric >= |metricNames| then OutOfRange
                   else Value(Mean(Column(data[..], iterations, |metricNames|, metric)))
    {
      if metric >= |metricNames| {
        return OutOfRange;
      }
      if iterations == 0 {
        return Value(0.0);
      }
      ghost var c := Column(data[..], iterations, |metricNames|, metric);
      var sum := 0.0;
      for i := 0 to iterations
        invariant sum == Sum(c[..i])
      {
        RowsAreOrdered(|metricNames|, i, metric, iterations);
        assert c[..i + 1][..i] == c[..i];
        sum := sum + data[Index(|metricNames|, i, metric)];
      }
      assert c[..iterations] == c;
      r := Value(sum / iterations as real);
    }

    method ColumnPercentile(metric: nat, pct: int) returns (r: Outcome)
      requires Valid()
      ensures r == if metric >= |metricNames| then OutOfRange
                   else Percentile(Column(data[..], iterations, |metricNames|, metric), pct)
    {
      if metric >= |metricNames| {
        return OutOfRange;
      }
      if iterations == 0 {
        return Value(0.0);
      }
      hide Rank, Lerp, Curve, Ranked, Column;
      var col := CopyColumn(metric);
      SortInPlace(col);
      var rank := Rank(iterations, pct);
      if !CastDefined(rank) {
        return Undefined;
      }
      var value := Interpolate(col, rank);
      r := Value(value);
    }

    method CopyColumn(metric: nat) returns (col: array<real>)
      requires Valid() && metric < |metricNames|
      ensures fresh(col) && col[..] == Column(data[..], iterations, |metricNames|, metric)
    {
      col := new real[iterations];
      for i := 0 to iterations
        invariant forall k :: 0 <= k < i ==> col[k] == At(data[..], iterations, |metricNames|, k, metric)
      {
        RowsAreOrdered(|metricNames|, i, metric, iterations);
        col[i] := data[Index(|metricNames|, i, metric)];
      }
    }
  }

  // ---- Means ----

  function Sum(c: seq<real>): real {
    if c == [] then 0.0 else Sum(c[..|c| - 1]) + c[|c| - 1]
  }

  function Mean(c: seq<real>): real {
    if c == [] then 0.0 else Sum(c) / |c| as real
  }

  lemma {:induction false} SumBetween(c: seq<real>, lo: real, hi: real)
    requires forall x :: x in c ==> lo <= x <= hi
    ensures lo * |c| as real <= Sum(c) <= hi * |c| as real
    decreases |c|
  {
    if c != [] {
      var k := |c| - 1;
      forall x | x in c[..k] ensures lo <= x <= hi {
        assert x in c;
      }
      SumBetween(c[..k], lo, hi);
      assert c[k] in c;
      assert lo * |c| as real == lo * k as real + lo && hi * |c| as real == hi * k as real + hi;
    }
  }

  lemma MeanBetween(c: seq<real>, lo: real, hi: real)
    requires c != [] && forall x :: x in c ==> lo <= x <= hi
    ensures lo <= Mean(c) <= hi
  {
    SumBetween(c, lo, hi);
    var n := |c| as real;
    assert Mean(c) * n == Sum(c);
    assert (Mean(c) - lo) * n >= 0.0 && (hi - Mean(c)) * n >= 0.0;
  }

  // Recording one sample moves the sum by the change of that sample.
  lemma {:induction false} SumOfUpdate(c: seq<real>, i: nat, v: real)
    requires i < |c|
    ensures Sum(c[i := v]) == Sum(c) - c[i] + v
    decreases |c|
  {
    var k := |c| - 1;
    if i < k {
      SumOfUpdate(c[..k], i, v);
      assert c[i := v][..k] == c[..k][i := v];
    } else {
      assert c[i := v][..k] == c[..k];
    }
  }

  // ---- What a percentile is ----

  lemma RankGrows(n: nat, p: int, q: int)
    requires n > 0 && p <= q
    ensures Rank(n, p) <= Rank(n, q)
  {
    var m := (n - 1) as real;
    assert p as real / 100.0 <= q as real / 100.0;
    assert (q as real / 100.0 - p as real / 100.0) * m >= 0.0;
  }

  lemma RankEnds(n: nat)
    requires n > 0
    ensures Rank(n, 0) == 0.0 && Rank(n, 100) == (n - 1) as real
  {
  }

  lemma LerpGrows(a: real, b: real, f: real, g: real)
    requires a <= b && f <= g
    ensures Lerp(a, b, f) <= Lerp(a, b, g)
  {
    assert Lerp(a, b, g) - Lerp(a, b, f) == (g - f) * (b - a);
  }

  lemma LerpEnds(a: real, b: real)
    ensures Lerp(a, b, 0.0) == a && Lerp(a, b, 1.0) == b
  {
  }

  lemma LerpBelow(a: real, b: real, f: real)
    requires a < b && f < 0.0
    ensures Lerp(a, b, f) < a
  {
    assert f * (b - a) < 0.0;
  }

  // On its own segment the curve stays between the two samples.
  lemma CurveOnSegment(s: seq<real>, x: real)
    requires s != [] && Sorted(s) && 0.0 <= x && CastDefined(x)
    ensures var k := Truncated(x);
            k + 1 < |s| ==> s[k] <= Curve(s, x) <= s[k + 1]
  {
    hide Lerp;
    var k := Truncated(x);
    if k + 1 < |s| {
      LerpEnds(s[k], s[k + 1]);
      LerpGrows(s[k], s[k + 1], 0.0, x - k as real);
      LerpGrows(s[k], s[k + 1], x - k as real, 1.0);
    }
  }

  lemma CurveGrows(s: seq<real>, x: real, y: real)
    requires s != [] && Sorted(s) && CastDefined(x) && CastDefined(y) && x <= y
    ensures Curve(s, x) <= Curve(s, y)
  {
    hide Lerp;
    var k, l := Truncated(x), Truncated(y);
    if k == l {
      if k + 1 < |s| {
        LerpGrows(s[k], s[k + 1], x - k as real, y - k as real);
      }
    } else {
      CurveOnSegment(s, y);
      if x >= 0.0 {
        CurveOnSegment(s, x);
      } else if |s| > 1 {
        LerpEnds(s[0], s[1]);
        LerpGrows(s[0], s[1], x, 0.0);
      }
    }
  }

  // Percentiles never decrease as the percentage grows.
  lemma PercentileGrows(c: seq<real>, p: int, q: int)
    requires p <= q && Percentile(c, p).Value? && Percentile(c, q).Value?
    ensures Percentile(c, p).value <= Percentile(c, q).value
  {
    hide Rank, Curve, Ranked, CastDefined;
    if c != [] {
      RankGrows(|c|, p, q);
      RankedSorted(c);
      CurveGrows(Ranked(c), Rank(|c|, p), Rank(|c|, q));
    }
  }

  ghost predicate IsMin(c: seq<real>, v: real) {
    v in c && forall x :: x in c ==> v <= x
  }

  ghost predicate IsMax(c: seq<real>, v: real) {
    v in c && forall x :: x in c ==> x <= v
  }

  lemma EndsOfRanked(c: seq<real>)
    requires c != []
    ensures IsMin(c, Ranked(c)[0]) && IsMax(c, Ranked(c)[|c| - 1])
  {
    hide Ranked;
    var s := Ranked(c);
    RankedSorted(c);
    SameMembers(s, c);
    assert s[0] in s && s[|c| - 1] in s;
  }

  lemma SameMembers(s: seq<real>, c: seq<real>)
    requires multiset(s) == multiset(c)
    ensures forall x :: x in s <==> x in c
  {
    forall x ensures x in s <==> x in c {
      assert x in s <==> x in multiset(s);
      assert x in c <==> x in multiset(c);
    }
  }

  // The 0th percentile is the minimum and the 100th, like any above it, the maximum.
  lemma PercentileEnds(c: seq<real>, pct: int)
    requires c != [] && |c| <= U64 && pct >= 100
    ensures Percentile(c, 0).Value? && IsMin(c, Percentile(c, 0).value)
    ensures Percentile(c, pct).Value? ==> IsMax(c, Percentile(c, pct).value)
    ensures Percentile(c, 100).Value?
  {
    hide Rank, Lerp, Ranked, IsMin, IsMax;
    var s := Ranked(c);
    RankEnds(|c|);
    RankGrows(|c|, 100, pct);
    EndsOfRanked(c);
    if |c| > 1 {
      LerpEnds(s[0], s[1]);
    }
  }

  // A percentile lies within the column exactly when the percentage is not negative, or the
  // two smallest samples are equal.
  lemma PercentileBetween(c: seq<real>, pct: int, lo: real, hi: real)
    requires Percentile(c, pct).Value? && IsMin(c, lo) && IsMax(c, hi)
    ensures lo <= Percentile(c, pct).value <= hi <==>
            pct >= 0 || |c| == 1 || Ranked(c)[0] == Ranked(c)[1]
  {
    hide Rank, Lerp, Ranked, Curve;
    var s, rank := Ranked(c), Rank(|c|, pct);
    EndsOfRanked(c);
    RankedSorted(c);
    RankEnds(|c|);
    if pct >= 0 {
      RankGrows(|c|, 0, pct);
    } else if |c| > 1 {
      NegativeRank(|c|, pct);
    }
    CurveBetween(s, rank);
    if |c| == 1 {
      OneSample(pct);
    }
  }

  // The tenth percentile below zero of two samples lies below both.
  lemma NegativePercentage()
    ensures Percentile([0.0, 1.0], -10) == Value(-0.1)
  {
    var c := [0.0, 1.0];
    assert Rank(2, -10) == -0.1;
    assert multiset(Ranked(c)) == multiset(c);
    RankedSorted(c);
    SortedUnique(Ranked(c), c);
  }

  lemma OneSample(pct: int)
    ensures Rank(1, pct) == 0.0
  {
  }

  lemma CurveBetween(s: seq<real>, x: real)
    requires s != [] && Sorted(s) && CastDefined(x)
    ensures s[0] <= Curve(s, x) <= s[|s| - 1] <==> 0.0 <= x || |s| == 1 || s[0] == s[1]
  {
    hide Lerp;
    if 0.0 <= x {
      CurveOnSegment(s, x);
    } else if |s| > 1 {
      LerpEnds(s[0], s[1]);
      LerpGrows(s[0], s[1], x, 0.0);
      if s[0] < s[1] {
        LerpBelow(s[0], s[1], x);
      } else {
        LerpFlat(s[0], x);
      }
    }
  }

  lemma LerpFlat(a: real, f: real)
    ensures Lerp(a, a, f) == a
  {
  }

  lemma NegativeRank(n: nat, pct: int)
    requires n > 1 && pct < 0
    ensures Rank(n, pct) < 0.0
  {
    assert pct as real / 100.0 < 0.0;
    assert (n - 1) as real > 0.0;
  }

  // Where the rank is a whole number the percentile is that order statistic.
  lemma PercentileHits(c: seq<real>, pct: nat, k: nat)
    requires k < |c| <= U64 && pct * (|c| - 1) == 100 * k
    ensures Percentile(c, pct) == Value(Ranked(c)[k])
  {
    hide Percentile, Rank, Ranked;
    WholeRank(|c|, pct, k);
    HitsAt(c, pct, k);
  }

  lemma HitsAt(c: seq<real>, pct: nat, k: nat)
    requires k < |c| <= U64 && Rank(|c|, pct) == k as real
    ensures Percentile(c, pct) == Value(Ranked(c)[k])
  {
    hide Rank, Lerp, Ranked;
    if k + 1 < |c| {
      LerpEnds(Ranked(c)[k], Ranked(c)[k + 1]);
    }
  }

  lemma WholeRank(n: nat, pct: nat, k: nat)
    requires n > 0 && pct * (n - 1) == 100 * k
    ensures Rank(n, pct) == k as real
  {
    assert (pct * (n - 1)) as real == pct as real * (n - 1) as real;
  }

  // The order of the iterations does not matter.
  lemma ReorderingIgnored(c: seq<real>, c': seq<real>, pct: int)
    requires multiset(c) == multiset(c')
    ensures Percentile(c, pct) == Percentile(c', pct)
  {
    assert |multiset(c)| == |c| && |multiset(c')| == |c'|;
    RankedSorted(c);
    RankedSorted(c');
    SortedUnique(Ranked(c), Ranked(c'));
  }

  // ---- Larger samples, larger percentiles ----

  ghost predicate Below(s: seq<real>, t: seq<real>) {
    |s| == |t| && forall i :: 0 <= i < |s| ==> s[i] <= t[i]
  }

  lemma {:induction false} InsertedBelow(x: real, s: seq<real>, y: real, t: seq<real>)
    requires x <= y && Below(s, t) && Sorted(s) && Sorted(t)
    ensures Below(Inserted(x, s), Inserted(y, t))
    decreases |s|
  {
    hide Inserted;
    if s == [] {
      InsertIntoNone(x);
      InsertIntoNone(y);
    } else {
      var s', t' := s[1..], t[1..];
      InsertStep(x, s);
      InsertStep(y, t);
      SortedTail(s);
      SortedTail(t);
      hide Sorted;
      if x <= s[0] && y > t[0] {
        InsertedBelow(s[0], s', y, t');
        InsertFront(s);
        BelowCons(x, s, t[0], Inserted(y, t'));
      } else if x > s[0] && y > t[0] {
        InsertedBelow(x, s', y, t');
        BelowCons(s[0], Inserted(x, s'), t[0], Inserted(y, t'));
      } else if x > s[0] {
        InsertedBelow(x, s', t[0], t');
        InsertFront(t);
        BelowCons(s[0], Inserted(x, s'), y, t);
      } else {
        BelowCons(x, s, y, t);
      }
    }
  }

  lemma BelowCons(x: real, s: seq<real>, y: real, t: seq<real>)
    requires x <= y && Below(s, t)
    ensures Below([x] + s, [y] + t)
  {
  }

  lemma InsertFront(s: seq<real>)
    requires s != [] && Sorted(s)
    ensures Inserted(s[0], s[1..]) == s
  {
    assert s == [s[0]] + s[1..];
    if |s| > 1 {
      InsertStep(s[0], s[1..]);
    }
  }

  lemma {:induction false} RankedBelow(c: seq<real>, d: seq<real>)
    requires Below(c, d)
    ensures Below(Ranked(c), Ranked(d))
    decreases |c|
  {
    if c != [] {
      RankedBelow(c[1..], d[1..]);
      RankedSorted(c[1..]);
      RankedSorted(d[1..]);
      InsertedBelow(c[0], Ranked(c[1..]), d[0], Ranked(d[1..]));
    }
  }

  lemma LerpBelowLerp(f: real, a: real, b: real, a': real, b': real)
    requires 0.0 <= f <= 1.0 && a <= a' && b <= b'
    ensures Lerp(a, b, f) <= Lerp(a', b', f)
  {
    assert Lerp(a', b', f) - Lerp(a, b, f) == (1.0 - f) * (a' - a) + f * (b' - b);
    Product(1.0 - f, a' - a);
    Product(f, b' - b);
  }

  lemma Product(f: real, d: real)
    requires 0.0 <= f && 0.0 <= d
    ensures 0.0 <= f * d
  {
  }

  // Raising samples never lowers a percentile.
  lemma PercentileMonotoneInSamples(c: seq<real>, d: seq<real>, pct: int)
    requires Below(c, d) && 0 <= pct && Percentile(c, pct).Value?
    ensures Percentile(d, pct).Value? && Percentile(c, pct).value <= Percentile(d, pct).value
  {
    hide Rank, Lerp, Ranked;
    if c != [] {
      RankedBelow(c, d);
      RankEnds(|c|);
      RankGrows(|c|, 0, pct);
      var rank := Rank(|c|, pct);
      var k := Truncated(rank);
      if k + 1 < |c| {
        var s, t := Ranked(c), Ranked(d);
        LerpBelowLerp(rank - k as real, s[k], s[k + 1], t[k], t[k + 1]);
      }
    }
  }

  // A column without samples has 0 for both; otherwise the cast is undefined exactly for
  // percentages far below zero or beyond 64 bits.
  lemma DefinedExactly(c: seq<real>, pct: int)
    ensures c == [] ==> Percentile(c, pct) == Value(0.0) && Mean(c) == 0.0
    ensures c != [] ==>
              (Percentile(c, pct) == Undefined <==>
               pct * (|c| - 1) <= -100 || pct * (|c| - 1) >= 100 * 0x1_0000_0000_0000_0000)
  {
    hide Ranked, Curve;
    if c != [] {
      var n := |c| - 1;
      assert Rank(|c|, pct) * 100.0 == pct as real * n as real == (pct * n) as real;
    }
  }
}
