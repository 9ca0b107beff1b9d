/** `calcular_metricas`: the KPI dictionary computed on the filtered table. */
module Metrics {
  import opened Options
  import opened Seqs
  import opened Table

  /** The six entries of the `metricas` dictionary. */
  datatype Metrics = Metrics(
    totalAum: real,
    totalClients: int,
    advisorCount: nat,
    segmentCount: nat,
    meanAum: Option<real>,
    medianAum: Option<real>)

  function Identity(x: real): real { x }

  function Below(m: real): real -> bool { x => x < m }

  function Above(m: real): real -> bool { x => x > m }

  function AtMost(m: real): real -> bool { x => x <= m }

  /** `v` is the `k`-th smallest value of `xs`, counting from 1 and with
      repetitions: fewer than `k` values lie strictly below it and at least
      `k` lie at or below it. */
  predicate IsKthSmallest(xs: seq<real>, v: real, k: nat) {
    CountWhere(xs, Below(v)) < k <= CountWhere(xs, AtMost(v))
  }

  /** `mean()`: undefined (NaN) on an empty column; otherwise the value that,
      taken once per row, gives the column total. */
  function MeanAum(t: seq<Record>): (m: Option<real>)
    ensures m.Some? <==> t != []
    ensures m.Some? ==> m.value * (|t| as real) == SumAum(t)
  {
    if t == [] then None else Some(SumAum(t) / (|t| as real))
  }

  lemma {:induction false} CountAtMostCut(s: seq<real>, cut: nat, p: real -> bool)
    requires cut <= |s|
    requires forall i :: cut <= i < |s| ==> !p(s[i])
    ensures CountWhere(s, p) <= cut
  {
    assert s == s[..cut] + s[cut..];
    CountWhereConcat(s[..cut], s[cut..], p);
    CountWhereNone(s[cut..], p);
  }

  lemma {:induction false} CountAtMostRest(s: seq<real>, cut: nat, p: real -> bool)
    requires cut <= |s|
    requires forall i :: 0 <= i < cut ==> !p(s[i])
    ensures CountWhere(s, p) <= |s| - cut
  {
    assert s == s[..cut] + s[cut..];
    CountWhereConcat(s[..cut], s[cut..], p);
    CountWhereNone(s[..cut], p);
  }

  lemma {:induction false} CountAtLeastCut(s: seq<real>, cut: nat, p: real -> bool)
    requires cut <= |s|
    requires forall i :: 0 <= i < cut ==> p(s[i])
    ensures CountWhere(s, p) >= cut
  {
    assert s == s[..cut] + s[cut..];
    CountWhereConcat(s[..cut], s[cut..], p);
    CountWhereAll(s[..cut], p);
  }

  /** The value at index `idx` of the sorted column is its `idx + 1`-th
      smallest value. */
  lemma {:induction false} SortedRank(xs: seq<real>, idx: nat)
    requires idx < |xs|
    ensures IsKthSmallest(xs, SortBy(xs, Identity)[idx], idx + 1)
  {
    var s := SortBy(xs, Identity);
    var v := s[idx];
    forall i | idx <= i < |s| ensures !Below(v)(s[i]) {
      assert Identity(s[idx]) <= Identity(s[i]) || i == idx;
    }
    CountAtMostCut(s, idx, Below(v));
    SortCount(xs, Identity, Below(v));
    forall i | 0 <= i < idx + 1 ensures AtMost(v)(s[i]) {
      assert Identity(s[i]) <= Identity(s[idx]) || i == idx;
    }
    CountAtLeastCut(s, idx + 1, AtMost(v));
    SortCount(xs, Identity, AtMost(v));
  }

  /** The middle value of a sorted column, or the mean of the two middle
      values when the count is even. */
  function Middle(s: seq<real>): real
    requires s != []
  {
    var k := |s| / 2;
    if |s| % 2 == 1 then s[k] else (s[k - 1] + s[k]) / 2.0
  }

  /** The middle of the sorted column has at most half the values strictly
      below it and at most half strictly above it. */
  lemma {:induction false} MiddleSpread(xs: seq<real>)
    requires xs != []
    ensures CountWhere(xs, Below(Middle(SortBy(xs, Identity)))) <= |xs| / 2
    ensures CountWhere(xs, Above(Middle(SortBy(xs, Identity)))) <= |xs| / 2
  {
    var s := SortBy(xs, Identity);
    var n := |s|;
    var k := n / 2;
    var m := Middle(s);
    MiddleBetween(s);
    forall i | k <= i < n ensures !Below(m)(s[i]) {
      assert Identity(s[k]) <= Identity(s[i]) || i == k;
    }
    CountAtMostCut(s, k, Below(m));
    SortCount(xs, Identity, Below(m));
    var cut := if n % 2 == 1 then k + 1 else k;
    forall i | 0 <= i < cut ensures !Above(m)(s[i]) {
      if n % 2 == 1 {
        assert Identity(s[i]) <= Identity(s[k]) || i == k;
      } else {
        assert Identity(s[i]) <= Identity(s[k - 1]) || i == k - 1;
      }
    }
    CountAtMostRest(s, cut, Above(m));
    SortCount(xs, Identity, Above(m));
  }

  /** The middle of a sorted column lies between its two middle values. */
  lemma MiddleBetween(s: seq<real>)
    requires s != [] && SortedBy(s, Identity)
    ensures var k := |s| / 2;
      if |s| % 2 == 1 then Middle(s) == s[k] else s[k - 1] <= Middle(s) <= s[k]
  {
    var k := |s| / 2;
    if |s| % 2 == 0 {
      assert Identity(s[k - 1]) <= Identity(s[k]);
    }
  }

  /** The middle of the sorted column lies between the smallest and the
      largest value of the column. */
  lemma {:induction false} MiddleWithinRange(xs: seq<real>)
    requires xs != []
    ensures exists i :: 0 <= i < |xs| && xs[i] <= Middle(SortBy(xs, Identity))
    ensures exists i :: 0 <= i < |xs| && Middle(SortBy(xs, Identity)) <= xs[i]
  {
    var s := SortBy(xs, Identity);
    var n := |s|;
    var k := n / 2;
    MiddleBetween(s);
    assert s[0] in xs;
    if n > 1 {
      assert Identity(s[0]) <= Identity(s[k - 1]);
    }
    assert s[n - 1] in xs;
    assert Identity(s[k]) <= Identity(s[n - 1]) || k == n - 1;
  }

  /** For an odd count `n`, the middle of the sorted column is its
      `n/2 + 1`-th smallest value. */
  lemma {:induction false} MiddleRankOdd(xs: seq<real>)
    requires |xs| % 2 == 1
    ensures Middle(SortBy(xs, Identity)) in xs
    ensures IsKthSmallest(xs, Middle(SortBy(xs, Identity)), |xs| / 2 + 1)
  {
    var s := SortBy(xs, Identity);
    var k := |s| / 2;
    SortedRank(xs, k);
    assert s[k] in s;
  }

  /** For an even count `n`, the middle of the sorted column is the mean of
      its `n/2`-th and `n/2 + 1`-th smallest values. */
  lemma {:induction false} MiddleRankEven(xs: seq<real>)
    requires xs != [] && |xs| % 2 == 0
    ensures
      exists lo, hi :: lo in xs && hi in xs &&
        Middle(SortBy(xs, Identity)) == (lo + hi) / 2.0 &&
        IsKthSmallest(xs, lo, |xs| / 2) && IsKthSmallest(xs, hi, |xs| / 2 + 1)
  {
    var s := SortBy(xs, Identity);
    var k := |s| / 2;
    var lo, hi := s[k - 1], s[k];
    SortedRank(xs, k - 1);
    SortedRank(xs, k);
    assert lo in s && hi in s;
    assert Middle(s) == (lo + hi) / 2.0;
  }

  /** `median()`: undefined on an empty column; otherwise the middle value
      of the sorted column, or the mean of the two middle values when the
      count is even. */
  function Median(xs: seq<real>): (m: Option<real>)
    ensures m.Some? <==> xs != []
    ensures m.Some? && |xs| % 2 == 1 ==>
      m.value in xs && IsKthSmallest(xs, m.value, |xs| / 2 + 1)
    ensures m.Some? && |xs| % 2 == 0 ==>
      exists lo, hi :: lo in xs && hi in xs && m.value == (lo + hi) / 2.0 &&
        IsKthSmallest(xs, lo, |xs| / 2) && IsKthSmallest(xs, hi, |xs| / 2 + 1)
    ensures m.Some? ==> CountWhere(xs, Below(m.value)) <= |xs| / 2
    ensures m.Some? ==> CountWhere(xs, Above(m.value)) <= |xs| / 2
    ensures m.Some? ==> exists i :: 0 <= i < |xs| && xs[i] <= m.value
    ensures m.Some? ==> exists i :: 0 <= i < |xs| && m.value <= xs[i]
  {
    if xs == [] then None
    else
      MiddleSpread(xs);
      MiddleWithinRange(xs);
      if |xs| % 2 == 1 then
        MiddleRankOdd(xs);
        Some(Middle(SortBy(xs, Identity)))
      else
        MiddleRankEven(xs);
        Some(Middle(SortBy(xs, Identity)))
  }

  /** The median of the AUM column. */
  function MedianAum(t: seq<Record>): Option<real> {
    Median(Column(t, Aum))
  }

  /** `calcular_metricas(df)`.  `total_clientes` sums the 0/1 flag; it is not
      a count of distinct client identifiers. */
  function SummaryMetrics(t: seq<Record>): (m: Metrics)
    ensures m.totalAum == SumAum(t) && m.totalClients == SumClients(t)
    ensures m.advisorCount == NUnique(t, Advisor) && m.segmentCount == NUnique(t, Segment)
    ensures m.meanAum == MeanAum(t) && m.medianAum == MedianAum(t)
    ensures m.advisorCount <= |t| && m.segmentCount <= |t|
    ensures t == [] ==> m == Metrics(0.0, 0, 0, 0, None, None)
    ensures t != [] ==>
      m.advisorCount >= 1 && m.segmentCount >= 1 && m.meanAum.Some? && m.medianAum.Some?
  {
    NUniqueBounds(t, Advisor);
    NUniqueBounds(t, Segment);
    Metrics(
      SumAum(t),
      SumClients(t),
      NUnique(t, Advisor),
      NUnique(t, Segment),
      MeanAum(t),
      MedianAum(t))
  }

  /** Three rows of 2020-01 in one segment, AUM 10, 20 and 0 (a missing value
      filled with 0), flags 1, 1, 0, two advisors. */
  function ThreeRowScenario(): seq<Record> {
    [ Record(2020, 1, "A", "Mesa", "Ana", "c1", 10.0, 1),
      Record(2020, 1, "A", "Mesa", "Luis", "c2", 20.0, 1),
      Record(2020, 1, "A", "Mesa", "Ana", "c3", 0.0, 0) ]
  }

  lemma ThreeRowScenarioMetrics()
    ensures SummaryMetrics(ThreeRowScenario()) == Metrics(30.0, 2, 2, 1, Some(10.0), Some(10.0))
  {
    ThreeRowScenarioCounts();
    ThreeRowScenarioSums();
    ThreeRowScenarioMedian();
  }

  lemma ThreeRowScenarioSums()
    ensures SumAum(ThreeRowScenario()) == 30.0 && SumClients(ThreeRowScenario()) == 2
    ensures Column(ThreeRowScenario(), Aum) == [10.0, 20.0, 0.0]
  {
    var t := ThreeRowScenario();
    assert t[1..][1..][1..] == [];
  }

  lemma ThreeRowScenarioCounts()
    ensures NUnique(ThreeRowScenario(), Advisor) == 2
    ensures NUnique(ThreeRowScenario(), Segment) == 1
  {
    var t := ThreeRowScenario();
    assert t[0] in t && t[1] in t;
    assert Values(t, Advisor) == {"Ana", "Luis"};
    assert Values(t, Segment) == {"A"};
  }

  lemma ThreeRowScenarioMedian()
    ensures Median([10.0, 20.0, 0.0]) == Some(10.0)
  {
    SortScenarioTail();
    InsertScenarioHead();
    assert [10.0, 20.0, 0.0][1..] == [20.0, 0.0];
  }

  lemma SortScenarioTail()
    ensures SortBy([20.0, 0.0], Identity) == [0.0, 20.0]
  {
    assert [20.0, 0.0][1..] == [0.0];
    assert SortBy([0.0], Identity) == [0.0];
    assert [0.0][1..] == [];
  }

  lemma InsertScenarioHead()
    ensures Insert(10.0, [0.0, 20.0], Identity) == [0.0, 10.0, 20.0]
  {
    assert [0.0, 20.0][1..] == [20.0];
    assert Insert(10.0, [20.0], Identity) == [10.0, 20.0];
  }

  /** `total_clientes` can exceed the number of distinct clients: one client
      flagged in two months counts twice. */
  lemma ClientFlagSumIsNotDistinctClients()
    ensures var t := [ Record(2020, 1, "A", "Mesa", "Ana", "c1", 5.0, 1),
                       Record(2020, 2, "A", "Mesa", "Ana", "c1", 5.0, 1) ];
            SummaryMetrics(t).totalClients == 2 && NUnique(t, Client) == 1
  {
    var t := [ Record(2020, 1, "A", "Mesa", "Ana", "c1", 5.0, 1),
               Record(2020, 2, "A", "Mesa", "Ana", "c1", 5.0, 1) ];
    assert t[0] in t;
    assert forall r :: r in t ==> r.client == "c1";
    assert Values(t, Client) == {"c1"};
    assert SumClients(t) == 2 by {
      assert t[1..][1..] == [];
    }
  }
}
