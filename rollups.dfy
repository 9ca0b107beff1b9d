/** The `groupby(...).agg({...: 'sum'})` views of the dashboard: by segment,
    by year and month, and by advisor (the top-N lists). */
module Rollups {
  import opened Seqs
  import opened Table

  /** One output row of `groupby(key).agg(AUM: sum, No.Clientes: sum)`. */
  datatype Group<K> = Group(key: K, aum: real, clients: int)

  /** The row of group `k`: the sums over the rows whose key is `k`. */
  function GroupOf<K(==)>(t: seq<Record>, key: Record -> K, k: K): Group<K> {
    var rows := Where(t, key, k);
    Group(k, SumAum(rows), SumClients(rows))
  }

  /** The group rows for the keys `ks`, in that order. */
  function GroupsOf<K(==)>(t: seq<Record>, key: Record -> K, ks: seq<K>): (gs: seq<Group<K>>)
    ensures |gs| == |ks|
    ensures forall i :: 0 <= i < |ks| ==> gs[i] == GroupOf(t, key, ks[i])
  {
    if ks == [] then [] else [GroupOf(t, key, ks[0])] + GroupsOf(t, key, ks[1..])
  }

  function KeysOf<K>(gs: seq<Group<K>>): (ks: seq<K>)
    ensures |ks| == |gs|
    ensures forall i :: 0 <= i < |gs| ==> ks[i] == gs[i].key
  {
    seq(|gs|, i requires 0 <= i < |gs| => gs[i].key)
  }

  function GroupAum<K>(g: Group<K>): real {
    g.aum
  }

  function TotalAum<K>(gs: seq<Group<K>>): real {
    if gs == [] then 0.0 else gs[0].aum + TotalAum(gs[1..])
  }

  function TotalClients<K>(gs: seq<Group<K>>): int {
    if gs == [] then 0 else gs[0].clients + TotalClients(gs[1..])
  }

  lemma {:induction false} GroupsOfEmptyTable<K>(key: Record -> K, ks: seq<K>)
    ensures TotalAum(GroupsOf([], key, ks)) == 0.0
    ensures TotalClients(GroupsOf([], key, ks)) == 0
  {
    if ks != [] {
      GroupsOfEmptyTable(key, ks[1..]);
    }
  }

  /** Adding one row to the table adds its values to the one group, among
      distinct keys, that it belongs to. */
  lemma {:induction false} GroupsOfPrepend<K>(r: Record, t: seq<Record>, key: Record -> K, ks: seq<K>)
    requires Distinct(ks)
    ensures TotalAum(GroupsOf([r] + t, key, ks)) ==
      (if key(r) in ks then r.aum else 0.0) + TotalAum(GroupsOf(t, key, ks))
    ensures TotalClients(GroupsOf([r] + t, key, ks)) ==
      (if key(r) in ks then r.clientFlag else 0) + TotalClients(GroupsOf(t, key, ks))
  {
    if ks != [] {
      var u := [r] + t;
      assert u[0] == r && u[1..] == t;
      assert key(r) == ks[0] ==> key(r) !in ks[1..];
      GroupsOfPrepend(r, t, key, ks[1..]);
    }
  }

  /** Grouping partitions the table: over duplicate-free keys that cover
      every row, the group sums add up to the ungrouped sums. */
  lemma {:induction false} GroupTotalsPartition<K>(t: seq<Record>, key: Record -> K, ks: seq<K>)
    requires Distinct(ks)
    requires forall r :: r in t ==> key(r) in ks
    ensures TotalAum(GroupsOf(t, key, ks)) == SumAum(t)
    ensures TotalClients(GroupsOf(t, key, ks)) == SumClients(t)
  {
    if t == [] {
      GroupsOfEmptyTable(key, ks);
    } else {
      assert t == [t[0]] + t[1..];
      GroupTotalsPartition(t[1..], key, ks);
      GroupsOfPrepend(t[0], t[1..], key, ks);
    }
  }

  /** The groups over all distinct keys, in any order, add up to the table. */
  lemma GroupTotalsOverAllKeys<K(!new)>(t: seq<Record>, key: Record -> K, ks: seq<K>)
    requires Distinct(ks)
    requires forall k :: k in ks <==> k in Values(t, key)
    ensures TotalAum(GroupsOf(t, key, ks)) == SumAum(t)
    ensures TotalClients(GroupsOf(t, key, ks)) == SumClients(t)
  {
    forall r | r in t ensures key(r) in ks {
      assert key(r) in Values(t, key);
    }
    GroupTotalsPartition(t, key, ks);
  }

  lemma KeysOfGroupsOf<K>(t: seq<Record>, key: Record -> K, ks: seq<K>)
    ensures KeysOf(GroupsOf(t, key, ks)) == ks
  {
  }

  /** `sort_values(AUM, ascending=False)` as a rank: larger sums first. */
  function ByAumDescending<K(==)>(t: seq<Record>, key: Record -> K): K -> real {
    k => -SumAum(Where(t, key, k))
  }

  /** The keys of `key`, largest summed AUM first. */
  function KeysByAumDescending<K(==,!new)>(t: seq<Record>, key: Record -> K): (ks: seq<K>)
    ensures Distinct(ks)
    ensures forall k :: k in ks <==> k in Values(t, key)
    ensures |ks| == NUnique(t, key)
    ensures forall i, j :: 0 <= i < j < |ks| ==>
      SumAum(Where(t, key, ks[i])) >= SumAum(Where(t, key, ks[j]))
  {
    var ks := SortBy(Keys(t, key), ByAumDescending(t, key));
    assert forall i, j :: 0 <= i < j < |ks| ==>
      ByAumDescending(t, key)(ks[i]) <= ByAumDescending(t, key)(ks[j]);
    ks
  }

  // ---------------------------------------------------------------------
  // By segment

  /** One row of `df_segmento`: AUM and client sums and the number of
      distinct advisors of the segment. */
  datatype SegmentRow = SegmentRow(totals: Group<string>, advisors: nat)

  function SegmentRows(t: seq<Record>, segments: seq<string>): (rows: seq<SegmentRow>)
    ensures |rows| == |segments|
    ensures forall i :: 0 <= i < |rows| ==>
      rows[i].totals == GroupOf(t, Segment, segments[i]) &&
      rows[i].advisors == NUnique(Where(t, Segment, segments[i]), Advisor)
  {
    if segments == [] then []
    else
      [SegmentRow(GroupOf(t, Segment, segments[0]),
                  NUnique(Where(t, Segment, segments[0]), Advisor))]
      + SegmentRows(t, segments[1..])
  }

  function SegmentTotals(r: SegmentRow): Group<string> {
    r.totals
  }

  /** `df_segmento`: one row per distinct segment, with that segment's sums
      and distinct-advisor count, ordered by non-increasing AUM. */
  function SegmentRollup(t: seq<Record>): (rows: seq<SegmentRow>)
    ensures |rows| == NUnique(t, Segment)
    ensures Distinct(KeysOf(Column(rows, SegmentTotals)))
    ensures forall s :: s in KeysOf(Column(rows, SegmentTotals)) <==> s in Values(t, Segment)
    ensures forall i :: 0 <= i < |rows| ==>
      rows[i].totals == GroupOf(t, Segment, rows[i].totals.key) &&
      rows[i].advisors == NUnique(Where(t, Segment, rows[i].totals.key), Advisor)
    ensures forall i, j :: 0 <= i < j < |rows| ==> rows[i].totals.aum >= rows[j].totals.aum
  {
    var ks := KeysByAumDescending(t, Segment);
    var rows := SegmentRows(t, ks);
    assert KeysOf(Column(rows, SegmentTotals)) == ks;
    rows
  }

  /** The segment rows add up to the totals of the whole table. */
  lemma SegmentRollupTotals(t: seq<Record>)
    ensures TotalAum(Column(SegmentRollup(t), SegmentTotals)) == SumAum(t)
    ensures TotalClients(Column(SegmentRollup(t), SegmentTotals)) == SumClients(t)
  {
    var ks := KeysByAumDescending(t, Segment);
    assert Column(SegmentRollup(t), SegmentTotals) == GroupsOf(t, Segment, ks);
    GroupTotalsOverAllKeys(t, Segment, ks);
  }

  /** Each segment has at least one advisor and no more than the table. */
  lemma SegmentAdvisorsBounded(t: seq<Record>)
    ensures forall i :: 0 <= i < |SegmentRollup(t)| ==>
      1 <= SegmentRollup(t)[i].advisors <= NUnique(t, Advisor)
  {
    var rows := SegmentRollup(t);
    forall i | 0 <= i < |rows| ensures 1 <= rows[i].advisors <= NUnique(t, Advisor) {
      var s := rows[i].totals.key;
      var sub := Where(t, Segment, s);
      assert s in KeysOf(Column(rows, SegmentTotals));
      var r :| r in t && Segment(r) == s;
      assert r in sub;
      NUniqueBounds(sub, Advisor);
      NUniqueOfSubtable(sub, t, Advisor);
    }
  }

  // ---------------------------------------------------------------------
  // By year and month

  /** Rank of a (year, month) key by its `Fecha`. */
  function FechaRank(k: (int, int)): real {
    MonthOrdinal(k.0, k.1) as real
  }

  /** The distinct (year, month) keys in `Fecha` order. */
  function KeysByFecha(t: seq<Record>): (ks: seq<(int, int)>)
    ensures Distinct(ks)
    ensures forall k :: k in ks <==> k in Values(t, YearMonth)
    ensures |ks| == NUnique(t, YearMonth)
    ensures forall i, j :: 0 <= i < j < |ks| ==>
      MonthOrdinal(ks[i].0, ks[i].1) <= MonthOrdinal(ks[j].0, ks[j].1)
  {
    var ks := SortBy(Keys(t, YearMonth), FechaRank);
    assert forall i, j :: 0 <= i < j < |ks| ==> FechaRank(ks[i]) <= FechaRank(ks[j]);
    ks
  }

  /** `df_temporal`: one row per distinct (year, month) with its sums,
      ordered by `Fecha`. */
  function TemporalRollup(t: seq<Record>): (rows: seq<Group<(int, int)>>)
    ensures |rows| == NUnique(t, YearMonth)
    ensures Distinct(KeysOf(rows))
    ensures forall k :: k in KeysOf(rows) <==> k in Values(t, YearMonth)
    ensures forall i :: 0 <= i < |rows| ==> rows[i] == GroupOf(t, YearMonth, rows[i].key)
    ensures forall i, j :: 0 <= i < j < |rows| ==>
      MonthOrdinal(rows[i].key.0, rows[i].key.1) <= MonthOrdinal(rows[j].key.0, rows[j].key.1)
  {
    var ks := KeysByFecha(t);
    var rows := GroupsOf(t, YearMonth, ks);
    assert KeysOf(rows) == ks;
    rows
  }

  /** On a loaded table (every month in 1..12) the rows come strictly in
      calendar order. */
  lemma TemporalRollupChronological(t: seq<Record>)
    requires ValidMonths(t)
    ensures forall i, j :: 0 <= i < j < |TemporalRollup(t)| ==>
      var a := TemporalRollup(t)[i].key;
      var b := TemporalRollup(t)[j].key;
      a.0 < b.0 || (a.0 == b.0 && a.1 < b.1)
  {
    var rows := TemporalRollup(t);
    forall i, j | 0 <= i < j < |rows|
      ensures rows[i].key.0 < rows[j].key.0 ||
        (rows[i].key.0 == rows[j].key.0 && rows[i].key.1 < rows[j].key.1)
    {
      assert KeysOf(rows)[i] == rows[i].key && KeysOf(rows)[j] == rows[j].key;
      ChronologicalPair(t, rows[i].key, rows[j].key);
    }
  }

  /** Two distinct (year, month) keys of a loaded table in `Fecha` order
      are in calendar order. */
  lemma ChronologicalPair(t: seq<Record>, a: (int, int), b: (int, int))
    requires ValidMonths(t)
    requires a in Values(t, YearMonth) && b in Values(t, YearMonth) && a != b
    requires MonthOrdinal(a.0, a.1) <= MonthOrdinal(b.0, b.1)
    ensures a.0 < b.0 || (a.0 == b.0 && a.1 < b.1)
  {
    var ra :| ra in t && YearMonth(ra) == a;
    var rb :| rb in t && YearMonth(rb) == b;
    var p :| 0 <= p < |t| && t[p] == ra;
    var q :| 0 <= q < |t| && t[q] == rb;
    FechaOrder(a.0, a.1, b.0, b.1);
  }

  lemma TemporalRollupTotals(t: seq<Record>)
    ensures TotalAum(TemporalRollup(t)) == SumAum(t)
    ensures TotalClients(TemporalRollup(t)) == SumClients(t)
  {
    var rows := TemporalRollup(t);
    KeysOfGroupsOf(t, YearMonth, KeysByFecha(t));
    GroupTotalsOverAllKeys(t, YearMonth, KeysOf(rows));
  }

  // ---------------------------------------------------------------------
  // By advisor

  /** Every advisor with its sums, largest summed AUM first. */
  function AdvisorRanking(t: seq<Record>): (gs: seq<Group<string>>)
    ensures |gs| == NUnique(t, Advisor)
    ensures Distinct(KeysOf(gs))
    ensures forall a :: a in KeysOf(gs) <==> a in Values(t, Advisor)
    ensures forall i :: 0 <= i < |gs| ==> gs[i] == GroupOf(t, Advisor, gs[i].key)
    ensures forall i, j :: 0 <= i < j < |gs| ==> gs[i].aum >= gs[j].aum
  {
    var ks := KeysByAumDescending(t, Advisor);
    var gs := GroupsOf(t, Advisor, ks);
    assert KeysOf(gs) == ks;
    gs
  }

  /** Cutting a list sorted by non-increasing AUM after `n` rows keeps
      distinct, ordered rows, and leaves out only rows whose AUM is at most
      that of the last row kept. */
  lemma PrefixKeepsLargest<K>(gs: seq<Group<K>>, n: nat)
    requires forall i, j :: 0 <= i < j < |gs| ==> gs[i].aum >= gs[j].aum
    requires Distinct(KeysOf(gs))
    ensures Distinct(KeysOf(Take(gs, n)))
    ensures forall i :: 0 <= i < |Take(gs, n)| ==> KeysOf(Take(gs, n))[i] == KeysOf(gs)[i]
    ensures forall i :: 0 <= i < |gs| && gs[i].key !in KeysOf(Take(gs, n)) ==>
      |Take(gs, n)| == n && (n > 0 ==> gs[i].aum <= gs[n - 1].aum)
  {
    var top := Take(gs, n);
    assert forall i :: 0 <= i < |top| ==> KeysOf(top)[i] == KeysOf(gs)[i];
  }

  /** `groupby(advisor).sum().sort_values(AUM, descending).head(n)`, and
      equally `nlargest(n)`: at most `n` advisors (all of them when there
      are fewer), each with its own sums, in non-increasing AUM order, and
      no advisor left out has a larger sum than the last one kept. */
  function TopAdvisors(t: seq<Record>, n: nat): (top: seq<Group<string>>)
    ensures |top| == if n < NUnique(t, Advisor) then n else NUnique(t, Advisor)
    ensures Distinct(KeysOf(top))
    ensures forall i :: 0 <= i < |top| ==>
      top[i] == GroupOf(t, Advisor, top[i].key) && top[i].key in Values(t, Advisor)
    ensures forall i, j :: 0 <= i < j < |top| ==> top[i].aum >= top[j].aum
    ensures forall a :: a in Values(t, Advisor) && a !in KeysOf(top) ==>
      |top| == n && (n > 0 ==> GroupOf(t, Advisor, a).aum <= top[n - 1].aum)
  {
    var gs := AdvisorRanking(t);
    var top := Take(gs, n);
    TopOfRankingKept(t, gs, n);
    TopOfRankingExcluded(t, gs, n);
    top
  }

  /** What the advisor ranking promises, as a property of a list. */
  ghost predicate RankedAdvisors(t: seq<Record>, gs: seq<Group<string>>) {
    (forall i, j :: 0 <= i < j < |gs| ==> gs[i].aum >= gs[j].aum) &&
    Distinct(KeysOf(gs)) &&
    (forall k :: k in KeysOf(gs) <==> k in Values(t, Advisor)) &&
    (forall i :: 0 <= i < |gs| ==> gs[i] == GroupOf(t, Advisor, gs[i].key))
  }

  lemma TopOfRankingKept(t: seq<Record>, gs: seq<Group<string>>, n: nat)
    requires RankedAdvisors(t, gs)
    ensures Distinct(KeysOf(Take(gs, n)))
    ensures forall i :: 0 <= i < |Take(gs, n)| ==>
      Take(gs, n)[i] == GroupOf(t, Advisor, Take(gs, n)[i].key) &&
      Take(gs, n)[i].key in Values(t, Advisor)
  {
    var top := Take(gs, n);
    PrefixKeepsLargest(gs, n);
    forall i | 0 <= i < |top| ensures top[i].key in Values(t, Advisor) {
      assert KeysOf(gs)[i] == top[i].key;
      assert top[i].key in KeysOf(gs);
    }
  }

  lemma TopOfRankingExcluded(t: seq<Record>, gs: seq<Group<string>>, n: nat)
    requires RankedAdvisors(t, gs)
    ensures forall a :: a in Values(t, Advisor) && a !in KeysOf(Take(gs, n)) ==>
      |Take(gs, n)| == n && (n > 0 ==> GroupOf(t, Advisor, a).aum <= Take(gs, n)[n - 1].aum)
  {
    var top := Take(gs, n);
    forall a | a in Values(t, Advisor) && a !in KeysOf(top)
      ensures |top| == n && (n > 0 ==> GroupOf(t, Advisor, a).aum <= top[n - 1].aum)
    {
      ExcludedAdvisor(t, gs, n, a);
    }
  }

  lemma ExcludedAdvisor(t: seq<Record>, gs: seq<Group<string>>, n: nat, a: string)
    requires RankedAdvisors(t, gs)
    requires a in Values(t, Advisor) && a !in KeysOf(Take(gs, n))
    ensures |Take(gs, n)| == n && (n > 0 ==> GroupOf(t, Advisor, a).aum <= Take(gs, n)[n - 1].aum)
  {
    assert a in KeysOf(gs);
    var p :| 0 <= p < |gs| && KeysOf(gs)[p] == a;
    assert gs[p].key == a;
    PrefixExcludes(gs, n, p);
    assert gs[p] == GroupOf(t, Advisor, a);
  }

  /** One row left out of the prefix. */
  lemma PrefixExcludes<K>(gs: seq<Group<K>>, n: nat, p: nat)
    requires forall i, j :: 0 <= i < j < |gs| ==> gs[i].aum >= gs[j].aum
    requires Distinct(KeysOf(gs))
    requires p < |gs| && gs[p].key !in KeysOf(Take(gs, n))
    ensures |Take(gs, n)| == n && (n > 0 ==> gs[p].aum <= Take(gs, n)[n - 1].aum)
  {
    PrefixKeepsLargest(gs, n);
    assert n > 0 && |Take(gs, n)| == n ==> Take(gs, n)[n - 1] == gs[n - 1];
  }

  /** The "Top 10 Asesores" table: at most 10 advisors (all of them when
      there are fewer), each with its own sums, in non-increasing AUM
      order; no advisor left out has a larger sum than the tenth. */
  function TopAdvisorTable(t: seq<Record>): (top: seq<Group<string>>)
    ensures |top| == if 10 < NUnique(t, Advisor) then 10 else NUnique(t, Advisor)
    ensures Distinct(KeysOf(top))
    ensures forall i :: 0 <= i < |top| ==>
      top[i] == GroupOf(t, Advisor, top[i].key) && top[i].key in Values(t, Advisor)
    ensures forall i, j :: 0 <= i < j < |top| ==> top[i].aum >= top[j].aum
    ensures forall a :: a in Values(t, Advisor) && a !in KeysOf(top) ==>
      |top| == 10 && GroupOf(t, Advisor, a).aum <= top[9].aum
  {
    var top := TopAdvisors(t, 10);
    assert forall a :: a in Values(t, Advisor) && a !in KeysOf(top) ==> |top| == 10;
    top
  }

  /** The options of the advisor multiselect: the names of the 20 advisors
      with the largest summed AUM over the whole table (all of them when
      there are fewer), largest first; no advisor left out has a larger sum
      than the twentieth. */
  function SidebarAdvisors(t: seq<Record>): (names: seq<string>)
    ensures |names| == if 20 < NUnique(t, Advisor) then 20 else NUnique(t, Advisor)
    ensures Distinct(names)
    ensures forall a :: a in names ==> a in Values(t, Advisor)
    ensures forall i, j :: 0 <= i < j < |names| ==>
      GroupOf(t, Advisor, names[i]).aum >= GroupOf(t, Advisor, names[j]).aum
    ensures forall a :: a in Values(t, Advisor) && a !in names ==>
      |names| == 20 && GroupOf(t, Advisor, a).aum <= GroupOf(t, Advisor, names[19]).aum
  {
    var top := TopAdvisors(t, 20);
    var names := KeysOf(top);
    assert forall i :: 0 <= i < |names| ==> GroupOf(t, Advisor, names[i]) == top[i];
    names
  }
}
