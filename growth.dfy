/** Year-over-year views: `calcular_crecimiento` (yearly sums with their
    `pct_change`) and the unique-clients-per-year series of the retention
    section. */
module Growth {
  import opened Options
  import opened Seqs
  import opened Table
  import opened Rollups

  /** `pct_change() * 100` from `prev` to `cur`: undefined when `prev` is 0
      (pandas gives inf or NaN there); otherwise the difference from `prev`
      as a percentage of `prev`. */
  function PctChange(prev: real, cur: real): (g: Option<real>)
    ensures g.Some? <==> prev != 0.0
  {
    if prev == 0.0 then None else Some((cur - prev) / prev * 100.0)
  }

  /** The change is the inverse of growing by a percentage: `prev` grown by
      it gives `cur`, and from a positive `prev` it is positive exactly when
      the value rose and zero exactly when it stayed. */
  lemma PctChangeInverse(prev: real, cur: real)
    requires prev != 0.0
    ensures cur == Grow(prev, PctChange(prev, cur).value)
    ensures prev > 0.0 ==>
      (PctChange(prev, cur).value > 0.0 <==> cur > prev) &&
      (PctChange(prev, cur).value == 0.0 <==> cur == prev)
  {
    var g := PctChange(prev, cur).value;
    var q := (cur - prev) / prev;
    assert q * prev == cur - prev;
    assert g == q * 100.0;
    assert prev * (1.0 + g / 100.0) == prev + q * prev;
    if prev > 0.0 {
      assert q > 0.0 <==> cur - prev > 0.0;
    }
  }

  /** `series.pct_change() * 100`: nothing for the first entry; every other
      entry is measured against the entry before it in the series. */
  function PctChangeSeries(xs: seq<real>): (gs: seq<Option<real>>)
    ensures |gs| == |xs|
    ensures forall i :: 0 <= i < |xs| ==> gs[i] == if i == 0 then None else PctChange(xs[i - 1], xs[i])
  {
    seq(|xs|, i requires 0 <= i < |xs| => if i == 0 then None else PctChange(xs[i - 1], xs[i]))
  }

  /** `x` grown by `g` percent. */
  function Grow(x: real, g: real): real {
    x * (1.0 + g / 100.0)
  }

  /** Applies the percentage changes `rates` one after the other to `x`;
      None as soon as one of them is undefined. */
  function Compound(x: real, rates: seq<Option<real>>): Option<real>
    decreases |rates|
  {
    if rates == [] then Some(x)
    else
      match rates[0]
      case None => None
      case Some(g) => Compound(Grow(x, g), rates[1..])
  }

  /** The growth series determines the series from its first entry: while no
      entry before the last is 0, compounding the changes from the first
      entry gives back the last. */
  lemma {:induction false} CompoundRecoversSeries(xs: seq<real>)
    requires xs != []
    requires forall i :: 0 <= i < |xs| - 1 ==> xs[i] != 0.0
    ensures Compound(xs[0], PctChangeSeries(xs)[1..]) == Some(xs[|xs| - 1])
  {
    if |xs| > 1 {
      var tail := xs[1..];
      assert forall i :: 0 <= i < |tail| - 1 ==> tail[i] != 0.0 by {
        forall i | 0 <= i < |tail| - 1 ensures tail[i] != 0.0 {
          assert tail[i] == xs[i + 1];
        }
      }
      CompoundRecoversSeries(tail);
      var rest := PctChangeSeries(tail)[1..];
      var g := PctChange(xs[0], xs[1]).value;
      PctChangeInverse(xs[0], xs[1]);
      SeriesTail(xs);
      CompoundStep(xs[0], g, rest);
      assert Grow(xs[0], g) == tail[0];
      assert tail[|tail| - 1] == xs[|xs| - 1];
    }
  }

  lemma CompoundStep(x: real, g: real, rates: seq<Option<real>>)
    ensures Compound(x, [Some(g)] + rates) == Compound(Grow(x, g), rates)
  {
    var r := [Some(g)] + rates;
    assert r != [] && r[0] == Some(g) && r[1..] == rates;
  }

  /** Dropping the first entry of a series drops the first change. */
  lemma SeriesTail(xs: seq<real>)
    requires |xs| > 1
    ensures PctChangeSeries(xs)[1..] == [PctChange(xs[0], xs[1])] + PctChangeSeries(xs[1..])[1..]
  {
    var a := PctChangeSeries(xs)[1..];
    var b := [PctChange(xs[0], xs[1])] + PctChangeSeries(xs[1..])[1..];
    assert |a| == |b|;
    forall i | 0 <= i < |a| ensures a[i] == b[i] {
      if i > 0 {
        assert xs[1..][i - 1] == xs[i] && xs[1..][i] == xs[i + 1];
      }
    }
  }

  // ---------------------------------------------------------------------
  // calcular_crecimiento

  function YearRank(y: int): real {
    y as real
  }

  /** The distinct years in ascending order (the order `groupby` returns). */
  function YearsAscending(t: seq<Record>): (ys: seq<int>)
    ensures |ys| == NUnique(t, Year)
    ensures forall y :: y in ys <==> y in Values(t, Year)
    ensures forall i, j :: 0 <= i < j < |ys| ==> ys[i] < ys[j]
  {
    var ys := SortBy(Keys(t, Year), YearRank);
    assert forall i, j :: 0 <= i < j < |ys| ==> ys[i] < ys[j] by {
      forall i, j | 0 <= i < j < |ys| ensures ys[i] < ys[j] {
        assert YearRank(ys[i]) <= YearRank(ys[j]);
      }
    }
    ys
  }

  /** `df.groupby('Año').agg(sum)`: one row per distinct year, in ascending
      year order, with that year's sums. */
  function YearlyTotals(t: seq<Record>): (gs: seq<Group<int>>)
    ensures |gs| == NUnique(t, Year)
    ensures forall y :: y in KeysOf(gs) <==> y in Values(t, Year)
    ensures forall i :: 0 <= i < |gs| ==> gs[i] == GroupOf(t, Year, gs[i].key)
    ensures forall i, j :: 0 <= i < j < |gs| ==> gs[i].key < gs[j].key
  {
    var ys := YearsAscending(t);
    var gs := GroupsOf(t, Year, ys);
    assert KeysOf(gs) == ys;
    gs
  }

  /** The yearly totals add up to the totals of the whole table. */
  lemma YearlyTotalsPartition(t: seq<Record>)
    ensures TotalAum(YearlyTotals(t)) == SumAum(t)
    ensures TotalClients(YearlyTotals(t)) == SumClients(t)
  {
    var ys := YearsAscending(t);
    KeysOfGroupsOf(t, Year, ys);
    assert Distinct(ys) by {
      forall i, j | 0 <= i < j < |ys| ensures ys[i] != ys[j] {
      }
    }
    GroupTotalsOverAllKeys(t, Year, ys);
  }

  function ClientsAsReal(g: Group<int>): real {
    g.clients as real
  }

  /** One row of `df_anual`: the year's sums and the two growth columns. */
  datatype YearRow = YearRow(totals: Group<int>, aumGrowth: Option<real>, clientsGrowth: Option<real>)

  function YearTotals(r: YearRow): Group<int> {
    r.totals
  }

  /** The yearly sums with the `pct_change` of each sum column beside them. */
  function WithGrowth(gs: seq<Group<int>>): (rows: seq<YearRow>)
    ensures Column(rows, YearTotals) == gs && |rows| == |gs|
    ensures |rows| > 0 ==> rows[0].aumGrowth == None && rows[0].clientsGrowth == None
    ensures forall i :: 0 < i < |rows| ==>
      rows[i].aumGrowth == PctChange(rows[i - 1].totals.aum, rows[i].totals.aum) &&
      rows[i].clientsGrowth == PctChange(rows[i - 1].totals.clients as real, rows[i].totals.clients as real)
  {
    var aumGrowth := PctChangeSeries(Column(gs, GroupAum));
    var clientsGrowth := PctChangeSeries(Column(gs, ClientsAsReal));
    var rows := seq(|gs|, i requires 0 <= i < |gs| => YearRow(gs[i], aumGrowth[i], clientsGrowth[i]));
    assert Column(rows, YearTotals) == gs;
    rows
  }

  /** `calcular_crecimiento(df)`: the yearly sums (one row per distinct
      year, ascending); the first row has no growth, and every later row's
      growth is measured against the row before it, whichever year that
      is. */
  function YearlyGrowth(t: seq<Record>): (rows: seq<YearRow>)
    ensures Column(rows, YearTotals) == YearlyTotals(t)
    ensures |rows| == NUnique(t, Year)
    ensures |rows| > 0 ==> rows[0].aumGrowth == None && rows[0].clientsGrowth == None
    ensures forall i :: 0 < i < |rows| ==>
      rows[i].aumGrowth == PctChange(rows[i - 1].totals.aum, rows[i].totals.aum) &&
      rows[i].clientsGrowth == PctChange(rows[i - 1].totals.clients as real, rows[i].totals.clients as real)
  {
    WithGrowth(YearlyTotals(t))
  }

  /** Two years with AUM 100 and 150, two years apart: the later year shows a
      growth of 50 %, measured against the earlier year although the year in
      between is missing. */
  lemma GrowthAgainstPreviousEntry()
    ensures var t := [ Record(2019, 1, "A", "Mesa", "Ana", "c1", 100.0, 1),
                       Record(2021, 1, "A", "Mesa", "Ana", "c1", 150.0, 1) ];
            |YearlyGrowth(t)| == 2 &&
            YearlyGrowth(t)[1].totals.key == 2021 &&
            YearlyGrowth(t)[1].aumGrowth == Some(50.0) &&
            YearlyGrowth(t)[1].clientsGrowth == Some(0.0)
  {
    var t := [ Record(2019, 1, "A", "Mesa", "Ana", "c1", 100.0, 1),
               Record(2021, 1, "A", "Mesa", "Ana", "c1", 150.0, 1) ];
    TwoYearTotals(t);
    var rows := YearlyGrowth(t);
    assert rows[0].totals == Group(2019, 100.0, 1) && rows[1].totals == Group(2021, 150.0, 1) by {
      assert Column(rows, YearTotals)[0] == rows[0].totals && Column(rows, YearTotals)[1] == rows[1].totals;
    }
  }

  lemma TwoYearTotals(t: seq<Record>)
    requires t == [ Record(2019, 1, "A", "Mesa", "Ana", "c1", 100.0, 1),
                    Record(2021, 1, "A", "Mesa", "Ana", "c1", 150.0, 1) ]
    ensures YearlyTotals(t) == [Group(2019, 100.0, 1), Group(2021, 150.0, 1)]
  {
    TwoYearValues(t);
    TwoYearGroups(t);
    var gs := YearlyTotals(t);
    assert |gs| == 2;
    assert gs[0].key in Values(t, Year) && gs[1].key in Values(t, Year) by {
      assert KeysOf(gs)[0] == gs[0].key && KeysOf(gs)[1] == gs[1].key;
    }
  }

  lemma TwoYearValues(t: seq<Record>)
    requires t == [ Record(2019, 1, "A", "Mesa", "Ana", "c1", 100.0, 1),
                    Record(2021, 1, "A", "Mesa", "Ana", "c1", 150.0, 1) ]
    ensures Values(t, Year) == {2019, 2021}
  {
    assert t[0] in t && t[1] in t;
  }

  lemma TwoYearGroups(t: seq<Record>)
    requires t == [ Record(2019, 1, "A", "Mesa", "Ana", "c1", 100.0, 1),
                    Record(2021, 1, "A", "Mesa", "Ana", "c1", 150.0, 1) ]
    ensures GroupOf(t, Year, 2019) == Group(2019, 100.0, 1)
    ensures GroupOf(t, Year, 2021) == Group(2021, 150.0, 1)
  {
    var last := t[1..];
    assert last == [t[1]] && last[1..] == [];
    assert Where(last, Year, 2019) == [];
    assert Where(last, Year, 2021) == [t[1]];
    assert Where(t, Year, 2019) == [t[0]];
    assert Where(t, Year, 2021) == [t[1]];
    assert [t[0]][1..] == [] && [t[1]][1..] == [];
    assert SumAum([t[0]]) == 100.0 && SumClients([t[0]]) == 1;
    assert SumAum([t[1]]) == 150.0 && SumClients([t[1]]) == 1;
  }

  // ---------------------------------------------------------------------
  // Unique clients per year

  /** One row of `df_retencion`. */
  datatype RetentionRow = RetentionRow(year: int, uniqueClients: nat, change: Option<real>)

  function YearsOf(rows: seq<RetentionRow>): (ys: seq<int>)
    ensures |ys| == |rows|
    ensures forall i :: 0 <= i < |rows| ==> ys[i] == rows[i].year
  {
    seq(|rows|, i requires 0 <= i < |rows| => rows[i].year)
  }

  /** Pairs each year with its count and the count's change from the year
      before it in the series. */
  function ZipRetention(ys: seq<int>, counts: seq<nat>): (rows: seq<RetentionRow>)
    requires |ys| == |counts|
    ensures YearsOf(rows) == ys
    ensures forall i :: 0 <= i < |rows| ==> rows[i].uniqueClients == counts[i]
    ensures |rows| > 0 ==> rows[0].change == None
    ensures forall i :: 0 < i < |rows| ==>
      rows[i].change == PctChange(rows[i - 1].uniqueClients as real, rows[i].uniqueClients as real)
  {
    var reals := seq(|counts|, i requires 0 <= i < |counts| => counts[i] as real);
    var changes := PctChangeSeries(reals);
    var rows := seq(|ys|, i requires 0 <= i < |ys| => RetentionRow(ys[i], counts[i], changes[i]));
    assert YearsOf(rows) == ys;
    forall i | 0 < i < |rows|
      ensures rows[i].change == PctChange(rows[i - 1].uniqueClients as real, rows[i].uniqueClients as real)
    {
      assert rows[i].change == changes[i] == PctChange(reals[i - 1], reals[i]);
    }
    rows
  }

  /** The distinct-client count of each of the years `ys`. */
  function ClientCounts(t: seq<Record>, ys: seq<int>): (counts: seq<nat>)
    ensures |counts| == |ys|
    ensures forall i :: 0 <= i < |ys| ==> counts[i] == NUnique(Where(t, Year, ys[i]), Client)
  {
    seq(|ys|, i requires 0 <= i < |ys| => NUnique(Where(t, Year, ys[i]), Client))
  }

  /** Each of the years `ys` with its distinct-client count and the change
      from the row before. */
  function RetentionRows(t: seq<Record>, ys: seq<int>): (rows: seq<RetentionRow>)
    ensures YearsOf(rows) == ys
    ensures forall i :: 0 <= i < |rows| ==>
      rows[i].uniqueClients == NUnique(Where(t, Year, ys[i]), Client)
    ensures |rows| > 0 ==> rows[0].change == None
    ensures forall i :: 0 < i < |rows| ==>
      rows[i].change == PctChange(rows[i - 1].uniqueClients as real, rows[i].uniqueClients as real)
  {
    ZipRetention(ys, ClientCounts(t, ys))
  }

  /** `groupby('Año')['Numero  Identificación'].nunique()` with its
      `pct_change() * 100`: one row per distinct year, ascending; each year
      has between one and as many distinct clients as it has rows, so every
      row after the first has a defined change. */
  function UniqueClientsPerYear(t: seq<Record>): (rows: seq<RetentionRow>)
    ensures YearsOf(rows) == YearsAscending(t)
    ensures |rows| == NUnique(t, Year)
    ensures forall i :: 0 <= i < |rows| ==>
      rows[i].uniqueClients == NUnique(Where(t, Year, rows[i].year), Client) &&
      1 <= rows[i].uniqueClients <= |Where(t, Year, rows[i].year)|
    ensures |rows| > 0 ==> rows[0].change == None
    ensures forall i :: 0 < i < |rows| ==>
      rows[i].change == PctChange(rows[i - 1].uniqueClients as real, rows[i].uniqueClients as real) &&
      rows[i].change.Some?
  {
    var ys := YearsAscending(t);
    var rows := RetentionRows(t, ys);
    forall i | 0 <= i < |rows|
      ensures 1 <= rows[i].uniqueClients <= |Where(t, Year, rows[i].year)|
    {
      assert YearsOf(rows)[i] == rows[i].year;
      assert ys[i] in ys;
      UniqueClientsBounds(t, ys[i]);
    }
    rows
  }

  /** A year that occurs in the table has at least one client and no more
      distinct clients than rows. */
  lemma UniqueClientsBounds(t: seq<Record>, y: int)
    requires y in Values(t, Year)
    ensures 1 <= NUnique(Where(t, Year, y), Client) <= |Where(t, Year, y)|
  {
    var r :| r in t && Year(r) == y;
    assert r in Where(t, Year, y);
    NUniqueBounds(Where(t, Year, y), Client);
  }
}
