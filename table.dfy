/** The consolidated fact table: one record per client, advisor and month,
    with the column sums and distinct counts the dashboard computes on it,
    and the two columns derived at load time (`Fecha` and `Mes_Nombre`). */
module Table {
  import opened Options
  import opened Seqs

  /** One row: `Año`, `Numero de Mes`, `Segmento Mesa`, `Mesa`,
      `Asesor Comercial`, `Numero  Identificación`, `AUM Fin de Mes` and the
      0/1 flag `No.Clientes`. */
  datatype Record = Record(
    year: int,
    month: int,
    segment: string,
    desk: string,
    advisor: string,
    client: string,
    aum: real,
    clientFlag: int)

  // Column selectors, so that a column can be passed as a grouping key.
  function Year(r: Record): int { r.year }
  function Month(r: Record): int { r.month }
  function Segment(r: Record): string { r.segment }
  function Desk(r: Record): string { r.desk }
  function Advisor(r: Record): string { r.advisor }
  function Client(r: Record): string { r.client }
  function YearMonth(r: Record): (int, int) { (r.year, r.month) }
  function Aum(r: Record): real { r.aum }

  /** `df['AUM Fin de Mes'].sum()`; 0 on an empty table. */
  function SumAum(t: seq<Record>): real {
    if t == [] then 0.0 else t[0].aum + SumAum(t[1..])
  }

  /** `df['No.Clientes'].sum()`; 0 on an empty table. */
  function SumClients(t: seq<Record>): int {
    if t == [] then 0 else t[0].clientFlag + SumClients(t[1..])
  }

  /** Column sums are additive over a split of the table. */
  lemma {:induction false} SumsConcat(a: seq<Record>, b: seq<Record>)
    ensures SumAum(a + b) == SumAum(a) + SumAum(b)
    ensures SumClients(a + b) == SumClients(a) + SumClients(b)
  {
    if a == [] {
      assert a + b == b;
    } else {
      assert (a + b)[0] == a[0];
      assert (a + b)[1..] == a[1..] + b;
      SumsConcat(a[1..], b);
    }
  }

  /** The rows whose `key` column equals `k`: one group of a `groupby`. */
  function Where<K(==)>(t: seq<Record>, key: Record -> K, k: K): (r: seq<Record>)
    ensures forall x :: x in r <==> x in t && key(x) == k
    ensures |r| <= |t|
  {
    if t == [] then []
    else
      assert t == [t[0]] + t[1..];
      if key(t[0]) == k then [t[0]] + Where(t[1..], key, k) else Where(t[1..], key, k)
  }

  /** The set of values a column takes. */
  function Values<K(==)>(t: seq<Record>, key: Record -> K): set<K> {
    set r | r in t :: key(r)
  }

  /** `df[col].nunique()`: how many distinct values the column takes. */
  function NUnique<K(==)>(t: seq<Record>, key: Record -> K): nat {
    |Values(t, key)|
  }

  /** `df[col].unique()`: each value of the column once, in order of first
      appearance. */
  function Keys<K(==,!new)>(t: seq<Record>, key: Record -> K): (ks: seq<K>)
    ensures Distinct(ks)
    ensures forall k :: k in ks <==> k in Values(t, key)
    ensures |ks| == NUnique(t, key)
  {
    var column := seq(|t|, i requires 0 <= i < |t| => key(t[i]));
    var ks := Dedup(column);
    assert forall k :: k in column <==> k in Values(t, key) by {
      forall k ensures k in column <==> k in Values(t, key) {
        if k in column {
          var i :| 0 <= i < |t| && column[i] == k;
          assert t[i] in t;
        }
        if k in Values(t, key) {
          var r :| r in t && key(r) == k;
          var i :| 0 <= i < |t| && t[i] == r;
          assert column[i] == k;
        }
      }
    }
    assert Elements(ks) == Values(t, key);
    DistinctCardinality(ks);
    ks
  }

  /** A distinct count never exceeds the number of rows, and is 0 exactly
      on an empty table. */
  lemma NUniqueBounds<K(!new)>(t: seq<Record>, key: Record -> K)
    ensures NUnique(t, key) <= |t|
    ensures NUnique(t, key) == 0 <==> t == []
  {
    var ks := Keys(t, key);
    if t != [] {
      assert key(t[0]) in Values(t, key);
    }
  }

  /** Distinct values of a sub-table are distinct values of the table. */
  lemma NUniqueOfSubtable<K(!new)>(sub: seq<Record>, t: seq<Record>, key: Record -> K)
    requires forall r :: r in sub ==> r in t
    ensures NUnique(sub, key) <= NUnique(t, key)
  {
    SubsetCardinality(Values(sub, key), Values(t, key));
  }

  /** `Fecha`: the first day of (year, month), as the number of months since
      January of year 0.  Every `Fecha` is a first of month, so ordering dates
      is ordering these numbers. */
  function MonthOrdinal(year: int, month: int): int {
    12 * year + (month - 1)
  }

  /** For valid months the `Fecha` order is the (year, month) order. */
  lemma FechaOrder(y1: int, m1: int, y2: int, m2: int)
    requires 1 <= m1 <= 12 && 1 <= m2 <= 12
    ensures MonthOrdinal(y1, m1) < MonthOrdinal(y2, m2) <==> y1 < y2 || (y1 == y2 && m1 < m2)
    ensures MonthOrdinal(y1, m1) == MonthOrdinal(y2, m2) <==> y1 == y2 && m1 == m2
  {
  }

  /** The `meses_español` lookup; None for a month it has no entry for. */
  function MonthName(month: int): (name: Option<string>)
    ensures name.Some? <==> 1 <= month <= 12
  {
    match month
    case 1 => Some("Enero")
    case 2 => Some("Febrero")
    case 3 => Some("Marzo")
    case 4 => Some("Abril")
    case 5 => Some("Mayo")
    case 6 => Some("Junio")
    case 7 => Some("Julio")
    case 8 => Some("Agosto")
    case 9 => Some("Septiembre")
    case 10 => Some("Octubre")
    case 11 => Some("Noviembre")
    case 12 => Some("Diciembre")
    case _ => None
  }

  /** The two columns added to every row after consolidation. */
  datatype Derived = Derived(fecha: int, monthName: string)

  /** Every month number lies in 1..12. */
  ghost predicate ValidMonths(t: seq<Record>) {
    forall i :: 0 <= i < |t| ==> 1 <= t[i].month <= 12
  }

  /** Adds `Fecha` and `Mes_Nombre` to every row.  Building the date fails for
      a month outside 1..12, and then the whole load fails (None). */
  function DeriveColumns(t: seq<Record>): (d: Option<seq<Derived>>)
    ensures d.Some? <==> ValidMonths(t)
    ensures d.Some? ==> |d.value| == |t|
    ensures d.Some? ==> forall i :: 0 <= i < |t| ==>
      d.value[i].fecha == MonthOrdinal(t[i].year, t[i].month) &&
      MonthName(t[i].month) == Some(d.value[i].monthName)
  {
    if t == [] then Some([])
    else
      var head := t[0];
      match MonthName(head.month)
      case None => None
      case Some(name) =>
        match DeriveColumns(t[1..])
        case None =>
          assert !ValidMonths(t) by {
            var j :| 0 <= j < |t[1..]| && !(1 <= t[1..][j].month <= 12);
            assert t[j + 1] == t[1..][j];
          }
          None
        case Some(rest) =>
          assert ValidMonths(t) by {
            forall i | 0 <= i < |t| ensures 1 <= t[i].month <= 12 {
              if i > 0 {
                assert t[i] == t[1..][i - 1];
              }
            }
          }
          Some([Derived(MonthOrdinal(head.year, head.month), name)] + rest)
  }
}
