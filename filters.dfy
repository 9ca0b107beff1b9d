/** The sidebar filter of the dashboard (Dashboard.py, `main`): four
    multiselects that default to every observed value, an advisor multiselect
    that defaults to nothing, and the boolean mask built from them. */
module Filters {
  import opened Seqs
  import opened Table

  /** The five multiselect lists. */
  datatype Selection = Selection(
    years: seq<int>,
    months: seq<int>,
    segments: seq<string>,
    desks: seq<string>,
    advisors: seq<string>)

  /** The first mask: `isin` on year, month, segment and desk. */
  predicate InDimensions(sel: Selection, r: Record) {
    r.year in sel.years && r.month in sel.months &&
    r.segment in sel.segments && r.desk in sel.desks
  }

  /** Whether a row belongs in the filtered table: the four dimensions always
      restrict it; the advisor list restricts it only when it is non-empty. */
  predicate Passes(sel: Selection, r: Record) {
    InDimensions(sel, r) && (sel.advisors == [] || r.advisor in sel.advisors)
  }

  function DimensionMask(sel: Selection): Record -> bool {
    (r: Record) => InDimensions(sel, r)
  }

  function AdvisorMask(sel: Selection): Record -> bool {
    (r: Record) => r.advisor in sel.advisors
  }

  /** `df_filtrado`: the four-dimension mask, then, when advisors were chosen,
      the advisor mask on its result.  The filtered table holds exactly the
      passing rows, each as often as in the input, in their input order. */
  function ApplyFilter(t: seq<Record>, sel: Selection): (r: seq<Record>)
    ensures forall x :: multiset(r)[x] == if Passes(sel, x) then multiset(t)[x] else 0
    ensures forall x :: x in r <==> x in t && Passes(sel, x)
    ensures IsSubsequence(r, t)
  {
    var base := Mask(t, DimensionMask(sel));
    var r := if sel.advisors != [] then Mask(base, AdvisorMask(sel)) else base;
    assert IsSubsequence(r, t) by {
      if sel.advisors != [] {
        SubsequenceTransitive(r, base, t);
      }
    }
    assert forall x :: x in r <==> x in multiset(r);
    assert forall x :: x in t <==> x in multiset(t);
    r
  }

  /** The dashboard's initial selection: every observed year, month, segment
      and desk, and no advisor. */
  function DefaultSelection(t: seq<Record>): (sel: Selection)
    ensures forall y :: y in sel.years <==> y in Values(t, Year)
    ensures forall m :: m in sel.months <==> m in Values(t, Month)
    ensures forall s :: s in sel.segments <==> s in Values(t, Segment)
    ensures forall d :: d in sel.desks <==> d in Values(t, Desk)
    ensures Distinct(sel.years) && Distinct(sel.months) && Distinct(sel.segments) && Distinct(sel.desks)
    ensures sel.advisors == []
  {
    Selection(Keys(t, Year), Keys(t, Month), Keys(t, Segment), Keys(t, Desk), [])
  }

  /** With the initial selection the filtered table is the whole table. */
  lemma DefaultSelectionKeepsEverything(t: seq<Record>)
    ensures ApplyFilter(t, DefaultSelection(t)) == t
  {
    var sel := DefaultSelection(t);
    forall x | x in t ensures DimensionMask(sel)(x) {
      assert x.year in Values(t, Year);
      assert x.month in Values(t, Month);
      assert x.segment in Values(t, Segment);
      assert x.desk in Values(t, Desk);
    }
    MaskKeepingAll(t, DimensionMask(sel));
  }

  /** An empty year, month, segment or desk list selects nothing: only the
      advisor list treats "empty" as "no restriction". */
  lemma EmptyDimensionSelectsNothing(t: seq<Record>, sel: Selection)
    requires sel.years == [] || sel.months == [] || sel.segments == [] || sel.desks == []
    ensures ApplyFilter(t, sel) == []
  {
  }

  /** Filtering the filtered table again changes nothing. */
  lemma FilterIdempotent(t: seq<Record>, sel: Selection)
    ensures ApplyFilter(ApplyFilter(t, sel), sel) == ApplyFilter(t, sel)
  {
    var r := ApplyFilter(t, sel);
    MaskKeepingAll(r, DimensionMask(sel));
    if sel.advisors != [] {
      MaskKeepingAll(r, AdvisorMask(sel));
    }
  }
}
