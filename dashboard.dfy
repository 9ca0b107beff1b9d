/** The data flow of `main`: the sidebar advisor list is computed on the
    whole table, the filter is applied once, and every view is computed on
    the filtered table. */
module Dashboard {
  import opened Seqs
  import opened Table
  import opened Filters
  import opened Metrics
  import opened Rollups
  import opened Growth

  /** Everything the page shows, before rendering. */
  datatype Views = Views(
    advisorOptions: seq<string>,
    filtered: seq<Record>,
    metrics: Metrics,
    growth: seq<YearRow>,
    segments: seq<SegmentRow>,
    temporal: seq<Group<(int, int)>>,
    topAdvisors: seq<Group<string>>,
    retention: seq<RetentionRow>)

  /** One rendering of the page for the selection `sel`.  The distinct
      counts of the filtered table never exceed those of the whole table,
      and the advisor options are advisors of the whole table, whatever was
      selected. */
  function Page(t: seq<Record>, sel: Selection): (v: Views)
    ensures v.advisorOptions == SidebarAdvisors(t)
    ensures v.filtered == ApplyFilter(t, sel)
    ensures v.metrics == SummaryMetrics(v.filtered)
    ensures v.growth == YearlyGrowth(v.filtered)
    ensures v.segments == SegmentRollup(v.filtered)
    ensures v.temporal == TemporalRollup(v.filtered)
    ensures v.topAdvisors == TopAdvisorTable(v.filtered)
    ensures v.retention == UniqueClientsPerYear(v.filtered)
    ensures forall r :: r in v.filtered <==> r in t && Passes(sel, r)
    ensures v.metrics.advisorCount <= NUnique(t, Advisor)
    ensures v.metrics.segmentCount <= NUnique(t, Segment)
    ensures |v.topAdvisors| <= 10 && |v.advisorOptions| <= 20
    ensures forall a :: a in v.advisorOptions ==> a in Values(t, Advisor)
  {
    var f := ApplyFilter(t, sel);
    NUniqueOfSubtable(f, t, Advisor);
    NUniqueOfSubtable(f, t, Segment);
    Views(
      SidebarAdvisors(t),
      f,
      SummaryMetrics(f),
      YearlyGrowth(f),
      SegmentRollup(f),
      TemporalRollup(f),
      TopAdvisorTable(f),
      UniqueClientsPerYear(f))
  }

  /** On first load (the initial selection) every view is computed on the
      whole table. */
  lemma FirstLoadShowsWholeTable(t: seq<Record>)
    ensures Page(t, DefaultSelection(t)).filtered == t
    ensures Page(t, DefaultSelection(t)).metrics == SummaryMetrics(t)
    ensures Page(t, DefaultSelection(t)).growth == YearlyGrowth(t)
    ensures Page(t, DefaultSelection(t)).topAdvisors == TopAdvisorTable(t)
  {
    DefaultSelectionKeepsEverything(t);
  }
}
