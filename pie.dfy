/** The pie-chart callback `get_pie_chart(entered_site)`. For "ALL" it sums
    the `class` column per launch site over the whole table, which is each
    site's number of successful launches; for a specific site it counts the
    rows of that site per outcome (`value_counts`). The payload slider plays
    no part in either. */
module Pie {
  import opened Launches
  import opened Dropdown

  /** `rows['class'].sum()`. */
  function SumOutcomes(rows: Dataset): (total: nat)
    ensures total <= |rows|
  {
    if rows == [] then 0 else SumOutcomes(rows[..|rows| - 1]) + rows[|rows| - 1].outcome
  }

  /** The mask `rows['class'] == o`. */
  function WithOutcome(o: Outcome): LaunchRecord -> bool
  {
    (x: LaunchRecord) => x.outcome == o
  }

  /** How many rows have outcome `o`. */
  function CountOutcome(rows: Dataset, o: Outcome): nat
  {
    |Select(rows, WithOutcome(o))|
  }

  /** Summing a 0/1 column counts its ones: the sum is the number of successes. */
  lemma {:induction false} SumIsSuccessCount(rows: Dataset)
    ensures SumOutcomes(rows) == CountOutcome(rows, 1)
  {
    if rows != [] {
      var init := rows[..|rows| - 1];
      SumIsSuccessCount(init);
    }
  }

  /** Failures and successes together account for every row. */
  lemma {:induction false} OutcomeCountsPartition(rows: Dataset)
    ensures CountOutcome(rows, 0) + CountOutcome(rows, 1) == |rows|
  {
    if rows != [] {
      var init := rows[..|rows| - 1];
      OutcomeCountsPartition(init);
    }
  }

  /** An outcome is counted at all exactly when some row has it. */
  lemma CountOutcomePositive(rows: Dataset)
    ensures forall o: Outcome :: CountOutcome(rows, o) > 0 <==> exists x :: x in rows && x.outcome == o
  {
    forall o: Outcome
      ensures CountOutcome(rows, o) > 0 <==> exists x :: x in rows && x.outcome == o
    {
      var sel := Select(rows, WithOutcome(o));
      if sel != [] {
        assert sel[0] in sel;
      }
      forall x | x in rows && x.outcome == o
        ensures sel != []
      {
        SelectMultiset(rows, WithOutcome(o), x);
      }
    }
  }

  /** `value_counts()` of the outcome column: one entry per outcome present. */
  function OutcomeCounts(rows: Dataset): (counts: map<Outcome, nat>)
    ensures forall o: Outcome :: o in counts <==> exists x :: x in rows && x.outcome == o
    ensures forall o :: o in counts ==> counts[o] == CountOutcome(rows, o)
    ensures CountOr0(counts, 0) + CountOr0(counts, 1) == |rows|
  {
    CountOutcomePositive(rows);
    OutcomeCountsPartition(rows);
    map o | o in OutcomeValues && CountOutcome(rows, o) > 0 :: CountOutcome(rows, o)
  }

  const OutcomeValues: set<Outcome> := {0, 1}

  function CountOr0(counts: map<Outcome, nat>, o: Outcome): nat
  {
    if o in counts then counts[o] else 0
  }

  /** Number of successful launches at `site`: its rows' `class` values summed. */
  function SiteSuccesses(ds: Dataset, site: string): nat
  {
    SumOutcomes(SiteRows(ds, site))
  }

  lemma SiteSuccessesAreCounts(ds: Dataset)
    ensures forall site :: SiteSuccesses(ds, site) == CountOutcome(SiteRows(ds, site), 1)
  {
    forall site ensures SiteSuccesses(ds, site) == CountOutcome(SiteRows(ds, site), 1) {
      SumIsSuccessCount(SiteRows(ds, site));
    }
  }

  lemma SiteSuccessesSnoc(ds: Dataset, x: LaunchRecord, site: string)
    ensures SiteSuccesses(ds + [x], site) == SiteSuccesses(ds, site) + if x.site == site then x.outcome else 0
  {
    SelectSnoc(ds, x, AtSite(site));
    var rows := SiteRows(ds, site);
    if x.site == site {
      assert SiteRows(ds + [x], site) == rows + [x];
      assert (rows + [x])[..|rows|] == rows;
    } else {
      assert SiteRows(ds + [x], site) == rows;
    }
  }

  lemma SiteSuccessesAbsent(ds: Dataset, site: string)
    requires forall x :: x in ds ==> x.site != site
    ensures SiteSuccesses(ds, site) == 0
  {
  }

  /** One slice of the "ALL" pie: a site and its success count. */
  datatype SiteSlice = SiteSlice(site: string, successes: nat)

  function SlicesFor(ds: Dataset, sites: seq<string>): (slices: seq<SiteSlice>)
    ensures |slices| == |sites|
  {
    seq(|sites|, k requires 0 <= k < |sites| => SiteSlice(sites[k], SiteSuccesses(ds, sites[k])))
  }

  /** The sum of the slice values, i.e. the whole pie. */
  function SliceTotal(slices: seq<SiteSlice>): nat
  {
    if slices == [] then 0 else SliceTotal(slices[..|slices| - 1]) + slices[|slices| - 1].successes
  }

  /** A site added at the end of the list adds its own slice to the pie. */
  lemma SliceTotalAppendSite(ds: Dataset, sites: seq<string>, site: string)
    ensures SliceTotal(SlicesFor(ds, sites + [site])) == SliceTotal(SlicesFor(ds, sites)) + SiteSuccesses(ds, site)
  {
    assert SlicesFor(ds, sites + [site])[..|sites|] == SlicesFor(ds, sites);
  }

  /** One more row changes the pie by that row's outcome, on the one slice of its site. */
  lemma {:induction false} SliceTotalSnoc(ds: Dataset, x: LaunchRecord, sites: seq<string>)
    requires Distinct(sites)
    ensures SliceTotal(SlicesFor(ds + [x], sites)) ==
              SliceTotal(SlicesFor(ds, sites)) + if x.site in sites then x.outcome else 0
  {
    if sites != [] {
      var init, last := sites[..|sites| - 1], sites[|sites| - 1];
      assert sites == init + [last];
      assert Distinct(init);
      SliceTotalSnoc(ds, x, init);
      SliceTotalAppendSite(ds + [x], init, last);
      SliceTotalAppendSite(ds, init, last);
      SiteSuccessesSnoc(ds, x, last);
      if x.site == last {
        assert x.site !in init;
      }
    }
  }

  /** The "ALL" pie of the table plus one row, from the pie of the table. */
  lemma AllSitesTotalSnoc(init: Dataset, x: LaunchRecord)
    requires SliceTotal(SlicesFor(init, LaunchSites(init))) == SumOutcomes(init)
    ensures SliceTotal(SlicesFor(init + [x], LaunchSites(init + [x]))) == SumOutcomes(init) + x.outcome
  {
    var ds, sites := init + [x], LaunchSites(init);
    LaunchSitesSnoc(init, x);
    SliceTotalSnoc(init, x, sites);
    if x.site !in sites {
      SliceTotalAppendSite(ds, sites, x.site);
      SiteSuccessesSnoc(init, x, x.site);
      SiteSuccessesAbsent(init, x.site);
    }
  }

  /** The slices of the "ALL" pie add up to the table's number of successes. */
  lemma {:induction false} AllSitesTotal(ds: Dataset)
    ensures SliceTotal(SlicesFor(ds, LaunchSites(ds))) == SumOutcomes(ds)
  {
    if ds != [] {
      var init, x := ds[..|ds| - 1], ds[|ds| - 1];
      assert ds == init + [x];
      AllSitesTotal(init);
      AllSitesTotalSnoc(init, x);
    }
  }

  /** The figure, reduced to the data it is drawn from and its title. */
  datatype PieChart =
    | SuccessBySite(slices: seq<SiteSlice>, title: string)
    | OutcomesAtSite(counts: map<Outcome, nat>, title: string)

  const AllSitesPieTitle: string := "Total Successful Launches By Site (All Sites)"
  const SitePieTitlePrefix: string := "Launch Outcomes for Site: "

  /** `get_pie_chart`. "ALL": one slice per site, in order of first appearance,
      sized by its success count, the slices adding up to all successes. A
      specific site: its rows only, whatever their payload, counted per
      outcome present, the counts adding up to the site's row count. */
  function GetPieChart(ds: Dataset, site: string): (c: PieChart)
    ensures c.SuccessBySite? <==> site == AllSitesValue
    ensures c.SuccessBySite? ==>
              && c.title == AllSitesPieTitle
              && |c.slices| == |LaunchSites(ds)|
              && (forall k :: 0 <= k < |c.slices| ==> c.slices[k].site == LaunchSites(ds)[k])
              && (forall k :: 0 <= k < |c.slices| ==>
                    c.slices[k].successes == CountOutcome(SiteRows(ds, c.slices[k].site), 1))
              && SliceTotal(c.slices) == CountOutcome(ds, 1)
    ensures c.OutcomesAtSite? ==>
              && c.title == SitePieTitlePrefix + site
              && (forall o: Outcome :: o in c.counts <==> exists x :: x in ds && x.site == site && x.outcome == o)
              && (forall o :: o in c.counts ==> c.counts[o] == CountOutcome(SiteRows(ds, site), o))
              && CountOr0(c.counts, 0) + CountOr0(c.counts, 1) == |SiteRows(ds, site)|
  {
    if site == AllSitesValue then
      AllSitesTotal(ds);
      SumIsSuccessCount(ds);
      SiteSuccessesAreCounts(ds);
      SuccessBySite(SlicesFor(ds, LaunchSites(ds)), AllSitesPieTitle)
    else
      SiteRowsMembership(ds, site);
      OutcomesAtSite(OutcomeCounts(SiteRows(ds, site)), SitePieTitlePrefix + site)
  }
}
