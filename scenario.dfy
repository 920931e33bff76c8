/** A four-row table worked through both callbacks. */
module Scenario {
  import opened Launches
  import opened Dropdown
  import opened Scatter
  import opened Pie

  const A: LaunchRecord := LaunchRecord("siteA", 500, 1, "boosterX")
  const B: LaunchRecord := LaunchRecord("siteA", 9000, 0, "boosterY")
  const C: LaunchRecord := LaunchRecord("siteB", 3000, 1, "boosterX")
  const D: LaunchRecord := LaunchRecord("siteB", 3000, 0, "boosterZ")
  const Four: Dataset := [A, B, C, D]

  /** `Select` on the four rows, one row at a time. */
  lemma SelectFour(keep: LaunchRecord -> bool)
    ensures Select(Four, keep) ==
              (if keep(A) then [A] else []) + (if keep(B) then [B] else [])
              + (if keep(C) then [C] else []) + (if keep(D) then [D] else [])
  {
    assert [] + [A] == [A] && [A] + [B] == [A, B] && [A, B] + [C] == [A, B, C] && [A, B, C] + [D] == Four;
    SelectSnoc([], A, keep);
    SelectSnoc([A], B, keep);
    SelectSnoc([A, B], C, keep);
    SelectSnoc([A, B, C], D, keep);
  }

  /** "ALL" over the slider's whole `[0, 10000]` plots all four rows. */
  lemma FourScatterAll()
    ensures ScatterRows(Four, AllSitesValue, PayloadRange(0, 10000)) == Four
  {
    ScatterAllCoveringRange(Four, PayloadRange(0, 10000));
  }

  /** "siteA" with `[0, 1000]` plots only the 500 kg launch. */
  lemma FourScatterSiteA()
    ensures ScatterRows(Four, "siteA", PayloadRange(0, 1000)) == [A]
  {
    SelectFour(InPayloadRange(PayloadRange(0, 1000)));
    SelectSnoc([], A, AtSite("siteA"));
  }

  lemma FirstTwoSites()
    ensures LaunchSites([A, B]) == ["siteA"]
  {
    assert [] + [A] == [A] && [A] + [B] == [A, B];
    LaunchSitesSnoc([], A);
    LaunchSitesSnoc([A], B);
  }

  lemma FourSites()
    ensures LaunchSites(Four) == ["siteA", "siteB"]
  {
    assert [A, B] + [C] == [A, B, C] && [A, B, C] + [D] == Four;
    FirstTwoSites();
    LaunchSitesSnoc([A, B], C);
    LaunchSitesSnoc([A, B, C], D);
  }

  lemma FourSiteRows(site: string)
    requires site == "siteA" || site == "siteB"
    ensures SiteRows(Four, site) == if site == "siteA" then [A, B] else [C, D]
  {
    SelectFour(AtSite(site));
  }

  lemma OneSuccessEach(site: string)
    requires site == "siteA" || site == "siteB"
    ensures SiteSuccesses(Four, site) == 1
  {
    FourSiteRows(site);
    var first, second := if site == "siteA" then A else C, if site == "siteA" then B else D;
    assert SiteRows(Four, site) == [first, second];
    assert [first, second][..1] == [first] && [first][..0] == [];
    assert SumOutcomes([first]) == 1;
  }

  /** The "ALL" pie gives each of the two sites one success. */
  lemma FourPieAll()
    ensures GetPieChart(Four, AllSitesValue).slices == [SiteSlice("siteA", 1), SiteSlice("siteB", 1)]
  {
    FourSites();
    OneSuccessEach("siteA");
    OneSuccessEach("siteB");
  }

  lemma SiteBOutcomes()
    ensures CountOutcome([C, D], 0) == 1 && CountOutcome([C, D], 1) == 1
  {
    assert [] + [C] == [C] && [C] + [D] == [C, D];
    SelectSnoc([], C, WithOutcome(0));
    SelectSnoc([C], D, WithOutcome(0));
    SelectSnoc([], C, WithOutcome(1));
    SelectSnoc([C], D, WithOutcome(1));
  }

  lemma SiteBCounts()
    ensures OutcomeCounts([C, D]) == map[0 := 1, 1 := 1]
  {
    SiteBOutcomes();
    var counts := OutcomeCounts([C, D]);
    assert D in [C, D] && D.outcome == 0;
    assert C in [C, D] && C.outcome == 1;
    assert counts.Keys == {0, 1};
  }

  /** The "siteB" pie has one failure and one success. */
  lemma FourPieSiteB()
    ensures GetPieChart(Four, "siteB").counts == map[0 := 1, 1 := 1]
  {
    FourSiteRows("siteB");
    SiteBCounts();
  }
}
