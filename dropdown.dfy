/** The launch-site dropdown: a sentinel "All Sites" entry followed by one
    entry per distinct launch site. Its value is what both callbacks receive
    as `entered_site`. */
module Dropdown {
  import opened Launches

  /** The value the callbacks compare `entered_site` with. */
  const AllSitesValue: string := "ALL"

  datatype DropdownOption = DropdownOption(labelText: string, value: string)

  const AllSitesOption: DropdownOption := DropdownOption("All Sites", AllSitesValue)

  /** The values of the options after the sentinel. */
  function SiteValues(options: seq<DropdownOption>): (values: seq<string>)
    requires options != []
    ensures |values| == |options| - 1
  {
    seq(|options| - 1, k requires 0 <= k < |options| - 1 => options[k + 1].value)
  }

  /** After the sentinel, the options name every site of the table, each
      exactly once, and nothing else. */
  ghost predicate OffersEachSiteOnce(ds: Dataset, options: seq<DropdownOption>)
  {
    && options != []
    && Distinct(SiteValues(options))
    && forall site :: site in SiteValues(options) <==> site in SiteColumn(ds)
  }

  /** The list starts with the sentinel and gets one `{label: site, value: site}`
      entry appended per distinct site, in the order `unique()` yields them. */
  method BuildDropdownOptions(ds: Dataset) returns (options: seq<DropdownOption>)
    ensures |options| == 1 + |LaunchSites(ds)|
    ensures options[0] == AllSitesOption
    ensures forall k :: 1 <= k < |options| ==>
              options[k].labelText == options[k].value == LaunchSites(ds)[k - 1]
    ensures OffersEachSiteOnce(ds, options)
  {
    var launchSites := LaunchSites(ds);
    options := [AllSitesOption];
    for i := 0 to |launchSites|
      invariant |options| == 1 + i
      invariant options[0] == AllSitesOption
      invariant forall k :: 1 <= k <= i ==> options[k] == DropdownOption(launchSites[k - 1], launchSites[k - 1])
    {
      var site := launchSites[i];
      options := options + [DropdownOption(site, site)];
    }
    OptionsCoverSites(ds, launchSites, options);
  }

  lemma OptionsCoverSites(ds: Dataset, launchSites: seq<string>, options: seq<DropdownOption>)
    requires launchSites == LaunchSites(ds)
    requires |options| == 1 + |launchSites|
    requires forall k :: 1 <= k < |options| ==> options[k].value == launchSites[k - 1]
    ensures OffersEachSiteOnce(ds, options)
  {
    assert SiteValues(options) == launchSites;
    assert launchSites == Unique(SiteColumn(ds));
  }

  /** The sites follow the order of their first appearance in the table. */
  lemma {:induction false} DropdownSitesFirstSeen(ds: Dataset)
    ensures forall i, j :: 0 <= i < j < |LaunchSites(ds)| ==>
              FirstIndex(SiteColumn(ds), LaunchSites(ds)[i]) < FirstIndex(SiteColumn(ds), LaunchSites(ds)[j])
  {
    UniqueFirstSeen(SiteColumn(ds));
  }
}
