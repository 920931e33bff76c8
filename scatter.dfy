/** The scatter-chart callback `update_scatter_chart(entered_site, payload_range)`:
    it keeps the rows whose payload lies in the slider's range (both ends
    included) and, unless "ALL" is selected, only those at the selected site. */
module Scatter {
  import opened Launches
  import opened Dropdown

  /** The mask `(payload >= low) & (payload <= high)`. */
  function InPayloadRange(range: PayloadRange): LaunchRecord -> bool
  {
    (x: LaunchRecord) => range.low <= x.payload <= range.high
  }

  /** Whether a row belongs in the scatter plot. */
  predicate ScatterMatch(x: LaunchRecord, site: string, range: PayloadRange)
  {
    InPayloadRange(range)(x) && (site == AllSitesValue || x.site == site)
  }

  /** The payload mask first, then, for a specific site, the site mask. */
  function ScatterRows(ds: Dataset, site: string, range: PayloadRange): (rows: Dataset)
    ensures |rows| <= |ds|
    ensures forall x :: x in rows ==> x in ds && ScatterMatch(x, site, range)
  {
    var inRange := Select(ds, InPayloadRange(range));
    if site != AllSitesValue then SiteRows(inRange, site) else inRange
  }

  /** Every matching row is plotted as often as it occurs in the table; no
      other row is plotted. */
  lemma ScatterRowsComplete(ds: Dataset, site: string, range: PayloadRange)
    ensures forall x :: multiset(ScatterRows(ds, site, range))[x] ==
                        if ScatterMatch(x, site, range) then multiset(ds)[x] else 0
  {
    var inRange := Select(ds, InPayloadRange(range));
    forall x
      ensures multiset(ScatterRows(ds, site, range))[x] ==
              if ScatterMatch(x, site, range) then multiset(ds)[x] else 0
    {
      SelectMultiset(ds, InPayloadRange(range), x);
      if site != AllSitesValue {
        SelectMultiset(inRange, AtSite(site), x);
      }
    }
  }

  /** The plotted rows keep the table's order. */
  lemma ScatterRowsOrdered(ds: Dataset, site: string, range: PayloadRange)
    ensures IsSubsequence(ScatterRows(ds, site, range), ds)
  {
    if site != AllSitesValue {
      var both := (x: LaunchRecord) => ScatterMatch(x, site, range);
      SelectSelect(ds, InPayloadRange(range), AtSite(site), both);
      SelectOrder(ds, both);
    } else {
      SelectOrder(ds, InPayloadRange(range));
    }
  }

  /** The two properties above pin the result down: any order-preserving
      choice of rows with the same row counts is `ScatterRows` itself. */
  lemma ScatterRowsUnique(ds: Dataset, site: string, range: PayloadRange, r: Dataset)
    requires IsSubsequence(r, ds)
    requires forall x :: multiset(r)[x] == if ScatterMatch(x, site, range) then multiset(ds)[x] else 0
    ensures r == ScatterRows(ds, site, range)
  {
    var both := (x: LaunchRecord) => ScatterMatch(x, site, range);
    SelectCharacterized(ds, both, r);
    if site != AllSitesValue {
      SelectSelect(ds, InPayloadRange(range), AtSite(site), both);
    } else {
      SelectCharacterized(ds, InPayloadRange(range), r);
    }
  }

  /** With the handles crossed (`low > high`) the plot is empty, not an error. */
  lemma ScatterRowsCrossedRange(ds: Dataset, site: string, range: PayloadRange)
    requires range.low > range.high
    ensures ScatterRows(ds, site, range) == []
  {
    var rows := ScatterRows(ds, site, range);
    forall x ensures multiset(rows)[x] == 0 {
      ScatterRowsComplete(ds, site, range);
    }
    assert multiset(rows) == multiset{};
  }

  /** "ALL" with a range that covers every payload plots the whole table, in order. */
  lemma ScatterAllCoveringRange(ds: Dataset, range: PayloadRange)
    requires forall x :: x in ds ==> range.low <= x.payload <= range.high
    ensures ScatterRows(ds, AllSitesValue, range) == ds
  {
    SelectAll(ds, InPayloadRange(range));
  }

  /** The slider's initial value `[min_payload, max_payload]` with "ALL"
      plots the whole table (an empty table has no such value). */
  lemma ScatterAllDefaultRange(ds: Dataset)
    ensures DefaultRange(ds).Some? ==> ScatterRows(ds, AllSitesValue, DefaultRange(ds).value) == ds
  {
    if ds != [] {
      ScatterAllCoveringRange(ds, DefaultRange(ds).value);
    }
  }

  /** A specific site with a range covering every payload plots exactly the
      rows the single-site pie chart counts. */
  lemma ScatterSiteCoveringRange(ds: Dataset, site: string, range: PayloadRange)
    requires site != AllSitesValue
    requires forall x :: x in ds ==> range.low <= x.payload <= range.high
    ensures ScatterRows(ds, site, range) == SiteRows(ds, site)
  {
    SelectAll(ds, InPayloadRange(range));
  }

  /** The figure, reduced to the rows it plots and its title. */
  datatype ScatterChart = ScatterChart(rows: Dataset, title: string)

  const ScatterTitlePrefix: string := "Payload vs. Launch Outcome for Site: "

  function DigitChar(d: nat): char
    requires d < 10
  {
    "0123456789"[d]
  }

  function DecimalDigits(n: nat): string
    decreases n
  {
    if n < 10 then [DigitChar(n)] else DecimalDigits(n / 10) + [DigitChar(n % 10)]
  }

  /** How an f-string renders an integer payload bound. */
  function FormatInt(i: int): string
  {
    if i < 0 then "-" + DecimalDigits(-i) else DecimalDigits(i)
  }

  /** `update_scatter_chart`: the plotted rows are exactly the matching rows,
      in table order, and the title names the selected site. */
  function UpdateScatterChart(ds: Dataset, site: string, range: PayloadRange): (c: ScatterChart)
    ensures forall x :: x in c.rows ==> x in ds && ScatterMatch(x, site, range)
    ensures forall x :: multiset(c.rows)[x] == if ScatterMatch(x, site, range) then multiset(ds)[x] else 0
    ensures IsSubsequence(c.rows, ds)
    ensures |ScatterTitlePrefix| + |site| <= |c.title|
    ensures c.title[..|ScatterTitlePrefix| + |site|] == ScatterTitlePrefix + site
  {
    ScatterRowsComplete(ds, site, range);
    ScatterRowsOrdered(ds, site, range);
    var head := ScatterTitlePrefix + site;
    var tail := " (Payload Range: " + FormatInt(range.low) + "kg - " + FormatInt(range.high) + "kg)";
    assert (head + tail)[..|head|] == head;
    ScatterChart(ScatterRows(ds, site, range), head + tail)
  }
}
