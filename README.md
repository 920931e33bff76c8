# SpaceX launch dashboard — a Dafny model of its filtering and aggregation

The dashboard loads a table of Falcon 9 launches once. The user picks a launch
site (or "All Sites") and a payload range, and the dashboard draws two charts:

- a pie chart of launch outcomes;
- a scatter plot of payload against outcome.

This project models the code between the table and the charting library:

- how the dropdown's option list is built;
- which rows the scatter plot receives;
- what the pie chart aggregates.

Each chart is reduced to the data it is drawn from plus its title.

Modules:

- `Launches` (`launches.dfy`): the record type (`site`, `payload`, `outcome` in {0, 1},
  `booster`) and the table operations the callbacks use. These are boolean-mask row
  selection (`Select`, `SiteRows`), `unique()` on the site column (`Unique`,
  `LaunchSites`), and `min()`/`max()` on the payload column (`MinPayload`,
  `MaxPayload`, `DefaultRange`).
- `Dropdown` (`dropdown.dfy`): the sentinel `{label: 'All Sites', value: 'ALL'}` and
  `BuildDropdownOptions`. That is a method whose loop appends one option per
  distinct site, as the source's `for` loop does.
- `Scatter` (`scatter.dfy`): `update_scatter_chart`. It filters by the inclusive
  payload range, then by site unless the selection is `'ALL'`.
- `Pie` (`pie.dfy`): `get_pie_chart`. For `'ALL'` it sums `class` per site. For a
  specific site it runs `value_counts` over that site's rows, whatever their payload.
- `Scenario` (`scenario.dfy`): a four-launch table worked through both callbacks.

The control values are plain inputs. The selection is the string the dropdown
delivers, compared with `"ALL"` exactly as the source does. The range is the
slider's `[low, high]`. Nothing requires `low <= high`, because the source does
not check it. With crossed handles the scatter plot is simply empty
(`ScatterRowsCrossedRange`).

## Model

| member | source | states |
|---|---|---|
| `Launches.Select` | spacex-dash-app.py:102-105 | boolean-mask selection returns no more rows than the table has, and every returned row comes from the table and passes the mask |
| `Launches.SelectMultiset` | spacex-dash-app.py:102-105 | a row that passes the mask is kept exactly as often as it occurs in the table; a row that fails it is never kept |
| `Launches.SelectOrder` | spacex-dash-app.py:102-105 | the kept rows are an order-preserving subsequence of the table |
| `Launches.SubsequenceMultiset` | spacex-dash-app.py:102-109 | an order-preserving subsequence never holds a row more often than the table does |
| `Launches.SelectCharacterized` | spacex-dash-app.py:102-105 | any order-preserving subsequence with the row counts of `SelectMultiset` is the selection itself |
| `Launches.SelectNone` | spacex-dash-app.py:102-105 | a mask that is false on every row selects nothing |
| `Launches.SelectAll` | spacex-dash-app.py:102-105 | a mask that is true on every row returns the whole table unchanged |
| `Launches.SelectSelect` | spacex-dash-app.py:102-109 | masking twice in sequence is the same as masking once with the conjunction |
| `Launches.SiteRows` | spacex-dash-app.py:77 | `df[df['Launch Site'] == site]` returns only rows of the table at that site |
| `Launches.SiteRowsMembership` | spacex-dash-app.py:77 | a row is in the site's rows if and only if it is in the table and has that site |
| `Launches.Unique` | spacex-dash-app.py:15 | `unique()` has no duplicates and holds exactly the values of its input |
| `Launches.FirstIndex` | spacex-dash-app.py:15 | returns the position of the first occurrence of a value: the value is there and nowhere earlier |
| `Launches.UniqueFirstSeen` | spacex-dash-app.py:15 | `unique()` lists the values in the order of their first appearance |
| `Launches.LaunchSites` | spacex-dash-app.py:15 | the distinct sites have no duplicates, and a site is listed if and only if some row has it |
| `Launches.MinPayload` | spacex-dash-app.py:12 | `min()` is at most every payload and is the payload of some row |
| `Launches.MaxPayload` | spacex-dash-app.py:11 | `max()` is at least every payload and is the payload of some row |
| `Launches.DefaultRange` | spacex-dash-app.py:11-12 | the slider's initial `[min_payload, max_payload]` exists if and only if the table is non-empty, contains every payload, and both ends are actual payloads |
| `Dropdown.BuildDropdownOptions` | spacex-dash-app.py:15-18 | the option list is 1 + (number of sites) long. It starts with the `All Sites`/`ALL` sentinel. Option k+1 has label = value = the k-th distinct site. The site values are pairwise distinct, and they are exactly the sites of the table |
| `Dropdown.DropdownSitesFirstSeen` | spacex-dash-app.py:15-18 | the site options follow the order in which the sites first appear in the table |
| `Scatter.ScatterRows` | spacex-dash-app.py:99-109 | every plotted row comes from the table, has `low <= payload <= high` (both ends inclusive), and is at the selected site unless `'ALL'` is selected |
| `Scatter.ScatterRowsComplete` | spacex-dash-app.py:102-109 | every table row that matches the range and the site is plotted, as often as it occurs; no other row is plotted |
| `Scatter.ScatterRowsOrdered` | spacex-dash-app.py:102-109 | the plotted rows are an order-preserving subsequence of the table |
| `Scatter.ScatterRowsUnique` | spacex-dash-app.py:102-109 | completeness and order together determine the plotted rows uniquely |
| `Scatter.ScatterRowsCrossedRange` | spacex-dash-app.py:99-105 | with `low > high` the plot is empty, not an error |
| `Scatter.ScatterAllCoveringRange` | spacex-dash-app.py:102-109 | `'ALL'` with a range covering every payload plots the whole table unchanged, in order |
| `Scatter.ScatterAllDefaultRange` | spacex-dash-app.py:11-12 | `'ALL'` with the initial slider value `[min_payload, max_payload]` plots the whole table |
| `Scatter.ScatterSiteCoveringRange` | spacex-dash-app.py:77 | a site with a range covering every payload plots exactly the rows the single-site pie counts |
| `Scatter.UpdateScatterChart` | spacex-dash-app.py:98-122 | the chart's rows are exactly the matching rows of the table, with multiplicity and in table order. Its title begins `Payload vs. Launch Outcome for Site: ` followed by the selected site |
| `Pie.SumOutcomes` | spacex-dash-app.py:69-74 | the sum of the `class` column is at most the number of rows |
| `Pie.SumIsSuccessCount` | spacex-dash-app.py:67-74 | summing the 0/1 `class` column gives the number of successful launches |
| `Pie.OutcomeCountsPartition` | spacex-dash-app.py:79 | the failure count plus the success count is the number of rows |
| `Pie.CountOutcomePositive` | spacex-dash-app.py:79 | an outcome has a non-zero count if and only if some row has that outcome |
| `Pie.OutcomeCounts` | spacex-dash-app.py:79-80 | `value_counts()` has an entry for an outcome if and only if some row has it. The entry is that outcome's row count, and the entries add up to the number of rows |
| `Pie.SiteSuccessesAreCounts` | spacex-dash-app.py:67-74 | each site's summed `class` is its number of successful launches |
| `Pie.AllSitesTotal` | spacex-dash-app.py:67-74 | the `'ALL'` pie's slice values, one per distinct site, add up to the table's total of `class` |
| `Pie.GetPieChart` | spacex-dash-app.py:64-90 | `'ALL'`: one slice per distinct site, in first-seen order, each sized by that site's number of successes, all slices adding up to the table's successes. Title `Total Successful Launches By Site (All Sites)`. Any other selection: slices for exactly the outcomes present among that site's rows, whatever their payload. Each count is that outcome's row count, and the counts add up to the site's row count. Title `Launch Outcomes for Site: <site>` |
| `Scenario.FourScatterAll` | spacex-dash-app.py:102-109 | on a four-launch table, `'ALL'` over `[0, 10000]` plots all four rows |
| `Scenario.FourScatterSiteA` | spacex-dash-app.py:102-109 | on that table, `siteA` over `[0, 1000]` plots only its 500 kg launch |
| `Scenario.FourPieAll` | spacex-dash-app.py:64-74 | on that table, `get_pie_chart('ALL')` has slices siteA = 1 and siteB = 1 |
| `Scenario.FourPieSiteB` | spacex-dash-app.py:64-80 | on that table, `get_pie_chart('siteB')` has one failure and one success |

## Left out

- Loading the CSV (spacex-dash-app.py:10) is file I/O. The table is a parameter of every operation.
- The Dash application is not modelled. This covers the layout, the dropdown and range-slider widget settings (`min=0, max=10000, step=1000`, marks, placeholder), callback registration and `app.run()` (spacex-dash-app.py:21-57, 60-63, 93-97, 126-128).
- Plotly figure internals are left out: colour maps, hover data, axis labels and the order in which slices are drawn. The single-site counts are a map with no order. The model lists the `'ALL'` slices in first-seen site order; Plotly's drawing order (largest slice first by default) is not modelled. Rows with the same site are merged into one slice by summing `class`, as the model's `SlicesFor` and `SiteSuccesses` do.
- Payload masses are integers. The CSV column may hold floats, and the slider's initial value then prints as `500.0`; float formatting is not modelled.
- UpdateScatterChart: the contract states only the title's site part. The payload-range suffix is built in the body with integer formatting, and the float formatting noted above is left out.
- A cleared dropdown sends `None` to the callbacks. This is not modelled separately: like any selection that names no site, it gives an empty scatter plot and an empty single-site pie.
- A site literally named `ALL` cannot be told apart from the sentinel, in the source as in the model.
- `min()`/`max()` of an empty table are NaN in pandas. `DefaultRange` returns `None` there.
- The range does not have to satisfy `low <= high`. The source does not check it, so the model does not require it either.
