/** The launch table the dashboard loads once at start-up, and the pandas
    operations the callbacks apply to it: boolean-mask row selection,
    `unique()` on the site column, and `min()`/`max()` on the payload column.
    Every recursive definition here consumes the table from its LAST row, so
    that the inductions in the other modules line up with one another. */
module Launches {

  /** The `class` column: 1 for a successful landing, 0 for a failure. */
  type Outcome = o: int | o == 0 || o == 1

  /** One row of the table: `Launch Site`, `Payload Mass (kg)`, `class`,
      `Booster Version` (the other columns are never read). */
  datatype LaunchRecord = LaunchRecord(site: string, payload: int, outcome: Outcome, booster: string)

  type Dataset = seq<LaunchRecord>

  datatype Option<T> = None | Some(value: T)

  /** The two handles of the payload slider, `[low, high]`. Nothing orders them. */
  datatype PayloadRange = PayloadRange(low: int, high: int)

  /** `r` is obtained from `s` by deleting rows, keeping the order of the rest. */
  ghost predicate IsSubsequence(r: seq<LaunchRecord>, s: seq<LaunchRecord>)
    decreases |s|
  {
    || r == []
    || (&& s != []
        && (|| (r[|r| - 1] == s[|s| - 1] && IsSubsequence(r[..|r| - 1], s[..|s| - 1]))
            || IsSubsequence(r, s[..|s| - 1])))
  }

  /** `df[mask]`: the rows for which `keep` holds, in table order. */
  function Select(ds: Dataset, keep: LaunchRecord -> bool): (r: Dataset)
    ensures |r| <= |ds|
    ensures forall x :: x in r ==> x in ds && keep(x)
  {
    if ds == [] then []
    else
      var last := ds[|ds| - 1];
      Select(ds[..|ds| - 1], keep) + if keep(last) then [last] else []
  }

  /** The mask `df['Launch Site'] == site`. */
  function AtSite(site: string): LaunchRecord -> bool
  {
    (x: LaunchRecord) => x.site == site
  }

  /** `df[df['Launch Site'] == site]`. */
  function SiteRows(ds: Dataset, site: string): (r: Dataset)
    ensures forall x :: x in r ==> x in ds && x.site == site
  {
    Select(ds, AtSite(site))
  }

  lemma SelectSnoc(ds: Dataset, x: LaunchRecord, keep: LaunchRecord -> bool)
    ensures Select(ds + [x], keep) == Select(ds, keep) + if keep(x) then [x] else []
  {
  }

  /** Selection keeps every row that passes, as often as it occurs, and no other. */
  lemma {:induction false} SelectMultiset(ds: Dataset, keep: LaunchRecord -> bool, x: LaunchRecord)
    ensures multiset(Select(ds, keep))[x] == if keep(x) then multiset(ds)[x] else 0
  {
    if ds != [] {
      var init, last := ds[..|ds| - 1], ds[|ds| - 1];
      assert ds == init + [last];
      SelectMultiset(init, keep, x);
    }
  }

  /** Selection preserves the order of the rows it keeps. */
  lemma {:induction false} SelectOrder(ds: Dataset, keep: LaunchRecord -> bool)
    ensures IsSubsequence(Select(ds, keep), ds)
  {
    if ds != [] {
      var init, last := ds[..|ds| - 1], ds[|ds| - 1];
      SelectOrder(init, keep);
      var r := Select(ds, keep);
      if keep(last) {
        assert r == Select(init, keep) + [last];
        assert r[|r| - 1] == ds[|ds| - 1];
        assert r[..|r| - 1] == Select(init, keep);
        assert IsSubsequence(r[..|r| - 1], ds[..|ds| - 1]);
        assert r != [];
      } else {
        assert r == Select(init, keep);
        assert IsSubsequence(r, ds[..|ds| - 1]);
      }
    }
  }

  /** A subsequence never holds a row more often than the table does. */
  lemma {:induction false} SubsequenceMultiset(r: Dataset, s: Dataset)
    requires IsSubsequence(r, s)
    ensures multiset(r) <= multiset(s)
    decreases |s|
  {
    if r != [] {
      var sInit, sLast := s[..|s| - 1], s[|s| - 1];
      assert s == sInit + [sLast];
      if r[|r| - 1] == sLast && IsSubsequence(r[..|r| - 1], sInit) {
        SubsequenceMultiset(r[..|r| - 1], sInit);
        assert r == r[..|r| - 1] + [sLast];
      } else {
        SubsequenceMultiset(r, sInit);
      }
    }
  }

  /** Order preservation and the row counts of `SelectMultiset` determine the
      selection completely: no other sequence has both. */
  lemma {:induction false} SelectCharacterized(ds: Dataset, keep: LaunchRecord -> bool, r: Dataset)
    requires IsSubsequence(r, ds)
    requires forall x :: multiset(r)[x] == if keep(x) then multiset(ds)[x] else 0
    ensures r == Select(ds, keep)
    decreases |ds|
  {
    if ds == [] {
      assert r == [];
    } else {
      var init, last := ds[..|ds| - 1], ds[|ds| - 1];
      assert ds == init + [last];
      if r != [] && r[|r| - 1] == last && IsSubsequence(r[..|r| - 1], init) {
        var rInit := r[..|r| - 1];
        assert r == rInit + [last];
        assert multiset(r)[last] > 0;
        assert keep(last);
        forall x ensures multiset(rInit)[x] == if keep(x) then multiset(init)[x] else 0 {
          assert multiset(r)[x] == multiset(rInit)[x] + if x == last then 1 else 0;
        }
        SelectCharacterized(init, keep, rInit);
      } else {
        assert IsSubsequence(r, init);
        if keep(last) {
          SubsequenceMultiset(r, init);
          assert false;
        }
        forall x ensures multiset(r)[x] == if keep(x) then multiset(init)[x] else 0 {
          if keep(x) {
            assert x != last;
          }
        }
        SelectCharacterized(init, keep, r);
      }
    }
  }

  /** A mask that is false on every row selects nothing. */
  lemma {:induction false} SelectNone(ds: Dataset, keep: LaunchRecord -> bool)
    requires forall x :: x in ds ==> !keep(x)
    ensures Select(ds, keep) == []
  {
    if ds != [] {
      var init, last := ds[..|ds| - 1], ds[|ds| - 1];
      assert ds == init + [last];
      assert !keep(last);
      SelectNone(init, keep);
    }
  }

  /** The rows of one site are the table's rows with that site, and only those. */
  lemma SiteRowsMembership(ds: Dataset, site: string)
    ensures forall x :: x in SiteRows(ds, site) <==> x in ds && x.site == site
  {
    forall x | x in ds && x.site == site
      ensures x in SiteRows(ds, site)
    {
      SelectMultiset(ds, AtSite(site), x);
    }
  }

  /** A mask that is true on every row selects the whole table. */
  lemma {:induction false} SelectAll(ds: Dataset, keep: LaunchRecord -> bool)
    requires forall x :: x in ds ==> keep(x)
    ensures Select(ds, keep) == ds
  {
    if ds != [] {
      var init, last := ds[..|ds| - 1], ds[|ds| - 1];
      assert ds == init + [last];
      assert keep(last);
      SelectAll(init, keep);
    }
  }

  /** Applying one mask after another is applying their conjunction. */
  lemma {:induction false} SelectSelect(ds: Dataset, p: LaunchRecord -> bool, q: LaunchRecord -> bool,
                                        pq: LaunchRecord -> bool)
    requires forall x :: pq(x) == (p(x) && q(x))
    ensures Select(Select(ds, p), q) == Select(ds, pq)
  {
    if ds != [] {
      var init, last := ds[..|ds| - 1], ds[|ds| - 1];
      SelectSelect(init, p, q, pq);
      assert Select(ds, pq) == Select(init, pq) + if pq(last) then [last] else [];
      if p(last) {
        assert Select(ds, p) == Select(init, p) + [last];
        SelectSnoc(Select(init, p), last, q);
      } else {
        assert Select(ds, p) == Select(init, p);
      }
    }
  }

  /** The `Launch Site` column. */
  function SiteColumn(ds: Dataset): (col: seq<string>)
    ensures |col| == |ds|
    ensures forall i :: 0 <= i < |ds| ==> col[i] == ds[i].site
  {
    seq(|ds|, i requires 0 <= i < |ds| => ds[i].site)
  }

  lemma SiteColumnMembership(ds: Dataset, site: string)
    ensures site in SiteColumn(ds) <==> exists x :: x in ds && x.site == site
  {
  }

  predicate Distinct(u: seq<string>)
  {
    forall i, j :: 0 <= i < j < |u| ==> u[i] != u[j]
  }

  /** `Series.unique()`: each value of `s` once, in order of first appearance. */
  function Unique(s: seq<string>): (u: seq<string>)
    ensures Distinct(u)
    ensures forall x :: x in u <==> x in s
  {
    if s == [] then []
    else
      var prev := Unique(s[..|s| - 1]);
      var last := s[|s| - 1];
      assert forall x :: x in s <==> x in s[..|s| - 1] || x == last;
      if last in prev then prev else prev + [last]
  }

  /** Position of the first occurrence of `x` in `s`. */
  function FirstIndex(s: seq<string>, x: string): (i: nat)
    requires x in s
    ensures i < |s| && s[i] == x
    ensures forall j :: 0 <= j < i ==> s[j] != x
  {
    if s[0] == x then 0 else 1 + FirstIndex(s[1..], x)
  }

  lemma FirstIndexPrefix(s: seq<string>, x: string)
    requires s != [] && x in s[..|s| - 1]
    ensures FirstIndex(s, x) == FirstIndex(s[..|s| - 1], x)
  {
  }

  /** `unique()` lists the values in order of their first appearance. */
  lemma {:induction false} UniqueFirstSeen(s: seq<string>)
    ensures forall i, j :: 0 <= i < j < |Unique(s)| ==>
              FirstIndex(s, Unique(s)[i]) < FirstIndex(s, Unique(s)[j])
  {
    if s != [] {
      var init, last := s[..|s| - 1], s[|s| - 1];
      UniqueFirstSeen(init);
      var prev, u := Unique(init), Unique(s);
      forall i, j | 0 <= i < j < |u|
        ensures FirstIndex(s, u[i]) < FirstIndex(s, u[j])
      {
        assert u[i] in prev;
        FirstIndexPrefix(s, u[i]);
        if j < |prev| {
          FirstIndexPrefix(s, u[j]);
        } else {
          assert u[j] == last && last !in init;
          assert s[|s| - 1] == last;
        }
      }
    }
  }

  /** `spacex_df['Launch Site'].unique().tolist()`. */
  function LaunchSites(ds: Dataset): (sites: seq<string>)
    ensures Distinct(sites)
    ensures forall site :: site in sites <==> exists x :: x in ds && x.site == site
  {
    var col := SiteColumn(ds);
    forall site ensures site in col <==> exists x :: x in ds && x.site == site {
      SiteColumnMembership(ds, site);
    }
    Unique(col)
  }

  /** The sites of a table with one more row. */
  lemma LaunchSitesSnoc(ds: Dataset, x: LaunchRecord)
    ensures LaunchSites(ds + [x]) ==
              if x.site in LaunchSites(ds) then LaunchSites(ds) else LaunchSites(ds) + [x.site]
  {
    var col := SiteColumn(ds + [x]);
    assert col[..|col| - 1] == SiteColumn(ds);
  }

  /** `spacex_df['Payload Mass (kg)'].min()` of a non-empty table. */
  function MinPayload(ds: Dataset): (m: int)
    requires ds != []
    ensures forall x :: x in ds ==> m <= x.payload
    ensures exists x :: x in ds && x.payload == m
  {
    var last := ds[|ds| - 1];
    if |ds| == 1 then last.payload
    else
      var init := ds[..|ds| - 1];
      var m' := MinPayload(init);
      assert ds == init + [last];
      if last.payload < m' then last.payload else m'
  }

  /** `spacex_df['Payload Mass (kg)'].max()` of a non-empty table. */
  function MaxPayload(ds: Dataset): (m: int)
    requires ds != []
    ensures forall x :: x in ds ==> x.payload <= m
    ensures exists x :: x in ds && x.payload == m
  {
    var last := ds[|ds| - 1];
    if |ds| == 1 then last.payload
    else
      var init := ds[..|ds| - 1];
      var m' := MaxPayload(init);
      assert ds == init + [last];
      if last.payload > m' then last.payload else m'
  }

  /** The slider's initial value `[min_payload, max_payload]`. On an empty
      table pandas yields NaN for both, which is `None` here. */
  function DefaultRange(ds: Dataset): (r: Option<PayloadRange>)
    ensures r.None? <==> ds == []
    ensures r.Some? ==> forall x :: x in ds ==> r.value.low <= x.payload <= r.value.high
    ensures r.Some? ==> exists x :: x in ds && x.payload == r.value.low
    ensures r.Some? ==> exists x :: x in ds && x.payload == r.value.high
  {
    if ds == [] then None else Some(PayloadRange(MinPayload(ds), MaxPayload(ds)))
  }
}
