/**
 * The sales table, the two views `load_data` derives from it, and the
 * group-by sums the chat responder reports.
 */
module Sales {
  import opened Outcomes
  import Text

  /** One row of the EV sales data set. Values are whole vehicle counts. */
  datatype Record = Record(
    region: string,
    parameter: string,
    mode: string,
    powertrain: string,
    category: string,
    year: int,
    value: int)

  type Table = seq<Record>

  const EvSales: string := "EV sales"

  /** Regions that are aggregates of other regions. */
  const AggregateRegions: seq<string> := ["World", "Rest of the world"]

  predicate IsEvSales(r: Record) { r.parameter == EvSales }

  predicate IsNamedRegion(r: Record) { r.region !in AggregateRegions }

  // ---------------------------------------------------------------
  // Row filters
  // ---------------------------------------------------------------

  /** `t[mask]` for the boolean mask `p`: the rows satisfying p, in order, each as often as in t. */
  function Where(t: Table, p: Record -> bool): (s: Table)
    ensures |s| <= |t|
    ensures forall r :: r in s <==> r in t && p(r)
    ensures forall r :: multiset(s)[r] == if p(r) then multiset(t)[r] else 0
  {
    if t == [] then []
    else
      var rest := Where(t[1..], p);
      assert t == [t[0]] + t[1..];
      if p(t[0]) then [t[0]] + rest else rest
  }

  /** a is obtained from b by deleting elements (order is kept). */
  predicate IsSubsequence(a: Table, b: Table)
    decreases |b|
  {
    if b == [] then a == []
    else (a != [] && a[0] == b[0] && IsSubsequence(a[1..], b[1..])) || IsSubsequence(a, b[1..])
  }

  lemma {:induction false} WhereKeepsOrder(t: Table, p: Record -> bool)
    ensures IsSubsequence(Where(t, p), t)
  {
    if t != [] {
      WhereKeepsOrder(t[1..], p);
    }
  }

  // ---------------------------------------------------------------
  // load_data
  // ---------------------------------------------------------------

  /** The analysis view and the prediction-options view. */
  datatype Views = Views(analysis: Table, predictOptions: Table)

  /** `load_data`, given the parsed file or None when the file is absent. */
  function LoadData(file: Option<Table>): Option<Views> {
    match file
    case None => None
    case Some(t) =>
      var sales := Where(t, IsEvSales);
      Some(Views(Where(sales, IsNamedRegion), sales))
  }

  lemma LoadDataViews(file: Option<Table>)
    ensures LoadData(file).None? <==> file.None?
    ensures file.Some? ==>
      var v := LoadData(file).value;
      var t := file.value;
      (forall r :: multiset(v.predictOptions)[r] == if IsEvSales(r) then multiset(t)[r] else 0)
      && (forall r :: multiset(v.analysis)[r] ==
                        if IsEvSales(r) && IsNamedRegion(r) then multiset(t)[r] else 0)
      && IsSubsequence(v.predictOptions, t)
      && IsSubsequence(v.analysis, v.predictOptions)
  {
    if file.Some? {
      var t := file.value;
      var sales := Where(t, IsEvSales);
      WhereKeepsOrder(t, IsEvSales);
      WhereKeepsOrder(sales, IsNamedRegion);
    }
  }

  // ---------------------------------------------------------------
  // Sums and extremes over the table
  // ---------------------------------------------------------------

  /** `t['value'].sum()` (0 for no rows). */
  function ValueSum(t: Table): int {
    if t == [] then 0 else t[0].value + ValueSum(t[1..])
  }

  /** `df[df['year'] == y]['value'].sum()`, the same as `df.groupby('year')['value'].sum()[y]`. */
  function YearTotal(t: Table, y: int): int {
    ValueSum(Where(t, (r: Record) => r.year == y))
  }

  /** `df[df['region'] == g]['value'].sum()`, the same as `df.groupby('region')['value'].sum()[g]`. */
  function RegionTotal(t: Table, g: string): int {
    ValueSum(Where(t, (r: Record) => r.region == g))
  }

  function YearColumn(t: Table): (ys: seq<int>)
    ensures |ys| == |t| && forall i :: 0 <= i < |t| ==> ys[i] == t[i].year
  {
    seq(|t|, i requires 0 <= i < |t| => t[i].year)
  }

  function RegionColumn(t: Table): (rs: seq<string>)
    ensures |rs| == |t| && forall i :: 0 <= i < |t| ==> rs[i] == t[i].region
  {
    seq(|t|, i requires 0 <= i < |t| => t[i].region)
  }

  /**
   * Which of the years in ys has the largest summed value, the smallest year
   * among equal sums (`idxmax` over the ascending group keys returns the first).
   */
  function PeakYearAmong(t: Table, ys: seq<int>): (y: int)
    requires |ys| > 0
    ensures y in ys
    ensures forall z :: z in ys ==> YearTotal(t, z) <= YearTotal(t, y)
    ensures forall z :: z in ys && YearTotal(t, z) == YearTotal(t, y) ==> y <= z
  {
    if |ys| == 1 then ys[0]
    else
      var b := PeakYearAmong(t, ys[1..]);
      assert forall z :: z in ys ==> z == ys[0] || z in ys[1..];
      if YearTotal(t, ys[0]) > YearTotal(t, b) || (YearTotal(t, ys[0]) == YearTotal(t, b) && ys[0] <= b)
      then ys[0] else b
  }

  /** y is a year of t, no year of t sums higher, and no smaller year of t sums as high. */
  predicate IsPeakYear(t: Table, y: int) {
    (exists i :: 0 <= i < |t| && t[i].year == y)
    && (forall i :: 0 <= i < |t| ==> YearTotal(t, t[i].year) <= YearTotal(t, y))
    && (forall i :: 0 <= i < |t| && YearTotal(t, t[i].year) == YearTotal(t, y) ==> y <= t[i].year)
  }

  /** `df.groupby('year')['value'].sum().idxmax()`; pandas raises on an empty table. */
  function PeakYear(t: Table): (y: int)
    requires |t| > 0
    ensures IsPeakYear(t, y)
  {
    var ys := YearColumn(t);
    var y := PeakYearAmong(t, ys);
    assert forall i :: 0 <= i < |t| ==> t[i].year in ys;
    y
  }

  /** `df['year'].max()` of a non-empty table. */
  function MaxYear(t: Table): (y: int)
    requires |t| > 0
    ensures exists i :: 0 <= i < |t| && t[i].year == y
    ensures forall i :: 0 <= i < |t| ==> t[i].year <= y
  {
    if |t| == 1 then t[0].year
    else
      var m := MaxYear(t[1..]);
      assert forall i :: 1 <= i < |t| ==> t[i] == t[1..][i - 1];
      if t[0].year >= m then t[0].year else m
  }

  // ---------------------------------------------------------------
  // Distinct values in order of first appearance (`Series.unique()`)
  // ---------------------------------------------------------------

  function RemoveAll(xs: seq<string>, x: string): (r: seq<string>)
    ensures |r| <= |xs|
    ensures forall y :: y in r <==> y in xs && y != x
  {
    if xs == [] then []
    else (if xs[0] == x then [] else [xs[0]]) + RemoveAll(xs[1..], x)
  }

  /** The position of the first occurrence of x in xs. */
  function IndexOf(xs: seq<string>, x: string): (k: nat)
    requires x in xs
    ensures k < |xs| && xs[k] == x
    ensures forall j :: 0 <= j < k ==> xs[j] != x
  {
    if xs[0] == x then 0 else 1 + IndexOf(xs[1..], x)
  }

  /** Removing every copy of one value keeps the order of first occurrences of the others. */
  lemma {:induction false} RemoveAllKeepsOrder(ys: seq<string>, x: string, a: string, b: string)
    requires a in RemoveAll(ys, x) && b in RemoveAll(ys, x)
    requires IndexOf(RemoveAll(ys, x), a) < IndexOf(RemoveAll(ys, x), b)
    ensures a in ys && b in ys && IndexOf(ys, a) < IndexOf(ys, b)
  {
    var r := RemoveAll(ys, x);
    if ys[0] == x {
      assert r == RemoveAll(ys[1..], x);
      RemoveAllKeepsOrder(ys[1..], x, a, b);
    } else {
      assert r == [ys[0]] + RemoveAll(ys[1..], x);
      if a != ys[0] {
        assert b != ys[0];
        assert r[1..] == RemoveAll(ys[1..], x);
        RemoveAllKeepsOrder(ys[1..], x, a, b);
      }
    }
  }

  /**
   * `Series.unique()`: each value of xs once, in the order of first
   * appearance.
   */
  function Unique(xs: seq<string>): (u: seq<string>)
    decreases |xs|
    ensures forall y :: y in u <==> y in xs
    ensures forall i, j :: 0 <= i < j < |u| ==> u[i] != u[j]
    ensures |u| <= |xs|
  {
    if xs == [] then []
    else
      var x := xs[0];
      var ys := RemoveAll(xs[1..], x);
      var rest := Unique(ys);
      assert forall y :: y in xs <==> y == x || y in xs[1..];
      assert x !in rest;
      [x] + rest
  }

  /** `unique()` lists the values in the order of their first appearance in xs. */
  lemma {:induction false} UniqueKeepsOrder(xs: seq<string>)
    ensures forall i, j :: 0 <= i < j < |Unique(xs)| ==> IndexOf(xs, Unique(xs)[i]) < IndexOf(xs, Unique(xs)[j])
    decreases |xs|
  {
    if xs != [] {
      var ys := RemoveAll(xs[1..], xs[0]);
      UniqueKeepsOrder(ys);
      assert Unique(xs) == [xs[0]] + Unique(ys);
      UniqueConsMembers(xs, Unique(ys), Unique(xs));
      UniqueConsOrder(xs, Unique(ys), Unique(xs));
    }
  }

  /** Putting xs[0] in front of the rest without xs[0] keeps the first-appearance order. */
  lemma ConsPairOrder(xs: seq<string>, a: string, b: string)
    requires xs != [] && b in RemoveAll(xs[1..], xs[0])
    requires a == xs[0] || (a in RemoveAll(xs[1..], xs[0]) &&
      IndexOf(RemoveAll(xs[1..], xs[0]), a) < IndexOf(RemoveAll(xs[1..], xs[0]), b))
    ensures a in xs && b in xs && IndexOf(xs, a) < IndexOf(xs, b)
  {
    var x := xs[0];
    assert b in xs[1..] && b != x;
    assert IndexOf(xs, b) == 1 + IndexOf(xs[1..], b);
    if a != x {
      RemoveAllKeepsOrder(xs[1..], x, a, b);
      assert IndexOf(xs, a) == 1 + IndexOf(xs[1..], a);
    }
  }

  lemma UniqueConsMembers(xs: seq<string>, rest: seq<string>, u: seq<string>)
    requires xs != [] && u == [xs[0]] + rest
    requires forall y :: y in rest ==> y in RemoveAll(xs[1..], xs[0])
    ensures forall y :: y in u ==> y in xs
  {
    forall y | y in u ensures y in xs {
      if y != xs[0] {
        assert y in rest;
        ConsPairOrder(xs, xs[0], y);
      }
    }
  }

  /** Putting the first value ahead of the ordered distinct rest keeps first-appearance order. */
  lemma UniqueConsOrder(xs: seq<string>, rest: seq<string>, u: seq<string>)
    requires xs != [] && u == [xs[0]] + rest
    requires forall y :: y in rest ==> y in RemoveAll(xs[1..], xs[0])
    requires forall y :: y in u ==> y in xs
    requires forall i, j :: 0 <= i < j < |rest| ==>
      IndexOf(RemoveAll(xs[1..], xs[0]), rest[i]) < IndexOf(RemoveAll(xs[1..], xs[0]), rest[j])
    ensures forall i, j :: 0 <= i < j < |u| ==> IndexOf(xs, u[i]) < IndexOf(xs, u[j])
  {
    forall i, j | 0 <= i < j < |u| ensures IndexOf(xs, u[i]) < IndexOf(xs, u[j]) {
      assert u[j] == rest[j - 1];
      if i > 0 {
        assert u[i] == rest[i - 1];
      }
      ConsPairOrder(xs, u[i], u[j]);
    }
  }

  // ---------------------------------------------------------------
  // Ranking of regions (`groupby('region').sum().nlargest(n)`)
  // ---------------------------------------------------------------

  /** One group of a group-by sum: the key and the summed value. */
  datatype Group = Group(key: string, total: int)

  /**
   * a comes before b in `nlargest`: a larger sum first; among equal sums the
   * key met first in the ascending group order, i.e. the smaller key.
   */
  predicate Ahead(a: Group, b: Group) {
    a.total > b.total || (a.total == b.total && Text.StrLess(a.key, b.key))
  }

  lemma AheadTransitive(a: Group, b: Group, c: Group)
    requires Ahead(a, b) && Ahead(b, c)
    ensures Ahead(a, c)
  {
    if a.total == b.total && b.total == c.total {
      Text.StrLessTransitive(a.key, b.key, c.key);
    }
  }

  lemma AheadTotal(a: Group, b: Group)
    requires a.key != b.key
    ensures Ahead(a, b) || Ahead(b, a)
  {
    Text.StrLessTotal(a.key, b.key);
  }

  predicate Ranked(s: seq<Group>) {
    forall i, j :: 0 <= i < j < |s| ==> Ahead(s[i], s[j])
  }

  predicate DistinctKeys(s: seq<Group>) {
    forall i, j :: 0 <= i < j < |s| ==> s[i].key != s[j].key
  }

  function Insert(x: Group, s: seq<Group>): (r: seq<Group>)
    requires Ranked(s)
    requires forall g :: g in s ==> g.key != x.key
    ensures Ranked(r)
    ensures multiset(r) == multiset(s) + multiset{x}
  {
    if s == [] then [x]
    else if Ahead(x, s[0]) then
      assert forall g :: g in s ==> Ahead(x, g) by {
        forall g | g in s ensures Ahead(x, g) {
          if g != s[0] { AheadTransitive(x, s[0], g); }
        }
      }
      ConsRanked(x, s);
      [x] + s
    else
      AheadTotal(x, s[0]);
      var rest := Insert(x, s[1..]);
      assert s == [s[0]] + s[1..];
      assert forall g :: g in rest ==> Ahead(s[0], g) by {
        forall g | g in rest ensures Ahead(s[0], g) {
          assert g in multiset(rest);
          assert g == x || g in s[1..];
        }
      }
      ConsRanked(s[0], rest);
      [s[0]] + rest
  }

  /** Putting a group ahead of everything in a ranked sequence keeps it ranked. */
  lemma ConsRanked(h: Group, s: seq<Group>)
    requires Ranked(s)
    requires forall g :: g in s ==> Ahead(h, g)
    ensures Ranked([h] + s)
  {
    var r := [h] + s;
    forall i, j | 0 <= i < j < |r| ensures Ahead(r[i], r[j]) {
      assert r[j] == s[j - 1];
      if i > 0 {
        assert r[i] == s[i - 1];
      }
    }
  }

  /** Insertion sort into `Ahead` order. */
  function Rank(s: seq<Group>): (r: seq<Group>)
    requires DistinctKeys(s)
    ensures Ranked(r)
    ensures multiset(r) == multiset(s)
  {
    if s == [] then []
    else
      var rest := Rank(s[1..]);
      assert s == [s[0]] + s[1..];
      assert forall g :: g in rest ==> g.key != s[0].key by {
        forall g | g in rest ensures g.key != s[0].key {
          assert g in multiset(rest);
          var j :| 0 <= j < |s[1..]| && s[1..][j] == g;
        }
      }
      Insert(s[0], rest)
  }

  /** The per-region sums, one group per region of t. */
  function RegionGroups(t: Table): (gs: seq<Group>)
    ensures DistinctKeys(gs)
    ensures |gs| == |Unique(RegionColumn(t))|
    ensures forall g :: g in gs <==> g.key in RegionColumn(t) && g.total == RegionTotal(t, g.key)
  {
    var u := Unique(RegionColumn(t));
    var gs := seq(|u|, i requires 0 <= i < |u| => Group(u[i], RegionTotal(t, u[i])));
    assert forall g :: g in gs ==> g.key in u;
    assert forall g: Group :: g.key in u && g.total == RegionTotal(t, g.key) ==> g in gs by {
      forall g: Group | g.key in u && g.total == RegionTotal(t, g.key) ensures g in gs {
        var i :| 0 <= i < |u| && u[i] == g.key;
        assert gs[i] == g;
      }
    }
    gs
  }

  function Min(a: int, b: int): int { if a <= b then a else b }

  /** `df.groupby("region")["value"].sum().nlargest(n)`. */
  function TopRegions(t: Table, n: nat): seq<Group> {
    var ranked := Rank(RegionGroups(t));
    ranked[..Min(n, |ranked|)]
  }

  /**
   * What `nlargest(n)` returns: min(n, number of regions) groups, each a
   * region of t with its true sum, each region once, in `Ahead` order, and
   * every region left out comes after every region listed.
   */
  predicate IsTopRanking(t: Table, n: nat, top: seq<Group>) {
    |top| == Min(n, |Unique(RegionColumn(t))|)
    && (forall i :: 0 <= i < |top| ==> top[i].key in RegionColumn(t) && top[i].total == RegionTotal(t, top[i].key))
    && DistinctKeys(top)
    && Ranked(top)
    && (forall g, i :: g in RegionColumn(t) && (forall j :: 0 <= j < |top| ==> top[j].key != g) && 0 <= i < |top|
          ==> Ahead(top[i], Group(g, RegionTotal(t, g))))
  }

  lemma RankedGroups(t: Table)
    ensures |Rank(RegionGroups(t))| == |RegionGroups(t)|
    ensures forall g :: g in Rank(RegionGroups(t)) <==> g in RegionGroups(t)
  {
    var gs := RegionGroups(t);
    var ranked := Rank(gs);
    assert |multiset(ranked)| == |multiset(gs)|;
    forall g ensures g in ranked <==> g in gs {
      assert g in ranked <==> g in multiset(ranked);
      assert g in gs <==> g in multiset(gs);
    }
  }

  /** Ranked groups with distinct totals-or-keys never repeat a key. */
  lemma RankedDistinct(s: seq<Group>)
    requires Ranked(s)
    requires forall i, j :: 0 <= i < |s| && 0 <= j < |s| && s[i].key == s[j].key ==> s[i].total == s[j].total
    ensures DistinctKeys(s)
  {
    forall i, j | 0 <= i < j < |s| ensures s[i].key != s[j].key {
      assert Ahead(s[i], s[j]);
      if s[i].key == s[j].key {
        Text.StrLessIrreflexive(s[i].key);
      }
    }
  }

  lemma TopRegionsMembers(t: Table, n: nat)
    ensures forall g :: g in TopRegions(t, n) ==> g in RegionGroups(t)
  {
    RankedGroups(t);
  }

  /** In a ranked sequence, a group whose key is not in the first k comes after each of them. */
  lemma RankedPrefixAhead(ranked: seq<Group>, k: nat, h: Group, i: nat)
    requires Ranked(ranked) && k <= |ranked| && h in ranked
    requires forall j :: 0 <= j < k ==> ranked[j].key != h.key
    requires i < k
    ensures Ahead(ranked[i], h)
  {
    var p :| 0 <= p < |ranked| && ranked[p] == h;
    assert !(p < k);
  }

  lemma TopRegionsLeftOut(t: Table, n: nat, g: string, i: nat)
    requires g in RegionColumn(t)
    requires forall j :: 0 <= j < |TopRegions(t, n)| ==> TopRegions(t, n)[j].key != g
    requires i < |TopRegions(t, n)|
    ensures Ahead(TopRegions(t, n)[i], Group(g, RegionTotal(t, g)))
  {
    var ranked := Rank(RegionGroups(t));
    var h := Group(g, RegionTotal(t, g));
    RankedGroups(t);
    assert h in RegionGroups(t);
    var top := TopRegions(t, n);
    assert top == ranked[..|top|];
    forall j | 0 <= j < |top| ensures ranked[j].key != h.key {
      assert ranked[j] == top[j];
    }
    RankedPrefixAhead(ranked, |top|, h, i);
  }

  lemma TopRegionsLength(t: Table, n: nat)
    ensures |TopRegions(t, n)| == Min(n, |Unique(RegionColumn(t))|)
  {
    RankedGroups(t);
  }

  lemma TopRegionsTotals(t: Table, n: nat)
    ensures forall i :: 0 <= i < |TopRegions(t, n)| ==>
      TopRegions(t, n)[i].key in RegionColumn(t) && TopRegions(t, n)[i].total == RegionTotal(t, TopRegions(t, n)[i].key)
  {
    var top := TopRegions(t, n);
    TopRegionsMembers(t, n);
    forall i | 0 <= i < |top| ensures top[i].key in RegionColumn(t) && top[i].total == RegionTotal(t, top[i].key) {
      assert top[i] in top;
    }
  }

  lemma TopRegionsOrdered(t: Table, n: nat)
    ensures Ranked(TopRegions(t, n)) && DistinctKeys(TopRegions(t, n))
  {
    TopRegionsTotals(t, n);
    RankedDistinct(TopRegions(t, n));
  }

  lemma TopRegionsRanking(t: Table, n: nat)
    ensures IsTopRanking(t, n, TopRegions(t, n))
  {
    var top := TopRegions(t, n);
    TopRegionsLength(t, n);
    TopRegionsTotals(t, n);
    TopRegionsOrdered(t, n);
    forall g, i | g in RegionColumn(t) && (forall j :: 0 <= j < |top| ==> top[j].key != g) && 0 <= i < |top|
      ensures Ahead(top[i], Group(g, RegionTotal(t, g)))
    {
      TopRegionsLeftOut(t, n, g, i);
    }
  }
}
