/**
 * The contribution graph (git_pull/git_pull.py: scrape_contribution_graph).
 *
 * Each calendar page yields a map from day to count; the profile page's map
 * is overridden, page by page, by the maps of the year pages it links to,
 * and the merged map is listed in ascending date order.
 */
module Contributions {
  import opened Wrappers
  import opened Exceptions
  import opened PyStr
  import opened Pages

  type Graph = map<Date, int>

  /** One entry of the stored graph, in its listing order. */
  datatype DayCount = DayCount(date: Date, count: int)

  /** `a` is strictly before `b` in the calendar. */
  predicate Earlier(a: Date, b: Date) {
    a.year < b.year
    || (a.year == b.year && a.month < b.month)
    || (a.year == b.year && a.month == b.month && a.day < b.day)
  }

  /**
   * The `int(data-count)` of every tile, in page order; one count that does
   * not parse makes the whole comprehension raise.
   */
  function ParseTiles(tiles: seq<Tile>): (r: Option<seq<DayCount>>)
    ensures r.None? <==> exists i :: 0 <= i < |tiles| && ParseInt(tiles[i].count).None?
    ensures r.Some? ==> |r.value| == |tiles| && forall i :: 0 <= i < |tiles| ==>
      r.value[i] == DayCount(tiles[i].date, ParseInt(tiles[i].count).value)
  {
    if |tiles| == 0 then Some([])
    else
      var init := tiles[..|tiles| - 1];
      assert forall i :: 0 <= i < |init| ==> init[i] == tiles[i];
      var earlier :- ParseTiles(init);
      var count :- ParseInt(tiles[|tiles| - 1].count);
      Some(earlier + [DayCount(tiles[|tiles| - 1].date, count)])
  }

  /** The dict built from the entries in order: a later entry overrides an earlier one of the same date. */
  function ToGraph(entries: seq<DayCount>): (g: Graph)
    ensures forall i :: 0 <= i < |entries| ==> entries[i].date in g
    ensures |entries| > 0 ==> g[entries[|entries| - 1].date] == entries[|entries| - 1].count
  {
    if |entries| == 0 then map[]
    else ToGraph(entries[..|entries| - 1])[entries[|entries| - 1].date := entries[|entries| - 1].count]
  }

  /** The dict has the dates of the entries and no other. */
  lemma {:induction false} ToGraphKeys(entries: seq<DayCount>, d: Date)
    ensures d in ToGraph(entries) <==> exists i :: 0 <= i < |entries| && entries[i].date == d
  {
    if |entries| > 0 {
      var init := entries[..|entries| - 1];
      assert forall i :: 0 <= i < |init| ==> init[i] == entries[i];
      ToGraphKeys(init, d);
      if exists i :: 0 <= i < |entries| && entries[i].date == d {
        var i :| 0 <= i < |entries| && entries[i].date == d;
        if i < |init| {
          assert init[i].date == d;
        }
      }
    }
  }

  /** A date takes the count of its last entry. */
  lemma {:induction false} ToGraphLastWins(entries: seq<DayCount>, i: nat)
    requires i < |entries|
    requires forall j :: i < j < |entries| ==> entries[j].date != entries[i].date
    ensures entries[i].date in ToGraph(entries)
    ensures ToGraph(entries)[entries[i].date] == entries[i].count
  {
    if i < |entries| - 1 {
      var init := entries[..|entries| - 1];
      assert forall k :: 0 <= k < |init| ==> init[k] == entries[k];
      ToGraphLastWins(init, i);
    }
  }

  /** `get_map(tree)`: the tile counts keyed by date, or `None` when one count does not parse. */
  function TileMap(tiles: seq<Tile>): (r: Option<Graph>)
    ensures r.None? <==> exists i :: 0 <= i < |tiles| && ParseInt(tiles[i].count).None?
    ensures r.Some? ==> forall i :: 0 <= i < |tiles| ==> tiles[i].date in r.value
  {
    var entries :- ParseTiles(tiles);
    Some(ToGraph(entries))
  }

  /** `{**graph, **m}` for each year map in turn: later maps override earlier ones. */
  function MergeAll(base: Graph, maps: seq<Graph>): (g: Graph)
    ensures base.Keys <= g.Keys
    ensures |maps| > 0 ==> maps[|maps| - 1].Keys <= g.Keys
  {
    if |maps| == 0 then base
    else MergeAll(base, maps[..|maps| - 1]) + maps[|maps| - 1]
  }

  /** The merged graph has every date of the profile page and of every year page, and no other. */
  lemma {:induction false} MergeAllKeys(base: Graph, maps: seq<Graph>, d: Date)
    ensures d in MergeAll(base, maps) <==> d in base || exists i :: 0 <= i < |maps| && d in maps[i]
  {
    if |maps| > 0 {
      var init := maps[..|maps| - 1];
      MergeAllKeys(base, init, d);
      assert forall i :: 0 <= i < |init| ==> init[i] == maps[i];
      if exists i :: 0 <= i < |maps| && d in maps[i] {
        var i :| 0 <= i < |maps| && d in maps[i];
        if i < |init| {
          assert d in init[i];
        }
      }
    }
  }

  /** A date held by some year page takes its count from the last such page. */
  lemma {:induction false} MergeAllLastWins(base: Graph, maps: seq<Graph>, i: nat, d: Date)
    requires i < |maps| && d in maps[i]
    requires forall j :: i < j < |maps| ==> d !in maps[j]
    ensures d in MergeAll(base, maps) && MergeAll(base, maps)[d] == maps[i][d]
  {
    if i < |maps| - 1 {
      var init := maps[..|maps| - 1];
      assert forall j :: 0 <= j < |init| ==> init[j] == maps[j];
      MergeAllLastWins(base, init, i, d);
    }
  }

  /** A date on no year page keeps the profile page's count. */
  lemma {:induction false} MergeAllKeepsBase(base: Graph, maps: seq<Graph>, d: Date)
    requires d in base
    requires forall j :: 0 <= j < |maps| ==> d !in maps[j]
    ensures d in MergeAll(base, maps) && MergeAll(base, maps)[d] == base[d]
  {
    if |maps| > 0 {
      var init := maps[..|maps| - 1];
      assert forall j :: 0 <= j < |init| ==> init[j] == maps[j];
      MergeAllKeepsBase(base, init, d);
    }
  }

  function YearUrl(href: string): string {
    "https://github.com" + href
  }

  /** One page's tile map; an unparsable count raises `ValueError`. */
  function PageGraph(tree: Document): (r: Result<Graph>)
    ensures r.Ok? <==> TileMap(tree.dayTiles).Some?
    ensures r.Err? ==> r.error == MalformedPage
  {
    match TileMap(tree.dayTiles)
    case None => Err(MalformedPage)
    case Some(g) => Ok(g)
  }

  /** One year link's map: the fetch's error, the page's parse error, or the page's tile map. */
  function YearGraph(href: string, web: Web): (r: Result<Graph>)
    ensures r.Ok? <==> GetParseTree(YearUrl(href), web).Ok? && PageGraph(web[YearUrl(href)]).Ok?
    ensures r.Ok? ==> r.value == PageGraph(web[YearUrl(href)]).value
    ensures GetParseTree(YearUrl(href), web).Err? ==> r == Err(GetParseTree(YearUrl(href), web).error)
    ensures GetParseTree(YearUrl(href), web).Ok? && r.Err? ==> r.error == MalformedPage
  {
    var page :- GetParseTree(YearUrl(href), web);
    PageGraph(page)
  }

  /** The maps of the year pages, fetched in link order; the first failure raises. */
  function YearGraphs(hrefs: seq<string>, web: Web): (r: Result<seq<Graph>>)
    ensures r.Ok? ==> |r.value| == |hrefs|
  {
    if |hrefs| == 0 then Ok([])
    else
      var earlier :- YearGraphs(hrefs[..|hrefs| - 1], web);
      var g :- YearGraph(hrefs[|hrefs| - 1], web);
      Ok(earlier + [g])
  }

  /** One more year link: the list so far fails first, then the new link, else the new map is appended. */
  lemma YearGraphsSnoc(hrefs: seq<string>, web: Web)
    requires |hrefs| > 0
    ensures var earlier := YearGraphs(hrefs[..|hrefs| - 1], web);
      var last := YearGraph(hrefs[|hrefs| - 1], web);
      YearGraphs(hrefs, web) ==
        if earlier.Err? then earlier
        else if last.Err? then Err(last.error)
        else Ok(earlier.value + [last.value])
  {
  }

  /**
   * The year maps are those of the linked pages, in link order: the list
   * succeeds exactly when every link yields a map, and its i-th map is the
   * i-th link's.
   */
  lemma {:induction false} YearGraphsContents(hrefs: seq<string>, web: Web)
    ensures YearGraphs(hrefs, web).Ok? <==> forall i :: 0 <= i < |hrefs| ==> YearGraph(hrefs[i], web).Ok?
    ensures YearGraphs(hrefs, web).Ok? ==>
      forall i :: 0 <= i < |hrefs| ==> YearGraphs(hrefs, web).value[i] == YearGraph(hrefs[i], web).value
  {
    if |hrefs| > 0 {
      var init := hrefs[..|hrefs| - 1];
      YearGraphsContents(init, web);
      YearGraphsSnoc(hrefs, web);
      if YearGraphs(hrefs, web).Ok? {
        forall i | 0 <= i < |hrefs|
          ensures YearGraph(hrefs[i], web).Ok? && YearGraphs(hrefs, web).value[i] == YearGraph(hrefs[i], web).value
        {
          if i < |init| {
            assert init[i] == hrefs[i];
          }
        }
      } else if YearGraphs(init, web).Err? {
        var i :| 0 <= i < |init| && YearGraph(init[i], web).Err?;
        assert init[i] == hrefs[i];
      }
    }
  }

  /** A failing list fails with the error of the first link that fails. */
  lemma {:induction false} YearGraphsFirstFailure(hrefs: seq<string>, web: Web)
    requires YearGraphs(hrefs, web).Err?
    ensures exists k ::
      && 0 <= k < |hrefs| && YearGraph(hrefs[k], web).Err?
      && (forall j :: 0 <= j < k ==> YearGraph(hrefs[j], web).Ok?)
      && YearGraphs(hrefs, web).error == YearGraph(hrefs[k], web).error
  {
    var init := hrefs[..|hrefs| - 1];
    assert forall i :: 0 <= i < |init| ==> init[i] == hrefs[i];
    YearGraphsSnoc(hrefs, web);
    if YearGraphs(init, web).Err? {
      YearGraphsFirstFailure(init, web);
      var k :| 0 <= k < |init| && YearGraph(init[k], web).Err?
        && (forall j :: 0 <= j < k ==> YearGraph(init[j], web).Ok?)
        && YearGraphs(init, web).error == YearGraph(init[k], web).error;
      assert YearGraph(hrefs[k], web).Err?;
    } else {
      YearGraphsContents(init, web);
    }
  }

  /** The merged graph of a profile page: its own map overridden by each year page's map. */
  function MergedGraph(tree: Document, web: Web): (r: Result<Graph>)
    ensures r.Ok? <==> PageGraph(tree).Ok? && YearGraphs(tree.yearLinkHrefs, web).Ok?
    ensures r.Ok? ==> PageGraph(tree).value.Keys <= r.value.Keys
  {
    var base :- PageGraph(tree);
    var years :- YearGraphs(tree.yearLinkHrefs, web);
    Ok(MergeAll(base, years))
  }

  /** The merged graph has the dates of the profile page and of every year page, and no other. */
  lemma MergedGraphDates(tree: Document, web: Web, d: Date)
    requires MergedGraph(tree, web).Ok?
    ensures d in MergedGraph(tree, web).value <==>
      (PageGraph(tree).Ok? && d in PageGraph(tree).value)
      || exists i :: 0 <= i < |tree.yearLinkHrefs|
           && YearGraph(tree.yearLinkHrefs[i], web).Ok? && d in YearGraph(tree.yearLinkHrefs[i], web).value
  {
    var hrefs := tree.yearLinkHrefs;
    YearGraphsContents(hrefs, web);
    MergeAllKeys(PageGraph(tree).value, YearGraphs(hrefs, web).value, d);
  }

  /** A date on some year page takes its count from the last year page that has it. */
  lemma MergedGraphLastYearWins(tree: Document, web: Web, i: nat, d: Date)
    requires MergedGraph(tree, web).Ok?
    requires i < |tree.yearLinkHrefs|
    requires YearGraph(tree.yearLinkHrefs[i], web).Ok? && d in YearGraph(tree.yearLinkHrefs[i], web).value
    requires forall j :: i < j < |tree.yearLinkHrefs| ==>
      !(YearGraph(tree.yearLinkHrefs[j], web).Ok? && d in YearGraph(tree.yearLinkHrefs[j], web).value)
    ensures d in MergedGraph(tree, web).value
    ensures MergedGraph(tree, web).value[d] == YearGraph(tree.yearLinkHrefs[i], web).value[d]
  {
    var hrefs := tree.yearLinkHrefs;
    YearGraphsContents(hrefs, web);
    MergeAllLastWins(PageGraph(tree).value, YearGraphs(hrefs, web).value, i, d);
  }

  /** A date on no year page keeps the profile page's count. */
  lemma MergedGraphKeepsProfile(tree: Document, web: Web, d: Date)
    requires MergedGraph(tree, web).Ok?
    requires PageGraph(tree).Ok? && d in PageGraph(tree).value
    requires forall j :: 0 <= j < |tree.yearLinkHrefs| ==>
      !(YearGraph(tree.yearLinkHrefs[j], web).Ok? && d in YearGraph(tree.yearLinkHrefs[j], web).value)
    ensures d in MergedGraph(tree, web).value
    ensures MergedGraph(tree, web).value[d] == PageGraph(tree).value[d]
  {
    var hrefs := tree.yearLinkHrefs;
    YearGraphsContents(hrefs, web);
    MergeAllKeepsBase(PageGraph(tree).value, YearGraphs(hrefs, web).value, d);
  }

  /** Strictly ascending dates (so also no date twice). */
  predicate Chronological(entries: seq<DayCount>) {
    forall i, j :: 0 <= i < j < |entries| ==> Earlier(entries[i].date, entries[j].date)
  }

  /** `entries` holds exactly the items of `g`. */
  ghost predicate ListsGraph(entries: seq<DayCount>, g: Graph) {
    forall e :: e in entries <==> e.date in g && g[e.date] == e.count
  }

  /** The graph as a chronological listing: sorted, with nothing lost or added. */
  ghost predicate SortedListing(entries: seq<DayCount>, g: Graph) {
    Chronological(entries) && ListsGraph(entries, g)
  }

  /** Insert one entry of a date not yet listed at its place in date order. */
  function Insert(entries: seq<DayCount>, e: DayCount): (r: seq<DayCount>)
    requires Chronological(entries)
    requires forall i :: 0 <= i < |entries| ==> entries[i].date != e.date
    ensures Chronological(r)
    ensures forall x :: x in r <==> x in entries || x == e
  {
    if |entries| == 0 || Earlier(e.date, entries[0].date) then [e] + entries
    else
      var rest := Insert(entries[1..], e);
      assert forall x :: x in entries <==> x == entries[0] || x in entries[1..];
      forall k | 0 <= k < |rest| ensures Earlier(entries[0].date, rest[k].date) {
        assert rest[k] in rest;
        if rest[k] != e {
          var m :| 0 <= m < |entries[1..]| && entries[1..][m] == rest[k];
          assert entries[m + 1] == rest[k];
        }
      }
      [entries[0]] + rest
  }

  /**
   * `dict(sorted(graph.items(), key=date))`: take the dates one at a time
   * and insert each at its place in date order.
   */
  method SortByDate(g: Graph) returns (entries: seq<DayCount>)
    ensures SortedListing(entries, g)
  {
    entries := [];
    var remaining := g.Keys;
    while remaining != {}
      invariant remaining <= g.Keys
      invariant Chronological(entries)
      invariant forall e :: e in entries <==> e.date in g && e.date !in remaining && g[e.date] == e.count
      decreases remaining
    {
      var d :| d in remaining;
      entries := Insert(entries, DayCount(d, g[d]));
      remaining := remaining - {d};
    }
  }

  /** `g` without the date `d`. */
  function Without(g: Graph, d: Date): Graph {
    map x | x in g && x != d :: g[x]
  }

  /**
   * The head of a chronological listing is the earliest item of the graph,
   * and the tail lists the rest of the graph.
   */
  lemma ListingHeadTail(e: seq<DayCount>, g: Graph)
    requires SortedListing(e, g) && |e| > 0
    ensures e[0].date in g && g[e[0].date] == e[0].count
    ensures forall d :: d in g && d != e[0].date ==> Earlier(e[0].date, d)
    ensures SortedListing(e[1..], Without(g, e[0].date))
  {
    assert e[0] in e;
    forall d | d in g && d != e[0].date ensures Earlier(e[0].date, d) {
      assert DayCount(d, g[d]) in e;
      var k :| 0 <= k < |e| && e[k] == DayCount(d, g[d]);
    }
    forall k | 0 <= k < |e| - 1 ensures e[1..][k].date != e[0].date {
      assert Earlier(e[0].date, e[k + 1].date);
    }
    forall x ensures x in e[1..] <==> x.date in Without(g, e[0].date) && Without(g, e[0].date)[x.date] == x.count {
      assert x in e <==> x == e[0] || x in e[1..];
    }
  }

  /** A listing is empty exactly when its graph is. */
  lemma ListingEmpty(e: seq<DayCount>, g: Graph)
    requires ListsGraph(e, g)
    ensures |e| == 0 <==> |g| == 0
  {
    if |e| > 0 {
      assert e[0] in e;
    }
    if |g| > 0 {
      var d :| d in g;
      assert DayCount(d, g[d]) in e;
    }
  }

  /**
   * There is only one chronological listing of a graph, so the stored
   * order does not depend on how the sort reached it.
   */
  lemma {:induction false} SortedListingUnique(e1: seq<DayCount>, e2: seq<DayCount>, g: Graph)
    requires SortedListing(e1, g) && SortedListing(e2, g)
    ensures e1 == e2
  {
    if |e1| > 0 && |e2| > 0 {
      ListingHeadTail(e1, g);
      ListingHeadTail(e2, g);
      assert e1[0] == e2[0];
      SortedListingUnique(e1[1..], e2[1..], Without(g, e1[0].date));
      assert e1 == [e1[0]] + e1[1..] && e2 == [e2[0]] + e2[1..];
    } else {
      ListingEmpty(e1, g);
      ListingEmpty(e2, g);
    }
  }
}
