/**
 * The repository-list paginator (git_pull/utilities.py: fetch_repo_names).
 *
 * The source is a generator that yields the names on the first page and
 * then, when that page has a pagination container, keeps following the
 * "Next" link until `get_next_page_url` returns "". Nothing stops it from
 * following a link back to a page it has already seen, so it is modelled
 * with `fuel`: the number of further pages it may fetch. `OutOfFuel` is not
 * a behaviour of the source; it marks a run the model cut short.
 */
module Pagination {
  import opened Wrappers
  import opened Exceptions
  import opened PyStr
  import opened Pages

  /** How a walk over the pages ended. */
  datatype Stop =
    | Exhausted              // the last page read had no "Next" link
    | Failed(error: ScrapeError)   // a fetch raised
    | OutOfFuel              // the model's fuel ran out; the source would go on
    | Revisited(url: string) // the guarded walk refused an already-seen URL

  /** The names yielded, in order, and how the walk ended. */
  datatype Crawl = Crawl(names: seq<string>, stop: Stop)

  /** The first listing page of a user's repositories. */
  function RepoListUrl(owner: string): string {
    "https://github.com/" + owner + "?page=1&tab=repositories"
  }

  /** `process_repo_list(tree)`: the cleaned name of every repository link, in page order. */
  function RepoNames(tree: Document): (names: seq<string>)
    ensures |names| == |tree.repoLinkTexts|
    ensures forall i :: 0 <= i < |names| ==> names[i] == CleanLabel(tree.repoLinkTexts[i])
  {
    seq(|tree.repoLinkTexts|, i requires 0 <= i < |tree.repoLinkTexts| => CleanLabel(tree.repoLinkTexts[i]))
  }

  /**
   * What the `while url := get_next_page_url(tree)` loop yields after `tree`
   * has been processed, fetching at most `fuel` further pages.
   */
  function FollowNext(tree: Document, web: Web, fuel: nat): Crawl
    decreases fuel
  {
    var url := GetNextPageUrl(tree.pagerButtons);
    if url == "" then Crawl([], Exhausted)
    else if fuel == 0 then Crawl([], OutOfFuel)
    else match GetParseTree(url, web)
      case Err(e) => Crawl([], Failed(e))
      case Ok(next) =>
        var rest := FollowNext(next, web, fuel - 1);
        Crawl(RepoNames(next) + rest.names, rest.stop)
  }

  /** Everything `fetch_repo_names(owner)` yields, and how it ends. */
  function RepoNamesOf(owner: string, web: Web, fuel: nat): Crawl {
    match GetParseTree(RepoListUrl(owner), web)
    case Err(e) => Crawl([], Failed(e))
    case Ok(first) =>
      var rest := if first.hasPaginateContainer then FollowNext(first, web, fuel) else Crawl([], Exhausted);
      Crawl(RepoNames(first) + rest.names, rest.stop)
  }

  /**
   * The `while url := get_next_page_url(tree)` loop of `fetch_repo_names`,
   * from the page `tree`, reading at most `fuel` further pages.
   */
  method FollowPages(tree: Document, web: Web, fuel: nat) returns (names: seq<string>, stop: Stop)
    ensures Crawl(names, stop) == FollowNext(tree, web, fuel)
  {
    ghost var spec := FollowNext(tree, web, fuel);
    var current := tree;
    var left := fuel;
    names := [];
    var url := GetNextPageUrl(current.pagerButtons);
    while url != ""
      invariant url == GetNextPageUrl(current.pagerButtons)
      invariant names + FollowNext(current, web, left).names == spec.names
      invariant FollowNext(current, web, left).stop == spec.stop
      decreases left
    {
      if left == 0 {
        return names, OutOfFuel;
      }
      var page := GetParseTree(url, web);
      if page.Err? {
        return names, Failed(page.error);
      }
      ghost var rest := FollowNext(page.value, web, left - 1);
      assert FollowNext(current, web, left) == Crawl(RepoNames(page.value) + rest.names, rest.stop);
      current := page.value;
      names := names + RepoNames(current);
      left := left - 1;
      url := GetNextPageUrl(current.pagerButtons);
    }
    stop := Exhausted;
  }

  /** `fetch_repo_names(owner)`, run to completion (or until `fuel` further pages were read). */
  method FetchRepoNames(owner: string, web: Web, fuel: nat) returns (names: seq<string>, stop: Stop)
    ensures Crawl(names, stop) == RepoNamesOf(owner, web, fuel)
  {
    var page := GetParseTree(RepoListUrl(owner), web);
    if page.Err? {
      return [], Failed(page.error);
    }
    var tree := page.value;
    names := RepoNames(tree);
    stop := Exhausted;
    if tree.hasPaginateContainer {
      var more;
      more, stop := FollowPages(tree, web, fuel);
      names := names + more;
    }
  }

  // ---------------------------------------------------------------------
  // What the walk promises
  // ---------------------------------------------------------------------

  /** Every yielded name has no space and no surrounding whitespace. */
  lemma {:induction false} FollowNextNamesClean(tree: Document, web: Web, fuel: nat)
    ensures forall k :: 0 <= k < |FollowNext(tree, web, fuel).names| ==>
      var name := FollowNext(tree, web, fuel).names[k];
      ' ' !in name && (name == [] || (!IsSpace(name[0]) && !IsSpace(name[|name| - 1])))
    decreases fuel
  {
    var url := GetNextPageUrl(tree.pagerButtons);
    if url != "" && fuel > 0 && GetParseTree(url, web).Ok? {
      FollowNextNamesClean(GetParseTree(url, web).value, web, fuel - 1);
    }
  }

  lemma RepoNamesClean(owner: string, web: Web, fuel: nat)
    ensures forall k :: 0 <= k < |RepoNamesOf(owner, web, fuel).names| ==>
      var name := RepoNamesOf(owner, web, fuel).names[k];
      ' ' !in name && (name == [] || (!IsSpace(name[0]) && !IsSpace(name[|name| - 1])))
  {
    var page := GetParseTree(RepoListUrl(owner), web);
    if page.Ok? {
      FollowNextNamesClean(page.value, web, fuel);
    }
  }

  /**
   * Page 1 comes first: a failed first fetch yields nothing; otherwise the
   * first page's names are yielded before anything else, and further pages
   * are followed only when the first page has a pagination container.
   */
  lemma FirstPageFirst(owner: string, web: Web, fuel: nat)
    ensures var page := GetParseTree(RepoListUrl(owner), web);
      && (page.Err? ==> RepoNamesOf(owner, web, fuel) == Crawl([], Failed(page.error)))
      && (page.Ok? ==> RepoNames(page.value) <= RepoNamesOf(owner, web, fuel).names)
      && (page.Ok? && !page.value.hasPaginateContainer ==>
            RepoNamesOf(owner, web, fuel) == Crawl(RepoNames(page.value), Exhausted))
  {
  }

  /** The pages fetched by `FollowNext`, in order. */
  ghost function Followed(tree: Document, web: Web, fuel: nat): seq<Document>
    decreases fuel
  {
    var url := GetNextPageUrl(tree.pagerButtons);
    if url == "" || fuel == 0 || GetParseTree(url, web).Err? then []
    else [GetParseTree(url, web).value] + Followed(GetParseTree(url, web).value, web, fuel - 1)
  }

  /** The last page read: `tree` itself when nothing further was fetched. */
  ghost function LastRead(tree: Document, pages: seq<Document>): Document {
    if pages == [] then tree else pages[|pages| - 1]
  }

  /** The names of several pages, concatenated in order. */
  function NamesOfPages(pages: seq<Document>): seq<string> {
    if pages == [] then [] else RepoNames(pages[0]) + NamesOfPages(pages[1..])
  }

  /**
   * The walk stops normally exactly when the last page it read has an empty
   * next URL; it reads at most `fuel` pages, and yields their names in order.
   */
  lemma {:induction false} FollowNextStopsAtEmptyNext(tree: Document, web: Web, fuel: nat)
    ensures var pages := Followed(tree, web, fuel);
      && |pages| <= fuel
      && FollowNext(tree, web, fuel).names == NamesOfPages(pages)
      && (FollowNext(tree, web, fuel).stop == Exhausted <==>
            GetNextPageUrl(LastRead(tree, pages).pagerButtons) == "")
    decreases fuel
  {
    var url := GetNextPageUrl(tree.pagerButtons);
    if url != "" && fuel > 0 && GetParseTree(url, web).Ok? {
      var next := GetParseTree(url, web).value;
      FollowNextStopsAtEmptyNext(next, web, fuel - 1);
      var rest := Followed(next, web, fuel - 1);
      assert Followed(tree, web, fuel) == [next] + rest;
      assert ([next] + rest)[1..] == rest;
      assert LastRead(tree, [next] + rest) == LastRead(next, rest);
    }
  }

  /** Extra fuel changes nothing once the walk has ended on its own. */
  lemma {:induction false} FollowNextFuelMonotone(tree: Document, web: Web, fuel: nat, more: nat)
    requires FollowNext(tree, web, fuel).stop != OutOfFuel
    ensures FollowNext(tree, web, fuel + more) == FollowNext(tree, web, fuel)
    decreases fuel
  {
    var url := GetNextPageUrl(tree.pagerButtons);
    if url != "" && fuel > 0 && GetParseTree(url, web).Ok? {
      FollowNextFuelMonotone(GetParseTree(url, web).value, web, fuel - 1, more);
    }
  }

  /**
   * A page whose "Next" link leads back to itself: the source fetches it
   * again and again, and no amount of fuel lets the walk end.
   */
  lemma {:induction false} SelfLinkNeverExhausts(url: string, web: Web, fuel: nat)
    requires url in web && url != ""
    requires GetNextPageUrl(web[url].pagerButtons) == url
    requires !HasDenialBanner(web[url].h1Texts)
    ensures FollowNext(web[url], web, fuel).stop == OutOfFuel
    ensures |FollowNext(web[url], web, fuel).names| == fuel * |web[url].repoLinkTexts|
    decreases fuel
  {
    if fuel > 0 {
      var page := web[url];
      SelfLinkNeverExhausts(url, web, fuel - 1);
      var rest := FollowNext(page, web, fuel - 1);
      assert FollowNext(page, web, fuel) == Crawl(RepoNames(page) + rest.names, rest.stop);
      assert (fuel - 1) * |page.repoLinkTexts| + |page.repoLinkTexts| == fuel * |page.repoLinkTexts|;
    }
  }

  // ---------------------------------------------------------------------
  // The walk with a guard against revisiting a URL
  // ---------------------------------------------------------------------

  /**
   * The walk with a cycle guard: a "Next" URL already visited ends the walk,
   * since a walk that fetches a URL twice never ends on a self-linking page.
   * Every URL it fetches is a new key of `web`, so it ends without fuel.
   */
  function FollowNextGuarded(tree: Document, web: Web, visited: set<string>): Crawl
    decreases web.Keys - visited
  {
    var url := GetNextPageUrl(tree.pagerButtons);
    if url == "" then Crawl([], Exhausted)
    else if url in visited then Crawl([], Revisited(url))
    else match GetParseTree(url, web)
      case Err(e) => Crawl([], Failed(e))
      case Ok(next) =>
        assert url in web.Keys - visited;
        assert web.Keys - (visited + {url}) < web.Keys - visited;
        var rest := FollowNextGuarded(next, web, visited + {url});
        Crawl(RepoNames(next) + rest.names, rest.stop)
  }

  function RepoNamesGuarded(owner: string, web: Web): Crawl {
    match GetParseTree(RepoListUrl(owner), web)
    case Err(e) => Crawl([], Failed(e))
    case Ok(first) =>
      var rest := if first.hasPaginateContainer
        then FollowNextGuarded(first, web, {RepoListUrl(owner)}) else Crawl([], Exhausted);
      Crawl(RepoNames(first) + rest.names, rest.stop)
  }

  /** `fetch_repo_names(owner)` with a visited-URL guard; it needs no fuel. */
  method FetchRepoNamesGuarded(owner: string, web: Web) returns (names: seq<string>, stop: Stop)
    ensures Crawl(names, stop) == RepoNamesGuarded(owner, web)
    ensures stop != OutOfFuel
  {
    ghost var spec := RepoNamesGuarded(owner, web);
    var url := RepoListUrl(owner);
    var page := GetParseTree(url, web);
    if page.Err? {
      return [], Failed(page.error);
    }
    var tree := page.value;
    names := RepoNames(tree);
    stop := Exhausted;
    if tree.hasPaginateContainer {
      var visited := {url};
      GuardedNeverOutOfFuel(tree, web, visited);
      url := GetNextPageUrl(tree.pagerButtons);
      while url != ""
        invariant url == GetNextPageUrl(tree.pagerButtons)
        invariant names + FollowNextGuarded(tree, web, visited).names == spec.names
        invariant FollowNextGuarded(tree, web, visited).stop == spec.stop
        invariant spec.stop != OutOfFuel
        decreases web.Keys - visited
      {
        if url in visited {
          stop := Revisited(url);
          return;
        }
        page := GetParseTree(url, web);
        if page.Err? {
          stop := Failed(page.error);
          return;
        }
        ghost var rest := FollowNextGuarded(page.value, web, visited + {url});
        assert FollowNextGuarded(tree, web, visited) == Crawl(RepoNames(page.value) + rest.names, rest.stop);
        assert web.Keys - (visited + {url}) < web.Keys - visited;
        visited := visited + {url};
        tree := page.value;
        names := names + RepoNames(tree);
        url := GetNextPageUrl(tree.pagerButtons);
      }
    }
  }

  /** The guarded walk never runs out: it ends in one of the source's own ways, or on a revisit. */
  lemma {:induction false} GuardedNeverOutOfFuel(tree: Document, web: Web, visited: set<string>)
    ensures FollowNextGuarded(tree, web, visited).stop != OutOfFuel
    decreases web.Keys - visited
  {
    var url := GetNextPageUrl(tree.pagerButtons);
    if url != "" && url !in visited && GetParseTree(url, web).Ok? {
      assert web.Keys - (visited + {url}) < web.Keys - visited;
      GuardedNeverOutOfFuel(GetParseTree(url, web).value, web, visited + {url});
    }
  }

  /**
   * When the guard never fires, the guarded walk is the source's walk: with
   * more fuel than there are unvisited pages, both yield the same names and
   * end the same way.
   */
  lemma {:induction false} GuardedAgreesWithSource(tree: Document, web: Web, visited: set<string>, fuel: nat)
    requires !FollowNextGuarded(tree, web, visited).stop.Revisited?
    requires fuel > |web.Keys - visited|
    ensures FollowNext(tree, web, fuel) == FollowNextGuarded(tree, web, visited)
    decreases web.Keys - visited
  {
    var url := GetNextPageUrl(tree.pagerButtons);
    if url != "" {
      assert url !in visited;
      var page := GetParseTree(url, web);
      if page.Ok? {
        var unvisited := web.Keys - visited;
        assert url in unvisited;
        assert web.Keys - (visited + {url}) == unvisited - {url};
        assert |unvisited - {url}| == |unvisited| - 1;
        var guardedRest := FollowNextGuarded(page.value, web, visited + {url});
        assert FollowNextGuarded(tree, web, visited) == Crawl(RepoNames(page.value) + guardedRest.names, guardedRest.stop);
        GuardedAgreesWithSource(page.value, web, visited + {url}, fuel - 1);
        assert FollowNext(tree, web, fuel) == Crawl(RepoNames(page.value) + FollowNext(page.value, web, fuel - 1).names, FollowNext(page.value, web, fuel - 1).stop);
      }
    }
  }

  /** On a page that links to itself, the guarded walk stops at once. */
  lemma SelfLinkGuarded(url: string, web: Web)
    requires url in web && url != ""
    requires GetNextPageUrl(web[url].pagerButtons) == url
    ensures FollowNextGuarded(web[url], web, {url}) == Crawl([], Revisited(url))
  {
  }
}
