/**
 * The profile entity (git_pull/git_pull.py: class GithubProfile).
 *
 * A profile is opened on the user's page, which must carry the yearly
 * contributions region; each `scrape_*` method then reads one attribute of
 * that page (or, for the contribution graph, of the year pages it links to)
 * into a field.
 */
module Profiles {
  import opened Wrappers
  import opened Exceptions
  import opened PyStr
  import opened Pages
  import opened Contributions
  import opened Repos

  const NameLocator := Locator("span", "p-name vcard-fullname d-block overflow-hidden")
  const AvatarLocator := Locator("img", "avatar avatar-user width-full border bg-white")
  const LocationLocator := Locator("span", "p-label")
  const WorkplaceLocator := Locator("span", "p-org")

  function ProfileUrl(username: string): string {
    "https://github.com/" + username
  }

  /**
   * The profile page of `username`, or why there is none: the fetch fails,
   * or the page lacks the yearly contributions region, which raises
   * `InvalidUsernameError(username)`.
   */
  function CheckProfile(username: string, web: Web): (r: Result<Document>)
    ensures r.Ok? <==> GetParseTree(ProfileUrl(username), web).Ok? && web[ProfileUrl(username)].hasYearlyContributions
    ensures r.Ok? ==> r.value == web[ProfileUrl(username)]
    ensures r == Err(InvalidUsername(username)) <==>
      GetParseTree(ProfileUrl(username), web).Ok? && !web[ProfileUrl(username)].hasYearlyContributions
    ensures GetParseTree(ProfileUrl(username), web).Err? ==> r == GetParseTree(ProfileUrl(username), web)
  {
    var tree :- GetParseTree(ProfileUrl(username), web);
    if !tree.hasYearlyContributions then Err(InvalidUsername(username)) else Ok(tree)
  }

  /** `scrape_avatar()`: the `src` of the avatar image; a missing image or `src` raises. */
  function AvatarUrl(tree: Document): (r: Result<string>)
    ensures r.Ok? <==> AvatarLocator in tree.firstMatch && "src" in tree.firstMatch[AvatarLocator].attrs
    ensures r.Ok? ==> r.value == tree.firstMatch[AvatarLocator].attrs["src"]
    ensures r.Err? ==> r.error == MalformedPage
  {
    if AvatarLocator !in tree.firstMatch then Err(MalformedPage)
    else if "src" !in tree.firstMatch[AvatarLocator].attrs then Err(MalformedPage)
    else Ok(tree.firstMatch[AvatarLocator].attrs["src"])
  }

  /** `scrape_follower_count()`: the integer text of the follower counter; a missing counter or non-integer raises. */
  function FollowerCount(tree: Document): (r: Result<int>)
    ensures tree.followerSpan.None? ==> r == Err(MalformedPage)
    ensures r.Err? ==> r.error == MalformedPage
  {
    match tree.followerSpan
    case None => Err(MalformedPage)
    case Some(span) =>
      match ParseInt(span.text)
      case None => Err(MalformedPage)
      case Some(n) => Ok(n)
  }

  /** A counter whose text renders `n` yields `n`. */
  lemma FollowerCountOfText(tree: Document, n: int)
    requires tree.followerSpan.Some? && Strip(tree.followerSpan.value.text) == ShowInt(n)
    ensures FollowerCount(tree) == Ok(n)
  {
    ParseIntShowInt(n);
    StripIdempotent(tree.followerSpan.value.text);
    var t := tree.followerSpan.value.text;
    assert ParseInt(t) == ParseInt(Strip(t));
  }

  /**
   * `scrape_personal_site()`: without a website item the field keeps its
   * value `current`; with one, the `href` of its first link, and a missing
   * link or `href` raises.
   */
  function PersonalSite(tree: Document, current: string): (r: Result<string>)
    ensures tree.websiteItem.None? ==> r == Ok(current)
    ensures r.Err? <==> (tree.websiteItem.Some? &&
      (tree.websiteItem.value.None? || "href" !in tree.websiteItem.value.value.attrs))
    ensures r.Ok? && tree.websiteItem.Some? ==> r.value == tree.websiteItem.value.value.attrs["href"]
  {
    match tree.websiteItem
    case None => Ok(current)
    case Some(link) =>
      if link.None? then Err(MalformedPage)
      else if "href" !in link.value.attrs then Err(MalformedPage)
      else Ok(link.value.attrs["href"])
  }

  /** A failure among the first `k` year links is the failure of the whole list: later links are never fetched. */
  lemma {:induction false} YearGraphsPrefixFailure(hrefs: seq<string>, k: nat, web: Web)
    requires k <= |hrefs| && YearGraphs(hrefs[..k], web).Err?
    ensures YearGraphs(hrefs, web) == YearGraphs(hrefs[..k], web)
    decreases |hrefs| - k
  {
    if k < |hrefs| {
      var init := hrefs[..|hrefs| - 1];
      assert init[..k] == hrefs[..k];
      YearGraphsPrefixFailure(init, k, web);
    } else {
      assert hrefs[..k] == hrefs;
    }
  }

  class GithubProfile {
    const username: string
    const tree: Document
    var name: string
    var avatarUrl: string
    /** `None` stands for the initial empty string. */
    var followerCount: Option<int>
    var contributionGraph: seq<DayCount>
    var location: string
    var personalSite: string
    var workplace: string

    /** The object built around an already checked profile page; every field still empty. */
    constructor (username: string, tree: Document)
      ensures this.username == username && this.tree == tree
      ensures name == "" && avatarUrl == "" && followerCount.None? && contributionGraph == []
      ensures location == "" && personalSite == "" && workplace == ""
    {
      this.username, this.tree := username, tree;
      name, avatarUrl, followerCount, contributionGraph := "", "", None, [];
      location, personalSite, workplace := "", "", "";
    }

    /**
     * `GithubProfile(username)`: fetch the page and refuse a username whose
     * page has no yearly contributions region; no profile object exists then.
     */
    static method Open(username: string, web: Web) returns (r: Result<GithubProfile>)
      ensures r.Ok? <==> CheckProfile(username, web).Ok?
      ensures r.Err? ==> r.error == CheckProfile(username, web).error
      ensures r.Ok? ==> fresh(r.value)
      ensures r.Ok? ==> (r.value.username == username && r.value.tree == web[ProfileUrl(username)])
      ensures r.Ok? ==> (r.value.name == "" && r.value.avatarUrl == "" && r.value.followerCount.None?
        && r.value.contributionGraph == [] && r.value.location == ""
        && r.value.personalSite == "" && r.value.workplace == "")
    {
      var tree :- GetParseTree(ProfileUrl(username), web);
      if !tree.hasYearlyContributions {
        return Err(InvalidUsername(username));
      }
      var profile := new GithubProfile(username, tree);
      r := Ok(profile);
    }

    /** `scrape_name()`: the name text, or "N/A". */
    method ScrapeName() returns (r: string)
      modifies this`name
      ensures r == ScrapePersonalInfo(tree, NameLocator) && name == r
    {
      name := ScrapePersonalInfo(tree, NameLocator);
      r := name;
    }

    /** `scrape_location()`: the location text, or "N/A". */
    method ScrapeLocation() returns (r: string)
      modifies this`location
      ensures r == ScrapePersonalInfo(tree, LocationLocator) && location == r
    {
      location := ScrapePersonalInfo(tree, LocationLocator);
      r := location;
    }

    /** `scrape_workplace()`: the workplace text, or "N/A". */
    method ScrapeWorkplace() returns (r: string)
      modifies this`workplace
      ensures r == ScrapePersonalInfo(tree, WorkplaceLocator) && workplace == r
    {
      workplace := ScrapePersonalInfo(tree, WorkplaceLocator);
      r := workplace;
    }

    /** `scrape_avatar()`: raises, leaving the field unchanged, when the image or its `src` is missing. */
    method ScrapeAvatar() returns (r: Result<string>)
      modifies this`avatarUrl
      ensures r == AvatarUrl(tree)
      ensures avatarUrl == if r.Ok? then r.value else old(avatarUrl)
    {
      var src :- AvatarUrl(tree);
      avatarUrl := src;
      r := Ok(src);
    }

    /** `scrape_follower_count()`: raises, leaving the field unchanged, on a missing or non-integer counter. */
    method ScrapeFollowerCount() returns (r: Result<int>)
      modifies this`followerCount
      ensures r == FollowerCount(tree)
      ensures followerCount == if r.Ok? then Some(r.value) else old(followerCount)
    {
      var n :- FollowerCount(tree);
      followerCount := Some(n);
      r := Ok(n);
    }

    /** `scrape_personal_site()`: the website link's `href`; the field is untouched without a website item. */
    method ScrapePersonalSite() returns (r: Result<string>)
      modifies this`personalSite
      ensures r == PersonalSite(tree, old(personalSite))
      ensures personalSite == if r.Ok? then r.value else old(personalSite)
    {
      r := PersonalSite(tree, personalSite);
      if r.Ok? {
        personalSite := r.value;
      }
    }

    /**
     * `scrape_contribution_graph()`: the profile page's calendar merged with
     * each year page's calendar in link order, later pages overriding, then
     * stored in ascending date order. A failed fetch or an unparsable count
     * raises and leaves the field unchanged.
     */
    method ScrapeContributionGraph(web: Web) returns (r: Result<seq<DayCount>>)
      modifies this`contributionGraph
      ensures r.Ok? <==> MergedGraph(tree, web).Ok?
      ensures r.Err? ==> r.error == MergedGraph(tree, web).error
      ensures r.Ok? ==> SortedListing(r.value, MergedGraph(tree, web).value)
      ensures contributionGraph == if r.Ok? then r.value else old(contributionGraph)
    {
      var base :- PageGraph(tree);
      var graph := base;
      var hrefs := tree.yearLinkHrefs;
      var i := 0;
      while i < |hrefs|
        invariant 0 <= i <= |hrefs|
        invariant YearGraphs(hrefs[..i], web).Ok?
        invariant graph == MergeAll(base, YearGraphs(hrefs[..i], web).value)
      {
        assert hrefs[..i + 1][..i] == hrefs[..i];
        var commitOverview := GetParseTree(YearUrl(hrefs[i]), web);
        if commitOverview.Err? {
          YearGraphsPrefixFailure(hrefs, i + 1, web);
          return Err(commitOverview.error);
        }
        var yearMap := PageGraph(commitOverview.value);
        if yearMap.Err? {
          YearGraphsPrefixFailure(hrefs, i + 1, web);
          return Err(yearMap.error);
        }
        ghost var years := YearGraphs(hrefs[..i], web).value;
        assert (years + [yearMap.value])[..|years|] == years;
        graph := graph + yearMap.value;
        i := i + 1;
      }
      assert hrefs[..i] == hrefs;
      var entries := SortByDate(graph);
      contributionGraph := entries;
      r := Ok(entries);
    }

    /** `scrape_repo(name)`: one of this user's repositories, opened without scraping its attributes. */
    method ScrapeRepo(repoName: string, web: Web) returns (r: Result<Repo>)
      ensures r.Ok? <==> GetParseTree(RepoUrl(username, repoName), web).Ok?
      ensures r.Err? ==> r.error == GetParseTree(RepoUrl(username, repoName), web).error
      ensures r.Ok? ==> fresh(r.value)
      ensures r.Ok? ==> (r.value.name == repoName && r.value.owner == username
        && r.value.tree == web[RepoUrl(username, repoName)])
      ensures r.Ok? ==> (r.value.topics.None? && r.value.starCount.None?
        && r.value.forkCount.None? && r.value.forkStatus.None?)
    {
      r := Repo.Open(repoName, username, web);
    }
  }
}
