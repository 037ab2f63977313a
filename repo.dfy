/**
 * The repository entity (git_pull/git_pull.py: class Repo).
 *
 * A repository is opened on its landing page; each `scrape_*` method reads
 * one attribute of that page into a field. The attribute scrapers are wrapped
 * in `safe_scrape`: a failure makes the call return `None` and leaves the
 * field as it was (`None` on a fresh repository).
 */
module Repos {
  import opened Wrappers
  import opened Exceptions
  import opened PyStr
  import opened Pages
  import opened Blame

  const AriaLabel := "aria-label"

  /** The position of the fork counter among the `a.social-count` links. */
  const ForkCounterIndex := 2

  function RepoUrl(owner: string, name: string): string {
    "https://github.com/" + owner + "/" + name
  }

  /** The topic tags, each with its blanks removed and its ends stripped. */
  function Topics(tree: Document): (topics: seq<string>)
    ensures |topics| == |tree.topicTagTexts|
    ensures forall i :: 0 <= i < |topics| ==> topics[i] == CleanLabel(tree.topicTagTexts[i])
    ensures forall i :: 0 <= i < |topics| ==>
      && ' ' !in topics[i]
      && (topics[i] == [] || (!IsSpace(topics[i][0]) && !IsSpace(topics[i][|topics[i]| - 1])))
      && (forall c :: c in topics[i] ==> c in tree.topicTagTexts[i])
  {
    seq(|tree.topicTagTexts|, i requires 0 <= i < |tree.topicTagTexts| => CleanLabel(tree.topicTagTexts[i]))
  }

  /**
   * `int(star_container["aria-label"].split(" ")[0])`, or `None` when the
   * counter is missing, has no aria-label, or its first word is no integer.
   */
  function StarCount(tree: Document): (r: Option<int>)
    ensures tree.starCounter.None? ==> r.None?
    ensures tree.starCounter.Some? && AriaLabel !in tree.starCounter.value.attrs ==> r.None?
  {
    var counter :- tree.starCounter;
    if AriaLabel !in counter.attrs then None
    else ParseInt(TextBefore(counter.attrs[AriaLabel], " "))
  }

  /** An aria-label that starts with a rendered number and a blank yields that number. */
  lemma StarCountOfLabel(tree: Document, n: int, rest: string)
    requires tree.starCounter.Some?
    requires AriaLabel in tree.starCounter.value.attrs
    requires tree.starCounter.value.attrs[AriaLabel] == ShowInt(n) + " " + rest
    ensures StarCount(tree) == Some(n)
  {
    assert ' ' !in ShowInt(n) by {
      var digits := ShowNat(if n < 0 then -n else n);
      assert IsDecimal(digits);
      assert n < 0 ==> ShowInt(n) == "-" + digits;
    }
    TextBeforeChar(ShowInt(n), ' ', rest);
    assert ShowInt(n) + " " + rest == ShowInt(n) + [' '] + rest;
    ParseIntShowInt(n);
  }

  /**
   * `int(find_all('a', "social-count")[2].get_text().replace(',', ''))`, or
   * `None` when there are fewer than three counters or the text is no integer.
   */
  function ForkCount(tree: Document): (r: Option<int>)
    ensures |tree.socialCountTexts| <= ForkCounterIndex ==> r.None?
  {
    if |tree.socialCountTexts| <= ForkCounterIndex then None
    else ParseInt(RemoveChar(tree.socialCountTexts[ForkCounterIndex], ','))
  }

  /** Thousands separators are ignored: a counter reading `n` once its commas are dropped yields `n`. */
  lemma ForkCountIgnoresCommas(tree: Document, n: int)
    requires |tree.socialCountTexts| > ForkCounterIndex
    requires RemoveChar(tree.socialCountTexts[ForkCounterIndex], ',') == ShowInt(n)
    ensures ForkCount(tree) == Some(n)
  {
    ParseIntShowInt(n);
  }

  /** Two counters that differ only in their commas yield the same fork count. */
  lemma ForkCountCommaBlind(t1: Document, t2: Document)
    requires |t1.socialCountTexts| > ForkCounterIndex && |t2.socialCountTexts| > ForkCounterIndex
    requires RemoveChar(t1.socialCountTexts[ForkCounterIndex], ',') == RemoveChar(t2.socialCountTexts[ForkCounterIndex], ',')
    ensures ForkCount(t1) == ForkCount(t2)
  {
  }

  class Repo {
    const name: string
    const owner: string
    const tree: Document
    var topics: Option<seq<string>>
    var starCount: Option<int>
    var forkCount: Option<int>
    var forkStatus: Option<bool>

    /** The object built around an already fetched landing page; no attribute scraped yet. */
    constructor (name: string, owner: string, tree: Document)
      ensures this.name == name && this.owner == owner && this.tree == tree
      ensures topics.None? && starCount.None? && forkCount.None? && forkStatus.None?
    {
      this.name, this.owner, this.tree := name, owner, tree;
      topics, starCount, forkCount, forkStatus := None, None, None, None;
    }

    /**
     * `Repo(name, owner)`: fetch the landing page, which raises when the
     * page is denied or unreachable.
     */
    static method Open(name: string, owner: string, web: Web) returns (r: Result<Repo>)
      ensures r.Ok? <==> GetParseTree(RepoUrl(owner, name), web).Ok?
      ensures r.Err? ==> r.error == GetParseTree(RepoUrl(owner, name), web).error
      ensures r.Ok? ==> fresh(r.value)
      ensures r.Ok? ==> (r.value.name == name && r.value.owner == owner
        && r.value.tree == web[RepoUrl(owner, name)])
      ensures r.Ok? ==> (r.value.topics.None? && r.value.starCount.None?
        && r.value.forkCount.None? && r.value.forkStatus.None?)
    {
      var tree :- GetParseTree(RepoUrl(owner, name), web);
      var repo := new Repo(name, owner, tree);
      r := Ok(repo);
    }

    /** `scrape_topics()`: reading the tags cannot fail, so the field is always set. */
    method ScrapeTopics() returns (r: Option<seq<string>>)
      modifies this`topics
      ensures r == Some(Topics(tree))
      ensures topics == r
    {
      topics := Some(Topics(tree));
      r := topics;
    }

    /** `scrape_star_count()`: on failure returns `None` and keeps the field. */
    method ScrapeStarCount() returns (r: Option<int>)
      modifies this`starCount
      ensures r == StarCount(tree)
      ensures starCount == if r.Some? then r else old(starCount)
    {
      r := StarCount(tree);
      if r.Some? {
        starCount := r;
      }
    }

    /** `scrape_fork_count()`: on failure returns `None` and keeps the field. */
    method ScrapeForkCount() returns (r: Option<int>)
      modifies this`forkCount
      ensures r == ForkCount(tree)
      ensures forkCount == if r.Some? then r else old(forkCount)
    {
      r := ForkCount(tree);
      if r.Some? {
        forkCount := r;
      }
    }

    /** `scrape_fork_status()`: whether the forked-repository icon is on the page. */
    method ScrapeForkStatus() returns (r: Option<bool>)
      modifies this`forkStatus
      ensures r == Some(tree.hasForkIcon)
      ensures forkStatus == r
    {
      forkStatus := Some(tree.hasForkIcon);
      r := forkStatus;
    }

    /** `scrape_file(path, type, scrape_everything)`: a file of this repository; the default type `None` is `None` here. */
    method ScrapeFile(path: string, fileType: Option<string>, scrapeEverything: bool, web: Web) returns (r: Result<File>)
      ensures r.Err? <==> scrapeEverything && BlamesOf(owner, name, path, web).Err?
      ensures r.Err? ==> r.error == BlamesOf(owner, name, path, web).error
      ensures r.Ok? ==> fresh(r.value)
      ensures r.Ok? ==> (r.value.path == path && r.value.fileType == fileType
        && r.value.owner == owner && r.value.repo == name)
      ensures r.Ok? ==> (r.value.blames ==
        if scrapeEverything then BlamesOf(owner, name, path, web).value else map[])
    {
      r := File.Create(path, fileType, owner, name, scrapeEverything, web);
    }
  }
}
