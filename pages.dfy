/**
 * The parsed pages the scraper reads, and the request gateway
 * (git_pull/utilities.py: get_parse_tree, get_next_page_url,
 * scrape_personal_info).
 *
 * A page is modelled by the regions of its parse tree that the scraper
 * looks at, one field per region; the network is a map from URL to page.
 */
module Pages {
  import opened Wrappers
  import opened Exceptions

  /** A tag of the parse tree: its text and its attributes. */
  datatype Element = Element(text: string, attrs: map<string, string>)

  /** The `(tag, class)` pair given to BeautifulSoup's `find`. */
  datatype Locator = Locator(tag: string, cls: string)

  /** One pager button: its text and its `href`. */
  datatype Button = Button(text: string, href: string)

  /** One commit block of a blame page: its line numbers and its avatar-stack label. */
  datatype Hunk = Hunk(lineNums: seq<int>, authorLabel: string)

  /** A calendar day, ordered as `datetime` orders it. */
  datatype Date = Date(year: int, month: int, day: int)

  /** One contribution-calendar tile: its `data-date` and its raw `data-count` text. */
  datatype Tile = Tile(date: Date, count: string)

  datatype Document = Document(
    /** Text of every `h1`. */
    h1Texts: seq<string>,
    /** Every `a.btn.btn-outline.BtnGroup-item`. */
    pagerButtons: seq<Button>,
    /** Whether some `div.paginate-container` exists. */
    hasPaginateContainer: bool,
    /** Text of the link in each `div.d-inline-block.mb-1` (repository list). */
    repoLinkTexts: seq<string>,
    /** Every `div.blame-hunk` block. */
    blameHunks: seq<Hunk>,
    /** Every `rect.day` of the contribution calendar. */
    dayTiles: seq<Tile>,
    /** The `href` of every `a.js-year-link`. */
    yearLinkHrefs: seq<string>,
    /** Whether some `div.js-yearly-contributions` exists. */
    hasYearlyContributions: bool,
    /** `tree.find(tag, class)` for the profile's identity fields; a missing key is `None`. */
    firstMatch: map<Locator, Element>,
    /** The follower-count `span` inside the first follower link, if both exist. */
    followerSpan: Option<Element>,
    /** The website `li`, if any, and the first `a` inside it, if any. */
    websiteItem: Option<Option<Element>>,
    /** The first `a.social-count.js-social-count`. */
    starCounter: Option<Element>,
    /** Text of every `a.social-count`. */
    socialCountTexts: seq<string>,
    /** Text of every `a.topic-tag.topic-tag-link`. */
    topicTagTexts: seq<string>,
    /** Whether the forked-repository icon is present. */
    hasForkIcon: bool
  )

  /** The host as seen by the scraper: the page served at each reachable URL. */
  type Web = map<string, Document>

  const DenialBanner := "Whoa there!"
  const NextLabel := "Next"
  const NotAvailable := "N/A"

  /** Some `h1` reads exactly like the host's anti-scraping banner. */
  function HasDenialBanner(h1Texts: seq<string>): bool {
    if |h1Texts| == 0 then false
    else h1Texts[0] == DenialBanner || HasDenialBanner(h1Texts[1..])
  }

  /** A page is denied exactly when one of its `h1` texts is the banner. */
  lemma {:induction false} HasDenialBannerSpec(h1Texts: seq<string>)
    ensures HasDenialBanner(h1Texts) <==> exists i :: 0 <= i < |h1Texts| && h1Texts[i] == DenialBanner
  {
    if |h1Texts| > 0 {
      HasDenialBannerSpec(h1Texts[1..]);
      assert forall i :: 1 <= i < |h1Texts| ==> h1Texts[1..][i - 1] == h1Texts[i];
    }
  }

  /**
   * `get_parse_tree(url)`: fetch and parse one page. A page carrying the
   * denial banner raises `DeniedRequest` with that URL; a URL the host does
   * not answer raises from the HTTP layer.
   */
  function GetParseTree(url: string, web: Web): (r: Result<Document>)
    ensures r.Ok? <==> url in web && !HasDenialBanner(web[url].h1Texts)
    ensures r.Ok? ==> r.value == web[url]
    ensures r == Err(DeniedRequest(url)) <==> url in web && HasDenialBanner(web[url].h1Texts)
    ensures r == Err(Unreachable(url)) <==> url !in web
  {
    if url !in web then Err(Unreachable(url))
    else if HasDenialBanner(web[url].h1Texts) then Err(DeniedRequest(url))
    else Ok(web[url])
  }

  /** `get_next_page_url(tree)`: the `href` of the first button reading exactly "Next", else "". */
  function GetNextPageUrl(buttons: seq<Button>): string {
    if |buttons| == 0 then ""
    else if buttons[0].text == NextLabel then buttons[0].href
    else GetNextPageUrl(buttons[1..])
  }

  /** No "Next" button gives ""; otherwise the first "Next" button decides. */
  lemma {:induction false} GetNextPageUrlSpec(buttons: seq<Button>)
    ensures (forall i :: 0 <= i < |buttons| ==> buttons[i].text != NextLabel) ==> GetNextPageUrl(buttons) == ""
    ensures (exists i :: 0 <= i < |buttons| && buttons[i].text == NextLabel) ==>
      exists i :: 0 <= i < |buttons| && buttons[i].text == NextLabel && GetNextPageUrl(buttons) == buttons[i].href
        && forall j :: 0 <= j < i ==> buttons[j].text != NextLabel
  {
    if |buttons| > 0 && buttons[0].text != NextLabel {
      GetNextPageUrlSpec(buttons[1..]);
      assert forall i :: 1 <= i < |buttons| ==> buttons[1..][i - 1] == buttons[i];
      if exists i :: 0 <= i < |buttons| && buttons[i].text == NextLabel {
        var i :| 0 <= i < |buttons| && buttons[i].text == NextLabel;
        assert buttons[1..][i - 1].text == NextLabel;
        var k :| 0 <= k < |buttons[1..]| && buttons[1..][k].text == NextLabel
          && GetNextPageUrl(buttons[1..]) == buttons[1..][k].href
          && forall j :: 0 <= j < k ==> buttons[1..][j].text != NextLabel;
        assert buttons[k + 1].text == NextLabel && GetNextPageUrl(buttons) == buttons[k + 1].href;
        assert forall j :: 0 <= j < k + 1 ==> buttons[j].text != NextLabel;
      }
    }
  }

  /** `scrape_personal_info(tree, tag, id)` without a callback: the element's text, or "N/A". */
  function ScrapePersonalInfo(tree: Document, loc: Locator): (info: string)
    ensures loc in tree.firstMatch ==> info == tree.firstMatch[loc].text
    ensures loc !in tree.firstMatch ==> info == NotAvailable
  {
    if loc in tree.firstMatch then tree.firstMatch[loc].text else NotAvailable
  }
}
