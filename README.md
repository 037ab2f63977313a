# git-pull core, modelled in Dafny

git-pull scrapes a GitHub user's public profile and repositories. This
project models its decision and aggregation rules over page contents given
as plain data. The scraping itself is not modelled.

The rules modelled are:

- the request gateway, which detects the host's "Whoa there!" denial banner;
- the repository-list paginator, which follows "Next" links;
- file classification and the first-party path filter, over the language,
  vendor and documentation tables;
- blame aggregation, which folds the commit blocks of a blame page into an
  author → {line numbers, committers} map;
- the contribution graph: a per-page date → count map, overridden by each
  year page, then listed in ascending date order;
- the `File`, `Repo` and `GithubProfile` entities, whose `scrape_*` methods
  fill their fields.

A parsed page is a `Document`: one field per region of the page the scraper
reads. The host is a `Web`, a map from URL to the `Document` served there.
Python's exceptions become the `ScrapeError` constructors of a `Result`.

| file | module | what |
|---|---|---|
| wrappers.dfy | Wrappers | `Option` |
| exceptions.dfy | Exceptions | `ScrapeError`, `Result` |
| pystr.dfy | PyStr | `str.split`, `replace(c, '')`, `strip`, `lower`, `endswith(tuple)`, `int()` and `str()` |
| pages.dfy | Pages | `Document`, `get_parse_tree`, `get_next_page_url`, `scrape_personal_info` |
| pagination.dfy | Pagination | `fetch_repo_names`, plus a variant with a cycle guard |
| classify.dfy | Classify | `identify_file_type`, the filter loop of `fetch_file_paths` |
| blame.dfy | Blame | `File.scrape_blames` and the `File` class |
| contributions.dfy | Contributions | the merge and sort of `scrape_contribution_graph` |
| repo.dfy | Repos | the `Repo` class and its attribute parsers |
| profile.dfy | Profiles | the `GithubProfile` class |

## Model

| member | source | states |
|---|---|---|
| Pages.HasDenialBanner | git_pull/utilities.py:50 | the `any(...)` over the page's `h1` texts; its contract is stated by `HasDenialBannerSpec` |
| Pages.HasDenialBannerSpec | git_pull/utilities.py:50 | true exactly when some `h1` text equals "Whoa there!" |
| Pages.GetParseTree | git_pull/utilities.py:45-53 | the page is returned exactly when it is served and carries no denial banner; `DeniedRequest` carrying the URL exactly when some `h1` is the banner; a connection failure exactly when the URL is not served |
| Pages.GetNextPageUrl | git_pull/utilities.py:132-138 | the scan over the pager buttons; its contract is stated by `GetNextPageUrlSpec` |
| Pages.GetNextPageUrlSpec | git_pull/utilities.py:132-138 | "" when no button reads exactly "Next"; otherwise the `href` of the first button reading exactly "Next" |
| Pages.ScrapePersonalInfo | git_pull/utilities.py:97-100 | the found element's text, or "N/A" when there is no such element |
| PyStr.FirstOccurrence | git_pull/git_pull.py:92 | the leftmost index where the separator occurs, `None` exactly when it does not occur |
| PyStr.Split | git_pull/git_pull.py:92 | at least one piece; more than one exactly when the separator occurs |
| PyStr.JoinSplit | git_pull/git_pull.py:92 | splitting loses nothing: joining the pieces with the separator gives the text back |
| PyStr.FirstPiece | git_pull/git_pull.py:94 | the first piece is the text before the leftmost separator (the whole text if none), and contains no separator |
| PyStr.TextBeforeChar | git_pull/git_pull.py:185 | for a text `a` without `c`, the first piece of `a + c + b` split at `c` is `a` |
| PyStr.RemoveChar | git_pull/git_pull.py:192 | no `c` is left; every other character keeps its number of occurrences, so the result holds exactly the input's characters other than `c` and is no longer |
| PyStr.RemoveCharConcat | git_pull/git_pull.py:192 | removal distributes over concatenation, so the kept characters stay in their original order |
| PyStr.RemoveAbsentChar | git_pull/git_pull.py:192 | removing a character that does not occur changes nothing |
| PyStr.Strip | git_pull/utilities.py:145 | `strip()` never lengthens the text; its full contract is stated by `StripSpec` |
| PyStr.StripSpec | git_pull/utilities.py:145 | the result starts and ends with no whitespace, and is an infix of the input with only whitespace outside it |
| PyStr.StripIdempotent | git_pull/utilities.py:145 | stripping twice is stripping once |
| PyStr.CleanLabel | git_pull/utilities.py:145 | `replace(' ', '').strip()` leaves no blank and no outer whitespace, and is the infix of the blank-free text with only whitespace cut from its ends |
| PyStr.Lower | git_pull/utilities.py:160 | same length, each character lowered, no upper-case ASCII letter left |
| PyStr.ParseInt | git_pull/git_pull.py:273 | `int()` of blank text fails |
| PyStr.ParseIntShowInt | git_pull/git_pull.py:273 | `int(str(n)) == n` for every integer |
| Pagination.RepoNames | git_pull/utilities.py:142-145 | one name per repository link, in page order, each the cleaned link text |
| Pagination.FollowPages | git_pull/utilities.py:152-155 | the `while url := get_next_page_url(tree)` loop yields exactly what the specification `FollowNext` yields and ends the same way |
| Pagination.FetchRepoNames | git_pull/utilities.py:141-155 | the loop yields exactly what the specification `RepoNamesOf` yields and ends the same way |
| Pagination.FollowNextNamesClean | git_pull/utilities.py:145 | every name the walk yields after page 1 has no blank and no outer whitespace |
| Pagination.RepoNamesClean | git_pull/utilities.py:145 | every name `fetch_repo_names` yields has no blank and no outer whitespace |
| Pagination.FirstPageFirst | git_pull/utilities.py:148-152 | a failed first fetch yields nothing; otherwise page 1's names come first, and without a pagination container they are all that is yielded |
| Pagination.FollowNextStopsAtEmptyNext | git_pull/utilities.py:152-155 | the walk reads at most `fuel` pages and yields their names in order; it ends normally exactly when the last page read has an empty next URL |
| Pagination.FollowNextFuelMonotone | git_pull/utilities.py:153-155 | once the walk ends on its own, more fuel changes nothing |
| Pagination.SelfLinkNeverExhausts | git_pull/utilities.py:153-155 | a page whose "Next" link points to itself is fetched again on every step: no fuel lets the walk end, and it yields that page's names `fuel` times |
| Pagination.FetchRepoNamesGuarded | git_pull/utilities.py:141-155 | the guarded loop yields what `RepoNamesGuarded` yields and always ends in one of the source's own ways or on a revisit, never for lack of fuel |
| Pagination.GuardedNeverOutOfFuel | git_pull/utilities.py:153-155 | the guarded walk needs no fuel |
| Pagination.GuardedAgreesWithSource | git_pull/utilities.py:153-155 | when the guard never fires, the guarded walk yields the same names and ends the same way as the source's walk |
| Pagination.SelfLinkGuarded | git_pull/utilities.py:153-155 | on a page linking to itself, the guarded walk stops at once with `Revisited` |
| Classify.FirstLanguage | git_pull/utilities.py:159-161 | the position of the first language, in table order, with an extension that ends the lowered path; `None` exactly when there is none |
| Classify.IdentifyFileType | git_pull/utilities.py:158-167 | the first claiming language's name; with no claiming language, "Documentation" exactly when a documentation pattern matches, else ""; vendor patterns are not read |
| Classify.FetchFilePaths | git_pull/utilities.py:184-207 | the nested loop with its `is_code`/`is_vendor_code` flags and breaks computes `KeptPaths` |
| Classify.KeptPathsSubsequence | git_pull/utilities.py:184-207 | the output is an order-preserving subsequence of the input |
| Classify.KeptPathsCount | git_pull/utilities.py:185-207 | each path occurs in the output as often as in the input if it is kept, otherwise not at all, so one occurrence is appended at most once |
| Classify.KeptPathsMembership | git_pull/utilities.py:189-207 | a path is in the output exactly when it is in the input and is either first-party code (a language claims it, no vendor pattern matches) or documentation |
| Classify.KeptHasFileType | git_pull/utilities.py:158-207 | a kept path gets a non-empty file type; where no vendor pattern matches, kept exactly when its type is non-empty |
| Classify.VendoredCodeDropped | git_pull/utilities.py:189-201 | vendored code that is not documentation is dropped by the filter, while `identify_file_type` still names its language |
| Blame.Attribute | git_pull/git_pull.py:92-95 | no committer exactly when the label holds no " and " (the author is then the whole label); otherwise the author is the text before the first " and " and the committer is the next " and "-segment cut at " (non-author committer)" |
| Blame.AddHunk | git_pull/git_pull.py:92-100 | one loop step: the keys gain the block's author, every other author's entry is unchanged, and the author's entry becomes their earlier entry (empty for a new author) plus the block's line numbers and, in a duet, plus its committer |
| Blame.AddHunkReference | git_pull/git_pull.py:93-100 | one more block extends the order-free description exactly as one loop step extends the map |
| Blame.AggregateIsReference | git_pull/git_pull.py:86-100 | the folded map equals its order-free description: keys are the attributed authors, each with the union of their blocks' lines and the committers of their duet blocks |
| Blame.AggregateKeys | git_pull/git_pull.py:92-100 | an author is a key exactly when some block is attributed to them; no other author appears |
| Blame.AggregateLines | git_pull/git_pull.py:88-100 | a line number is in an author's `line_nums` exactly when some block attributed to that author lists it |
| Blame.AggregateCommitters | git_pull/git_pull.py:95-97 | a committer is in an author's `committers` exactly when some duet block of that author names them |
| Blame.AggregateDependsOnlyOnHunkSet | git_pull/git_pull.py:97-100 | the map depends only on which blocks occur |
| Blame.ReferenceDependsOnlyOnHunkSet | git_pull/git_pull.py:97-100 | the order-free description depends only on which blocks occur |
| Blame.AggregatePermutation | git_pull/git_pull.py:97-100 | reordering the blocks gives the same map |
| Blame.AggregateRepeatedHunk | git_pull/git_pull.py:97-100 | processing a block a second time gives the same map |
| Blame.SoloHunkKeepsCommitters | git_pull/git_pull.py:99-100 | a solo block adds its author but changes no committer set |
| Blame.BlamesOf | git_pull/git_pull.py:82-103 | the blame page's fetch error, or the folded map of that page's blocks |
| Blame.File.constructor | git_pull/git_pull.py:73-77 | the fields as given, no blames |
| Blame.File.Create | git_pull/git_pull.py:73-80 | with `scrape_everything`, construction fails exactly when the blame scrape fails, with its error; otherwise the blames are the scraped map, or empty without the flag |
| Blame.File.ScrapeBlames | git_pull/git_pull.py:82-103 | the loop over the blocks stores and returns `Aggregate` of the blame page's blocks; a failed fetch returns its error and leaves `blames` unchanged |
| Contributions.ParseTiles | git_pull/git_pull.py:272-274 | fails exactly when some tile's count is not an integer; otherwise one (date, count) per tile, in page order |
| Contributions.ToGraph | git_pull/git_pull.py:272-274 | every entry's date is a key, and the last entry's count stands for its date |
| Contributions.TileMap | git_pull/git_pull.py:272-274 | `get_map` fails exactly when some tile's count is not an integer; otherwise every tile's date is a key |
| Contributions.ToGraphKeys | git_pull/git_pull.py:272-274 | a page's map has exactly the dates of its tiles |
| Contributions.ToGraphLastWins | git_pull/git_pull.py:272-274 | a date takes the count of its last tile on the page |
| Contributions.MergeAll | git_pull/git_pull.py:276-280 | the merged graph keeps every date of the profile page and of the last year page |
| Contributions.PageGraph | git_pull/git_pull.py:272-274 | a page's map, with an error exactly when `get_map` fails |
| Contributions.YearGraph | git_pull/git_pull.py:278-280 | one year link: the page at "https://github.com" + href is fetched and mapped; the fetch's error, `MalformedPage` when a count does not parse, otherwise that page's tile map |
| Contributions.YearGraphs | git_pull/git_pull.py:277-280 | on success, one map per year link (contents in `YearGraphsContents`) |
| Contributions.YearGraphsContents | git_pull/git_pull.py:277-280 | the year maps succeed exactly when every year link yields a map, and the i-th map is the i-th link's page map |
| Contributions.YearGraphsFirstFailure | git_pull/git_pull.py:277-280 | a failure is the error of the first year link whose fetch or parse fails, every earlier link having succeeded |
| Contributions.MergedGraph | git_pull/git_pull.py:276-280 | succeeds exactly when the profile page and every year page yield a map, and keeps every date of the profile page |
| Contributions.MergedGraphDates | git_pull/git_pull.py:272-280 | the merged graph's dates are the profile page's dates plus every year page's dates, and no other |
| Contributions.MergedGraphLastYearWins | git_pull/git_pull.py:276-280 | a date on some year page takes its count from the last year page that has it |
| Contributions.MergedGraphKeepsProfile | git_pull/git_pull.py:272-280 | a date on no year page keeps the profile page's count |
| Contributions.MergeAllKeys | git_pull/git_pull.py:276-280 | the merged graph's dates are the union of the profile page's and every year page's dates |
| Contributions.MergeAllLastWins | git_pull/git_pull.py:276-280 | a date on several year pages takes its count from the last of them |
| Contributions.MergeAllKeepsBase | git_pull/git_pull.py:276-280 | a date on no year page keeps the profile page's count |
| Contributions.Insert | git_pull/git_pull.py:282-285 | inserting an entry for an unlisted date keeps the listing strictly ascending and adds exactly that entry |
| Contributions.SortByDate | git_pull/git_pull.py:282-285 | the result is strictly ascending by date and holds exactly the graph's (date, count) items |
| Contributions.SortedListingUnique | git_pull/git_pull.py:282-285 | a graph has only one ascending listing, so the stored order does not depend on the sort |
| Repos.Topics | git_pull/git_pull.py:176-178 | one topic per tag, in order, each without blanks or outer whitespace and made of the tag's characters |
| Repos.StarCount | git_pull/git_pull.py:183-185 | no count when the counter or its aria-label is missing |
| Repos.StarCountOfLabel | git_pull/git_pull.py:185 | an aria-label that starts with the rendering of `n` and a blank yields `n` |
| Repos.ForkCount | git_pull/git_pull.py:190-192 | no count when there are fewer than three social counters |
| Repos.ForkCountIgnoresCommas | git_pull/git_pull.py:192 | a third counter that reads `n` once its commas are dropped yields `n` |
| Repos.ForkCountCommaBlind | git_pull/git_pull.py:192 | counters that differ only in their commas yield the same fork count |
| Repos.Repo.constructor | git_pull/git_pull.py:118-126 | name, owner and page as given; topics, star count, fork count and fork status all `None` |
| Repos.Repo.Open | git_pull/git_pull.py:117-126 | fails exactly when the landing page fetch fails, with its error; otherwise a fresh repository with every attribute `None` |
| Repos.Repo.ScrapeTopics | git_pull/git_pull.py:175-180 | the topics are always set to the cleaned tag texts |
| Repos.Repo.ScrapeStarCount | git_pull/git_pull.py:182-187 | returns `StarCount`; under `safe_scrape` a failure returns `None` and leaves the field as it was (`None` on a fresh repository) |
| Repos.Repo.ScrapeForkCount | git_pull/git_pull.py:189-194 | returns `ForkCount`; a failure returns `None` and leaves the field as it was |
| Repos.Repo.ScrapeForkStatus | git_pull/git_pull.py:196-201 | the fork status is set to whether the fork icon is present |
| Repos.Repo.ScrapeFile | git_pull/git_pull.py:144-151 | a `File` of this repository's owner and name, with the given (possibly `None`) type and `File.Create`'s outcome |
| Profiles.CheckProfile | git_pull/git_pull.py:221-226 | the page is accepted exactly when it is fetched and has the yearly-contributions region; `InvalidUsernameError(username)` exactly when it is fetched without it; a fetch error passes through |
| Profiles.AvatarUrl | git_pull/git_pull.py:257-264 | the avatar image's `src`, and an error exactly when the image or its `src` is missing |
| Profiles.FollowerCount | git_pull/git_pull.py:266-269 | an error when the follower counter is missing; every failure is a page error |
| Profiles.FollowerCountOfText | git_pull/git_pull.py:268 | a counter whose stripped text renders `n` yields `n` |
| Profiles.PersonalSite | git_pull/git_pull.py:292-298 | without a website item the current value is kept; with one, the first link's `href`, and an error exactly when the link or `href` is missing |
| Profiles.YearGraphsPrefixFailure | git_pull/git_pull.py:277-280 | the first failing year link decides the error; later links are never fetched |
| Profiles.GithubProfile.constructor | git_pull/git_pull.py:228-234 | username and page as given, every field empty |
| Profiles.GithubProfile.Open | git_pull/git_pull.py:221-235 | succeeds exactly when `CheckProfile` accepts the page, with all fields empty; otherwise no profile object exists and its error is returned |
| Profiles.GithubProfile.ScrapeName | git_pull/git_pull.py:249-255 | the name is set to the name element's text, or "N/A" |
| Profiles.GithubProfile.ScrapeLocation | git_pull/git_pull.py:288-290 | the location is set to the location element's text, or "N/A" |
| Profiles.GithubProfile.ScrapeWorkplace | git_pull/git_pull.py:300-302 | the workplace is set to the workplace element's text, or "N/A" |
| Profiles.GithubProfile.ScrapeAvatar | git_pull/git_pull.py:257-264 | returns `AvatarUrl`; on success the field is that URL, on error it is unchanged |
| Profiles.GithubProfile.ScrapeFollowerCount | git_pull/git_pull.py:266-269 | returns `FollowerCount`; on success the field is that count, on error it is unchanged |
| Profiles.GithubProfile.ScrapePersonalSite | git_pull/git_pull.py:292-298 | returns `PersonalSite` of the current value; on success the field is the result, on error it is unchanged |
| Profiles.GithubProfile.ScrapeContributionGraph | git_pull/git_pull.py:271-286 | succeeds exactly when the merged graph can be built, with its error otherwise; on success it stores the merged graph's ascending listing, on error the field is unchanged |
| Profiles.GithubProfile.ScrapeRepo | git_pull/git_pull.py:311-312 | a repository of this user, opened as `Repo.Open` opens it |

## Left out

- Network and parsing: `requests.get` with a random user agent, BeautifulSoup, Selenium and `get_dynamic_content` (git_pull/utilities.py:45-47, 56-79, 174-183, 209). A page is a `Document` value, and the host is a `Web` map. A URL missing from the map stands for a failed request.
- Classify.FetchFilePaths: takes the rendered path texts as its input. Driving the browser to obtain them is not modelled.
- `concurrent_exec` (git_pull/utilities.py:105-129): a thread pool that nothing calls.
- The YAML loading of the language, vendor, documentation and user-agent tables (git_pull/utilities.py:27-42). The three classification tables are parameters.
- `re.search`: the parameter `search(pattern, path)`. No regular-expression semantics are modelled.
- PyStr.Lower: lowers ASCII letters only. Python's `str.lower` also lowers non-ASCII letters.
- PyStr.ParseInt: accepts surrounding whitespace, an optional sign and ASCII digits. Python's `int()` also accepts `_` between digits and non-ASCII decimal digits. Its own contract states only the blank case; its meaning is carried by `ParseIntShowInt`.
- `datetime.strptime` (git_pull/git_pull.py:284): dates are already parsed `(year, month, day)` triples. A malformed `data-date` (which raises) is not modelled, and neither are two spellings of the same day.
- `urllib.parse.quote` and `raw_url` (git_pull/git_pull.py:76), the `to_dict` methods, and the `Commit` class. These are serialisation only.
- `Repo.scrape_commit_history`: its body is `pass`.
- Commented-out code (git_pull/git_pull.py:11-53, 156-173) and the module-level script (git_pull/git_pull.py:328-342).
- `Repo.scrape_files` and the `scrape_everything` path of `Repo`: they are not modelled as working code. Line 138 of git_pull/git_pull.py unpacks `(file_type, file_path)` from the plain list of path strings that `fetch_file_paths` returns.
- `GithubProfile.scrape_repos` and the `scrape_everything` path of `GithubProfile`: also not modelled as working. Line 308 calls `scrape_repo` unbound, with the repository name in place of `self`.
- Profiles.GithubProfile.ScrapeRepo: models `scrape_everything=False` only, for the reason above.
- Profiles.GithubProfile.ScrapeContributionGraph: a `rect.day` tile without `data-date` or without `data-count`, and a year link without `href`, are not modelled; each raises `KeyError` in the source (git_pull/git_pull.py:273, 278). A `Document` holds a date and a count text for every tile and an `href` for every year link.
- Blame.File.ScrapeBlames: a block's line numbers arrive as integers and its label as text. The `int()` of a line number and a missing avatar-stack label are not modelled; both raise in the source.
- Pagination.FetchRepoNames: a missing `a` inside a repository row and a "Next" button without `href` are not modelled. The `Document` holds their texts directly.
- Pagination.FetchRepoNames: the generator is modelled as the complete list it yields, cut short after `fuel` further pages (`OutOfFuel`). The source has no such bound and no guard against a repeating "Next" link, so its termination is not claimed.
- Python's keyword defaults (`file_type=None`, `scrape_everything=False` and the like) are explicit arguments; the default type `None` is the value `None` of `Option<string>`.
- Blame.File.constructor: the initial `blames` is an empty list in the source. Here it is an empty map.
- Profiles.GithubProfile.constructor: the initial `follower_count` is the empty string in the source. Here it is `None`.
- Profiles.GithubProfile.ScrapeContributionGraph: the stored graph is an insertion-ordered `dict` in the source. Here it is the sequence of its `(date, count)` items.
- Repos.StarCount and Repos.ForkCount: their contracts state only the failure cases. The successful parse is stated by `StarCountOfLabel`, `ForkCountIgnoresCommas` and `ForkCountCommaBlind`.
- Profiles.FollowerCount: its contract states only the failure cases. The successful parse is stated by `FollowerCountOfText`.
- Every Python runtime error the scraper lets escape, where a `Document` can express its cause, becomes `MalformedPage`: `TypeError` when a missing element is indexed, `AttributeError` when a method such as `.find` or `.get_text()` is called on a missing element, `KeyError` on a missing attribute, `IndexError`, and `ValueError` from `int()`. `safe_scrape` catches any of them and returns `None`, which the model renders as `Option`.
- Classify.IdentifyFileType: `identify_file_type` never reads the vendor patterns, so it names the language of vendored code too. Only the `fetch_file_paths` filter drops vendored code (`VendoredCodeDropped`).

## Findings

| source | as written | input that shows it | evidently intended | confidence | as-written member | corrected member |
|---|---|---|---|---|---|---|
| git_pull/utilities.py:153-155 | the `while url := get_next_page_url(tree)` loop follows any non-empty "Next" URL, including one it has already fetched | a listing page with a pagination container whose "Next" button links back to the page's own URL | a walk must not fetch a URL it has already fetched, otherwise a self-linking page never ends; pagination stops at an already visited "Next" URL | not executed; it needs a host that serves such a page | Pagination.SelfLinkNeverExhausts | Pagination.FetchRepoNamesGuarded |
