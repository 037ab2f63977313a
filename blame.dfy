/**
 * Blame aggregation (git_pull/git_pull.py: File.scrape_blames).
 *
 * A blame page is a list of commit blocks ("hunks"), each carrying its line
 * numbers and an author label. A label "A and B (non-author committer)" is
 * a duet commit: A is the author and B a committer. The blocks are folded
 * into a map from author to the set of their line numbers and the set of
 * their committers, using only set union and insertion.
 */
module Blame {
  import opened Wrappers
  import opened Exceptions
  import opened PyStr
  import opened Pages

  const DuetSeparator := " and "
  const CommitterQualifier := " (non-author committer)"

  /** What one author accumulated: their line numbers and their co-committers. */
  datatype BlameRecord = BlameRecord(lineNums: set<int>, committers: set<string>)

  type BlameMap = map<string, BlameRecord>

  /** The author and, for a duet commit, the committer named by one author label. */
  datatype Attribution = Attribution(author: string, committer: Option<string>)

  /**
   * The split of `author_label` in `scrape_blames`. Without " and " the
   * whole label is a solo author. Otherwise the author is the text before
   * the first " and ", and the committer is the next " and "-segment cut
   * at " (non-author committer)".
   */
  function Attribute(authorLabel: string): (a: Attribution)
    ensures a.committer.None? <==> !Contains(authorLabel, DuetSeparator)
    ensures a.committer.None? ==> a.author == authorLabel
    ensures a.committer.Some? ==>
      && |a.author| + |DuetSeparator| <= |authorLabel|
      && authorLabel[..|a.author|] == a.author
      && OccursAt(authorLabel, DuetSeparator, |a.author|)
      && (forall j: nat :: j < |a.author| ==> !OccursAt(authorLabel, DuetSeparator, j))
      && a.committer.value ==
           TextBefore(TextBefore(authorLabel[|a.author| + |DuetSeparator|..], DuetSeparator), CommitterQualifier)
  {
    var parts := Split(authorLabel, DuetSeparator);
    FirstPiece(authorLabel, DuetSeparator);
    if |parts| > 1 then
      Attribution(parts[0], Some(Split(parts[1], CommitterQualifier)[0]))
    else
      Attribution(authorLabel, None)
  }

  /** `author_to_line_nums[author]` of the defaultdict: an unseen author starts empty. */
  function RecordOf(blames: BlameMap, author: string): BlameRecord {
    if author in blames then blames[author] else BlameRecord({}, {})
  }

  /** The blame map after one more hunk. */
  function AddHunk(blames: BlameMap, hunk: Hunk): (r: BlameMap)
    ensures r.Keys == blames.Keys + {Attribute(hunk.authorLabel).author}
    ensures forall a :: a in blames && a != Attribute(hunk.authorLabel).author ==> r[a] == blames[a]
    ensures var a := Attribute(hunk.authorLabel);
      r[a.author] == BlameRecord(
        RecordOf(blames, a.author).lineNums + (set n | n in hunk.lineNums),
        RecordOf(blames, a.author).committers + (if a.committer.Some? then {a.committer.value} else {}))
  {
    var a := Attribute(hunk.authorLabel);
    var entry := RecordOf(blames, a.author);
    var committers := if a.committer.Some? then entry.committers + {a.committer.value} else entry.committers;
    blames[a.author := BlameRecord(entry.lineNums + (set n | n in hunk.lineNums), committers)]
  }

  /** One hunk added the way the loop of `scrape_blames` spells it out, branch by branch. */
  lemma AddHunkSteps(blames: BlameMap, hunk: Hunk)
    ensures var parts := Split(hunk.authorLabel, DuetSeparator);
      var lineNums := set n | n in hunk.lineNums;
      AddHunk(blames, hunk) ==
        if |parts| > 1 then
          var entry := RecordOf(blames, parts[0]);
          blames[parts[0] := BlameRecord(entry.lineNums + lineNums,
            entry.committers + {Split(parts[1], CommitterQualifier)[0]})]
        else
          var entry := RecordOf(blames, hunk.authorLabel);
          blames[hunk.authorLabel := BlameRecord(entry.lineNums + lineNums, entry.committers)]
  {
  }

  /** The blame map after all hunks, folded in page order. */
  function Aggregate(hunks: seq<Hunk>): BlameMap {
    if |hunks| == 0 then map[]
    else AddHunk(Aggregate(hunks[..|hunks| - 1]), hunks[|hunks| - 1])
  }

  // ---------------------------------------------------------------------
  // An order-free description of the result
  // ---------------------------------------------------------------------

  /** Every author named by some hunk. */
  ghost function Authors(hunks: seq<Hunk>): set<string> {
    set h | h in hunks :: Attribute(h.authorLabel).author
  }

  /** The line numbers of every hunk attributed to `author`. */
  ghost function LinesOf(hunks: seq<Hunk>, author: string): set<int> {
    set h, n | h in hunks && Attribute(h.authorLabel).author == author && n in h.lineNums :: n
  }

  /** The committers of every duet hunk attributed to `author`. */
  ghost function CommittersOf(hunks: seq<Hunk>, author: string): set<string> {
    set h | h in hunks && Attribute(h.authorLabel).author == author && Attribute(h.authorLabel).committer.Some?
      :: Attribute(h.authorLabel).committer.value
  }

  /** The aggregated map, described by what it holds rather than by a fold. */
  ghost function Reference(hunks: seq<Hunk>): BlameMap {
    map a | a in Authors(hunks) :: BlameRecord(LinesOf(hunks, a), CommittersOf(hunks, a))
  }

  lemma LinesOfSnoc(hunks: seq<Hunk>, h: Hunk, author: string)
    ensures LinesOf(hunks + [h], author) ==
      LinesOf(hunks, author) + (if Attribute(h.authorLabel).author == author then set n | n in h.lineNums else {})
  {
    var extra := if Attribute(h.authorLabel).author == author then set n | n in h.lineNums else {};
    forall n ensures n in LinesOf(hunks + [h], author) <==> n in LinesOf(hunks, author) + extra {
      if n in LinesOf(hunks + [h], author) {
        var g :| g in hunks + [h] && Attribute(g.authorLabel).author == author && n in g.lineNums;
        if g != h {
          assert g in hunks;
        }
      }
    }
  }

  lemma CommittersOfSnoc(hunks: seq<Hunk>, h: Hunk, author: string)
    ensures var a := Attribute(h.authorLabel);
      CommittersOf(hunks + [h], author) ==
        CommittersOf(hunks, author) + (if a.author == author && a.committer.Some? then {a.committer.value} else {})
  {
    assert forall g :: g in hunks + [h] <==> g in hunks || g == h;
  }

  lemma AuthorsSnoc(hunks: seq<Hunk>, h: Hunk)
    ensures Authors(hunks + [h]) == Authors(hunks) + {Attribute(h.authorLabel).author}
  {
    forall x | x in Authors(hunks + [h]) ensures x in Authors(hunks) + {Attribute(h.authorLabel).author} {
      var g :| g in hunks + [h] && Attribute(g.authorLabel).author == x;
      if g != h {
        assert g in hunks;
      }
    }
  }

  /**
   * The entry of `AddHunk(blames, h)` for any author, in one expression;
   * the form the proofs about the order-free description use.
   */
  lemma AddHunkAt(blames: BlameMap, h: Hunk, author: string)
    requires author in AddHunk(blames, h)
    ensures var a := Attribute(h.authorLabel);
      AddHunk(blames, h)[author] ==
        if author != a.author then blames[author]
        else BlameRecord(
          RecordOf(blames, author).lineNums + (set n | n in h.lineNums),
          RecordOf(blames, author).committers + (if a.committer.Some? then {a.committer.value} else {}))
  {
  }

  /** The defaulted entry of the description, for authors named or not. */
  lemma ReferenceRecord(hunks: seq<Hunk>, author: string)
    ensures RecordOf(Reference(hunks), author) == BlameRecord(LinesOf(hunks, author), CommittersOf(hunks, author))
  {
  }

  /** The entry of one author after one more hunk. */
  lemma AddHunkReferenceAt(hunks: seq<Hunk>, h: Hunk, author: string)
    requires author in Reference(hunks + [h]) && author in AddHunk(Reference(hunks), h)
    ensures AddHunk(Reference(hunks), h)[author] == Reference(hunks + [h])[author]
  {
    AddHunkAt(Reference(hunks), h, author);
    ReferenceRecord(hunks, author);
    LinesOfSnoc(hunks, h, author);
    CommittersOfSnoc(hunks, h, author);
  }

  /** One more hunk extends the description exactly as `AddHunk` extends the map. */
  lemma AddHunkReference(hunks: seq<Hunk>, h: Hunk)
    ensures AddHunk(Reference(hunks), h) == Reference(hunks + [h])
  {
    var lhs := AddHunk(Reference(hunks), h);
    var rhs := Reference(hunks + [h]);
    AuthorsSnoc(hunks, h);
    assert lhs.Keys == rhs.Keys;
    forall author | author in rhs
      ensures lhs[author] == rhs[author]
    {
      AddHunkReferenceAt(hunks, h, author);
    }
  }

  /**
   * The fold computes the order-free description: the keys are the authors
   * named by the hunks, each author's line numbers are the union of their
   * hunks' line numbers, and their committers are the committers of their
   * duet hunks.
   */
  lemma {:induction false} AggregateIsReference(hunks: seq<Hunk>)
    ensures Aggregate(hunks) == Reference(hunks)
  {
    if |hunks| == 0 {
      assert Authors(hunks) == {};
    } else {
      var init := hunks[..|hunks| - 1];
      var h := hunks[|hunks| - 1];
      assert hunks == init + [h];
      AggregateIsReference(init);
      AddHunkReference(init, h);
    }
  }

  /** The keys are exactly the authors the hunks name. */
  lemma AggregateKeys(hunks: seq<Hunk>)
    ensures forall a :: a in Aggregate(hunks) <==> exists h :: h in hunks && Attribute(h.authorLabel).author == a
  {
    AggregateIsReference(hunks);
  }

  /** An author's line numbers are the union of the line numbers of that author's hunks. */
  lemma AggregateLines(hunks: seq<Hunk>, author: string, n: int)
    requires author in Aggregate(hunks)
    ensures n in Aggregate(hunks)[author].lineNums <==>
      exists h :: h in hunks && Attribute(h.authorLabel).author == author && n in h.lineNums
  {
    AggregateIsReference(hunks);
  }

  /** An author's committers are those named by that author's duet hunks. */
  lemma AggregateCommitters(hunks: seq<Hunk>, author: string, c: string)
    requires author in Aggregate(hunks)
    ensures c in Aggregate(hunks)[author].committers <==>
      exists h :: h in hunks && Attribute(h.authorLabel).author == author
        && Attribute(h.authorLabel).committer == Some(c)
  {
    AggregateIsReference(hunks);
  }

  /** The order-free description reads only which hunks occur. */
  lemma ReferenceDependsOnlyOnHunkSet(hunks1: seq<Hunk>, hunks2: seq<Hunk>)
    requires forall h :: h in hunks1 <==> h in hunks2
    ensures Reference(hunks1) == Reference(hunks2)
  {
    assert Authors(hunks1) == Authors(hunks2);
    forall a ensures LinesOf(hunks1, a) == LinesOf(hunks2, a) && CommittersOf(hunks1, a) == CommittersOf(hunks2, a) {
    }
  }

  /** The result depends only on which hunks occur: not on their order, nor on repeats. */
  lemma AggregateDependsOnlyOnHunkSet(hunks1: seq<Hunk>, hunks2: seq<Hunk>)
    requires forall h :: h in hunks1 <==> h in hunks2
    ensures Aggregate(hunks1) == Aggregate(hunks2)
  {
    AggregateIsReference(hunks1);
    AggregateIsReference(hunks2);
    ReferenceDependsOnlyOnHunkSet(hunks1, hunks2);
  }

  /** Reordering the hunks gives the same map. */
  lemma AggregatePermutation(hunks1: seq<Hunk>, hunks2: seq<Hunk>)
    requires multiset(hunks1) == multiset(hunks2)
    ensures Aggregate(hunks1) == Aggregate(hunks2)
  {
    forall h ensures h in hunks1 <==> h in hunks2 {
      assert h in hunks1 <==> h in multiset(hunks1);
      assert h in hunks2 <==> h in multiset(hunks2);
    }
    AggregateDependsOnlyOnHunkSet(hunks1, hunks2);
  }

  /** Processing a hunk a second time changes nothing. */
  lemma AggregateRepeatedHunk(hunks: seq<Hunk>, h: Hunk)
    requires h in hunks
    ensures Aggregate(hunks + [h]) == Aggregate(hunks)
  {
    AggregateDependsOnlyOnHunkSet(hunks + [h], hunks);
  }

  /** A solo hunk adds its author and lines but never touches any committer set. */
  lemma SoloHunkKeepsCommitters(blames: BlameMap, h: Hunk)
    requires !Contains(h.authorLabel, DuetSeparator)
    ensures AddHunk(blames, h).Keys == blames.Keys + {h.authorLabel}
    ensures forall a :: a in AddHunk(blames, h) ==> AddHunk(blames, h)[a].committers == RecordOf(blames, a).committers
  {
  }

  // ---------------------------------------------------------------------
  // The File entity
  // ---------------------------------------------------------------------

  function BlameUrl(owner: string, repo: string, path: string): string {
    "https://github.com/" + owner + "/" + repo + "/blame/master/" + path
  }

  /** What `scrape_blames` produces for one file: the fetch's error, or the aggregated map. */
  function BlamesOf(owner: string, repo: string, path: string, web: Web): (r: Result<BlameMap>)
    ensures r.Ok? <==> GetParseTree(BlameUrl(owner, repo, path), web).Ok?
    ensures r.Err? ==> r.error == GetParseTree(BlameUrl(owner, repo, path), web).error
    ensures r.Ok? ==> r.value == Aggregate(web[BlameUrl(owner, repo, path)].blameHunks)
  {
    var tree :- GetParseTree(BlameUrl(owner, repo, path), web);
    Ok(Aggregate(tree.blameHunks))
  }

  class File {
    const path: string
    const fileType: Option<string>
    const owner: string
    const repo: string
    var blames: BlameMap

    /** `File(path, type, owner, repo)` without scraping: no blames yet. */
    constructor (path: string, fileType: Option<string>, owner: string, repo: string)
      ensures this.path == path && this.fileType == fileType && this.owner == owner && this.repo == repo
      ensures blames == map[]
    {
      this.path, this.fileType := path, fileType;
      this.owner, this.repo := owner, repo;
      blames := map[];
    }

    /**
     * `File(path, type, owner, repo, scrape_everything)`: with the flag set,
     * construction scrapes the blames and fails if that scrape raises.
     */
    static method Create(path: string, fileType: Option<string>, owner: string, repo: string,
                         scrapeEverything: bool, web: Web) returns (r: Result<File>)
      ensures r.Err? <==> scrapeEverything && BlamesOf(owner, repo, path, web).Err?
      ensures r.Err? ==> r.error == BlamesOf(owner, repo, path, web).error
      ensures r.Ok? ==> fresh(r.value)
      ensures r.Ok? ==> (r.value.path == path && r.value.fileType == fileType
        && r.value.owner == owner && r.value.repo == repo)
      ensures r.Ok? ==> (r.value.blames ==
        if scrapeEverything then BlamesOf(owner, repo, path, web).value else map[])
    {
      var file := new File(path, fileType, owner, repo);
      if scrapeEverything {
        var scraped := file.ScrapeBlames(web);
        if scraped.Err? {
          return Err(scraped.error);
        }
      }
      r := Ok(file);
    }

    /**
     * `scrape_blames()`: fetch the blame page and fold its hunks into the
     * author map. A failed fetch raises and leaves `blames` as it was.
     */
    method ScrapeBlames(web: Web) returns (r: Result<BlameMap>)
      modifies this`blames
      ensures r == BlamesOf(owner, repo, path, web)
      ensures blames == if r.Ok? then r.value else old(blames)
    {
      var tree :- GetParseTree(BlameUrl(owner, repo, path), web);
      var authorToLineNums: BlameMap := map[];
      var i := 0;
      while i < |tree.blameHunks|
        invariant 0 <= i <= |tree.blameHunks|
        invariant authorToLineNums == Aggregate(tree.blameHunks[..i])
      {
        var section := tree.blameHunks[i];
        ghost var before := authorToLineNums;
        AddHunkSteps(before, section);
        var lineNums := set n | n in section.lineNums;
        var splitAuthorLabel := Split(section.authorLabel, DuetSeparator);
        if |splitAuthorLabel| > 1 {
          var author := splitAuthorLabel[0];
          var committer := Split(splitAuthorLabel[1], CommitterQualifier)[0];
          var entry := RecordOf(authorToLineNums, author);
          entry := entry.(committers := entry.committers + {committer});
          entry := entry.(lineNums := entry.lineNums + lineNums);
          authorToLineNums := authorToLineNums[author := entry];
          assert authorToLineNums == AddHunk(before, section);
        } else {
          var entry := RecordOf(authorToLineNums, section.authorLabel);
          authorToLineNums := authorToLineNums[section.authorLabel := entry.(lineNums := entry.lineNums + lineNums)];
          assert authorToLineNums == AddHunk(before, section);
        }
        assert tree.blameHunks[..i + 1][..i] == tree.blameHunks[..i];
        i := i + 1;
      }
      assert tree.blameHunks[..i] == tree.blameHunks;
      blames := authorToLineNums;
      r := Ok(authorToLineNums);
    }
  }
}
