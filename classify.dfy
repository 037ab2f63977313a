/**
 * File classification and the file-path filter
 * (git_pull/utilities.py: identify_file_type, fetch_file_paths).
 *
 * The language, vendor and documentation tables are passed in, and
 * `re.search(pattern, path)` is the parameter `search`.
 */
module Classify {
  import opened Wrappers
  import opened PyStr

  /** One entry of the language table: its name and its file extensions. */
  datatype Language = Language(name: string, extensions: seq<string>)

  /** The classification tables, in file order. */
  datatype Tables = Tables(languages: seq<Language>, vendorPatterns: seq<string>, docPatterns: seq<string>)

  /** Whether `re.search(pattern, path)` finds a match. */
  type Search = (string, string) -> bool

  const DocumentationType := "Documentation"

  /** `path.lower().endswith(tuple(extensions))`. */
  predicate HasExtension(lang: Language, path: string) {
    EndsWithAny(Lower(path), lang.extensions)
  }

  /** Some pattern of the list matches somewhere in `path`. */
  predicate AnyMatch(patterns: seq<string>, path: string, search: Search) {
    exists k :: 0 <= k < |patterns| && search(patterns[k], path)
  }

  /** Some language of the table claims `path` by its extension. */
  predicate AnyLanguage(languages: seq<Language>, path: string) {
    exists i :: 0 <= i < |languages| && HasExtension(languages[i], path)
  }

  /** The position of the first language, in table order, that claims `path`. */
  function FirstLanguage(languages: seq<Language>, path: string): (r: Option<nat>)
    ensures r.None? <==> !AnyLanguage(languages, path)
    ensures r.Some? ==> r.value < |languages| && HasExtension(languages[r.value], path)
    ensures r.Some? ==> forall j :: 0 <= j < r.value ==> !HasExtension(languages[j], path)
  {
    if |languages| == 0 then None
    else if HasExtension(languages[0], path) then Some(0)
    else
      var rest := FirstLanguage(languages[1..], path);
      assert forall i :: 1 <= i < |languages| ==> languages[1..][i - 1] == languages[i];
      if rest.None? then None else Some(rest.value + 1)
  }

  /**
   * `identify_file_type(path)`: the first language claiming the path;
   * otherwise "Documentation" when a documentation pattern matches;
   * otherwise "". It reads the language and documentation tables only.
   */
  function IdentifyFileType(path: string, languages: seq<Language>, docPatterns: seq<string>, search: Search): (fileType: string)
    ensures AnyLanguage(languages, path) ==>
      exists i :: 0 <= i < |languages| && HasExtension(languages[i], path) && fileType == languages[i].name
        && forall j :: 0 <= j < i ==> !HasExtension(languages[j], path)
    ensures !AnyLanguage(languages, path) ==>
      (fileType == DocumentationType <==> AnyMatch(docPatterns, path, search)) &&
      (fileType == "" <==> !AnyMatch(docPatterns, path, search))
  {
    match FirstLanguage(languages, path)
    case Some(i) => languages[i].name
    case None => if AnyMatch(docPatterns, path, search) then DocumentationType else ""
  }

  /** The path is first-party code: some language claims it and no vendor pattern matches it. */
  predicate IsFirstPartyCode(path: string, tables: Tables, search: Search) {
    AnyLanguage(tables.languages, path) && !AnyMatch(tables.vendorPatterns, path, search)
  }

  /** `fetch_file_paths` keeps a path that is first-party code or documentation. */
  predicate Kept(path: string, tables: Tables, search: Search) {
    IsFirstPartyCode(path, tables, search) || AnyMatch(tables.docPatterns, path, search)
  }

  /** The kept paths, in input order. */
  function KeptPaths(paths: seq<string>, tables: Tables, search: Search): seq<string> {
    if |paths| == 0 then []
    else
      var last := paths[|paths| - 1];
      KeptPaths(paths[..|paths| - 1], tables, search) + (if Kept(last, tables, search) then [last] else [])
  }

  /**
   * The loop of `fetch_file_paths` over the path texts the listing page
   * rendered: each path is appended when some language claims it and no
   * vendor pattern matches, or else when a documentation pattern matches.
   */
  method FetchFilePaths(paths: seq<string>, tables: Tables, search: Search) returns (filePaths: seq<string>)
    ensures filePaths == KeptPaths(paths, tables, search)
  {
    filePaths := [];
    var n := 0;
    while n < |paths|
      invariant 0 <= n <= |paths|
      invariant filePaths == KeptPaths(paths[..n], tables, search)
    {
      var path := paths[n];
      assert paths[..n + 1][..n] == paths[..n];
      var isCode := false;
      var i := 0;
      while i < |tables.languages|
        invariant 0 <= i <= |tables.languages|
        invariant !isCode && filePaths == KeptPaths(paths[..n], tables, search)
        invariant forall j :: 0 <= j < i && HasExtension(tables.languages[j], path) ==>
          AnyMatch(tables.vendorPatterns, path, search)
      {
        if EndsWithAny(Lower(path), tables.languages[i].extensions) {
          var isVendorCode := false;
          var k := 0;
          while k < |tables.vendorPatterns|
            invariant 0 <= k <= |tables.vendorPatterns|
            invariant forall j :: 0 <= j < k ==> !search(tables.vendorPatterns[j], path)
          {
            if search(tables.vendorPatterns[k], path) {
              isVendorCode := true;
              break;
            }
            k := k + 1;
          }
          if !isVendorCode {
            isCode := true;
            filePaths := filePaths + [path];
            break;
          }
        }
        i := i + 1;
      }
      assert isCode <==> IsFirstPartyCode(path, tables, search);
      if !isCode {
        var k := 0;
        while k < |tables.docPatterns|
          invariant 0 <= k <= |tables.docPatterns|
          invariant forall j :: 0 <= j < k ==> !search(tables.docPatterns[j], path)
        {
          if search(tables.docPatterns[k], path) {
            filePaths := filePaths + [path];
            break;
          }
          k := k + 1;
        }
      }
      n := n + 1;
    }
    assert paths[..n] == paths;
  }

  // ---------------------------------------------------------------------
  // What the filter promises
  // ---------------------------------------------------------------------

  /** `sub` is `s` with some elements left out, the others kept in order. */
  ghost predicate IsSubsequence(sub: seq<string>, s: seq<string>) {
    exists idx: seq<nat> ::
      && |idx| == |sub|
      && (forall k :: 0 <= k < |idx| ==> idx[k] < |s| && sub[k] == s[idx[k]])
      && (forall k, l :: 0 <= k < l < |idx| ==> idx[k] < idx[l])
  }

  /** A subsequence stays one when the sequence grows by one element. */
  lemma SubsequenceGrow(sub: seq<string>, s: seq<string>, x: string)
    requires IsSubsequence(sub, s)
    ensures IsSubsequence(sub, s + [x])
  {
    var idx: seq<nat> :| |idx| == |sub|
      && (forall k :: 0 <= k < |idx| ==> idx[k] < |s| && sub[k] == s[idx[k]])
      && (forall k, l :: 0 <= k < l < |idx| ==> idx[k] < idx[l]);
    assert forall k :: 0 <= k < |idx| ==> (s + [x])[idx[k]] == s[idx[k]];
  }

  /** Both sides growing by the same element keep the subsequence relation. */
  lemma SubsequenceSnoc(sub: seq<string>, s: seq<string>, x: string)
    requires IsSubsequence(sub, s)
    ensures IsSubsequence(sub + [x], s + [x])
  {
    var idx: seq<nat> :| |idx| == |sub|
      && (forall k :: 0 <= k < |idx| ==> idx[k] < |s| && sub[k] == s[idx[k]])
      && (forall k, l :: 0 <= k < l < |idx| ==> idx[k] < idx[l]);
    var idx' := idx + [|s|];
    assert forall k :: 0 <= k < |idx'| ==> idx'[k] < |s + [x]| && (sub + [x])[k] == (s + [x])[idx'[k]];
    assert forall k, l :: 0 <= k < l < |idx'| ==> idx'[k] < idx'[l];
  }

  /** The output is an order-preserving subsequence of the input. */
  lemma {:induction false} KeptPathsSubsequence(paths: seq<string>, tables: Tables, search: Search)
    ensures IsSubsequence(KeptPaths(paths, tables, search), paths)
  {
    if |paths| == 0 {
      var idx: seq<nat> := [];
      assert |idx| == 0;
    } else {
      var init := paths[..|paths| - 1];
      var last := paths[|paths| - 1];
      assert paths == init + [last];
      KeptPathsSubsequence(init, tables, search);
      if Kept(last, tables, search) {
        SubsequenceSnoc(KeptPaths(init, tables, search), init, last);
      } else {
        SubsequenceGrow(KeptPaths(init, tables, search), init, last);
      }
    }
  }

  /**
   * Each path occurs in the output exactly as often as in the input if it
   * is kept, and not at all otherwise: no path is appended twice for one
   * occurrence.
   */
  lemma {:induction false} KeptPathsCount(paths: seq<string>, tables: Tables, search: Search)
    ensures forall p :: (multiset(KeptPaths(paths, tables, search))[p] ==
      if Kept(p, tables, search) then multiset(paths)[p] else 0)
  {
    if |paths| > 0 {
      var init := paths[..|paths| - 1];
      var last := paths[|paths| - 1];
      KeptPathsCount(init, tables, search);
      assert paths == init + [last];
      assert multiset(paths) == multiset(init) + multiset{last};
    }
  }

  /** A path is in the output iff it is in the input and kept. */
  lemma KeptPathsMembership(paths: seq<string>, tables: Tables, search: Search)
    ensures forall p :: p in KeptPaths(paths, tables, search) <==> p in paths && Kept(p, tables, search)
  {
    KeptPathsCount(paths, tables, search);
    forall p ensures p in KeptPaths(paths, tables, search) <==> p in paths && Kept(p, tables, search) {
      assert p in KeptPaths(paths, tables, search) <==> multiset(KeptPaths(paths, tables, search))[p] > 0;
      assert p in paths <==> multiset(paths)[p] > 0;
    }
  }

  /**
   * The filter and `identify_file_type` agree except on vendored code: a kept
   * path gets a non-empty type, and when no vendor pattern matches, a path is
   * kept exactly when its type is non-empty. (Assumes no language is named "".)
   */
  lemma KeptHasFileType(path: string, tables: Tables, search: Search)
    requires forall i :: 0 <= i < |tables.languages| ==> tables.languages[i].name != ""
    ensures Kept(path, tables, search) ==>
      IdentifyFileType(path, tables.languages, tables.docPatterns, search) != ""
    ensures !AnyMatch(tables.vendorPatterns, path, search) ==>
      (Kept(path, tables, search) <==> IdentifyFileType(path, tables.languages, tables.docPatterns, search) != "")
  {
  }

  /**
   * Vendored code is dropped by the filter unless it is documentation, even
   * though `identify_file_type` still names its language.
   */
  lemma VendoredCodeDropped(path: string, tables: Tables, search: Search)
    requires AnyLanguage(tables.languages, path)
    requires AnyMatch(tables.vendorPatterns, path, search)
    requires !AnyMatch(tables.docPatterns, path, search)
    ensures !Kept(path, tables, search)
    ensures IdentifyFileType(path, tables.languages, tables.docPatterns, search)
      == tables.languages[FirstLanguage(tables.languages, path).value].name
  {
  }
}
