/**
 * Models of the Python `str` operations the scraper relies on:
 * `split(sep)`, `replace(c, '')`, `strip()`, `lower()`, `endswith(tuple)`
 * and `int(text)`.
 */
module PyStr {
  import opened Wrappers

  // ---------------------------------------------------------------------
  // Substring search and str.split
  // ---------------------------------------------------------------------

  /** `sep` occurs in `s` starting at index `i`. */
  predicate OccursAt(s: string, sep: string, i: nat) {
    i + |sep| <= |s| && s[i..i + |sep|] == sep
  }

  /** Python's `sep in s`. */
  predicate Contains(s: string, sep: string) {
    exists i: nat | i <= |s| :: OccursAt(s, sep, i)
  }

  lemma OccursAtTail(s: string, sep: string, j: nat)
    requires |s| > 0
    ensures OccursAt(s[1..], sep, j) <==> OccursAt(s, sep, j + 1)
  {
    if j + |sep| <= |s[1..]| {
      assert s[1..][j..j + |sep|] == s[j + 1..j + 1 + |sep|];
    }
  }

  /** The index of the leftmost occurrence of `sep` in `s`, if any. */
  function FirstOccurrence(s: string, sep: string): (r: Option<nat>)
    requires |sep| > 0
    ensures r.Some? ==> OccursAt(s, sep, r.value)
    ensures r.Some? ==> forall j: nat :: j < r.value ==> !OccursAt(s, sep, j)
    ensures r.None? <==> !Contains(s, sep)
    decreases |s|
  {
    if |s| < |sep| then None
    else if s[..|sep|] == sep then Some(0)
    else
      var rest := FirstOccurrence(s[1..], sep);
      assert forall j: nat :: OccursAt(s[1..], sep, j) <==> OccursAt(s, sep, j + 1) by {
        forall j: nat ensures OccursAt(s[1..], sep, j) <==> OccursAt(s, sep, j + 1) {
          OccursAtTail(s, sep, j);
        }
      }
      assert !OccursAt(s, sep, 0);
      if rest.None? then
        assert forall j: nat :: !OccursAt(s, sep, j) by {
          forall j: nat ensures !OccursAt(s, sep, j) {
            if j > 0 { assert !OccursAt(s[1..], sep, j - 1); }
          }
        }
        None
      else
        assert forall j: nat :: j < rest.value + 1 ==> !OccursAt(s, sep, j) by {
          forall j: nat | j < rest.value + 1 ensures !OccursAt(s, sep, j) {
            if j > 0 { assert !OccursAt(s[1..], sep, j - 1); }
          }
        }
        Some(rest.value + 1)
  }

  /** Python's `s.split(sep)` for a non-empty separator. */
  function Split(s: string, sep: string): (parts: seq<string>)
    requires |sep| > 0
    ensures |parts| >= 1
    ensures |parts| > 1 <==> Contains(s, sep)
    decreases |s|
  {
    match FirstOccurrence(s, sep)
    case None => [s]
    case Some(i) => [s[..i]] + Split(s[i + |sep|..], sep)
  }

  /** Python's `sep.join(parts)`. */
  function Join(parts: seq<string>, sep: string): string
  {
    if |parts| == 0 then ""
    else if |parts| == 1 then parts[0]
    else parts[0] + sep + Join(parts[1..], sep)
  }

  /** Splitting loses nothing: joining the pieces back gives the original text. */
  lemma {:induction false} JoinSplit(s: string, sep: string)
    requires |sep| > 0
    ensures Join(Split(s, sep), sep) == s
    decreases |s|
  {
    var occ := FirstOccurrence(s, sep);
    if occ.Some? {
      var i := occ.value;
      var rest := s[i + |sep|..];
      var tail := Split(rest, sep);
      JoinSplit(rest, sep);
      assert Split(s, sep) == [s[..i]] + tail;
      assert Join([s[..i]] + tail, sep) == s[..i] + sep + Join(tail, sep);
      assert s[i..i + |sep|] == sep;
      assert s == s[..i] + s[i..i + |sep|] + rest;
    }
  }

  /** The text before the leftmost occurrence holds no occurrence. */
  lemma NoOccurrenceBefore(s: string, sep: string, i: nat)
    requires |sep| > 0 && i <= |s|
    requires forall j: nat :: j < i ==> !OccursAt(s, sep, j)
    ensures !Contains(s[..i], sep)
  {
    var p := s[..i];
    forall j: nat | j <= |p| ensures !OccursAt(p, sep, j) {
      if OccursAt(p, sep, j) {
        assert p[j..j + |sep|] == s[j..j + |sep|];
        assert OccursAt(s, sep, j);
      }
    }
  }

  /** The first piece is the text before the leftmost `sep`, and holds no `sep`. */
  lemma FirstPiece(s: string, sep: string)
    requires |sep| > 0
    ensures FirstOccurrence(s, sep).None? ==> Split(s, sep)[0] == s
    ensures FirstOccurrence(s, sep).Some? ==>
      var i := FirstOccurrence(s, sep).value;
      Split(s, sep)[0] == s[..i] && s == s[..i] + sep + s[i + |sep|..]
    ensures !Contains(Split(s, sep)[0], sep)
  {
    var occ := FirstOccurrence(s, sep);
    if occ.Some? {
      var i := occ.value;
      assert Split(s, sep)[0] == s[..i];
      assert s[i..i + |sep|] == sep;
      assert s == s[..i] + s[i..i + |sep|] + s[i + |sep|..];
      NoOccurrenceBefore(s, sep, i);
    }
  }

  /** `s.split(sep)[0]`: the text before the first `sep`, or all of `s`. */
  function TextBefore(s: string, sep: string): string
    requires |sep| > 0
  {
    Split(s, sep)[0]
  }

  /** Text that holds no `c` is exactly the first piece of itself followed by `c` and anything. */
  lemma TextBeforeChar(a: string, c: char, b: string)
    requires c !in a
    ensures TextBefore(a + [c] + b, [c]) == a
  {
    var s := a + [c] + b;
    assert OccursAt(s, [c], |a|);
    forall j: nat | j < |a| ensures !OccursAt(s, [c], j) {
      assert s[j..j + 1] == [a[j]];
    }
    FirstPiece(s, [c]);
    assert s[..|a|] == a;
  }

  // ---------------------------------------------------------------------
  // str.replace(c, '') for a one-character c
  // ---------------------------------------------------------------------

  /** Python's `s.replace(c, '')`: every `c` dropped, the rest kept in order. */
  function RemoveChar(s: string, c: char): (r: string)
    ensures |r| <= |s|
    ensures c !in r
    ensures forall d :: d in r <==> d in s && d != c
    ensures forall d :: d != c ==> multiset(r)[d] == multiset(s)[d]
  {
    if |s| == 0 then ""
    else if s[0] == c then
      assert s == [s[0]] + s[1..];
      RemoveChar(s[1..], c)
    else
      assert s == [s[0]] + s[1..];
      [s[0]] + RemoveChar(s[1..], c)
  }

  /** Removal works piecewise, so the characters kept stay in their order. */
  lemma {:induction false} RemoveCharConcat(s: string, t: string, c: char)
    ensures RemoveChar(s + t, c) == RemoveChar(s, c) + RemoveChar(t, c)
  {
    if |s| > 0 {
      assert (s + t)[1..] == s[1..] + t;
      RemoveCharConcat(s[1..], t, c);
    } else {
      assert s + t == t;
    }
  }

  /** Removing a character that is absent changes nothing; in particular removal is idempotent. */
  lemma {:induction false} RemoveAbsentChar(s: string, c: char)
    requires c !in s
    ensures RemoveChar(s, c) == s
  {
    if |s| > 0 {
      assert s == [s[0]] + s[1..];
      RemoveAbsentChar(s[1..], c);
    }
  }

  // ---------------------------------------------------------------------
  // str.strip()
  // ---------------------------------------------------------------------

  /** Python's `str.isspace()` for one character. */
  predicate IsSpace(c: char) {
    || c == ' '
    || '\t' <= c <= '\r'
    || '\U{1C}' <= c <= '\U{1F}'
    || c == '\U{85}' || c == '\U{A0}' || c == '\U{1680}'
    || '\U{2000}' <= c <= '\U{200A}'
    || c == '\U{2028}' || c == '\U{2029}' || c == '\U{202F}'
    || c == '\U{205F}' || c == '\U{3000}'
  }

  function TrimStart(s: string): string
    decreases |s|
  {
    if |s| > 0 && IsSpace(s[0]) then TrimStart(s[1..]) else s
  }

  /** `TrimStart` removes a whitespace prefix, and exactly all of it. */
  lemma {:induction false} TrimStartSpec(s: string)
    ensures var r := TrimStart(s);
      && |r| <= |s| && r == s[|s| - |r|..]
      && (forall k :: 0 <= k < |s| - |r| ==> IsSpace(s[k]))
      && (r == [] || !IsSpace(r[0]))
    decreases |s|
  {
    if |s| > 0 && IsSpace(s[0]) {
      TrimStartSpec(s[1..]);
    }
  }

  function TrimEnd(s: string): string
    decreases |s|
  {
    if |s| > 0 && IsSpace(s[|s| - 1]) then TrimEnd(s[..|s| - 1]) else s
  }

  /** `TrimEnd` removes a whitespace suffix, and exactly all of it. */
  lemma {:induction false} TrimEndSpec(s: string)
    ensures var r := TrimEnd(s);
      && |r| <= |s| && r == s[..|r|]
      && (forall k :: |r| <= k < |s| ==> IsSpace(s[k]))
      && (r == [] || !IsSpace(r[|r| - 1]))
    decreases |s|
  {
    if |s| > 0 && IsSpace(s[|s| - 1]) {
      TrimEndSpec(s[..|s| - 1]);
    }
  }

  /** `r` is the infix of `s` at `i`, and only whitespace lies outside it. */
  predicate StrippedAt(s: string, r: string, i: int) {
    && 0 <= i <= |s| - |r| && r == s[i..i + |r|]
    && (forall k :: 0 <= k < i ==> IsSpace(s[k]))
    && (forall k :: i + |r| <= k < |s| ==> IsSpace(s[k]))
  }

  /**
   * Python's `s.strip()`: the longest infix of `s` that neither starts nor
   * ends with whitespace, obtained by removing only whitespace.
   */
  function Strip(s: string): (r: string)
    ensures |r| <= |s|
  {
    TrimStartSpec(s);
    TrimEndSpec(TrimStart(s));
    TrimEnd(TrimStart(s))
  }

  /** What `strip()` promises: no whitespace left at either end, and only whitespace removed. */
  lemma StripSpec(s: string)
    ensures var r := Strip(s);
      && (r == [] || (!IsSpace(r[0]) && !IsSpace(r[|r| - 1])))
      && (exists i :: StrippedAt(s, r, i))
      && (forall d :: d in r ==> d in s)
  {
    var t := TrimStart(s);
    TrimStartSpec(s);
    TrimEndSpec(t);
    assert StrippedAt(s, Strip(s), |s| - |t|);
  }

  /** Stripping text that already has no outer whitespace changes nothing. */
  lemma StripTrimmed(s: string)
    requires s == [] || (!IsSpace(s[0]) && !IsSpace(s[|s| - 1]))
    ensures Strip(s) == s
  {
  }

  /** `text.replace(' ', '').strip()`: no blank left inside, no whitespace left outside. */
  function CleanLabel(text: string): (cleaned: string)
    ensures ' ' !in cleaned
    ensures cleaned == [] || (!IsSpace(cleaned[0]) && !IsSpace(cleaned[|cleaned| - 1]))
    ensures forall c :: c in cleaned ==> c in text
    ensures exists i :: StrippedAt(RemoveChar(text, ' '), cleaned, i)
  {
    StripSpec(RemoveChar(text, ' '));
    Strip(RemoveChar(text, ' '))
  }

  /** `strip()` is idempotent. */
  lemma StripIdempotent(s: string)
    ensures Strip(Strip(s)) == Strip(s)
  {
    StripSpec(s);
    StripTrimmed(Strip(s));
  }

  // ---------------------------------------------------------------------
  // str.lower() and str.endswith(tuple)
  // ---------------------------------------------------------------------

  function LowerChar(c: char): char {
    if 'A' <= c <= 'Z' then (c as int + 32) as char else c
  }

  /** `s.lower()`, on the ASCII letters. */
  function Lower(s: string): (r: string)
    ensures |r| == |s|
    ensures forall k :: 0 <= k < |s| ==> r[k] == LowerChar(s[k])
    ensures forall c :: c in r ==> !('A' <= c <= 'Z')
  {
    seq(|s|, k requires 0 <= k < |s| => LowerChar(s[k]))
  }

  predicate EndsWith(s: string, suffix: string) {
    |suffix| <= |s| && s[|s| - |suffix|..] == suffix
  }

  /** Python's `s.endswith(tuple(suffixes))`. */
  predicate EndsWithAny(s: string, suffixes: seq<string>) {
    exists k :: 0 <= k < |suffixes| && EndsWith(s, suffixes[k])
  }

  // ---------------------------------------------------------------------
  // int(text) and its inverse str(n)
  // ---------------------------------------------------------------------

  predicate IsDigit(c: char) {
    '0' <= c <= '9'
  }

  /** One or more ASCII decimal digits. */
  predicate IsDecimal(t: string) {
    |t| > 0 && forall k :: 0 <= k < |t| ==> IsDigit(t[k])
  }

  function DigitsValue(ds: string): nat
    requires forall k :: 0 <= k < |ds| ==> IsDigit(ds[k])
  {
    if |ds| == 0 then 0
    else
      assert IsDigit(ds[|ds| - 1]);
      DigitsValue(ds[..|ds| - 1]) * 10 + (ds[|ds| - 1] as int - '0' as int)
  }

  /**
   * Python's `int(text)`: surrounding whitespace is ignored, then an optional
   * sign and at least one decimal digit; anything else is a ValueError (None).
   */
  function ParseInt(text: string): (r: Option<int>)
    ensures Strip(text) == "" ==> r.None?
  {
    var t := Strip(text);
    if |t| > 0 && (t[0] == '-' || t[0] == '+') then
      if IsDecimal(t[1..]) then
        var magnitude: int := DigitsValue(t[1..]);
        Some(if t[0] == '-' then -magnitude else magnitude)
      else None
    else if IsDecimal(t) then
      Some(DigitsValue(t))
    else None
  }

  function DigitChar(d: nat): char
    requires d < 10
  {
    ('0' as int + d) as char
  }

  /** `str(n)` for a natural number. */
  function ShowNat(n: nat): (s: string)
    ensures IsDecimal(s)
  {
    if n < 10 then [DigitChar(n)] else ShowNat(n / 10) + [DigitChar(n % 10)]
  }

  /** `str(n)`. */
  function ShowInt(n: int): string {
    if n < 0 then "-" + ShowNat(-n) else ShowNat(n)
  }

  lemma {:induction false} DigitsValueShowNat(n: nat)
    ensures DigitsValue(ShowNat(n)) == n
  {
    if n >= 10 {
      DigitsValueShowNat(n / 10);
      var s := ShowNat(n);
      assert s[..|s| - 1] == ShowNat(n / 10);
    }
  }

  /** `int(str(n)) == n`: the decimal rendering parses back to the same number. */
  lemma ParseIntShowInt(n: int)
    ensures ParseInt(ShowInt(n)) == Some(n)
  {
    var s := ShowInt(n);
    var digits := ShowNat(if n < 0 then -n else n);
    DigitsValueShowNat(if n < 0 then -n else n);
    assert !IsSpace(s[0]) && !IsSpace(s[|s| - 1]);
    StripTrimmed(s);
    if n < 0 {
      assert s[1..] == digits;
    }
  }
}
