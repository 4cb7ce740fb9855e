/** Character-level string operations of the converter: `str.strip()`,
    deleting the characters a regular-expression class rejects, the slug
    sanitiser and the `?p=` permalink rewrite. */
module Strings {

  /** Python's `str.isspace`: the characters `str.strip()` removes. */
  predicate IsSpace(c: char) {
    || c == ' '
    || '\t' <= c <= '\r'
    || '\U{1C}' <= c <= '\U{1F}'
    || c == '\U{85}' || c == '\U{A0}' || c == '\U{1680}'
    || '\U{2000}' <= c <= '\U{200A}'
    || c == '\U{2028}' || c == '\U{2029}' || c == '\U{202F}' || c == '\U{205F}' || c == '\U{3000}'
  }

  predicate IsAsciiAlnum(c: char) {
    'a' <= c <= 'z' || 'A' <= c <= 'Z' || '0' <= c <= '9'
  }

  /** The class `[a-zA-Z0-9_-]` kept in item identifiers. */
  predicate IsSlugChar(c: char) {
    IsAsciiAlnum(c) || c == '_' || c == '-'
  }

  /** The class `[A-Za-z0-9_.-]` kept in the blog directory name. */
  predicate IsNameChar(c: char) {
    IsAsciiAlnum(c) || c == '_' || c == '.' || c == '-'
  }

  predicate StartsWith(s: string, p: string) {
    |p| <= |s| && s[..|p|] == p
  }

  predicate EndsWith(s: string, q: string) {
    |q| <= |s| && s[|s| - |q|..] == q
  }

  lemma EndsWithAppend(p: string, q: string)
    ensures EndsWith(p + q, q)
  {
    assert (p + q)[|p|..] == q;
  }

  // ---------------------------------------------------------------- strip

  /** The first index at or after `i` that holds no white space. */
  function SkipSpaces(s: string, i: nat): (k: nat)
    requires i <= |s|
    ensures i <= k <= |s|
    ensures forall m :: i <= m < k ==> IsSpace(s[m])
    ensures k < |s| ==> !IsSpace(s[k])
    decreases |s| - i
  {
    if i < |s| && IsSpace(s[i]) then SkipSpaces(s, i + 1) else i
  }

  /** The end of `s[lo..j]` once its trailing white space is dropped. */
  function SkipSpacesBack(s: string, lo: nat, j: nat): (k: nat)
    requires lo <= j <= |s|
    ensures lo <= k <= j
    ensures forall m :: k <= m < j ==> IsSpace(s[m])
    ensures k > lo ==> !IsSpace(s[k - 1])
    decreases j
  {
    if j > lo && IsSpace(s[j - 1]) then SkipSpacesBack(s, lo, j - 1) else j
  }

  /** The slice `str.strip()` keeps: everything before it and after it is
      white space, and it starts and ends with a non-space character unless
      the whole string is white space. */
  function StripBounds(s: string): (b: (nat, nat))
    ensures b.0 <= b.1 <= |s|
    ensures forall m :: 0 <= m < b.0 ==> IsSpace(s[m])
    ensures forall m :: b.1 <= m < |s| ==> IsSpace(s[m])
    ensures b.0 < b.1 ==> !IsSpace(s[b.0]) && !IsSpace(s[b.1 - 1])
    ensures b.0 == b.1 ==> forall m :: 0 <= m < |s| ==> IsSpace(s[m])
  {
    var i := SkipSpaces(s, 0);
    var j := SkipSpacesBack(s, i, |s|);
    (i, j)
  }

  /** `s.strip()`. */
  function Strip(s: string): (r: string)
    ensures |r| <= |s|
    ensures |r| > 0 ==> !IsSpace(r[0]) && !IsSpace(r[|r| - 1])
    ensures |r| == 0 <==> forall m :: 0 <= m < |s| ==> IsSpace(s[m])
    ensures exists i: nat, j: nat :: i <= j <= |s| && r == s[i..j]
              && (forall m :: 0 <= m < i ==> IsSpace(s[m])) && (forall m :: j <= m < |s| ==> IsSpace(s[m]))
  {
    var b := StripBounds(s);
    s[b.0..b.1]
  }

  /** A string with no white space at either end is left alone. */
  lemma StripKeepsTrimmed(s: string)
    requires |s| > 0 ==> !IsSpace(s[0]) && !IsSpace(s[|s| - 1])
    ensures Strip(s) == s
  {
    var b := StripBounds(s);
    if |s| > 0 {
      assert b.0 == 0;
      assert b.1 == |s|;
    }
  }

  /** Stripping twice is stripping once. */
  lemma StripIdempotent(s: string)
    ensures Strip(Strip(s)) == Strip(s)
  {
    StripKeepsTrimmed(Strip(s));
  }

  // ---------------------------------------------------------------- filter

  /** `re.sub('[^...]', '', s)` for the class `keep`: the characters `keep`
      accepts, in their order. */
  function Filter(s: string, keep: char -> bool): (r: string)
    ensures |r| <= |s|
    ensures forall k :: 0 <= k < |r| ==> keep(r[k])
    decreases |s|
  {
    if |s| == 0 then []
    else
      assert s == [s[0]] + s[1..];
      (if keep(s[0]) then [s[0]] else []) + Filter(s[1..], keep)
  }

  /** Every accepted character is kept as often as it occurs; the others
      are gone. */
  lemma {:induction false} FilterCounts(s: string, keep: char -> bool)
    ensures forall c :: multiset(Filter(s, keep))[c] == if keep(c) then multiset(s)[c] else 0
    decreases |s|
  {
    if |s| > 0 {
      FilterCounts(s[1..], keep);
      assert s == [s[0]] + s[1..];
    }
  }

  /** Filtering works piece by piece. */
  lemma {:induction false} FilterAppend(a: string, b: string, keep: char -> bool)
    ensures Filter(a + b, keep) == Filter(a, keep) + Filter(b, keep)
    decreases |a|
  {
    if |a| > 0 {
      FilterAppend(a[1..], b, keep);
      assert (a + b)[1..] == a[1..] + b;
    } else {
      assert a + b == b;
    }
  }

  /** A string already inside the class is left alone. */
  lemma {:induction false} FilterKeepsAllowed(s: string, keep: char -> bool)
    requires forall k :: 0 <= k < |s| ==> keep(s[k])
    ensures Filter(s, keep) == s
    decreases |s|
  {
    if |s| > 0 {
      FilterKeepsAllowed(s[1..], keep);
    }
  }

  // ---------------------------------------------------------------- slugs

  /** `s.replace(' ', '_')`. */
  function SpacesToUnderscores(s: string): (r: string)
    ensures |r| == |s|
  {
    seq(|s|, k requires 0 <= k < |s| => if s[k] == ' ' then '_' else s[k])
  }

  /** The identifier text made from a slug or title: spaces become `_`, then
      everything outside `[a-zA-Z0-9_-]` is dropped. */
  function SanitizeTitle(s: string): string {
    Filter(SpacesToUnderscores(s), IsSlugChar)
  }

  /** A sanitised text holds identifier characters only. */
  lemma SanitizeGivesSlug(s: string)
    ensures forall k :: 0 <= k < |SanitizeTitle(s)| ==> IsSlugChar(SanitizeTitle(s)[k])
  {
  }

  /** Sanitising turns every space into `_` and keeps every other identifier
      character as often as it occurs; the rest are gone. */
  lemma SanitizeCounts(s: string)
    ensures multiset(SanitizeTitle(s))['_'] == multiset(s)['_'] + multiset(s)[' ']
    ensures forall c :: c != '_' ==> multiset(SanitizeTitle(s))[c] == if IsSlugChar(c) then multiset(s)[c] else 0
  {
    SpaceCounts(s);
    FilterCounts(SpacesToUnderscores(s), IsSlugChar);
  }

  /** How the space-to-underscore step moves character counts. */
  lemma {:induction false} SpaceCounts(s: string)
    ensures multiset(SpacesToUnderscores(s))['_'] == multiset(s)['_'] + multiset(s)[' ']
    ensures multiset(SpacesToUnderscores(s))[' '] == 0
    ensures forall c :: c != '_' && c != ' ' ==> multiset(SpacesToUnderscores(s))[c] == multiset(s)[c]
    decreases |s|
  {
    if |s| > 0 {
      var u := SpacesToUnderscores(s);
      SpaceCounts(s[1..]);
      assert u == [u[0]] + SpacesToUnderscores(s[1..]);
      assert s == [s[0]] + s[1..];
    }
  }

  /** A string made only of identifier characters is its own sanitised form. */
  lemma SanitizeKeepsSlugs(s: string)
    requires forall k :: 0 <= k < |s| ==> IsSlugChar(s[k])
    ensures SanitizeTitle(s) == s
  {
    assert SpacesToUnderscores(s) == s;
    FilterKeepsAllowed(s, IsSlugChar);
  }

  /** Sanitising works character by character, so it keeps the order of the
      text: sanitising a concatenation concatenates the sanitised parts. */
  lemma SanitizeAppend(a: string, b: string)
    ensures SanitizeTitle(a + b) == SanitizeTitle(a) + SanitizeTitle(b)
  {
    assert SpacesToUnderscores(a + b) == SpacesToUnderscores(a) + SpacesToUnderscores(b);
    FilterAppend(SpacesToUnderscores(a), SpacesToUnderscores(b), IsSlugChar);
  }

  /** Sanitising is idempotent. */
  lemma SanitizeIdempotent(s: string)
    ensures SanitizeTitle(SanitizeTitle(s)) == SanitizeTitle(s)
  {
    SanitizeGivesSlug(s);
    SanitizeKeepsSlugs(SanitizeTitle(s));
  }

  // ---------------------------------------------------------------- permalink

  const QueryMark: string := "?p="
  const ArchivesDir: string := "archives/"

  /** `re.sub(r'\?p=', 'archives/', s)`: every non-overlapping `?p=`, scanned
      from the left, becomes `archives/`. */
  function RewriteQuery(s: string): (r: string)
    ensures |r| >= |s|
    decreases |s|
  {
    if |s| < 3 then s
    else if s[..3] == QueryMark then ArchivesDir + RewriteQuery(s[3..])
    else [s[0]] + RewriteQuery(s[1..])
  }

  /** `t` occurs in `s` starting at `i`. */
  predicate OccursAt(s: string, t: string, i: nat) {
    i + |t| <= |s| && s[i..i + |t|] == t
  }

  predicate Contains(s: string, t: string) {
    exists i: nat :: i <= |s| && OccursAt(s, t, i)
  }

  /** The rewrite begins with the input's first character, or with the `a`
      of `archives/`. */
  lemma RewriteQueryHead(s: string)
    requires |s| > 0
    ensures |RewriteQuery(s)| > 0
    ensures RewriteQuery(s)[0] == s[0] || RewriteQuery(s)[0] == 'a'
  {
  }

  /** No `?p=` spans into or out of a leading `archives/`. */
  lemma ArchivesPrefixNoMark(rest: string)
    requires !Contains(rest, QueryMark)
    ensures !Contains(ArchivesDir + rest, QueryMark)
  {
    var r := ArchivesDir + rest;
    forall i: nat | i <= |r| ensures !OccursAt(r, QueryMark, i) {
      if i < |ArchivesDir| {
        if i + 3 <= |r| {
          assert r[i..i + 3][0] == ArchivesDir[i] != '?';
        }
      } else if i + 3 <= |r| {
        assert rest[i - 9..i - 9 + 3] == r[i..i + 3];
        assert !OccursAt(rest, QueryMark, i - 9);
      }
    }
  }

  /** A character copied in front of a rewritten tail starts no `?p=`, since
      the input did not start with one there. */
  lemma CopiedHeadNoMark(s: string)
    requires |s| >= 3 && s[..3] != QueryMark
    requires !Contains(RewriteQuery(s[1..]), QueryMark)
    ensures !Contains([s[0]] + RewriteQuery(s[1..]), QueryMark)
  {
    var rest := RewriteQuery(s[1..]);
    var r := [s[0]] + rest;
    forall i: nat | i <= |r| ensures !OccursAt(r, QueryMark, i) {
      if i == 0 {
        CopiedHeadStart(s);
      } else if i + 3 <= |r| {
        assert rest[i - 1..i - 1 + 3] == r[i..i + 3];
        assert !OccursAt(rest, QueryMark, i - 1);
      }
    }
  }

  /** The copied character and the start of the rewritten tail are not `?p=`:
      the tail starts with `s[1]` (or `a`), and its second character is
      `s[2]` (or `a`) whenever it starts with `s[1] == 'p'`. */
  lemma CopiedHeadStart(s: string)
    requires |s| >= 3 && s[..3] != QueryMark
    ensures !OccursAt([s[0]] + RewriteQuery(s[1..]), QueryMark, 0)
  {
    var rest := RewriteQuery(s[1..]);
    if |s| == 3 {
      assert rest == s[1..];
    } else {
      RewriteQueryHead(s[1..]);
      if s[1] == 'p' {
        assert s[1..][..3] != QueryMark;
        assert rest == [s[1]] + RewriteQuery(s[2..]);
        RewriteQueryHead(s[2..]);
      }
    }
  }

  /** No `?p=` survives the rewrite. */
  lemma {:induction false} RewriteQueryRemovesAll(s: string)
    ensures !Contains(RewriteQuery(s), QueryMark)
    decreases |s|
  {
    if |s| < 3 {
      assert forall i: nat :: !OccursAt(s, QueryMark, i);
    } else if s[..3] == QueryMark {
      RewriteQueryRemovesAll(s[3..]);
      ArchivesPrefixNoMark(RewriteQuery(s[3..]));
    } else {
      RewriteQueryRemovesAll(s[1..]);
      CopiedHeadNoMark(s);
    }
  }

  /** A text without `?p=` has none after its first character either. */
  lemma NoMarkTail(s: string)
    requires |s| > 0 && !Contains(s, QueryMark)
    ensures !Contains(s[1..], QueryMark)
  {
    forall i: nat ensures !OccursAt(s[1..], QueryMark, i) {
      if i + 3 <= |s| - 1 {
        assert s[i + 1..i + 1 + 3] == s[1..][i..i + 3];
        assert !OccursAt(s, QueryMark, i + 1);
      }
    }
  }

  /** A link without `?p=` is not changed by the rewrite. */
  lemma {:induction false} RewriteQueryKeepsPlain(s: string)
    requires !Contains(s, QueryMark)
    ensures RewriteQuery(s) == s
    decreases |s|
  {
    if |s| >= 3 {
      assert !OccursAt(s, QueryMark, 0);
      NoMarkTail(s);
      RewriteQueryKeepsPlain(s[1..]);
    }
  }

  /** The first `?p=` of a link becomes `archives/`, the text before it is
      kept, and the rewrite goes on after it. */
  lemma {:induction false} RewriteQueryReplaces(a: string, b: string)
    requires !Contains(a, QueryMark)
    ensures RewriteQuery(a + QueryMark + b) == a + ArchivesDir + RewriteQuery(b)
    decreases |a|
  {
    if |a| == 0 {
      var s := a + QueryMark + b;
      assert s[..3] == QueryMark && s[3..] == b;
    } else {
      CopiesFirst(a, b);
      NoMarkTail(a);
      RewriteQueryReplaces(a[1..], b);
      assert a == [a[0]] + a[1..];
    }
  }

  /** A link whose `?p=`-free head `a` is not empty starts with a copied
      character. */
  lemma CopiesFirst(a: string, b: string)
    requires |a| > 0 && !Contains(a, QueryMark)
    ensures RewriteQuery(a + QueryMark + b) == [a[0]] + RewriteQuery(a[1..] + QueryMark + b)
  {
    var s := a + QueryMark + b;
    assert s[..3] != QueryMark by {
      if |a| >= 3 {
        assert s[..3] == a[..3];
        assert !OccursAt(a, QueryMark, 0);
      } else if |a| == 1 {
        assert s[1] == '?';
      } else {
        assert s[2] == '?';
      }
    }
    assert s[1..] == a[1..] + QueryMark + b;
  }
}
