/**
 Link cleanup of the crawler script (crawl.py lines 37-41).

 Every raw `href` value found in a page goes through two regular-expression
 substitutions, an optional `urljoin` against the page's own URL, and a final
 literal `http` prefix test. Strings are `seq<char>`; `urljoin` is a function
 parameter because its behaviour is not part of this model.
 */
module Links {

  /** The resolution function `urljoin(base, link)`, left uninterpreted. */
  type Join = (string, string) -> string

  /** The literal text matched by the pattern `\#.*` before its `.*` tail. */
  const Fragment: string := "#"

  /** The literal text matched by the pattern `javascript(.*)` before its tail. */
  const Script: string := "javascript"

  /** The scheme prefix that line 41 compares against. */
  const Http: string := "http"

  predicate StartsWith(s: string, m: string)
  {
    |m| <= |s| && s[..|m|] == m
  }

  /** `m` occurs somewhere inside `s`. */
  predicate Contains(s: string, m: string)
  {
    exists i :: 0 <= i <= |s| && StartsWith(s[i..], m)
  }

  /** A pattern literal that `re.sub` can match without crossing a line end. */
  predicate Marker(m: string)
  {
    |m| > 0 && '\n' !in m
  }

  /** Index of the first line feed of `s`, or `|s|` when there is none:
      where a `.*` that starts at the head of `s` stops. */
  function LineEnd(s: string): (k: nat)
    ensures k <= |s|
    ensures forall j :: 0 <= j < k ==> s[j] != '\n'
    ensures k < |s| ==> s[k] == '\n'
    ensures '\n' !in s ==> k == |s|
  {
    if |s| == 0 || s[0] == '\n' then 0 else 1 + LineEnd(s[1..])
  }

  /** A line of text that starts with a marker runs at least past the marker. */
  lemma MarkerWithinLine(s: string, m: string)
    requires Marker(m) && StartsWith(s, m)
    ensures LineEnd(s) >= |m|
  {
    assert forall j :: 0 <= j < |m| ==> s[j] == m[j] && s[j] != '\n';
  }

  /** `re.sub(m + ".*", "", s)` with Python's semantics: scanning left to right,
      each occurrence of `m` is deleted together with the rest of its line (the
      line feed itself is kept), and the scan resumes after the deletion. */
  function Cut(s: string, m: string): (r: string)
    requires Marker(m)
    ensures |r| <= |s|
    decreases |s|
  {
    if |s| == 0 then []
    else if StartsWith(s, m) then
      MarkerWithinLine(s, m);
      Cut(s[LineEnd(s)..], m)
    else [s[0]] + Cut(s[1..], m)
  }

  /** Index of the first occurrence of `m` in `s`, or `|s|` when there is none. */
  function FirstMatch(s: string, m: string): (k: nat)
    requires Marker(m)
    ensures k <= |s|
    ensures forall j :: 0 <= j < k ==> !StartsWith(s[j..], m)
    ensures k < |s| ==> StartsWith(s[k..], m)
  {
    if |s| == 0 || StartsWith(s, m) then 0 else
      assert forall j :: 1 <= j <= |s| ==> s[j..] == s[1..][j - 1..];
      1 + FirstMatch(s[1..], m)
  }

  /** Line 37: drop the fragment. No `#` is left, and on a single line the
      result is the text before the first `#`. */
  function StripFragment(s: string): (r: string)
    ensures |r| <= |s|
    ensures '#' !in r
    ensures '\n' !in s ==> r == s[..FirstMatch(s, Fragment)]
  {
    NoHashAfterStrip(s);
    assert '\n' !in s ==> Cut(s, Fragment) == s[..FirstMatch(s, Fragment)] by {
      if '\n' !in s { CutSingleLine(s, Fragment); }
    }
    Cut(s, Fragment)
  }

  /** Line 38: drop a `javascript` pseudo-link and everything after it. On a
      single line the result is the text before the first `javascript`. */
  function StripScript(s: string): (r: string)
    ensures |r| <= |s|
    ensures '\n' !in s ==> r == s[..FirstMatch(s, Script)]
  {
    assert '\n' !in s ==> Cut(s, Script) == s[..FirstMatch(s, Script)] by {
      if '\n' !in s { CutSingleLine(s, Script); }
    }
    Cut(s, Script)
  }

  /** Lines 37-38 in order: the cleaned form of one raw `href`. It is never
      longer than the `href`, and for an `href` without a line feed it is a
      prefix of it. */
  function Clean(raw: string): (r: string)
    ensures |r| <= |raw|
    ensures '\n' !in raw ==> r == raw[..|r|]
  {
    var f := StripFragment(raw);
    assert '\n' !in raw ==> '\n' !in f by {
      if '\n' !in raw { assert forall i :: 0 <= i < |f| ==> f[i] == raw[i]; }
    }
    StripScript(f)
  }

  /** Python 2 `str.lower()`: only the ASCII capitals change. */
  function Lower(s: string): (r: string)
    ensures |r| == |s|
    ensures forall i :: 0 <= i < |s| ==> r[i] == (if 'A' <= s[i] <= 'Z' then s[i] - 'A' + 'a' else s[i])
  {
    if |s| == 0 then [] else
      var c := s[0];
      [if 'A' <= c <= 'Z' then c - 'A' + 'a' else c] + Lower(s[1..])
  }

  /** The slice `s[0:4]`: the first four characters, or all of `s` when it
      is shorter. */
  function Head4(s: string): (r: string)
    ensures |r| <= 4 && |r| <= |s| && r == s[..|r|]
    ensures |r| < 4 ==> r == s
  {
    if |s| <= 4 then s else s[..4]
  }

  /** Line 39: the case-insensitive test that decides whether `urljoin` runs.
      It holds exactly when the first four characters are `h`, `t`, `t`, `p`,
      each in either case. */
  predicate LooksAbsolute(s: string): (b: bool)
    ensures b <==> && |s| >= 4
                   && (s[0] == 'h' || s[0] == 'H') && (s[1] == 't' || s[1] == 'T')
                   && (s[2] == 't' || s[2] == 'T') && (s[3] == 'p' || s[3] == 'P')
  {
    var h := Lower(Head4(s));
    assert |h| == 4 ==> (h == Http <==> h[0] == 'h' && h[1] == 't' && h[2] == 't' && h[3] == 'p');
    h == Http
  }

  /** Line 41, third conjunct: the case-sensitive scheme test. It holds exactly
      when the first four characters are `h`, `t`, `t`, `p`. */
  predicate HttpPrefixed(s: string): (b: bool)
    ensures b <==> |s| >= 4 && s[0] == 'h' && s[1] == 't' && s[2] == 't' && s[3] == 'p'
  {
    var h := Head4(s);
    assert |h| == 4 ==> (h == Http <==> h[0] == 'h' && h[1] == 't' && h[2] == 't' && h[3] == 'p');
    h == Http
  }

  /** Lines 37-40: the candidate URL that one raw `href` of page `base` yields.
      Only a link whose scheme does not read `http` in any case is handed to
      `urljoin`; a literal `http` link comes back as cleaned, and a link whose
      scheme reads `http` only up to case comes back failing line 41. */
  function Resolve(join: Join, base: string, raw: string): (r: string)
    ensures HttpPrefixed(Clean(raw)) ==> r == Clean(raw)
    ensures LooksAbsolute(Clean(raw)) && !HttpPrefixed(Clean(raw)) ==> !HttpPrefixed(r)
    ensures !LooksAbsolute(Clean(raw)) ==> r == join(base, Clean(raw))
  {
    var link := Clean(raw);
    if !LooksAbsolute(link) then join(base, link) else link
  }

  /** Candidates for every raw `href` of a page, in page order. */
  function ResolveAll(join: Join, base: string, hrefs: seq<string>): (r: seq<string>)
    ensures |r| == |hrefs|
    ensures forall i :: 0 <= i < |hrefs| ==> r[i] == Resolve(join, base, hrefs[i])
  {
    seq(|hrefs|, i requires 0 <= i < |hrefs| => Resolve(join, base, hrefs[i]))
  }

  /** Both directions: `y` is a candidate of the page exactly when some
      `href` of the page resolves to it. */
  lemma CandidateMembership(join: Join, base: string, hrefs: seq<string>, y: string)
    ensures y in ResolveAll(join, base, hrefs)
        <==> exists i :: 0 <= i < |hrefs| && Resolve(join, base, hrefs[i]) == y
  {
    var links := ResolveAll(join, base, hrefs);
    if y in links {
      var i :| 0 <= i < |links| && links[i] == y;
      assert Resolve(join, base, hrefs[i]) == y;
    }
  }

  // ---------------------------------------------------------------------------
  // Properties of the substitutions

  /** Cutting never invents characters. */
  lemma {:induction false} CutKeepsCharacters(s: string, m: string, c: char)
    requires Marker(m)
    ensures c in Cut(s, m) ==> c in s
    decreases |s|
  {
    if |s| == 0 {
    } else if StartsWith(s, m) {
      MarkerWithinLine(s, m);
      CutKeepsCharacters(s[LineEnd(s)..], m, c);
      if c in Cut(s, m) {
        assert c in s[LineEnd(s)..];
      }
    } else {
      CutKeepsCharacters(s[1..], m, c);
      if c in Cut(s, m) && c != s[0] {
        assert c in s[1..];
      }
    }
  }

  /** On a single line, cutting at `m` keeps exactly the text before the first
      occurrence of `m`. */
  lemma {:induction false} CutSingleLine(s: string, m: string)
    requires Marker(m) && '\n' !in s
    ensures Cut(s, m) == s[..FirstMatch(s, m)]
    decreases |s|
  {
    if |s| == 0 {
    } else if StartsWith(s, m) {
      assert s[LineEnd(s)..] == [];
    } else {
      assert s == [s[0]] + s[1..];
      CutSingleLine(s[1..], m);
      assert FirstMatch(s, m) == 1 + FirstMatch(s[1..], m);
      assert s[..FirstMatch(s, m)] == [s[0]] + s[1..][..FirstMatch(s[1..], m)];
    }
  }

  /** Text in which the marker's first character never appears is left alone. */
  lemma {:induction false} CutUntouched(s: string, m: string)
    requires Marker(m) && m[0] !in s
    ensures Cut(s, m) == s
    decreases |s|
  {
    if |s| > 0 {
      assert !StartsWith(s, m) by { if |m| <= |s| { assert s[..|m|][0] == s[0]; } }
      assert s == [s[0]] + s[1..];
      CutUntouched(s[1..], m);
    }
  }

  /** The text before the first occurrence of `m` does not contain `m`. */
  lemma BeforeFirstMatch(s: string, m: string)
    requires Marker(m)
    ensures !Contains(s[..FirstMatch(s, m)], m)
  {
    var k := FirstMatch(s, m);
    var p := s[..k];
    forall i | 0 <= i <= |p|
      ensures !StartsWith(p[i..], m)
    {
      if i + |m| <= |p| {
        assert p[i..][..|m|] == s[i..][..|m|];
      }
    }
  }

  /** Line 37 removes every `#`, whatever the input. */
  lemma NoFragmentMarkLeft(raw: string)
    ensures '#' !in Clean(raw)
  {
    NoHashAfterStrip(raw);
    CutKeepsCharacters(StripFragment(raw), Script, '#');
  }

  lemma {:induction false} NoHashAfterStrip(s: string)
    ensures '#' !in Cut(s, Fragment)
    decreases |s|
  {
    if |s| == 0 {
    } else if StartsWith(s, Fragment) {
      MarkerWithinLine(s, Fragment);
      NoHashAfterStrip(s[LineEnd(s)..]);
    } else {
      NoHashAfterStrip(s[1..]);
      assert s[..1] == [s[0]];
    }
  }

  /** For an `href` captured by `\S+` (hence without a line feed), line 37
      keeps the text before the first `#`: the result is a prefix of the raw
      `href` and contains no `#`. */
  lemma StripFragmentSingleLine(raw: string)
    requires '\n' !in raw
    ensures StripFragment(raw) == raw[..FirstMatch(raw, Fragment)]
    ensures !Contains(StripFragment(raw), Fragment)
  {
    CutSingleLineFacts(raw, Fragment);
  }

  /** For the same `href`, line 38 then keeps the text before the first
      `javascript`: the cleaned link is a prefix of the fragment-free link and
      contains no `javascript`. */
  lemma CleanSingleLine(raw: string)
    requires '\n' !in raw
    ensures Clean(raw) == StripFragment(raw)[..FirstMatch(StripFragment(raw), Script)]
    ensures !Contains(Clean(raw), Script)
  {
    CutSingleLineFacts(raw, Fragment);
    CutSingleLineFacts(StripFragment(raw), Script);
  }

  lemma CutSingleLineFacts(s: string, m: string)
    requires Marker(m) && '\n' !in s
    ensures Cut(s, m) == s[..FirstMatch(s, m)]
    ensures !Contains(Cut(s, m), m)
    ensures '\n' !in Cut(s, m)
  {
    CutSingleLine(s, m);
    BeforeFirstMatch(s, m);
    CutKeepsCharacters(s, m, '\n');
  }

  // ---------------------------------------------------------------------------
  // Properties of the scheme tests

  /** A link whose first four characters spell `http` only up to case (for
      instance `HTTP://x`) skips `urljoin` on line 39 and then fails the
      case-sensitive test on line 41, so it is never a candidate. */
  lemma CaseFoldedSchemeRejected(join: Join, base: string, raw: string)
    requires LooksAbsolute(Clean(raw)) && !HttpPrefixed(Clean(raw))
    ensures Resolve(join, base, raw) == Clean(raw)
    ensures !HttpPrefixed(Resolve(join, base, raw))
  {
  }

  /** The case-sensitive test implies the case-insensitive one: a literal
      `http` link is never handed to `urljoin`. */
  lemma HttpPrefixedLooksAbsolute(s: string)
    requires HttpPrefixed(s)
    ensures LooksAbsolute(s)
  {
    assert Lower(Head4(s)) == Lower(Http);
  }

  /** `HttpPrefixed` means: at least four characters, the first four `http`. */
  lemma HttpPrefixedMeaning(s: string)
    ensures HttpPrefixed(s) <==> StartsWith(s, Http)
  {
  }
}
