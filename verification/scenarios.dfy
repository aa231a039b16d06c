/**
 A worked pass of the crawler loop on a concrete page, with `urljoin` fixed
 only where the page needs it.
 */
module Scenarios {
  import opened Links
  import opened Frontier

  /** Line 37 cuts `#top`; line 38 finds nothing to cut. */
  lemma FragmentDropped()
    ensures Clean("x#top") == "x"
  {
    CutUntouched("x", Script);
    assert LineEnd("#top") == 4;
    assert "#top"[4..] == [];
    assert "x#top"[1..] == "#top";
    assert "x#top"[..1] == "x";
  }

  /** A relative link survives cleanup and goes to `urljoin`. */
  lemma PlainLinkUnchanged()
    ensures Clean("x") == "x" && !LooksAbsolute("x")
  {
    CutUntouched("x", Fragment);
    CutUntouched("x", Script);
  }

  lemma UpperCaseSchemeNoFragment()
    ensures StripFragment("HTTP://b") == "HTTP://b"
  {
    CutUntouched("HTTP://b", Fragment);
  }

  /** `HTTP://b` has nothing to cut. */
  lemma UpperCaseSchemeKept()
    ensures Clean("HTTP://b") == "HTTP://b"
  {
    UpperCaseSchemeNoFragment();
    CutUntouched("HTTP://b", Script);
  }

  /** `HTTP://b` passes the test of line 39 and fails the one of line 41. */
  lemma UpperCaseSchemeSkipsJoin()
    ensures LooksAbsolute("HTTP://b") && !HttpPrefixed("HTTP://b")
  {
    assert Head4("HTTP://b") == "HTTP";
    var r := Lower("HTTP");
    assert r[0] == 'h' && r[1] == 't' && r[2] == 't' && r[3] == 'p';
  }

  lemma FragmentLinkJoined(join: Join)
    requires join("http://a/", "x") == "http://a/x"
    ensures Resolve(join, "http://a/", "x#top") == "http://a/x"
  {
    FragmentDropped();
    PlainLinkUnchanged();
  }

  lemma PlainLinkJoined(join: Join)
    requires join("http://a/", "x") == "http://a/x"
    ensures Resolve(join, "http://a/", "x") == "http://a/x"
  {
    PlainLinkUnchanged();
  }

  lemma UpperCaseLinkNotJoined(join: Join)
    ensures Resolve(join, "http://a/", "HTTP://b") == "HTTP://b"
  {
    UpperCaseSchemeKept();
    UpperCaseSchemeSkipsJoin();
  }

  /** Candidates of a three-link page, element by element. */
  lemma ResolveThree(join: Join, base: string, a: string, b: string, c: string)
    ensures ResolveAll(join, base, [a, b, c]) == [Resolve(join, base, a), Resolve(join, base, b), Resolve(join, base, c)]
  {
    var hrefs := [a, b, c];
    var r := ResolveAll(join, base, hrefs);
    assert hrefs[0] == a && hrefs[1] == b && hrefs[2] == c;
    assert r == [r[0], r[1], r[2]];
  }

  /** The page's candidates: `x` twice, `HTTP://b` untouched. */
  lemma ExampleCandidates(join: Join)
    requires join("http://a/", "x") == "http://a/x"
    ensures ResolveAll(join, "http://a/", ["x#top", "HTTP://b", "x"]) == ["http://a/x", "HTTP://b", "http://a/x"]
  {
    ResolveThree(join, "http://a/", "x#top", "HTTP://b", "x");
    FragmentLinkJoined(join);
    UpperCaseLinkNotJoined(join);
    PlainLinkJoined(join);
  }

  /** Only the first `http://a/x` is queued. */
  lemma ExampleEnqueue()
    ensures Enqueue([], ["http://a/"], ["http://a/x", "HTTP://b", "http://a/x"]) == ["http://a/x"]
  {
    assert HttpPrefixed("http://a/x") by { assert Head4("http://a/x") == "http"; }
    UpperCaseSchemeSkipsJoin();
    var l := ["http://a/x", "HTTP://b", "http://a/x"];
    assert l[1..] == ["HTTP://b", "http://a/x"];
    assert l[1..][1..] == ["http://a/x"];
  }

  /** The page `http://a/` listing `x#top`, `HTTP://b` and `x` again adds one
      URL, the resolved `x`, once; `HTTP://b` is neither joined nor accepted,
      and the page itself moves to `crawled`. */
  lemma ExamplePage(join: Join)
    requires join("http://a/", "x") == "http://a/x"
    ensures Step(State(["http://a/"], []), Page(["x#top", "HTTP://b", "x"]), join)
         == State(["http://a/x"], ["http://a/"])
  {
    ExampleCandidates(join);
    ExampleEnqueue();
    assert ["http://a/"][1..] == [];
    assert [] + ["http://a/"] == ["http://a/"];
  }
}
