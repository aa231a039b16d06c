/**
 The two lists of the crawler script and one pass of its `while` loop
 (crawl.py lines 9-10 and 16-44).

 `queue` is `urlstocrawl`, `crawled` is `alreadycrawled`. The answer of the
 network for the URL being loaded is an input: either `HTTPError`, or the page
 together with the raw `href` values that the link regular expression finds in
 it, in page order.
 */
module Frontier {
  import opened Links

  /** What loading one URL yields (lines 20-21 and 34). */
  datatype Fetch = HttpError | Page(hrefs: seq<string>)

  datatype State = State(queue: seq<string>, crawled: seq<string>)

  /** The only entry of the queue when the script starts (line 9). */
  const Seed: string := "http://dmoz.org"

  predicate NoDup(s: seq<string>)
  {
    forall i, j :: 0 <= i < j < |s| ==> s[i] != s[j]
  }

  predicate AllHttp(s: seq<string>)
  {
    forall i :: 0 <= i < |s| ==> HttpPrefixed(s[i])
  }

  predicate Disjoint(a: seq<string>, b: seq<string>)
  {
    forall i :: 0 <= i < |a| ==> a[i] !in b
  }

  /** What the loop keeps true of its two lists. */
  predicate Valid(st: State)
  {
    && NoDup(st.queue)
    && NoDup(st.crawled)
    && Disjoint(st.queue, st.crawled)
    && AllHttp(st.queue)
    && AllHttp(st.crawled)
  }

  /** Lines 9-10. */
  function Init(): (st: State)
    ensures Valid(st)
    ensures |st.queue| == 1 && st.crawled == []
  {
    State([Seed], [])
  }

  /** The test of line 41 for one candidate: a literal `http` prefix, and in
      neither list. */
  predicate Admissible(link: string, queue: seq<string>, crawled: seq<string>): (b: bool)
    ensures b <==> StartsWith(link, Http) && link !in queue + crawled
  {
    HttpPrefixedMeaning(link);
    link !in crawled && link !in queue && HttpPrefixed(link)
  }

  /** Lines 41-42 for one candidate: the queue is kept as a prefix, and the
      candidate is appended exactly when it is admissible. Afterwards an `http`
      link that is not crawled is in the queue, added now or before. */
  function Admit(queue: seq<string>, crawled: seq<string>, link: string): (r: seq<string>)
    ensures |queue| <= |r| <= |queue| + 1 && r[..|queue|] == queue
    ensures |r| > |queue| <==> Admissible(link, queue, crawled)
    ensures |r| > |queue| ==> r[|queue|] == link
    ensures HttpPrefixed(link) && link !in crawled ==> link in r
  {
    if Admissible(link, queue, crawled) then queue + [link] else queue
  }

  /** The `for` loop of lines 36-42 over already resolved candidates, in page
      order; each test sees the queue as the previous candidates left it. */
  function Enqueue(queue: seq<string>, crawled: seq<string>, links: seq<string>): (r: seq<string>)
    ensures |queue| <= |r| <= |queue| + |links|
    ensures r[..|queue|] == queue
    decreases |links|
  {
    if |links| == 0 then queue
    else
      var q := Admit(queue, crawled, links[0]);
      var r := Enqueue(q, crawled, links[1..]);
      assert r[..|queue|] == r[..|q|][..|queue|];
      r
  }

  /** Reference definition of what one page adds to the queue: the candidates
      that pass the scheme test and are in neither list, each kept at its first
      appearance in the page, in page order. */
  function Fresh(links: seq<string>, queue: seq<string>, crawled: seq<string>): (r: seq<string>)
    ensures |r| <= |links|
    ensures forall i :: 0 <= i < |r| ==> r[i] in links && HttpPrefixed(r[i]) && r[i] !in queue && r[i] !in crawled
    decreases |links|
  {
    if |links| == 0 then []
    else
      var init := links[..|links| - 1];
      var x := links[|links| - 1];
      assert links == init + [x];
      Fresh(init, queue, crawled)
        + (if HttpPrefixed(x) && x !in crawled && x !in queue && x !in init then [x] else [])
  }

  /** One pass of the loop body (lines 18-44). The loop only runs while the
      queue is non-empty (line 16). */
  function Step(st: State, answer: Fetch, join: Join): (r: State)
    requires |st.queue| > 0
    ensures |st.queue| - 1 <= |r.queue|
    ensures r.queue[..|st.queue| - 1] == st.queue[1..]
  {
    var cur := st.queue[0];
    var rest := st.queue[1..];
    match answer
    case HttpError => State(rest, st.crawled)
    case Page(hrefs) =>
      var crawled := st.crawled + [cur];
      State(Enqueue(rest, crawled, ResolveAll(join, cur, hrefs)), crawled)
  }

  /** What a pass appends at the back of the queue, by the reference
      definition: nothing after an `HTTPError`, the page's fresh links after a
      loaded page. Every entry passes the scheme test and is new to the queue
      and to the crawled list as the pass leaves it: in neither, and not the
      URL just loaded. */
  function Added(st: State, answer: Fetch, join: Join): (r: seq<string>)
    requires |st.queue| > 0
    ensures forall i :: 0 <= i < |r| ==> HttpPrefixed(r[i]) && r[i] !in st.queue[1..] && r[i] !in st.crawled
    ensures forall i :: 0 <= i < |r| ==> r[i] != st.queue[0]
    ensures answer.HttpError? ==> r == []
  {
    match answer
    case HttpError => []
    case Page(hrefs) =>
      var r := Fresh(ResolveAll(join, st.queue[0], hrefs), st.queue[1..], st.crawled + [st.queue[0]]);
      assert forall i :: 0 <= i < |r| ==> r[i] !in st.crawled + [st.queue[0]];
      r
  }

  // ---------------------------------------------------------------------------
  // Enqueue against its reference definition

  /** Processing one more candidate at the end of a page admits or drops it
      against the queue built so far. */
  lemma {:induction false} EnqueueSnoc(queue: seq<string>, crawled: seq<string>, links: seq<string>, x: string)
    ensures Enqueue(queue, crawled, links + [x]) == Admit(Enqueue(queue, crawled, links), crawled, x)
    decreases |links|
  {
    if |links| == 0 {
      assert (links + [x])[1..] == [];
    } else {
      assert (links + [x])[0] == links[0];
      assert (links + [x])[1..] == links[1..] + [x];
      EnqueueSnoc(Admit(queue, crawled, links[0]), crawled, links[1..], x);
    }
  }

  /** Both directions: a URL is among the fresh links exactly when it is a
      candidate of the page, passes the scheme test and is in neither list. */
  lemma {:induction false} FreshMembership(links: seq<string>, queue: seq<string>, crawled: seq<string>, y: string)
    ensures y in Fresh(links, queue, crawled)
        <==> y in links && HttpPrefixed(y) && y !in crawled && y !in queue
    decreases |links|
  {
    if |links| > 0 {
      var init := links[..|links| - 1];
      FreshMembership(init, queue, crawled, y);
      assert links == init + [links[|links| - 1]];
    }
  }

  /** A page never adds the same URL twice, even when it repeats a link. */
  lemma {:induction false} FreshNoDup(links: seq<string>, queue: seq<string>, crawled: seq<string>)
    ensures NoDup(Fresh(links, queue, crawled))
    decreases |links|
  {
    if |links| > 0 {
      var init := links[..|links| - 1];
      var x := links[|links| - 1];
      FreshNoDup(init, queue, crawled);
      FreshMembership(init, queue, crawled, x);
    }
  }

  /** The loop of lines 36-42 appends exactly the fresh links to the queue. */
  lemma {:induction false} EnqueueIsFresh(queue: seq<string>, crawled: seq<string>, links: seq<string>)
    ensures Enqueue(queue, crawled, links) == queue + Fresh(links, queue, crawled)
    decreases |links|
  {
    if |links| == 0 {
      assert queue + [] == queue;
    } else {
      var init := links[..|links| - 1];
      var x := links[|links| - 1];
      EnqueueIsFresh(queue, crawled, init);
      EnqueueIsFreshSnoc(queue, crawled, init, x);
      assert links == init + [x];
    }
  }

  /** The inductive step of `EnqueueIsFresh`: one more candidate at the end of
      the page. */
  lemma EnqueueIsFreshSnoc(queue: seq<string>, crawled: seq<string>, init: seq<string>, x: string)
    requires Enqueue(queue, crawled, init) == queue + Fresh(init, queue, crawled)
    ensures Enqueue(queue, crawled, init + [x]) == queue + Fresh(init + [x], queue, crawled)
  {
    var links := init + [x];
    var before := Fresh(init, queue, crawled);
    var added := if HttpPrefixed(x) && x !in crawled && x !in queue && x !in init then [x] else [];
    EnqueueSnoc(queue, crawled, init, x);
    FreshMembership(init, queue, crawled, x);
    AdmitAfterFresh(queue, crawled, before, x, x in init);
    assert links[..|links| - 1] == init && links[|links| - 1] == x;
    assert Fresh(links, queue, crawled) == before + added;
    AppendAssoc(queue, before, added);
  }

  lemma AppendAssoc(a: seq<string>, b: seq<string>, c: seq<string>)
    ensures a + b + c == a + (b + c)
  {
  }

  lemma AdmitAfterFresh(queue: seq<string>, crawled: seq<string>, before: seq<string>, x: string, seen: bool)
    requires x in before <==> seen && HttpPrefixed(x) && x !in crawled && x !in queue
    ensures Admit(queue + before, crawled, x)
         == queue + before + (if HttpPrefixed(x) && x !in crawled && x !in queue && !seen then [x] else [])
  {
    assert x in queue + before <==> x in queue || x in before;
  }

  /** Appending the fresh links keeps a valid pair of lists valid. */
  lemma EnqueueKeepsValid(queue: seq<string>, crawled: seq<string>, links: seq<string>)
    requires Valid(State(queue, crawled))
    ensures Valid(State(Enqueue(queue, crawled, links), crawled))
  {
    var f := Fresh(links, queue, crawled);
    EnqueueIsFresh(queue, crawled, links);
    FreshNoDup(links, queue, crawled);
    forall y | y in f
      ensures HttpPrefixed(y) && y !in crawled && y !in queue
    {
      FreshMembership(links, queue, crawled, y);
    }
    var q := queue + f;
    forall i, j | 0 <= i < j < |q|
      ensures q[i] != q[j]
    {
      if j >= |queue| && i < |queue| {
        assert q[j] in f;
      }
    }
    assert forall i :: 0 <= i < |q| ==> q[i] in queue || q[i] in f;
  }

  // ---------------------------------------------------------------------------
  // One pass of the loop

  /** The URL loaded is the oldest queue entry. After an `HTTPError` it is gone
      from the queue, not recorded as crawled, and nothing is added. */
  lemma StepOnError(st: State, join: Join)
    requires Valid(st) && |st.queue| > 0
    ensures Step(st, HttpError, join).queue == st.queue[1..]
    ensures Step(st, HttpError, join).crawled == st.crawled
    ensures st.queue[0] !in Step(st, HttpError, join).queue
    ensures st.queue[0] !in Step(st, HttpError, join).crawled
  {
  }

  /** On a loaded page, `crawled` grows by exactly the loaded URL (the oldest
      queue entry), the rest of the queue keeps its order at the front, and the
      fresh links of the page follow at the back. */
  lemma StepOnPage(st: State, hrefs: seq<string>, join: Join)
    requires |st.queue| > 0
    ensures Step(st, Page(hrefs), join).crawled == st.crawled + [st.queue[0]]
    ensures Step(st, Page(hrefs), join).queue
         == st.queue[1..] + Fresh(ResolveAll(join, st.queue[0], hrefs), st.queue[1..], st.crawled + [st.queue[0]])
  {
    EnqueueIsFresh(st.queue[1..], st.crawled + [st.queue[0]], ResolveAll(join, st.queue[0], hrefs));
  }

  /** First in, first out for one pass, on either answer: the queue afterwards
      is the old queue without its head, followed by what the pass adds. */
  lemma StepAppends(st: State, answer: Fetch, join: Join)
    requires |st.queue| > 0
    ensures Step(st, answer, join).queue == st.queue[1..] + Added(st, answer, join)
  {
    match answer
    case HttpError =>
      assert st.queue[1..] + [] == st.queue[1..];
    case Page(hrefs) =>
      StepOnPage(st, hrefs, join);
  }

  /** Both directions: a URL that was not in the queue is in it after a loaded
      page exactly when some `href` of the page resolves to it, it passes the
      case-sensitive scheme test, and it is neither crawled nor the page itself. */
  lemma StepAdmits(st: State, hrefs: seq<string>, join: Join, y: string)
    requires |st.queue| > 0 && y !in st.queue
    ensures y in Step(st, Page(hrefs), join).queue
        <==> (exists i :: 0 <= i < |hrefs| && Resolve(join, st.queue[0], hrefs[i]) == y)
             && HttpPrefixed(y) && y !in st.crawled
  {
    var cur := st.queue[0];
    var links := ResolveAll(join, cur, hrefs);
    StepOnPage(st, hrefs, join);
    FreshMembership(links, st.queue[1..], st.crawled + [cur], y);
    CandidateMembership(join, cur, hrefs, y);
    assert st.queue == [cur] + st.queue[1..];
  }

  /** A link whose scheme reads `http` only when lowercased, such as
      `HTTP://x`, is never added to the queue. */
  lemma StepRejectsCaseFolded(st: State, hrefs: seq<string>, join: Join, i: nat)
    requires |st.queue| > 0 && i < |hrefs|
    requires LooksAbsolute(Clean(hrefs[i])) && !HttpPrefixed(Clean(hrefs[i]))
    ensures Clean(hrefs[i]) in Step(st, Page(hrefs), join).queue <==> Clean(hrefs[i]) in st.queue[1..]
  {
    var link := Clean(hrefs[i]);
    CaseFoldedSchemeRejected(join, st.queue[0], hrefs[i]);
    StepOnPage(st, hrefs, join);
    FreshMembership(ResolveAll(join, st.queue[0], hrefs), st.queue[1..], st.crawled + [st.queue[0]], link);
  }

  /** The loop body keeps both lists duplicate-free, disjoint, and made of
      `http` URLs. */
  lemma StepKeepsValid(st: State, answer: Fetch, join: Join)
    requires Valid(st) && |st.queue| > 0
    ensures Valid(Step(st, answer, join))
  {
    var cur := st.queue[0];
    var rest := st.queue[1..];
    assert forall i :: 0 <= i < |rest| ==> rest[i] == st.queue[i + 1];
    assert Valid(State(rest, st.crawled));
    match answer
    case HttpError =>
    case Page(hrefs) =>
      var crawled := st.crawled + [cur];
      assert cur !in rest;
      assert Valid(State(rest, crawled));
      EnqueueKeepsValid(rest, crawled, ResolveAll(join, cur, hrefs));
  }

  /** A URL dropped after an `HTTPError` is in neither list, so when the page
      loaded in the very next pass links to it, that pass puts it back at the
      end of the queue. `LinkedUrlAdded` and `Crawler.OutUntilReadded` cover
      later passes. */
  lemma ErroredUrlReturns(st: State, join: Join, hrefs: seq<string>, i: nat)
    requires Valid(st) && |st.queue| > 1 && i < |hrefs|
    requires Resolve(join, st.queue[1], hrefs[i]) == st.queue[0]
    ensures st.queue[0] in Step(Step(st, HttpError, join), Page(hrefs), join).queue
  {
    var dropped := Step(st, HttpError, join);
    StepOnError(st, join);
    StepAdmits(dropped, hrefs, join, st.queue[0]);
  }

  /** In any pass, a URL in neither list that a `href` of the loaded page
      resolves to, and that starts with `http`, is appended by that pass. */
  lemma LinkedUrlAdded(st: State, hrefs: seq<string>, join: Join, i: nat)
    requires |st.queue| > 0 && i < |hrefs|
    requires Resolve(join, st.queue[0], hrefs[i]) !in st.queue
    requires Resolve(join, st.queue[0], hrefs[i]) !in st.crawled
    requires HttpPrefixed(Resolve(join, st.queue[0], hrefs[i]))
    ensures Resolve(join, st.queue[0], hrefs[i]) in Added(st, Page(hrefs), join)
  {
    var u := Resolve(join, st.queue[0], hrefs[i]);
    StepAdmits(st, hrefs, join, u);
    StepAppends(st, Page(hrefs), join);
    assert u !in st.queue[1..];
  }
}
