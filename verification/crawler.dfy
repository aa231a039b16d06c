/**
 The whole `while` loop of the crawler script (crawl.py lines 9-44).

 The network is replaced by the sequence of its answers, one per loaded URL,
 in loading order: the run stops when the queue is empty (line 16) or when the
 answers run out, which bounds a crawl of the open web that need not end.
 */
module Crawler {
  import opened Links
  import opened Frontier

  /** Reference definition of the loop: apply the loop body once per answer
      while the queue is non-empty. `crawled` only grows, by at most one URL
      per answer. */
  function Run(st: State, answers: seq<Fetch>, join: Join): (r: State)
    ensures |st.crawled| <= |r.crawled| <= |st.crawled| + |answers|
    ensures r.crawled[..|st.crawled|] == st.crawled
    decreases |answers|
  {
    if |st.queue| == 0 || |answers| == 0 then st
    else
      var next := Step(st, answers[0], join);
      StepCrawled(st, answers[0], join);
      var r := Run(next, answers[1..], join);
      assert r.crawled[..|st.crawled|] == r.crawled[..|next.crawled|][..|st.crawled|];
      r
  }

  /** Reference definition of the URLs the loop loads, in order: the head of
      the queue at each pass (the `curURL` of line 18). One URL is loaded per
      answer until the queue runs dry. */
  function Loaded(st: State, answers: seq<Fetch>, join: Join): (r: seq<string>)
    ensures |r| <= |answers|
    ensures |r| == |answers| || Run(st, answers, join).queue == []
    decreases |answers|
  {
    if |st.queue| == 0 || |answers| == 0 then []
    else [st.queue[0]] + Loaded(Step(st, answers[0], join), answers[1..], join)
  }

  /** Reference definition of everything the loop appends to the queue, in
      order: what each pass adds (`Added`). Every entry passes line 41's test. */
  function Appended(st: State, answers: seq<Fetch>, join: Join): (r: seq<string>)
    ensures forall i :: 0 <= i < |r| ==> HttpPrefixed(r[i])
    decreases |answers|
  {
    if |st.queue| == 0 || |answers| == 0 then []
    else
      var a := Added(st, answers[0], join);
      var b := Appended(Step(st, answers[0], join), answers[1..], join);
      a + b
  }

  /** The loaded URLs whose fetch succeeded, in loading order. */
  function Succeeded(loaded: seq<string>, answers: seq<Fetch>): (r: seq<string>)
    requires |loaded| == |answers|
    ensures |r| <= |loaded|
    ensures forall i :: 0 <= i < |r| ==> r[i] in loaded
    decreases |loaded|
  {
    if |loaded| == 0 then []
    else
      var rest := Succeeded(loaded[1..], answers[1..]);
      var r := (if answers[0].Page? then [loaded[0]] else []) + rest;
      assert forall i :: 0 <= i < |rest| ==> rest[i] in loaded;
      r
  }

  /** The loop keeps the two lists valid from any valid start, for any answers
      of the network and any `urljoin`. */
  lemma {:induction false} RunKeepsValid(st: State, answers: seq<Fetch>, join: Join)
    requires Valid(st)
    ensures Valid(Run(st, answers, join))
    decreases |answers|
  {
    if |st.queue| > 0 && |answers| > 0 {
      StepKeepsValid(st, answers[0], join);
      RunKeepsValid(Step(st, answers[0], join), answers[1..], join);
    }
  }

  /** First in, first out over any number of passes: the URLs loaded followed
      by the final queue are the initial queue followed by everything appended.
      So URLs are loaded in the order they were queued. */
  lemma {:induction false} RunFifo(st: State, answers: seq<Fetch>, join: Join)
    ensures Loaded(st, answers, join) + Run(st, answers, join).queue == st.queue + Appended(st, answers, join)
    decreases |answers|
  {
    if |st.queue| > 0 && |answers| > 0 {
      var next := Step(st, answers[0], join);
      var added := Added(st, answers[0], join);
      StepAppends(st, answers[0], join);
      RunFifo(next, answers[1..], join);
      QueueHistory(st.queue, Loaded(next, answers[1..], join), Run(next, answers[1..], join).queue,
                   added, Appended(next, answers[1..], join));
    }
  }

  /** The sequence identity behind one pass of `RunFifo`: loading the head
      and appending at the tail. */
  lemma QueueHistory(queue: seq<string>, l: seq<string>, q: seq<string>, added: seq<string>, app: seq<string>)
    requires |queue| > 0 && l + q == queue[1..] + added + app
    ensures [queue[0]] + l + q == queue + (added + app)
  {
    assert [queue[0]] + l + q == [queue[0]] + (l + q);
    assert queue[1..] + added + app == queue[1..] + (added + app);
    assert queue == [queue[0]] + queue[1..];
  }

  /** `crawled` ends as it started followed by the loaded URLs whose fetch
      succeeded, in loading order (line 32 runs only after a successful load). */
  lemma {:induction false} RunCrawled(st: State, answers: seq<Fetch>, join: Join)
    ensures Run(st, answers, join).crawled
         == st.crawled + Succeeded(Loaded(st, answers, join), answers[..|Loaded(st, answers, join)|])
    decreases |answers|
  {
    var l := Loaded(st, answers, join);
    if |st.queue| == 0 || |answers| == 0 {
      assert st.crawled + [] == st.crawled;
    } else {
      var next := Step(st, answers[0], join);
      var l' := Loaded(next, answers[1..], join);
      StepCrawled(st, answers[0], join);
      RunCrawled(next, answers[1..], join);
      assert l == [st.queue[0]] + l';
      assert l[1..] == l';
      assert answers[..|l|][1..] == answers[1..][..|l'|];
      assert answers[..|l|][0] == answers[0];
    }
  }

  /** A URL in neither list, for instance one just dropped after an
      `HTTPError`, can be in the queue, in `crawled` or among the loaded URLs
      after any number of passes only if one of those passes appended it
      again; a pass appends it when its loaded page links to it
      (`Frontier.LinkedUrlAdded`). */
  lemma OutUntilReadded(st: State, answers: seq<Fetch>, join: Join, u: string)
    requires u !in st.queue && u !in st.crawled
    ensures u in Run(st, answers, join).queue ==> u in Appended(st, answers, join)
    ensures u in Run(st, answers, join).crawled ==> u in Appended(st, answers, join)
    ensures u in Loaded(st, answers, join) ==> u in Appended(st, answers, join)
  {
    var l := Loaded(st, answers, join);
    var q := Run(st, answers, join).queue;
    var a := Appended(st, answers, join);
    RunFifo(st, answers, join);
    RunCrawled(st, answers, join);
    assert u in l + q <==> u in l || u in q;
    assert u in st.queue + a <==> u in st.queue || u in a;
    var s := Succeeded(l, answers[..|l|]);
    assert u in st.crawled + s <==> u in st.crawled || u in s;
  }

  /** The URL an `HTTPError` drops stays out of both lists, and is not loaded
      again, over any number of later passes that do not append it again. */
  lemma DroppedUrlStaysOut(st: State, answers: seq<Fetch>, join: Join)
    requires Valid(st) && |st.queue| > 0
    ensures var after := Step(st, HttpError, join);
      st.queue[0] !in Appended(after, answers, join) ==>
        && st.queue[0] !in Run(after, answers, join).queue
        && st.queue[0] !in Run(after, answers, join).crawled
        && st.queue[0] !in Loaded(after, answers, join)
  {
    StepOnError(st, join);
    OutUntilReadded(Step(st, HttpError, join), answers, join, st.queue[0]);
  }

  /** One pass of the loop is one step of each reference definition. */
  lemma RunUnfold(st: State, answers: seq<Fetch>, k: nat, join: Join)
    requires k < |answers| && |st.queue| > 0
    ensures Run(st, answers[k..], join) == Run(Step(st, answers[k], join), answers[k + 1..], join)
    ensures Loaded(st, answers[k..], join) == [st.queue[0]] + Loaded(Step(st, answers[k], join), answers[k + 1..], join)
    ensures Appended(st, answers[k..], join)
         == Added(st, answers[k], join) + Appended(Step(st, answers[k], join), answers[k + 1..], join)
  {
    assert answers[k..][0] == answers[k];
    assert answers[k..][1..] == answers[k + 1..];
  }

  /** Line 32: `crawled` grows by the loaded URL on success and is untouched
      on `HTTPError`. */
  lemma StepCrawled(st: State, answer: Fetch, join: Join)
    requires |st.queue| > 0
    ensures Step(st, answer, join).crawled == st.crawled + (if answer.Page? then [st.queue[0]] else [])
  {
    match answer
    case HttpError =>
      assert st.crawled + [] == st.crawled;
    case Page(hrefs) =>
  }

  /** One pass of `Crawl` keeps its record of loaded and discovered URLs in
      step with the reference definitions. */
  lemma PassKeepsHistory(st: State, answers: seq<Fetch>, k: nat, join: Join, loaded: seq<string>, discovered: seq<string>)
    requires k < |answers| && |st.queue| > 0
    requires loaded + Loaded(st, answers[k..], join) == Loaded(Init(), answers, join)
    requires discovered + Appended(st, answers[k..], join) == [Seed] + Appended(Init(), answers, join)
    ensures Run(st, answers[k..], join) == Run(Step(st, answers[k], join), answers[k + 1..], join)
    ensures loaded + [st.queue[0]] + Loaded(Step(st, answers[k], join), answers[k + 1..], join)
         == Loaded(Init(), answers, join)
    ensures discovered + Step(st, answers[k], join).queue[|st.queue| - 1..]
          + Appended(Step(st, answers[k], join), answers[k + 1..], join)
         == [Seed] + Appended(Init(), answers, join)
  {
    var next := Step(st, answers[k], join);
    StepAppends(st, answers[k], join);
    assert next.queue[|st.queue| - 1..] == Added(st, answers[k], join);
    RunUnfold(st, answers, k, join);
    var l := Loaded(next, answers[k + 1..], join);
    var a := Appended(next, answers[k + 1..], join);
    AppendAssoc(loaded, [st.queue[0]], l);
    AppendAssoc(discovered, Added(st, answers[k], join), a);
  }

  /** Lines 9-44, iteratively. Besides the final lists it reports `loaded`, the
      URLs in the order they were taken from the queue (the `curURL` of each
      pass), and `discovered`, every URL ever put into the queue in the order
      it was put there, starting with the seed. Both agree with the reference
      definitions, URLs are loaded in queueing order, and `crawled` is the
      loaded URLs whose fetch succeeded. */
  method Crawl(answers: seq<Fetch>, join: Join)
    returns (st: State, loaded: seq<string>, discovered: seq<string>)
    ensures st == Run(Init(), answers, join)
    ensures Valid(st)
    ensures loaded == Loaded(Init(), answers, join)
    ensures discovered == [Seed] + Appended(Init(), answers, join)
    ensures |loaded| <= |answers|
    ensures |loaded| < |answers| ==> st.queue == []
    ensures loaded + st.queue == discovered
    ensures st.crawled == Succeeded(loaded, answers[..|loaded|])
  {
    st := Init();
    loaded := [];
    discovered := [Seed];
    var k := 0;
    while k < |answers| && |st.queue| > 0
      invariant k == |loaded| <= |answers|
      invariant Run(st, answers[k..], join) == Run(Init(), answers, join)
      invariant loaded + Loaded(st, answers[k..], join) == Loaded(Init(), answers, join)
      invariant discovered + Appended(st, answers[k..], join) == [Seed] + Appended(Init(), answers, join)
      decreases |answers| - k
    {
      var cur := st.queue[0];
      var next := Step(st, answers[k], join);
      var added := next.queue[|st.queue| - 1..];
      PassKeepsHistory(st, answers, k, join, loaded, discovered);
      discovered := discovered + added;
      loaded := loaded + [cur];
      st := next;
      k := k + 1;
    }
    assert answers[k..] == [] || st.queue == [];
    RunKeepsValid(Init(), answers, join);
    RunFifo(Init(), answers, join);
    RunCrawled(Init(), answers, join);
  }
}
