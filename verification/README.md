# A verified model of the `crawl.py` breadth-first crawler

`crawl.py` is a single-threaded crawler script. It keeps two Python lists:
`urlstocrawl`, a FIFO queue seeded with `http://dmoz.org`, and
`alreadycrawled`, the pages loaded so far. Each pass of its `while` loop does
the following:

1. It pops the oldest queued URL and loads it.
2. On success it records the URL as crawled.
3. It cleans every `href` of the page: it cuts the fragment, then cuts a
   `javascript` pseudo-link, then calls `urljoin` unless the first four
   characters read `http` ignoring case.
4. It appends each cleaned link whose first four characters are literally
   `http` and which is in neither list.
5. On an `HTTPError` it drops the popped URL and records nothing.

The model has four modules:

- `Links` (`links.dfy`) models the cleanup. The two `re.sub` calls are modelled
  with Python's regular-expression semantics, where `.` stops at a line feed.
  The model also covers the ASCII-only `str.lower()`, the `[0:4]` slice and
  both scheme tests. The case-sensitivity asymmetry is kept: `HTTP://x` skips
  `urljoin` and is then rejected.
- `Frontier` (`frontier.dfy`) models the two lists as a `State` and one loop
  pass as `Step`. The page's `href` list and the `urljoin` function are inputs.
  `Fresh` is an independent reference definition of what one page adds to the
  queue. `EnqueueIsFresh` proves that the script's loop appends exactly that.
- `Crawler` (`crawler.dfy`) models the whole loop. The network is a sequence of
  answers, one per loaded URL. `Run` is the recursive reference for the final
  lists. `Loaded` is the reference for the URLs loaded, the head of the queue
  at each pass. `Appended` is the reference for everything appended, what each
  pass adds. `RunFifo` proves first-in, first-out order from these
  definitions: the loaded URLs followed by the final queue are the seed
  followed by everything appended. `Crawl` is the iterative method. Its
  `loaded` and `discovered` outputs are proved equal to `Loaded` and to the
  seed followed by `Appended`.
- `Scenarios` (`scenarios.dfy`) works one concrete page through `Step`.

Three consequences of the script's cleanup are kept as written. It deletes
the text from any `javascript` substring to the end of the line, not only a
`javascript:` scheme. It trims no trailing slash. It accepts any link that
starts with `http`, `httpfoo` included.

## Model

| member | source | states |
|---|---|---|
| `Links.LineEnd` | crawl.py:37-38 | where a `.*` starting at a given position stops: the first line feed, or the end of the string |
| `Links.Cut` | crawl.py:37-38 | `re.sub(marker + ".*", "", s)` with Python's semantics; the result is never longer than the input |
| `Links.FirstMatch` | crawl.py:37-38 | the index of the first occurrence of a marker; no earlier position starts one |
| `Links.StripFragment` | crawl.py:37 | the fragment substitution leaves no `#`, never lengthens the link, and on a single line keeps exactly the text before the first `#` |
| `Links.StripScript` | crawl.py:38 | the `javascript` substitution never lengthens the link, and on a single line keeps exactly the text before the first `javascript` |
| `Links.Clean` | crawl.py:37-38 | the two substitutions in order; the cleaned link is never longer than the raw `href` and, for an `href` without a line feed, is a prefix of it |
| `Links.CutKeepsCharacters` | crawl.py:37-38 | the substitutions delete text and never introduce a character |
| `Links.CutSingleLine` | crawl.py:37-38 | on text without a line feed, `re.sub(marker + ".*", "", s)` keeps exactly the text before the first occurrence of the marker |
| `Links.CutUntouched` | crawl.py:37-38 | text in which the marker cannot start is returned unchanged |
| `Links.NoFragmentMarkLeft` | crawl.py:37-38 | for every raw `href`, the cleaned link contains no `#` |
| `Links.NoHashAfterStrip` | crawl.py:37 | after the fragment substitution, no `#` is left, for any input, multi-line text included |
| `Links.StripFragmentSingleLine` | crawl.py:37 | for an `href` captured by `\S+` (no line feed), the fragment-free link is the raw `href` up to its first `#`, and no `#` is left |
| `Links.CleanSingleLine` | crawl.py:38 | for the same `href`, the cleaned link is the fragment-free link up to its first `javascript`, and no `javascript` is left |
| `Links.CutSingleLineFacts` | crawl.py:37-38 | on text without a line feed, a substitution keeps the text before the first marker, leaves no marker, and adds no line feed |
| `Links.BeforeFirstMatch` | crawl.py:37-38 | the text before the first occurrence of a marker contains no occurrence of it |
| `Links.Lower` | crawl.py:39 | lowercasing keeps the length, maps `A`-`Z` to `a`-`z`, and leaves every other character alone |
| `Links.Head4` | crawl.py:39-41 | the slice `[0:4]`: the first four characters, or the whole link when it is shorter |
| `Links.LooksAbsolute` | crawl.py:39 | the test holds exactly when the link has four characters or more and they are `h`, `t`, `t`, `p`, each in either case |
| `Links.HttpPrefixed` | crawl.py:41 | `foundURL[0:4] == "http"` holds exactly when the link has four characters or more and they are `h`, `t`, `t`, `p` in lower case |
| `Links.Resolve` | crawl.py:37-40 | a literal `http` link comes back as cleaned; a link whose scheme reads `http` only up to case comes back failing line 41; only any other link goes through `urljoin` |
| `Links.ResolveAll` | crawl.py:36-40 | one candidate per `href`, in page order, each the resolution of that `href` |
| `Links.CandidateMembership` | crawl.py:36-40 | both directions: a URL is a candidate of the page exactly when some `href` of the page resolves to it |
| `Links.CaseFoldedSchemeRejected` | crawl.py:39-41 | a link whose first four characters read `http` only ignoring case is not joined and fails the case-sensitive test |
| `Links.HttpPrefixedLooksAbsolute` | crawl.py:39-41 | a link that passes the case-sensitive test also passes the case-insensitive one, so it is never handed to `urljoin` |
| `Links.HttpPrefixedMeaning` | crawl.py:41 | `foundURL[0:4] == "http"` holds exactly when the link has at least four characters and starts with `http` |
| `Frontier.Init` | crawl.py:9-10 | the initial lists satisfy every invariant: no duplicates, disjoint, all `http` |
| `Frontier.Admissible` | crawl.py:41 | a candidate is accepted exactly when it starts with `http` and is in neither list |
| `Frontier.Admit` | crawl.py:41-42 | one candidate: the queue stays a prefix, the candidate is appended exactly when admissible, and afterwards an `http` link that is not crawled is in the queue |
| `Frontier.Enqueue` | crawl.py:36-42 | the link loop only appends to the queue, at most one entry per candidate |
| `Frontier.Fresh` | crawl.py:36-42 | reference definition of what a page adds: never more entries than candidates, each a candidate that starts with `http` and is in neither list |
| `Frontier.Step` | crawl.py:16-44 | a pass removes only the head of the queue; the remaining entries stay in order at the front |
| `Frontier.Added` | crawl.py:32-44 | what a pass appends: nothing after `HTTPError`; otherwise `http` URLs in neither list as the pass leaves it, the URL just loaded included |
| `Frontier.EnqueueSnoc` | crawl.py:36-42 | each link is tested against the queue as the earlier links of the page left it |
| `Frontier.AdmitAfterFresh` | crawl.py:41-42 | one more link is appended exactly when it starts with `http`, is in neither list, and did not already appear on the page |
| `Frontier.FreshMembership` | crawl.py:41-42 | both directions: a URL is added by a page exactly when it is a candidate of the page, starts with `http`, and is in neither list |
| `Frontier.FreshNoDup` | crawl.py:36-42 | a page adds each URL at most once, even when it repeats a link |
| `Frontier.EnqueueIsFresh` | crawl.py:36-42 | the link loop appends exactly the reference `Fresh` list: accepted candidates at their first appearance, in page order |
| `Frontier.EnqueueIsFreshSnoc` | crawl.py:36-42 | the inductive step of `EnqueueIsFresh`: the agreement survives one more candidate at the end of the page |
| `Frontier.EnqueueKeepsValid` | crawl.py:41-42 | appending a page's links keeps the queue duplicate-free, disjoint from `crawled`, and all `http` |
| `Frontier.StepOnError` | crawl.py:43-44 | after `HTTPError` the popped URL leaves the queue, is not recorded as crawled, and nothing is added |
| `Frontier.StepOnPage` | crawl.py:18-42 | on a loaded page, `crawled` grows by exactly the popped (oldest) URL; the rest of the queue is followed by the page's fresh links |
| `Frontier.StepAppends` | crawl.py:18-44 | first in, first out for one pass: the new queue is the old one without its head, followed by `Added` |
| `Frontier.StepAdmits` | crawl.py:36-42 | both directions: a URL not yet queued is queued after a page exactly when some `href` resolves to it, it starts with `http`, and it is not crawled |
| `Frontier.StepRejectsCaseFolded` | crawl.py:39-42 | a link like `HTTP://x` is in the queue after the pass only if it was already there |
| `Frontier.StepKeepsValid` | crawl.py:16-44 | one pass keeps both lists duplicate-free, disjoint, and made of `http` URLs, on every answer of the network |
| `Frontier.ErroredUrlReturns` | crawl.py:41-44 | a URL dropped on `HTTPError` is queued again by the page loaded right after the error, when that page links to it |
| `Frontier.LinkedUrlAdded` | crawl.py:36-42 | in any pass, an `http` URL in neither list that some `href` of the loaded page resolves to is appended by that pass |
| `Crawler.Run` | crawl.py:16-44 | reference definition of the loop; `crawled` only grows, by at most one URL per answer |
| `Crawler.Loaded` | crawl.py:16-18 | reference definition of the URLs loaded, in order; one per answer until the queue runs dry |
| `Crawler.Appended` | crawl.py:36-42 | reference definition of everything appended to the queue, in order; every entry starts with `http` |
| `Crawler.Succeeded` | crawl.py:32 | the loaded URLs whose fetch succeeded: no more of them than loads, each one a loaded URL |
| `Crawler.RunKeepsValid` | crawl.py:16-44 | the whole loop keeps the invariants from any valid start |
| `Crawler.RunFifo` | crawl.py:16-42 | first in, first out over any number of passes: the loaded URLs followed by the final queue are the initial queue followed by everything appended |
| `Crawler.QueueHistory` | crawl.py:18-42 | a proof step of `RunFifo` with no content of its own: the sequence identity for taking the head and appending at the tail |
| `Crawler.RunCrawled` | crawl.py:18-32 | `crawled` ends as it started followed by the loaded URLs whose fetch succeeded, in loading order |
| `Crawler.OutUntilReadded` | crawl.py:16-44 | a URL in neither list is back in the queue, in `crawled` or among the loaded URLs after any number of passes only if one of those passes appended it again |
| `Crawler.DroppedUrlStaysOut` | crawl.py:18-44 | the URL an `HTTPError` drops stays out of both lists and is not loaded again over any later passes that do not append it again |
| `Crawler.RunUnfold` | crawl.py:16-44 | one pass of the loop is one step of `Run`, `Loaded` and `Appended` |
| `Crawler.StepCrawled` | crawl.py:32 | `crawled` grows by the popped URL on success and stays the same on `HTTPError` |
| `Crawler.PassKeepsHistory` | crawl.py:18-42 | one pass of `Crawl` keeps its record of loaded and discovered URLs in step with `Loaded` and `Appended` |
| `Crawler.Crawl` | crawl.py:9-44 | the loop ends in `Run`'s state, which is valid. `loaded` is exactly `Loaded` and `discovered` is the seed followed by `Appended`. The loop stops only when the queue is empty or the answers run out. URLs are loaded in queueing order (`loaded + queue == discovered`). `crawled` is the loaded URLs whose fetch succeeded, in order |
| `Scenarios.FragmentDropped` | crawl.py:37 | `x#top` cleans to `x` |
| `Scenarios.ExampleEnqueue` | crawl.py:41-42 | a page whose candidates are `http://a/x`, `HTTP://b`, `http://a/x` queues `http://a/x` once |
| `Scenarios.UpperCaseSchemeSkipsJoin` | crawl.py:39-41 | `HTTP://b` passes the case-insensitive test and fails the case-sensitive one |
| `Scenarios.ExamplePage` | crawl.py:18-42 | on one concrete page the pass queues the joined `x` once, drops `HTTP://b`, and records the page as crawled |

## Left out

- Loading a URL (`urlopen`, `read`, crawl.py:20-21) is I/O. Each load becomes an input answer: `HttpError` or `Page(hrefs)`.
- Link extraction (`re.findall`, crawl.py:34) is done by the regular-expression library. Its result, the page's `href` list in page order, is an input.
- `urljoin` and `urlsplit` (crawl.py:23, 40) are library code. `urljoin` is an uninterpreted function parameter; `urlsplit` only names the download directory.
- Disk writes (`rm`, `mkdir`, `open`/`write`, base-32 file names, crawl.py:12, 24-30) are file-system side effects with no effect on the lists.
- The progress line and fetch rate (crawl.py:15, 19) are logging and floating point.
- Exceptions other than `HTTPError` end the script, and the model has no such answer. Examples are `URLError`, a failed file write, and the `ZeroDivisionError` of crawl.py:19 when the clock has not advanced since line 15 on the first pass (`0/0.0`).
- `Crawler.Crawl`: the loop stops after the last answer as well as on an empty queue, because a crawl of the open web need not end.
- `Links.CleanSingleLine`: this lemma and `Links.StripFragmentSingleLine` are proved only for `href` values without a line feed. Such values are all the `\S+` capture of line 34 can produce. For multi-line text, `Cut` still follows Python's semantics, but only the absence of `#` is proved.
- The repository's other components are not part of this model; only the loop of crawl.py is.
