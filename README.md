# tech-news: the news-collecting route, in Dafny

The route `GET /api/news` of the tech-news site walks a fixed table of three
news sources (G1, TecMundo, BBC Brasil). For each source it fetches the page,
finds the container node of every story, and reads three values from it: the
title text, the `href` of the link, and the description text. A story becomes a
`NewsArticle { title, url, description }` when its trimmed title and its href
are both non-empty. An href that does not start with the letters `"http"` is
first resolved against the source's URL. The articles are appended, in order,
to one shared list. A source whose request, parsing or link resolution throws
is caught and skipped, and the articles it already appended stay. The route
asks for `204` with the JSON body `{}` when the list is empty, and for `200`
with the list otherwise. The first request is one the runtime refuses (see
Findings).

The model is in three modules:

- `JsString` (`js_string.dfy`): the two ECMAScript string built-ins the route
  uses. `Trim` is `String.prototype.trim` (ECMA-262, section 22.1.3.32), with
  its white-space set of WhiteSpace and LineTerminator code points.
  `StartsWith` is `String.prototype.startsWith` at position 0 (ECMA-262,
  section 22.1.3.24).
- `NewsRoute` (`news_route.dfy`): the data shapes and the source table. It
  holds the per-container rule `Visit`, the per-source fold `Harvest` and the
  whole-table fold `Gather`. It also holds the imperative handler: `Callback`
  (the `.each` callback), `EachContainer` (the `.each` loop), `Collect` (the
  `for...of` loop over sources) and `Get` (the answer). Each method is
  proved against the fold functions. `JsonResponse` models
  `NextResponse.json` as far as the Fetch standard's "initialize a response"
  decides whether it throws. `AnswerAsWritten` is the handler's answer as
  the code writes it; `Get` gives the corrected answer.
- `NewsRouteFacts` (`news_route_facts.dfy`): lemmas about the folds. They
  cover document order, filtering, stopping at the first throw, counting,
  prefix stability, fault isolation between sources, and concrete cases.
  `Kept`, a front-first reading of the callback loop, is proved equal to
  `Harvest`.

Two things the route depends on are parameters of the model:

- `fetch: NewsSource -> PageOutcome` stands for `axios.get` plus Cheerio. It
  gives `Loaded(containers)` when the callback ran over every container.
  It gives `Threw(processed)` when something threw after `processed`; a failed
  request has `processed == []`.
- `resolve: (string, string) -> Option<string>` stands for `new URL(href,
  base).href`. `None` means the constructor throws, which stops that source.

Each container is a `Container(titleText, href, descriptionText)`. The texts
are untrimmed (empty when the node is missing), and `href` is `None` when
`.attr('href')` is `undefined`.

The code fetches the sources one after another, and the model does too. The
code does not trim the href, so an href of blanks is kept and resolved. Its
"absolute" test is the literal, case-sensitive prefix `"http"`, so
`"http-guide.html"` is stored as it is and `"HTTPS://..."` is resolved.

## Model

| member | source | states |
|---|---|---|
| `JsString.IsWhiteSpace` | app/api/news/route.ts:37-39 | every code point trim removes lies in the Basic Multilingual Plane (at most U+FEFF), so it is one UTF-16 code unit |
| `JsString.StartsWith` | app/api/news/route.ts:42 | `startsWith` holds exactly when the prefix fits and matches the string character by character |
| `JsString.HttpPrefixIff` | app/api/news/route.ts:42 | the route's test holds exactly when the first four characters are `h`, `t`, `t`, `p` (case-sensitive, nothing after them is looked at) |
| `JsString.Trim` | app/api/news/route.ts:37-39 | the trimmed text is no longer than the input and neither of its ends is white space |
| `JsString.TrimStartCuts` | app/api/news/route.ts:37-39 | trimming the start keeps a suffix and cuts off only white space |
| `JsString.TrimEndCuts` | app/api/news/route.ts:37-39 | trimming the end keeps a prefix and cuts off only white space |
| `JsString.TrimIsSlice` | app/api/news/route.ts:37-39 | the trimmed text is one contiguous slice of the input, starting after its leading white space |
| `JsString.TrimCutsWhiteSpace` | app/api/news/route.ts:37-39 | what trim removes on either side is white space |
| `JsString.TrimEmptyIff` | app/api/news/route.ts:37-41 | the trimmed text is empty exactly when the input is all white space (so a title is falsy iff it is blank) |
| `JsString.TrimClean` | app/api/news/route.ts:37-39 | a text with no white space at either end is left unchanged |
| `JsString.TrimIdempotent` | app/api/news/route.ts:37-39 | trimming twice is trimming once |
| `NewsRoute.SourceTable` | app/api/news/route.ts:20-24 | the table holds three sources with pairwise different page URLs, each starting with "https://" |
| `NewsRoute.Visit` | app/api/news/route.ts:37-46 | a kept article's title and description are the trimmed texts; its title is non-empty and both are trimmed |
| `NewsRoute.DroppedIff` | app/api/news/route.ts:37-41 | a container is dropped exactly when its title text is all white space, or its href is missing or empty |
| `NewsRoute.HttpHrefKept` | app/api/news/route.ts:41-45 | an href starting with "http" is stored verbatim, untrimmed |
| `NewsRoute.OtherHrefResolved` | app/api/news/route.ts:42-45 | any other href is replaced by its resolution against the source URL; if resolution throws, the container aborts its source |
| `NewsRoute.Harvest` | app/api/news/route.ts:36-47 | one source gives at most one article per container |
| `NewsRoute.HarvestSnoc` | app/api/news/route.ts:36-47 | one more container extends a source's loop by exactly that container's step |
| `NewsRoute.HarvestAbortSticks` | app/api/news/route.ts:36-50 | after a throw, the remaining containers of that source change nothing |
| `NewsRoute.ConcatBound` | app/api/news/route.ts:30-51 | the concatenated articles of the sources number at most the containers processed |
| `NewsRoute.Gather` | app/api/news/route.ts:30-51 | the articles of all sources, in table order, whatever each source did; at most one per container processed |
| `NewsRoute.GatherSnoc` | app/api/news/route.ts:30-51 | one more source appends its articles after all earlier ones |
| `NewsRoute.Callback` | app/api/news/route.ts:36-47 | the callback appends the container's article, or nothing; it reports a throw exactly when resolution fails |
| `NewsRoute.EachContainer` | app/api/news/route.ts:36-50 | the `.each` loop appends exactly the source's articles after those already collected, and reports whether it stopped on a throw |
| `NewsRoute.Collect` | app/api/news/route.ts:28-51 | the sources loop leaves in `allNews` exactly the concatenation, in table order, of every source's articles |
| `NewsRoute.JsonResponse` | app/api/news/route.ts:53-59 | building a JSON response succeeds exactly when the status is 200 to 599 and not a null body status (101, 103, 204, 205, 304) |
| `NewsRoute.AnswerAsWritten` | app/api/news/route.ts:52-59 | as written, an empty list ends in 500 with the error message, because the requested 204-with-`{}` cannot be built; a non-empty list gives 200 with the list |
| `NewsRoute.Get` | app/api/news/route.ts:26-56 | 204 exactly when nothing was collected, then with no body; otherwise 200 with the whole collected list, the same answer as the code as written; always a buildable response |
| `NewsRouteFacts.KeptSnoc` | app/api/news/route.ts:36-47 | the front-first reading of the loop, extended by one container, takes one step of the loop |
| `NewsRouteFacts.HarvestIsKept` | app/api/news/route.ts:36-47 | a source's articles come in container order, filtered by the rule, and stop at the first throw; nothing is reordered |
| `NewsRouteFacts.ThrewIff` | app/api/news/route.ts:36-50 | a source's loop throws exactly when one of its containers fails to resolve |
| `NewsRouteFacts.NoThrowCount` | app/api/news/route.ts:36-46 | with no throw, a source gives exactly one article per accepted container |
| `NewsRouteFacts.FirstThrow` | app/api/news/route.ts:36-50 | when container k throws first, the source keeps the articles of containers before k, one per accepted container |
| `NewsRouteFacts.HarvestWellFormed` | app/api/news/route.ts:37-45 | every article of a source has a non-empty trimmed title and a trimmed description |
| `NewsRouteFacts.GatherWellFormed` | app/api/news/route.ts:28-51 | every collected article has a non-empty trimmed title and a trimmed description |
| `NewsRouteFacts.HarvestKeepsPrefix` | app/api/news/route.ts:36-50 | articles pushed from earlier containers stay in place whatever later containers do |
| `NewsRouteFacts.ConcatAppend` | app/api/news/route.ts:30-51 | concatenating per-source parts over two runs of sources is the concatenation of the two results |
| `NewsRouteFacts.GatherAppend` | app/api/news/route.ts:30-51 | the articles of sources s1 then s2 are those of s1 followed by those of s2 |
| `NewsRouteFacts.FirstAbortAt` | app/api/news/route.ts:36-48 | the position of the first container whose link fails to resolve: no container before it throws, and the one at it does |
| `NewsRouteFacts.SourceCountIsLength` | app/api/news/route.ts:36-48 | a source gives exactly one article per accepted container before its first throw |
| `NewsRouteFacts.GatherCountStep` | app/api/news/route.ts:30-51 | the last source adds exactly its count of articles (accepted containers before its first throw) to the count of the sources before it |
| `NewsRouteFacts.GatherCount` | app/api/news/route.ts:28-51 | the number of collected articles equals the number of accepted containers over all sources, counting each source up to its first throw |
| `NewsRouteFacts.SourceIsolated` | app/api/news/route.ts:30-50 | each source, loaded, failed or cut short by a throw, contributes the articles of the containers it processed, at its place; the other sources are unaffected |
| `NewsRouteFacts.AllFailedNothing` | app/api/news/route.ts:30-54 | if every source fails before processing a container, nothing is collected |
| `NewsRouteFacts.HttpLookalikeKept` | app/api/news/route.ts:42-45 | the relative link "http-guide.html" is stored verbatim, because the test is a literal prefix test |
| `NewsRouteFacts.BlankHrefResolved` | app/api/news/route.ts:38-45 | an href of one blank is truthy, is not trimmed, and its resolution is stored |
| `NewsRouteFacts.BlankTitleDropped` | app/api/news/route.ts:37-41 | a container whose title text is blank is dropped even with a usable link |
| `NewsRouteFacts.UpperCaseSchemeResolved` | app/api/news/route.ts:42-45 | the link "HTTPS://example.com/a" fails the case-sensitive test and is resolved |
| `NewsRouteFacts.EmptyObjectRefused` | app/api/news/route.ts:53 | the requested response, `{}` with status 204, cannot be built |
| `NewsRouteFacts.NothingCollectedAnswers500` | app/api/news/route.ts:52-59 | as written, when every source fails before any container, the handler answers 500 |

## Left out

- app/page.tsx is not part of this model. It is the React page: state hooks, loading skeleton, cards, the client-side fetch and the next-08:00 refresh timer.
- The HTTP request (`axios.get`) and the HTML parsing and querying (Cheerio `load`, selector matching, `.text()`, `.attr('href')`) are left out. Their results are the `fetch` parameter. The selector fields of each source are kept in the table but not interpreted.
- URL resolution (`new URL(href, base)`, the WHATWG URL Standard basic URL parser) is left out. It is the `resolve` parameter, which may fail.
- `fetch` is a function of the source, so one source listed twice would get the same outcome both times. The table lists three distinct sources.
- A non-empty `Threw(processed)` stands for a library fault partway through a page. The usual failure is a request that fails, `Threw([])`.
- `NextResponse` headers, JSON serialisation text and `console.error` logging are left out. The response is a `Response(status, body)` value. `JsonResponse` models only the status checks of the Fetch standard's "initialize a response".
- The outer `catch` (route.ts:57-59) is reached only through a fault in `NextResponse.json`. `AnswerAsWritten` models the one such fault the code can hit: the 204 with a body. Other faults inside the runtime are left out.
- JavaScript strings are UTF-16 code units and Dafny strings are Unicode scalar values. Every trimmed white-space code point is in the Basic Multilingual Plane, so trimming agrees. The white-space set is Unicode's "Zs" category as of Unicode 15.

## Findings

| source | as written | input that shows it | evidently intended | confidence | as-written member | corrected member |
|---|---|---|---|---|---|---|
| app/api/news/route.ts:52-53 | with nothing collected, the code asks `NextResponse.json({}, { status: 204 })`; the Fetch standard's "initialize a response" throws a TypeError for a body on the null body status 204, so the outer `catch` answers 500 | every source fails before its first container (`NothingCollectedAnswers500`) | 204 No Content with no body | high, from the Fetch standard; not executed | `NewsRoute.AnswerAsWritten` | `NewsRoute.Get` |
