/** The news route: the fixed table of news sources and the `GET` handler that
    walks it, turns every container node found on a source's page into an
    article or drops it, and answers 204 when nothing was collected and 200
    with the articles otherwise.

    The network request and the HTML querying are inputs: `fetch` gives, for
    each source, the containers its page yielded (and whether something threw
    part-way), and `resolve` stands for resolving a link against a base URL,
    which may throw. */
module NewsRoute {
  import opened Wrappers
  import opened JsString

  /** One collected article. */
  datatype NewsArticle = NewsArticle(title: string, url: string, description: string)

  /** One source: the page to fetch (also the base for relative links) and
      the selectors for its containers and their title, description and link. */
  datatype NewsSource = NewsSource(
    url: string,
    selector: string,
    titleSelector: string,
    descriptionSelector: string,
    linkSelector: string)

  /** The sources, walked in this order. */
  const NEWS_SOURCES: seq<NewsSource> := [
    NewsSource("https://g1.globo.com/", ".feed-post-body", ".feed-post-link", ".feed-post-resumo", ".feed-post-link"),
    NewsSource("https://www.tecmundo.com.br/", ".tec--card__info", ".tec--card__title__link", ".tec--card__description", ".tec--card__title__link"),
    NewsSource("https://www.bbc.com/portuguese", ".gs-c-promo", ".gs-c-promo-heading__title", ".gs-c-promo-summary", "a.gs-c-promo-heading")
  ]

  /** The table holds three sources with pairwise different page URLs, each
      an absolute "https://" URL, so every source is fetched once and is a
      valid base for its relative links. */
  lemma SourceTable()
    ensures |NEWS_SOURCES| == 3
    ensures forall i, j :: 0 <= i < j < |NEWS_SOURCES| ==> NEWS_SOURCES[i].url != NEWS_SOURCES[j].url
    ensures forall i :: 0 <= i < |NEWS_SOURCES| ==> StartsWith(NEWS_SOURCES[i].url, "https://")
  {
    assert |NEWS_SOURCES[0].url| == 21 && |NEWS_SOURCES[1].url| == 28 && |NEWS_SOURCES[2].url| == 30;
  }

  /** What the selectors found in one container node: the text of the title
      node, the `href` attribute of the link node (absent when there is no
      link node or no attribute) and the text of the description node. The
      texts are untrimmed; a missing node gives the empty text. */
  datatype Container = Container(titleText: string, href: Option<string>, descriptionText: string)

  /** What fetching and loading one source's page gave. */
  datatype PageOutcome =
      /** The page loaded and the callback ran over all these containers. */
    | Loaded(containers: seq<Container>)
      /** Something threw after the callback had run over `processed`; a
          failed request or load has processed nothing. */
    | Threw(processed: seq<Container>)

  /** The containers the callback is run on, in document order. */
  function Visited(o: PageOutcome): seq<Container>
  {
    match o
    case Loaded(cs) => cs
    case Threw(cs) => cs
  }

  /** The network and HTML side of one source. */
  type Fetcher = NewsSource -> PageOutcome

  /** Resolving a link against a base URL: `None` when resolution throws. */
  type Resolver = (string, string) -> Option<string>

  /** What the callback does with one container. */
  datatype Step = Skip | Push(article: NewsArticle) | Abort

  /** An article as the route stores it: the title is non-empty and both
      title and description have no white space at either end. */
  predicate WellFormed(a: NewsArticle)
  {
    a.title != [] && Clean(a.title) && Clean(a.description)
  }

  /** The callback's rule for one container of a page whose base URL is
      `base`: drop it unless the trimmed title and the href are both
      non-empty; keep an href that starts with "http" as it is and resolve any
      other against `base`; abort the source when resolution throws. */
  function Visit(c: Container, base: string, resolve: Resolver): (r: Step)
    ensures r.Push? ==> WellFormed(r.article)
    ensures r.Push? ==> r.article.title == Trim(c.titleText) && r.article.description == Trim(c.descriptionText)
  {
    var title := Trim(c.titleText);
    var description := Trim(c.descriptionText);
    if title == [] || c.href.None? || c.href.value == [] then Skip
    else if StartsWith(c.href.value, "http") then Push(NewsArticle(title, c.href.value, description))
    else match resolve(c.href.value, base)
      case None => Abort
      case Some(u) => Push(NewsArticle(title, u, description))
  }

  /** The state of one source's callback loop: the articles pushed so far and
      whether the loop was stopped by a throw. */
  datatype Scan = Scan(articles: seq<NewsArticle>, threw: bool)

  /** The loop state after one more container whose step is `step`: nothing
      changes once the loop has thrown or when the container is skipped;
      otherwise the article is appended, or the loop stops with a throw. */
  function Advance(prev: Scan, step: Step): Scan
  {
    if prev.threw || step.Skip? then prev
    else if step.Push? then Scan(prev.articles + [step.article], false)
    else Scan(prev.articles, true)
  }

  /** Running the callback over `cs` in order, stopping at the first throw.
      Defined from the last container back, as the loop extends it. It keeps
      at most one article per container. */
  function Harvest(cs: seq<Container>, base: string, resolve: Resolver): (r: Scan)
    ensures |r.articles| <= |cs|
  {
    if cs == [] then Scan([], false)
    else Advance(Harvest(cs[..|cs| - 1], base, resolve), Visit(cs[|cs| - 1], base, resolve))
  }

  /** The articles one source contributes. */
  function SourceArticles(source: NewsSource, fetch: Fetcher, resolve: Resolver): seq<NewsArticle>
  {
    Harvest(Visited(fetch(source)), source.url, resolve).articles
  }

  /** The number of containers the callback was run on over all `sources`. */
  function TotalContainers(sources: seq<NewsSource>, fetch: Fetcher): nat
  {
    if sources == [] then 0
    else TotalContainers(sources[..|sources| - 1], fetch) + |Visited(fetch(sources[|sources| - 1]))|
  }

  /** The concatenation, in table order, of what `part` gives for each source. */
  function Concat(sources: seq<NewsSource>, part: NewsSource -> seq<NewsArticle>): seq<NewsArticle>
  {
    if sources == [] then []
    else Concat(sources[..|sources| - 1], part) + part(sources[|sources| - 1])
  }

  /** Concatenating the sources' articles gives at most one article per
      container the callback was run on. */
  lemma {:induction false} ConcatBound(sources: seq<NewsSource>, fetch: Fetcher, resolve: Resolver)
    ensures |Concat(sources, source => SourceArticles(source, fetch, resolve))| <= TotalContainers(sources, fetch)
  {
    if sources != [] {
      ConcatBound(sources[..|sources| - 1], fetch, resolve);
    }
  }

  /** The articles collected from `sources`: each source's in turn, however
      the sources before it ended; at most one per container processed. */
  function Gather(sources: seq<NewsSource>, fetch: Fetcher, resolve: Resolver): (r: seq<NewsArticle>)
    ensures |r| <= TotalContainers(sources, fetch)
  {
    ConcatBound(sources, fetch, resolve);
    Concat(sources, source => SourceArticles(source, fetch, resolve))
  }

  /** One more source at the end adds its articles at the end. */
  lemma GatherSnoc(sources: seq<NewsSource>, last: NewsSource, fetch: Fetcher, resolve: Resolver)
    ensures Gather(sources + [last], fetch, resolve) ==
            Gather(sources, fetch, resolve) + SourceArticles(last, fetch, resolve)
  {
    var both := sources + [last];
    assert both[..|both| - 1] == sources;
  }

  /** Once a throw has stopped the loop, later containers change nothing. */
  lemma {:induction false} HarvestAbortSticks(cs: seq<Container>, j: nat, base: string, resolve: Resolver)
    requires j <= |cs|
    requires Harvest(cs[..j], base, resolve).threw
    ensures Harvest(cs, base, resolve) == Harvest(cs[..j], base, resolve)
  {
    if j < |cs| {
      assert cs[..|cs| - 1][..j] == cs[..j];
      HarvestAbortSticks(cs[..|cs| - 1], j, base, resolve);
    } else {
      assert cs[..j] == cs;
    }
  }

  /** Extending the callback loop by the container at `j`. */
  lemma HarvestSnoc(cs: seq<Container>, j: nat, base: string, resolve: Resolver)
    requires j < |cs|
    ensures Harvest(cs[..j + 1], base, resolve) ==
            Advance(Harvest(cs[..j], base, resolve), Visit(cs[j], base, resolve))
  {
    assert cs[..j + 1][..j] == cs[..j];
  }

  /** A container is dropped exactly when its title text is all white space
      (or empty), or its link has no href, or the href is empty. */
  lemma DroppedIff(c: Container, base: string, resolve: Resolver)
    ensures Visit(c, base, resolve).Skip? <==>
            AllWhiteSpace(c.titleText) || c.href.None? || c.href.value == []
  {
    TrimEmptyIff(c.titleText);
  }

  /** An href that starts with "http" is stored as it is, untrimmed. */
  lemma HttpHrefKept(c: Container, base: string, resolve: Resolver)
    requires Trim(c.titleText) != [] && c.href.Some? && c.href.value != []
    requires StartsWith(c.href.value, "http")
    ensures Visit(c, base, resolve) == Push(NewsArticle(Trim(c.titleText), c.href.value, Trim(c.descriptionText)))
  {
  }

  /** Any other non-empty href is resolved against the base URL; when that
      throws, the container aborts its source. */
  lemma OtherHrefResolved(c: Container, base: string, resolve: Resolver)
    requires Trim(c.titleText) != [] && c.href.Some? && c.href.value != []
    requires !StartsWith(c.href.value, "http")
    ensures resolve(c.href.value, base).None? ==> Visit(c, base, resolve) == Abort
    ensures resolve(c.href.value, base).Some? ==>
            Visit(c, base, resolve) ==
              Push(NewsArticle(Trim(c.titleText), resolve(c.href.value, base).value, Trim(c.descriptionText)))
  {
  }

  /** The `.each` callback on one container: read the trimmed title, the
      href and the trimmed description; when title and href are non-empty,
      resolve an href not starting with "http" against `base` and push the
      article. Its effect is the container's step: nothing, one article
      appended, or a throw that appends nothing. */
  method Callback(allNews: seq<NewsArticle>, c: Container, base: string, resolve: Resolver)
    returns (news: seq<NewsArticle>, threw: bool)
    ensures var step := Visit(c, base, resolve);
            threw == step.Abort? &&
            news == if step.Push? then allNews + [step.article] else allNews
  {
    news, threw := allNews, false;
    var title := Trim(c.titleText);
    var href := c.href;
    var description := Trim(c.descriptionText);
    if title != [] && href.Some? && href.value != [] {
      var url := href.value;
      if StartsWith(url, "http") {
        HttpHrefKept(c, base, resolve);
      } else {
        OtherHrefResolved(c, base, resolve);
        var resolved := resolve(url, base);
        if resolved.None? {
          return news, true;
        }
        url := resolved.value;
      }
      news := news + [NewsArticle(title, url, description)];
    }
  }

  /** The `.each` loop over one source's containers in document order,
      appending to `allNews` every article the callback keeps; a throw stops
      it, and what was appended before the throw stays. */
  method EachContainer(allNews: seq<NewsArticle>, containers: seq<Container>, base: string, resolve: Resolver)
    returns (news: seq<NewsArticle>, threw: bool)
    ensures news == allNews + Harvest(containers, base, resolve).articles
    ensures threw == Harvest(containers, base, resolve).threw
  {
    news, threw := allNews, false;
    var j := 0;
    while j < |containers| && !threw
      invariant j <= |containers|
      invariant news == allNews + Harvest(containers[..j], base, resolve).articles
      invariant threw == Harvest(containers[..j], base, resolve).threw
    {
      HarvestSnoc(containers, j, base, resolve);
      news, threw := Callback(news, containers[j], base, resolve);
      j := j + 1;
    }
    if threw {
      HarvestAbortSticks(containers, j, base, resolve);
    } else {
      assert containers[..j] == containers;
    }
  }

  /** The sources loop of the handler: each source in table order, its
      articles appended after those of the sources before it; a source that
      throws ends only itself. */
  method Collect(sources: seq<NewsSource>, fetch: Fetcher, resolve: Resolver) returns (allNews: seq<NewsArticle>)
    ensures allNews == Gather(sources, fetch, resolve)
  {
    allNews := [];
    for i := 0 to |sources|
      invariant allNews == Gather(sources[..i], fetch, resolve)
    {
      var source := sources[i];
      var threw;
      allNews, threw := EachContainer(allNews, Visited(fetch(source)), source.url, resolve);
      assert sources[..i + 1] == sources[..i] + [source];
      GatherSnoc(sources[..i], source, fetch, resolve);
    }
    assert sources[..|sources|] == sources;
  }

  /** The JSON values the handler sends. */
  datatype Payload = EmptyObject | Articles(items: seq<NewsArticle>) | ErrorMessage(error: string)

  /** A response body: none at all, or a JSON value. */
  datatype Body = NoBody | Json(payload: Payload)

  /** The handler's response: an HTTP status and a body. */
  datatype Response = Response(status: int, body: Body)

  /** The message of the handler's 500 answer. */
  const FAILURE_MESSAGE := "Erro ao buscar not\U{00ED}cias"

  /** The null body statuses of the Fetch standard: responses that must not
      carry a body. */
  predicate NullBodyStatus(status: int)
  {
    status in {101, 103, 204, 205, 304}
  }

  /** A response the Fetch standard's "initialize a response" accepts: a
      status from 200 to 599, and no body on a null body status. */
  predicate Acceptable(resp: Response)
  {
    200 <= resp.status <= 599 && (NullBodyStatus(resp.status) ==> resp.body.NoBody?)
  }

  /** `NextResponse.json(payload, { status })`: the JSON response, or `None`
      when building it throws. A JSON response always has a body, so it is
      refused (RangeError or TypeError) exactly when the response is not
      acceptable. */
  function JsonResponse(payload: Payload, status: int): (r: Option<Response>)
    ensures r.Some? <==> Acceptable(Response(status, Json(payload)))
    ensures r.Some? ==> r.value.status == status && r.value.body == Json(payload)
  {
    if 200 <= status <= 599 && !NullBodyStatus(status) then Some(Response(status, Json(payload))) else None
  }

  /** The end of the handler as written: ask for 204 with the JSON body `{}`
      when nothing was collected and for 200 with the list otherwise; when
      building that response throws, the outer `catch` asks for 500 with an
      error message (and should that throw too, the framework answers 500
      with no body). Since 204 is a null body status, nothing collected
      ends in 500. */
  function AnswerAsWritten(allNews: seq<NewsArticle>): (r: Response)
    ensures allNews == [] ==> r == Response(500, Json(ErrorMessage(FAILURE_MESSAGE)))
    ensures allNews != [] ==> r == Response(200, Json(Articles(allNews)))
    ensures Acceptable(r)
  {
    var requested := if |allNews| == 0 then JsonResponse(EmptyObject, 204) else JsonResponse(Articles(allNews), 200);
    match requested
    case Some(resp) => resp
    case None =>
      match JsonResponse(ErrorMessage(FAILURE_MESSAGE), 500)
      case Some(fallback) => fallback
      case None => Response(500, NoBody)
  }

  /** The handler, with its evidently intended answer: collect from the
      source table, then answer 204 with no body when nothing was collected
      and 200 with every collected article otherwise. The response is always
      one the runtime can build, and whenever something was collected it is
      the answer of the handler as written. */
  method Get(fetch: Fetcher, resolve: Resolver) returns (resp: Response)
    ensures resp.status == 204 <==> Gather(NEWS_SOURCES, fetch, resolve) == []
    ensures resp.status == 204 ==> resp.body == NoBody
    ensures resp.status != 204 ==> resp == Response(200, Json(Articles(Gather(NEWS_SOURCES, fetch, resolve))))
    ensures Acceptable(resp)
    ensures Gather(NEWS_SOURCES, fetch, resolve) != [] ==> resp == AnswerAsWritten(Gather(NEWS_SOURCES, fetch, resolve))
  {
    var allNews := Collect(NEWS_SOURCES, fetch, resolve);
    if |allNews| == 0 {
      return Response(204, NoBody);
    }
    resp := JsonResponse(Articles(allNews), 200).value;
  }
}
