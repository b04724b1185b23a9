/** What the news route guarantees about the articles it collects: the order
    they come in, how many there are, which containers give one, and that a
    source that fails takes nothing away from the others. */
module NewsRouteFacts {
  import opened Wrappers
  import opened JsString
  import opened NewsRoute

  /** A second, independent reading of the callback loop: take the
      containers from the first one on, keep each article in front of what
      the rest give, and stop at the first throw. */
  function Kept(cs: seq<Container>, base: string, resolve: Resolver): Scan
  {
    if cs == [] then Scan([], false)
    else match Visit(cs[0], base, resolve)
      case Abort => Scan([], true)
      case Skip => Kept(cs[1..], base, resolve)
      case Push(a) =>
        var rest := Kept(cs[1..], base, resolve);
        Scan([a] + rest.articles, rest.threw)
  }

  /** The number of containers in `cs` that the callback turns into an article. */
  function Accepted(cs: seq<Container>, base: string, resolve: Resolver): nat
  {
    if cs == [] then 0
    else (if Visit(cs[0], base, resolve).Push? then 1 else 0) + Accepted(cs[1..], base, resolve)
  }

  /** Extending the front-first reading by one container at the end is one
      step of the loop. */
  lemma {:induction false} KeptSnoc(cs: seq<Container>, c: Container, base: string, resolve: Resolver)
    ensures Kept(cs + [c], base, resolve) == Advance(Kept(cs, base, resolve), Visit(c, base, resolve))
  {
    if cs == [] {
      assert [c][1..] == [];
      match Visit(c, base, resolve)
      case Push(a) => assert [a] + [] == [] + [a];
      case _ =>
    } else {
      assert (cs + [c])[1..] == cs[1..] + [c];
      KeptSnoc(cs[1..], c, base, resolve);
      var first := Visit(cs[0], base, resolve);
      var rest := Kept(cs[1..], base, resolve);
      var step := Visit(c, base, resolve);
      if first.Push? && !rest.threw && step.Push? {
        assert [first.article] + (rest.articles + [step.article]) ==
               ([first.article] + rest.articles) + [step.article];
      }
    }
  }

  /** The loop's articles are the containers' articles in document order,
      filtered by the callback's rule and cut at the first throw: the last-first
      definition and the first-first one agree on every input. */
  lemma {:induction false} HarvestIsKept(cs: seq<Container>, base: string, resolve: Resolver)
    ensures Harvest(cs, base, resolve) == Kept(cs, base, resolve)
  {
    if cs != [] {
      var init := cs[..|cs| - 1];
      HarvestIsKept(init, base, resolve);
      KeptSnoc(init, cs[|cs| - 1], base, resolve);
      assert init + [cs[|cs| - 1]] == cs;
    }
  }

  /** A source's loop ends with a throw exactly when one of its containers
      has a non-empty title, an href that does not start with "http", and an
      href that cannot be resolved against the base URL. */
  lemma {:induction false} ThrewIff(cs: seq<Container>, base: string, resolve: Resolver)
    ensures Harvest(cs, base, resolve).threw <==>
            exists k :: 0 <= k < |cs| && Visit(cs[k], base, resolve).Abort?
  {
    KeptThrewIff(cs, base, resolve);
    HarvestIsKept(cs, base, resolve);
  }

  /** ThrewIff for the first-first reading. */
  lemma {:induction false} KeptThrewIff(cs: seq<Container>, base: string, resolve: Resolver)
    ensures Kept(cs, base, resolve).threw <==>
            exists k :: 0 <= k < |cs| && Visit(cs[k], base, resolve).Abort?
  {
    if cs != [] {
      KeptThrewIff(cs[1..], base, resolve);
      if exists k :: 1 <= k < |cs| && Visit(cs[k], base, resolve).Abort? {
        var k :| 1 <= k < |cs| && Visit(cs[k], base, resolve).Abort?;
        assert cs[1..][k - 1] == cs[k];
      }
      if exists k :: 0 <= k < |cs| - 1 && Visit(cs[1..][k], base, resolve).Abort? {
        var k :| 0 <= k < |cs| - 1 && Visit(cs[1..][k], base, resolve).Abort?;
        assert cs[1..][k] == cs[k + 1];
      }
    }
  }

  /** When no container throws, the source gives exactly one article per
      accepted container, and nothing aborts it. */
  lemma {:induction false} NoThrowCount(cs: seq<Container>, base: string, resolve: Resolver)
    requires forall k :: 0 <= k < |cs| ==> !Visit(cs[k], base, resolve).Abort?
    ensures !Harvest(cs, base, resolve).threw
    ensures |Harvest(cs, base, resolve).articles| == Accepted(cs, base, resolve)
  {
    HarvestIsKept(cs, base, resolve);
    KeptCount(cs, base, resolve);
  }

  /** NoThrowCount for the first-first reading. */
  lemma {:induction false} KeptCount(cs: seq<Container>, base: string, resolve: Resolver)
    requires forall k :: 0 <= k < |cs| ==> !Visit(cs[k], base, resolve).Abort?
    ensures !Kept(cs, base, resolve).threw
    ensures |Kept(cs, base, resolve).articles| == Accepted(cs, base, resolve)
  {
    if cs != [] {
      assert !Visit(cs[0], base, resolve).Abort?;
      forall k | 0 <= k < |cs| - 1 ensures !Visit(cs[1..][k], base, resolve).Abort? {
        assert cs[1..][k] == cs[k + 1];
      }
      KeptCount(cs[1..], base, resolve);
    }
  }

  /** When container `k` is the first to throw, the source's articles are
      those of the containers before it, one per accepted container, and
      none of the containers after it is looked at. */
  lemma FirstThrow(cs: seq<Container>, k: nat, base: string, resolve: Resolver)
    requires k < |cs| && Visit(cs[k], base, resolve).Abort?
    requires forall m :: 0 <= m < k ==> !Visit(cs[m], base, resolve).Abort?
    ensures Harvest(cs, base, resolve) == Scan(Harvest(cs[..k], base, resolve).articles, true)
    ensures |Harvest(cs, base, resolve).articles| == Accepted(cs[..k], base, resolve)
  {
    forall m | 0 <= m < k ensures !Visit(cs[..k][m], base, resolve).Abort? {
      assert cs[..k][m] == cs[m];
    }
    NoThrowCount(cs[..k], base, resolve);
    HarvestSnoc(cs, k, base, resolve);
    HarvestAbortSticks(cs, k + 1, base, resolve);
  }

  /** Every article a source gives has a non-empty, trimmed title and a
      trimmed description. */
  lemma {:induction false} HarvestWellFormed(cs: seq<Container>, base: string, resolve: Resolver)
    ensures forall a :: a in Harvest(cs, base, resolve).articles ==> WellFormed(a)
  {
    if cs != [] {
      HarvestWellFormed(cs[..|cs| - 1], base, resolve);
    }
  }

  /** Every article the handler collects has a non-empty, trimmed title and
      a trimmed description. */
  lemma {:induction false} GatherWellFormed(sources: seq<NewsSource>, fetch: Fetcher, resolve: Resolver)
    ensures forall a :: a in Gather(sources, fetch, resolve) ==> WellFormed(a)
  {
    if sources != [] {
      var last := sources[|sources| - 1];
      GatherWellFormed(sources[..|sources| - 1], fetch, resolve);
      HarvestWellFormed(Visited(fetch(last)), last.url, resolve);
    }
  }

  /** Articles pushed from the first `j` containers stay, in place, whatever
      the later containers do. */
  lemma {:induction false} HarvestKeepsPrefix(cs: seq<Container>, j: nat, base: string, resolve: Resolver)
    requires j <= |cs|
    ensures Harvest(cs[..j], base, resolve).articles <= Harvest(cs, base, resolve).articles
  {
    if j < |cs| {
      var init := cs[..|cs| - 1];
      assert init[..j] == cs[..j];
      HarvestKeepsPrefix(init, j, base, resolve);
    } else {
      assert cs[..j] == cs;
    }
  }

  /** Concatenating the parts of two runs of sources is concatenating the
      two results. */
  lemma {:induction false} ConcatAppend(s1: seq<NewsSource>, s2: seq<NewsSource>, part: NewsSource -> seq<NewsArticle>)
    ensures Concat(s1 + s2, part) == Concat(s1, part) + Concat(s2, part)
  {
    if s2 == [] {
      assert s1 + s2 == s1;
    } else {
      var init := s2[..|s2| - 1];
      var both := s1 + s2;
      assert both[..|both| - 1] == s1 + init;
      ConcatAppend(s1, init, part);
    }
  }

  /** The articles of two runs of sources are those of the first followed by
      those of the second: how the first sources ended never changes what
      the later ones contribute, nor where. */
  lemma GatherAppend(s1: seq<NewsSource>, s2: seq<NewsSource>, fetch: Fetcher, resolve: Resolver)
    ensures Gather(s1 + s2, fetch, resolve) == Gather(s1, fetch, resolve) + Gather(s2, fetch, resolve)
  {
    ConcatAppend(s1, s2, source => SourceArticles(source, fetch, resolve));
  }

  /** The position of the first container whose callback throws, or `|cs|`
      when none does. */
  function FirstAbortAt(cs: seq<Container>, base: string, resolve: Resolver): (r: nat)
    ensures r <= |cs|
    ensures forall m :: 0 <= m < r ==> !Visit(cs[m], base, resolve).Abort?
    ensures r < |cs| ==> Visit(cs[r], base, resolve).Abort?
  {
    if cs == [] || Visit(cs[0], base, resolve).Abort? then 0
    else 1 + FirstAbortAt(cs[1..], base, resolve)
  }

  /** The number of accepted containers a source's loop reaches: those
      before its first throw. */
  function SourceCount(cs: seq<Container>, base: string, resolve: Resolver): nat
  {
    Accepted(cs[..FirstAbortAt(cs, base, resolve)], base, resolve)
  }

  /** A source gives exactly one article per accepted container before its
      first throw. */
  lemma SourceCountIsLength(cs: seq<Container>, base: string, resolve: Resolver)
    ensures |Harvest(cs, base, resolve).articles| == SourceCount(cs, base, resolve)
  {
    var k := FirstAbortAt(cs, base, resolve);
    if k < |cs| {
      FirstThrow(cs, k, base, resolve);
    } else {
      assert cs[..k] == cs;
      NoThrowCount(cs, base, resolve);
    }
  }

  /** The number of accepted containers reached over all `sources`. */
  function AcceptedTotal(sources: seq<NewsSource>, fetch: Fetcher, resolve: Resolver): nat
  {
    if sources == [] then 0
    else
      var last := sources[|sources| - 1];
      AcceptedTotal(sources[..|sources| - 1], fetch, resolve) + SourceCount(Visited(fetch(last)), last.url, resolve)
  }

  /** The last source adds its count of articles to the count of those
      before it. */
  lemma GatherCountStep(sources: seq<NewsSource>, fetch: Fetcher, resolve: Resolver)
    requires sources != []
    requires |Gather(sources[..|sources| - 1], fetch, resolve)| == AcceptedTotal(sources[..|sources| - 1], fetch, resolve)
    ensures |Gather(sources, fetch, resolve)| == AcceptedTotal(sources, fetch, resolve)
  {
    var init := sources[..|sources| - 1];
    var last := sources[|sources| - 1];
    assert init + [last] == sources;
    GatherSnoc(init, last, fetch, resolve);
    SourceCountIsLength(Visited(fetch(last)), last.url, resolve);
  }

  /** The handler collects exactly one article per accepted container over
      every source, counting in each source only the containers before its
      first throw. */
  lemma {:induction false} GatherCount(sources: seq<NewsSource>, fetch: Fetcher, resolve: Resolver)
    ensures |Gather(sources, fetch, resolve)| == AcceptedTotal(sources, fetch, resolve)
  {
    if sources != [] {
      GatherCount(sources[..|sources| - 1], fetch, resolve);
      GatherCountStep(sources, fetch, resolve);
    }
  }

  /** Every source contributes the articles of the containers its loop ran
      on, at its place in the table, and the sources before and after it
      contribute exactly what they would have anyway. This holds whether
      the source loaded fully, threw in its request or load (`Threw`), or
      was cut short by a link that failed to resolve. */
  lemma SourceIsolated(sources: seq<NewsSource>, i: nat, fetch: Fetcher, resolve: Resolver)
    requires i < |sources|
    ensures Gather(sources, fetch, resolve) ==
            Gather(sources[..i], fetch, resolve) +
            Harvest(Visited(fetch(sources[i])), sources[i].url, resolve).articles +
            Gather(sources[i + 1..], fetch, resolve)
  {
    assert sources == sources[..i] + [sources[i]] + sources[i + 1..];
    GatherAppend(sources[..i] + [sources[i]], sources[i + 1..], fetch, resolve);
    GatherAppend(sources[..i], [sources[i]], fetch, resolve);
    assert [sources[i]][..0] == [];
  }

  /** When every source fails before any container is processed, nothing is
      collected (and the handler answers 204). */
  lemma {:induction false} AllFailedNothing(sources: seq<NewsSource>, fetch: Fetcher, resolve: Resolver)
    requires forall k :: 0 <= k < |sources| ==> fetch(sources[k]) == Threw([])
    ensures Gather(sources, fetch, resolve) == []
  {
    if sources != [] {
      var init := sources[..|sources| - 1];
      forall k | 0 <= k < |init| ensures fetch(init[k]) == Threw([]) {
        assert init[k] == sources[k];
      }
      AllFailedNothing(init, fetch, resolve);
    }
  }

  /** An href that merely starts with the letters "http" is stored as it is,
      though it is a relative link: the test is a literal prefix test. */
  lemma HttpLookalikeKept(base: string, resolve: Resolver)
    ensures Visit(Container("Guide", Some("http-guide.html"), " Intro "), base, resolve) ==
            Push(NewsArticle("Guide", "http-guide.html", "Intro"))
  {
    var c := Container("Guide", Some("http-guide.html"), " Intro ");
    assert StartsWith("http-guide.html", "http");
    assert Trim(" Intro ") == "Intro" by {
      assert TrimStart(" Intro ") == TrimStart("Intro ");
      assert TrimEnd("Intro ") == TrimEnd("Intro");
    }
    HttpHrefKept(c, base, resolve);
  }

  /** An href made only of white space is truthy and is not trimmed: it is
      handed to URL resolution as it is, and the resolved URL is stored. */
  lemma BlankHrefResolved(base: string, resolve: Resolver, u: string)
    requires resolve(" ", base) == Some(u)
    ensures Visit(Container("Title", Some(" "), ""), base, resolve) ==
            Push(NewsArticle("Title", u, ""))
  {
    var c := Container("Title", Some(" "), "");
    assert !StartsWith(" ", "http");
    OtherHrefResolved(c, base, resolve);
  }

  /** A container whose title text is only white space is dropped, even with
      a usable link. */
  lemma BlankTitleDropped(base: string, resolve: Resolver)
    ensures Visit(Container(" \n\t ", Some("https://example.com/a"), "text"), base, resolve) == Skip
  {
    var c := Container(" \n\t ", Some("https://example.com/a"), "text");
    assert AllWhiteSpace(c.titleText);
    DroppedIff(c, base, resolve);
  }

  /** An upper-case scheme fails the case-sensitive "http" test, so the
      link is handed to URL resolution, and the resolved URL is stored. */
  lemma UpperCaseSchemeResolved(base: string, resolve: Resolver, u: string)
    requires resolve("HTTPS://example.com/a", base) == Some(u)
    ensures Visit(Container("Title", Some("HTTPS://example.com/a"), ""), base, resolve) ==
            Push(NewsArticle("Title", u, ""))
  {
    HttpPrefixIff("HTTPS://example.com/a");
    OtherHrefResolved(Container("Title", Some("HTTPS://example.com/a"), ""), base, resolve);
  }

  /** The JSON answer `{}` with status 204 that the handler asks for when
      nothing was collected is refused: 204 is a null body status. */
  lemma EmptyObjectRefused()
    ensures JsonResponse(EmptyObject, 204) == None
  {
  }

  /** As written, the handler answers 500 (not 204) when every source fails
      before its first container: the requested 204 response cannot be
      built, and the outer `catch` answers instead. The intended handler
      `Get` answers 204 with no body on the same input. */
  lemma NothingCollectedAnswers500(fetch: Fetcher, resolve: Resolver)
    requires forall k :: 0 <= k < |NEWS_SOURCES| ==> fetch(NEWS_SOURCES[k]) == Threw([])
    ensures AnswerAsWritten(Gather(NEWS_SOURCES, fetch, resolve)).status == 500
  {
    AllFailedNothing(NEWS_SOURCES, fetch, resolve);
  }
}
