/** The search client (query_action.py, `DatabaseSearch.semantic_search`): the request it
    sends and how it turns the hits of the response into articles. The search engine itself
    is an oracle from request to response. */
module Search {
  import opened Wrappers
  import opened Text
  import opened Keywords

  /** Default number of hits asked for. */
  const DefaultSize: nat := 7
  /** Characters of the content kept in a preview that has no highlight. */
  const PreviewLength: nat := 300
  const FragmentSeparator := " ... "
  const Ellipsis := "..."
  /** What a missing date field defaults to ("no date information"). */
  const NoDateInfo := "날짜 정보 없음"

  /** The part of the request the core decides: the raw query for the phrase clause, the
      space-joined keywords for the fuzzy multi-field clause, and the number of hits. */
  datatype SearchRequest = SearchRequest(phrase: string, terms: string, size: nat)

  /** The `highlight` object of a hit: the fragments for each field, absent when none came. */
  datatype Highlight = Highlight(title: Option<seq<string>>, content: Option<seq<string>>)

  /** One hit: `_score`, the `_source` fields asked for (any of which may be missing) and the
      highlight (both fields absent when the hit has none). */
  datatype Hit = Hit(
    score: real,
    title: Option<string>,
    cleanedContent: Option<string>,
    url: Option<string>,
    crawledDate: Option<string>,
    publishedDate: Option<string>,
    categories: Option<seq<string>>,
    highlight: Highlight)

  /** A processed search result. */
  datatype Article = Article(
    title: string,
    content: string,
    contentPreview: string,
    url: string,
    crawledDate: string,
    publishedDate: string,
    categories: seq<string>,
    score: real,
    highlights: Highlight)

  /** The search engine: `None` when the call raises. */
  type SearchEngine = SearchRequest -> Option<seq<Hit>>

  /** The request: the keyword string sent to the fuzzy clause splits back into exactly
      the extracted keywords. */
  function BuildSearchRequest(query: string, size: nat): (r: SearchRequest)
    ensures r.phrase == query && r.size == size
    ensures Split(r.terms) == ExtractKeywords(query)
  {
    var keywords := ExtractKeywords(query);
    SplitJoin(keywords);
    SearchRequest(query, Join(" ", keywords), size)
  }

  /** `content_preview`: the content highlight fragments joined by `" ... "`, or, when that
      join is empty, the first 300 characters of the content followed by `"..."`. */
  function ContentPreview(fragments: seq<string>, content: string): (r: string)
    ensures fragments != [] && fragments != [""] ==> r == Join(FragmentSeparator, fragments)
    ensures fragments == [] || fragments == [""] ==>
      && |Ellipsis| <= |r| <= PreviewLength + |Ellipsis|
      && r[..|r| - |Ellipsis|] <= content
      && r[|r| - |Ellipsis|..] == Ellipsis
      && (|content| < PreviewLength ==> r == content + Ellipsis)
      && (|content| >= PreviewLength ==> |r| == PreviewLength + |Ellipsis|)
  {
    var joined := Join(FragmentSeparator, fragments);
    if joined != [] then joined
    else
      var r := Take(content, PreviewLength) + Ellipsis;
      assert r[..|r| - |Ellipsis|] == Take(content, PreviewLength);
      r
  }

  /** A hit has the three `_source` keys that are read without a default. */
  predicate Complete(h: Hit) {
    h.title.Some? && h.cleanedContent.Some? && h.url.Some?
  }

  /** The dictionary built for one hit. */
  function ToArticle(h: Hit): (a: Article)
    requires Complete(h)
    ensures a.title == h.title.value && a.content == h.cleanedContent.value && a.url == h.url.value
    ensures a.score == h.score && a.highlights == h.highlight
  {
    var content := h.cleanedContent.value;
    Article(
      h.title.value,
      content,
      ContentPreview(h.highlight.content.GetOr([]), content),
      h.url.value,
      h.crawledDate.GetOr(NoDateInfo),
      h.publishedDate.GetOr(NoDateInfo),
      h.categories.GetOr([]),
      h.score,
      h.highlight)
  }

  /** The optional fields of an article: a missing date reads "날짜 정보 없음", missing
      categories read `[]`, and a hit without content highlights gets the truncated-content
      preview. */
  lemma ArticleDefaults(h: Hit)
    requires Complete(h)
    ensures h.crawledDate.None? ==> ToArticle(h).crawledDate == NoDateInfo
    ensures h.publishedDate.None? ==> ToArticle(h).publishedDate == NoDateInfo
    ensures h.categories.None? ==> ToArticle(h).categories == []
    ensures h.crawledDate.Some? ==> ToArticle(h).crawledDate == h.crawledDate.value
    ensures h.publishedDate.Some? ==> ToArticle(h).publishedDate == h.publishedDate.value
    ensures h.categories.Some? ==> ToArticle(h).categories == h.categories.value
    ensures h.highlight.content.None? ==>
      ToArticle(h).contentPreview == Take(h.cleanedContent.value, PreviewLength) + Ellipsis
  {
  }

  /** What `semantic_search` returns for a response: nothing when the call raised or when a
      hit lacks a required key (the `KeyError` is caught and the articles built so far are
      dropped), else one article per hit, in the engine's order. */
  function SearchResults(response: Option<seq<Hit>>): (r: seq<Article>)
    ensures response.None? ==> r == []
    ensures response.Some? && (exists i :: 0 <= i < |response.value| && !Complete(response.value[i])) ==> r == []
    ensures response.Some? && (forall i :: 0 <= i < |response.value| ==> Complete(response.value[i])) ==>
      && |r| == |response.value|
      && forall i :: 0 <= i < |r| ==> r[i] == ToArticle(response.value[i])
  {
    match response
    case None => []
    case Some(hits) =>
      if forall i :: 0 <= i < |hits| ==> Complete(hits[i])
      then seq(|hits|, i requires 0 <= i < |hits| && Complete(hits[i]) => ToArticle(hits[i]))
      else []
  }

  /** `semantic_search`: builds the request, asks the engine, and shapes the hits one by
      one; any failure gives the empty list. */
  method SemanticSearch(query: string, size: nat, engine: SearchEngine) returns (articles: seq<Article>)
    ensures articles == SearchResults(engine(BuildSearchRequest(query, size)))
  {
    var request := BuildSearchRequest(query, size);
    var response := engine(request);
    if response.None? {
      return [];
    }
    articles := ProcessHits(response.value);
  }

  /** The loop over `result["hits"]["hits"]`: one article per hit, and `[]` as soon as a
      hit lacks a required key. */
  method ProcessHits(hits: seq<Hit>) returns (articles: seq<Article>)
    ensures articles == SearchResults(Some(hits))
  {
    var processed: seq<Article> := [];
    var i := 0;
    while i < |hits|
      invariant 0 <= i <= |hits|
      invariant forall j :: 0 <= j < i ==> Complete(hits[j])
      invariant |processed| == i
      invariant forall j :: 0 <= j < i ==> processed[j] == ToArticle(hits[j])
    {
      var hit := hits[i];
      if !Complete(hit) {
        return [];
      }
      var article := ToArticle(hit);
      processed := processed + [article];
      i := i + 1;
    }
    return processed;
  }

  /** Scores never increase along the list. */
  predicate SortedByScore(articles: seq<Article>) {
    forall i :: 0 < i < |articles| ==> articles[i - 1].score >= articles[i].score
  }

  /** What the request asks of the engine: at most `size` hits, by descending score. */
  predicate HonoursRequest(hits: seq<Hit>, size: nat) {
    |hits| <= size && forall i :: 0 < i < |hits| ==> hits[i - 1].score >= hits[i].score
  }

  /** A response that honours the request gives at most `size` articles, by descending score. */
  lemma SearchFollowsRanking(response: Option<seq<Hit>>, size: nat)
    requires response.Some? && HonoursRequest(response.value, size)
    ensures |SearchResults(response)| <= size && SortedByScore(SearchResults(response))
  {
  }
}
