/** Drafting the first answer (query_action.py, `ResponseGeneration`): the keyword-overlap
    selector and the choice among the three drafting prompts. */
module Drafting {
  import opened Wrappers
  import opened Text
  import opened Search
  import opened Prompts

  /** Below this search score the primary article is only weakly relevant. */
  const LowRelevance: real := 0.3
  /** Secondary articles returned: positions 1 to 8 of the result list. */
  const MaxSecondary: nat := 8
  /** Related articles named in the full-context prompt. */
  const MaxRelated: nat := 3

  // ---------------------------------------------------------------------------------------
  // find_relevant_article

  /** The distinct words of the lowercased query, with `?` and `!` read as spaces. */
  function QueryTerms(query: string): set<string> {
    var words := Split(Replace(Replace(Lower(query), '?', ' '), '!', ' '));
    set w | w in words
  }

  /** The lowercased `title + " " + content` that the terms are looked up in. */
  function SearchableText(a: Article): string {
    Lower(a.title + " " + a.content)
  }

  /** How many of the terms occur in the text. */
  function Overlap(terms: set<string>, text: string): (n: nat)
    ensures n <= |terms|
  {
    var found := set t | t in terms && IsSubstring(t, text);
    assert terms == found + (terms - found);
    |found|
  }

  /** The overlap of each article with the terms. */
  function Overlaps(terms: set<string>, articles: seq<Article>): (r: seq<nat>)
    ensures |r| == |articles|
    ensures forall j :: 0 <= j < |articles| ==> r[j] == Overlap(terms, SearchableText(articles[j]))
  {
    seq(|articles|, j requires 0 <= j < |articles| => Overlap(terms, SearchableText(articles[j])))
  }

  /** Position `k` holds the first largest value of `scores`. */
  predicate FirstBest(scores: seq<nat>, k: int) {
    && 0 <= k < |scores|
    && (forall j :: 0 <= j < |scores| ==> scores[j] <= scores[k])
    && (forall j :: 0 <= j < k ==> scores[j] < scores[k])
  }

  /** `find_relevant_article`: the first article with the most query terms in its text, and
      the fraction of the terms it contains; `(None, 0.0)` when no article holds any term. */
  method FindRelevantArticle(query: string, articles: seq<Article>) returns (best: Option<Article>, relevance: real)
    ensures var scores := Overlaps(QueryTerms(query), articles);
      best.None? <==> forall j :: 0 <= j < |articles| ==> scores[j] == 0
    ensures best.None? ==> relevance == 0.0
    ensures best.Some? ==> 0.0 < relevance <= 1.0
    ensures best.Some? ==> var terms := QueryTerms(query); var scores := Overlaps(terms, articles);
      exists k :: FirstBest(scores, k) && best == Some(articles[k])
        && relevance == (scores[k] as real) / (|terms| as real)
  {
    var terms := QueryTerms(query);
    ghost var scores := Overlaps(terms, articles);
    best := None;
    var maxScore: nat := 0;
    ghost var k := 0;
    for i := 0 to |articles|
      invariant best.None? ==> maxScore == 0 && forall j :: 0 <= j < i ==> scores[j] == 0
      invariant best.Some? ==> 0 <= k < i && best == Some(articles[k]) && 0 < maxScore == scores[k]
      invariant forall j :: 0 <= j < i ==> scores[j] <= maxScore
      invariant best.Some? ==> forall j :: 0 <= j < k ==> scores[j] < maxScore
    {
      var score := Overlap(terms, SearchableText(articles[i]));
      if score > maxScore {
        maxScore := score;
        best := Some(articles[i]);
        k := i;
      }
    }
    if best.None? || maxScore == 0 {
      return None, 0.0;
    }
    assert maxScore <= |terms|;
    var ratio := (maxScore as real) / (|terms| as real);
    RatioAtMostOne(maxScore, |terms|);
    relevance := if ratio <= 1.0 then ratio else 1.0;
    assert FirstBest(scores, k);
  }

  lemma RatioAtMostOne(n: nat, d: nat)
    requires 0 < n <= d
    ensures 0.0 < (n as real) / (d as real) <= 1.0
  {
  }

  // ---------------------------------------------------------------------------------------
  // generate_initial_response

  /** The titles and dates of the first three related articles. */
  function RelatedEntries(related: seq<Article>): (r: seq<RelatedEntry>)
    ensures |r| == if |related| < MaxRelated then |related| else MaxRelated
    ensures forall i :: 0 <= i < |r| ==> r[i] == RelatedEntry(related[i].title, related[i].publishedDate)
  {
    var n := if |related| < MaxRelated then |related| else MaxRelated;
    seq(n, i requires 0 <= i < n => RelatedEntry(related[i].title, related[i].publishedDate))
  }

  /** The drafting prompt: chosen by whether there is an article and how the first one
      scores against 0.3, and nothing else. The query itself is not part of any of them. */
  function DraftPrompt(intent: string, articles: seq<Article>): (p: Prompt)
    ensures p.KnowledgePrompt? <==> articles == []
    ensures p.HybridPrompt? <==> articles != [] && articles[0].score < LowRelevance
    ensures p.FullContextPrompt? <==> articles != [] && articles[0].score >= LowRelevance
    ensures p.intent == intent
    ensures !p.KnowledgePrompt? ==>
      p.title == articles[0].title && p.content == articles[0].content
      && p.publishedDate == articles[0].publishedDate
    ensures p.FullContextPrompt? ==>
      && |p.related| <= MaxRelated
      && |p.related| == (if |articles| - 1 < MaxRelated then |articles| - 1 else MaxRelated)
      && forall i :: 0 <= i < |p.related| ==>
           p.related[i].title == articles[i + 1].title && p.related[i].publishedDate == articles[i + 1].publishedDate
  {
    if articles == [] then KnowledgePrompt(intent)
    else
      var best := articles[0];
      if best.score < LowRelevance then
        HybridPrompt(intent, best.title, best.content, best.publishedDate)
      else
        FullContextPrompt(intent, best.title, best.content, best.publishedDate, RelatedEntries(Drop(articles, 1)))
  }

  /** The five values `generate_initial_response` returns. */
  datatype Draft = Draft(primary: Option<Article>, secondary: seq<Article>, score: real,
                         text: string, intent: string)

  /** `generate_initial_response`: intent analysis first, then one drafting call. A failing
      model call gives `None` (the exception propagates to the caller). */
  function GenerateInitialResponse(query: string, articles: seq<Article>, model: Model): (r: Option<Draft>)
    ensures r.Some? <==>
      model(IntentPrompt(query)).Some? && model(DraftPrompt(model(IntentPrompt(query)).value, articles)).Some?
    ensures r.Some? ==>
      && r.value.intent == model(IntentPrompt(query)).value
      && r.value.text == model(DraftPrompt(r.value.intent, articles)).value
    ensures r.Some? && articles == [] ==>
      r.value.primary == None && r.value.secondary == [] && r.value.score == 0.0
    ensures r.Some? && articles != [] ==>
      && r.value.primary == Some(articles[0])
      && r.value.score == articles[0].score
      && |r.value.secondary| == (if |articles| - 1 < MaxSecondary then |articles| - 1 else MaxSecondary)
      && forall i :: 0 <= i < |r.value.secondary| ==> r.value.secondary[i] == articles[i + 1]
  {
    match model(IntentPrompt(query))
    case None => None
    case Some(intent) =>
      match model(DraftPrompt(intent, articles))
      case None => None
      case Some(text) =>
        if articles == [] then Some(Draft(None, [], 0.0, text, intent))
        else Some(Draft(Some(articles[0]), Take(Drop(articles, 1), MaxSecondary), articles[0].score, text, intent))
  }

  /** With results sorted by score, the primary article scores at least as high as every
      result, and so as every secondary article. */
  lemma {:induction false} PrimaryIsBest(articles: seq<Article>, i: nat)
    requires SortedByScore(articles)
    requires i < |articles|
    ensures articles[i].score <= articles[0].score
  {
    if i > 0 {
      PrimaryIsBest(articles, i - 1);
    }
  }
}
