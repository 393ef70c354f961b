/** Reviewing the draft (query_action.py, `ResponseReview.review_and_enhance_response`): one
    more model call, whose answer either accepts the draft through a marker phrase or
    replaces it outright. */
module Review {
  import opened Wrappers
  import opened Text
  import opened Search
  import opened Prompts

  /** The marker phrase ("use the original answer") that accepts the draft. */
  const AcceptMarker := "원본 답변 사용"
  /** Characters of the primary article's content quoted in the review prompt. */
  const ExcerptLength: nat := 300

  /** The review prompt: the article review when `hasArticles`, else the general review.
      Reading the title of a missing article raises, which gives `None`. */
  function ReviewPrompt(query: string, draft: string, intent: string, best: Option<Article>, hasArticles: bool): (p: Option<Prompt>)
    ensures p.None? <==> hasArticles && best.None?
    ensures p.Some? ==> (p.value.ArticleReviewPrompt? <==> hasArticles)
    ensures p.Some? ==> (p.value.GeneralReviewPrompt? <==> !hasArticles)
    ensures p.Some? && hasArticles ==>
      && p.value.title == best.value.title
      && p.value.excerpt == Take(best.value.content, ExcerptLength) + Ellipsis
      && p.value.draft == draft && p.value.query == query && p.value.intent == intent
    ensures p.Some? && !hasArticles ==> p.value.draft == draft && p.value.query == query && p.value.intent == intent
  {
    if hasArticles then
      match best
      case None => None
      case Some(a) =>
        Some(ArticleReviewPrompt(query, intent, a.title, Take(a.content, ExcerptLength) + Ellipsis, a.publishedDate, draft))
    else
      Some(GeneralReviewPrompt(query, intent, draft))
  }

  /** `review_and_enhance_response`: the draft, unchanged, when the review contains the
      marker; otherwise the review itself, verbatim. A failing call gives `None`. */
  function ReviewAndEnhance(query: string, draft: string, intent: string, best: Option<Article>,
                            hasArticles: bool, model: Model): (r: Option<string>)
    ensures var p := ReviewPrompt(query, draft, intent, best, hasArticles);
      r.Some? <==> p.Some? && model(p.value).Some?
    ensures r.Some? ==>
      var review := model(ReviewPrompt(query, draft, intent, best, hasArticles).value).value;
      && (IsSubstring(AcceptMarker, review) ==> r.value == draft)
      && (!IsSubstring(AcceptMarker, review) ==> r.value == review)
  {
    match ReviewPrompt(query, draft, intent, best, hasArticles)
    case None => None
    case Some(prompt) =>
      match model(prompt)
      case None => None
      case Some(review) =>
        if IsSubstring(AcceptMarker, review) then Some(draft) else Some(review)
  }

  /** The marker never reaches the final answer from the review: a final answer that
      contains it is the draft, which already contained it. */
  lemma MarkerNotLeaked(query: string, draft: string, intent: string, best: Option<Article>,
                        hasArticles: bool, model: Model)
    requires ReviewAndEnhance(query, draft, intent, best, hasArticles, model).Some?
    requires IsSubstring(AcceptMarker, ReviewAndEnhance(query, draft, intent, best, hasArticles, model).value)
    ensures ReviewAndEnhance(query, draft, intent, best, hasArticles, model).value == draft
  {
  }
}
