/** The orchestrator (query_action.py, `NewsChatbot.process_query`): search, draft, review,
    and a fixed reply when anything on the way fails. */
module Chatbot {
  import opened Wrappers
  import opened Search
  import opened Prompts
  import opened Drafting
  import opened Review

  /** The apology shown when processing fails ("an error occurred while processing"). */
  const ErrorMessage := "처리 중 오류가 발생했습니다."

  /** The four values `process_query` returns. */
  datatype Reply = Reply(primary: Option<Article>, related: seq<Article>, score: real, answer: string)

  const ErrorReply := Reply(None, [], 0.0, ErrorMessage)

  /** The final answer of a query whose articles are `articles`, or `None` when a model
      call raised. The review is told about articles exactly when the list is non-empty. */
  function FinalAnswer(query: string, articles: seq<Article>, model: Model): Option<string> {
    match GenerateInitialResponse(query, articles, model)
    case None => None
    case Some(d) =>
      ReviewAndEnhance(query, d.text, d.intent, if articles != [] then d.primary else None, articles != [], model)
  }

  /** `process_query`: never fails. When some model call raises, the reply is the fixed
      error reply; otherwise the primary article is present exactly when the search found
      something, and is then the first result with its score, the related articles are
      the next ones up to eight, and the answer is the reviewed draft. */
  method ProcessQuery(query: string, engine: SearchEngine, model: Model) returns (reply: Reply)
    ensures var articles := SearchResults(engine(BuildSearchRequest(query, DefaultSize)));
      FinalAnswer(query, articles, model).None? ==> reply == ErrorReply
    ensures var articles := SearchResults(engine(BuildSearchRequest(query, DefaultSize)));
      FinalAnswer(query, articles, model).Some? ==>
        && reply.answer == FinalAnswer(query, articles, model).value
        && (reply.primary.Some? <==> articles != [])
        && (articles == [] ==> reply.related == [] && reply.score == 0.0)
        && (articles != [] ==>
              && reply.primary.value == articles[0]
              && reply.score == articles[0].score
              && |reply.related| == (if |articles| - 1 < MaxSecondary then |articles| - 1 else MaxSecondary)
              && forall i :: 0 <= i < |reply.related| ==> reply.related[i] == articles[i + 1])
    ensures |reply.related| <= MaxSecondary
    ensures reply.primary.None? ==> reply.related == [] && reply.score == 0.0
  {
    var articles := SemanticSearch(query, DefaultSize, engine);
    var draft := GenerateInitialResponse(query, articles, model);
    if draft.None? {
      return ErrorReply;
    }
    var d := draft.value;
    var answer := ReviewAndEnhance(query, d.text, d.intent, if articles != [] then d.primary else None, articles != [], model);
    if answer.None? {
      return ErrorReply;
    }
    return Reply(d.primary, d.secondary, d.score, answer.value);
  }
}
