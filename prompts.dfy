/** The generative model and the prompts sent to it. Each prompt is an abstract template:
    a tag carrying exactly the values its f-string interpolates (query_action.py:317-324,
    331-347, 383-434, 461-503); the fixed Korean wording is not modelled. */
module Prompts {
  import opened Wrappers

  /** Title and publication date of a related article, as listed in the full-context prompt. */
  datatype RelatedEntry = RelatedEntry(title: string, publishedDate: string)

  datatype Prompt =
    /** Asks for the question type, the key words and the information to look for. */
    | IntentPrompt(query: string)
    /** No article was found: answer from general knowledge. */
    | KnowledgePrompt(intent: string)
    /** A weakly relevant article, combined with background knowledge. */
    | HybridPrompt(intent: string, title: string, content: string, publishedDate: string)
    /** A relevant article in full, plus the titles and dates of related ones. */
    | FullContextPrompt(intent: string, title: string, content: string, publishedDate: string,
                        related: seq<RelatedEntry>)
    /** Review of a draft against the primary article's excerpt (seven criteria). */
    | ArticleReviewPrompt(query: string, intent: string, title: string, excerpt: string,
                          publishedDate: string, draft: string)
    /** Review of a draft written without an article (five criteria). */
    | GeneralReviewPrompt(query: string, intent: string, draft: string)

  /** The model's `generate_content(prompt).text`: `None` when the call raises. */
  type Model = Prompt -> Option<string>
}
