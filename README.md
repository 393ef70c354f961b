# AI news chatbot and crawler: the deterministic core

This project models the rule-based part of an AI-news question-answering system.

- The query side, `query_action.py`:
  - extracts keywords from a Korean question;
  - shapes Elasticsearch hits into article records, each with a content preview;
  - picks the article with the most keyword overlap;
  - routes the draft answer to one of three prompts by result count and score;
  - accepts or replaces the draft after a review call;
  - falls back to a fixed error reply.
- The crawler side, `chrawling_mongoDB.py`:
  - joins the article body text;
  - finds the publication date and converts it;
  - cleans the text;
  - computes word, sentence and top-word statistics;
  - tags categories;
  - runs the page loop with its stop rule.

The Gemini model, the search engine and the crawled page outcomes are parameters of the model:
- `Prompts.Model` maps a prompt to `None` when the call raises and to `Some(text)` otherwise.
- `Search.SearchEngine` maps a request to `None` when the search raises and to `Some(hits)` otherwise.
- `CrawlLoop.Crawl` takes `foundNew`, the result `crawl_page` gives for each page number.
- The current year, which `get_article_date` reads from the clock, is a parameter too.

Prompts are a datatype holding exactly the values each f-string interpolates. The fixed wording around those values is not modelled. Scores are exact `real`s.

Modules, in dependency order:
- `Wrappers`, `Text`: Python string primitives (`split`, `join`, `in`, `lower`, slicing).
- `Keywords`, `Search`, `Prompts`, `Drafting`, `Review`, `Chatbot`: query side.
- `BodyText`, `ArticleDate`, `Cleaning`, `Analysis`, `Categories`, `CrawlLoop`: crawler side.

Where one function holds a loop, it is a `method` proved against a specification function:
- the hit loop in `semantic_search`;
- the argmax in `find_relevant_article`;
- the `li`/`span` scans in `get_article_date`;
- the frequency loop in `analyze_content`;
- the category loop;
- the page loop.

## Model

| member | source | states |
|---|---|---|
| Keywords.DropStopWords | query_action.py:185 | The kept words are, in order, a subsequence of the input. A word is kept exactly when it is not one of the 23 stop words, and a kept word appears as many times as in the input. |
| Keywords.ExtractKeywords | query_action.py:157-186 | Every keyword is a non-empty run without whitespace, `?` or `.`, and is not a stop word. The keywords are, in their original order, a subsequence of the tokens of the query with `?` and `.` deleted. A token becomes a keyword exactly when it is not a stop word, and it appears as many times as it does among the tokens. |
| Keywords.NoKeywords | query_action.py:184-186 | The keyword list is empty exactly when every token is a stop word. The empty query gives no keyword. |
| Keywords.ExtractFromJoined | query_action.py:184-186 | On a query made of clean tokens joined by single spaces, extraction returns those tokens minus the stop words. |
| Text.SplitJoin | query_action.py:192 | `" ".join` of tokens without whitespace splits back into the same tokens. |
| Search.BuildSearchRequest | query_action.py:191-246 | The request carries the raw query for the phrase clause and the requested size. Its keyword string splits back into exactly the extracted keywords. |
| Search.ContentPreview | query_action.py:255-257 | With a non-empty fragment join, the preview is the fragments joined by `" ... "`. Otherwise it is the first `min(300, len)` characters of the content followed by `"..."`, so it is at most 303 characters long. |
| Search.ArticleDefaults | query_action.py:255-268 | A missing crawled or published date reads "날짜 정보 없음", missing categories read `[]`, and present fields are copied. A hit without content highlights gets the first 300 characters of the content plus `"..."` as its preview. |
| Search.SearchResults | query_action.py:250-279 | A failed search gives `[]`. A hit missing title, content or url raises `KeyError`, which also gives `[]`. Otherwise record `i` is the shaped hit `i`. |
| Search.SemanticSearch | query_action.py:188-279 | Returns exactly `SearchResults` of the engine's answer to the built request: the empty list when the engine call fails. |
| Search.ProcessHits | query_action.py:250-275 | The loop over the hits builds one article per hit, in order, and returns `[]` as soon as a hit lacks title, content or URL. |
| Search.SearchFollowsRanking | query_action.py:244-245 | When the engine honours `size` and the descending `_score` order, the results number at most `size` and are sorted by score. |
| Drafting.Overlap | query_action.py:302 | The overlap count never exceeds the number of distinct query terms. |
| Drafting.FindRelevantArticle | query_action.py:294-312 | The result is `(None, 0.0)` exactly when no article's lowercased `title + " " + content` contains a query term. Otherwise the result is the first article with the largest overlap, and the relevance is that overlap divided by the number of terms, which lies in (0, 1]. |
| Drafting.DraftPrompt | query_action.py:329-422 | No articles gives the knowledge prompt. A first score below 0.3 gives the hybrid prompt, and otherwise the full-context prompt. Both article prompts quote the title, content and date of `articles[0]`. The full-context prompt lists the titles and dates of `articles[1:]` cut to 3, in order. |
| Drafting.GenerateInitialResponse | query_action.py:314-381 | A failing model call gives `None`. With no articles the result is `(None, [], 0.0, answer, intent)`. Otherwise it is `articles[0]`, then `articles[1:9]` (`min(8, n-1)` entries, element `i` being `articles[i+1]`), then `articles[0].score`. The answer is the model's reply to the drafting prompt built from the model's intent analysis. |
| Drafting.PrimaryIsBest | query_action.py:352 | On results sorted by score, the primary article scores at least as high as every other. |
| Review.ReviewPrompt | query_action.py:447-503 | The article review prompt is used exactly when `has_articles`, and then quotes the best article's title and its first 300 characters plus `"..."`. The general review prompt is used otherwise. With articles but no best article, reading the title raises. |
| Review.ReviewAndEnhance | query_action.py:443-459 | The result is the draft when the review text contains "원본 답변 사용", and the review text verbatim otherwise. A failing model call gives `None`. |
| Review.MarkerNotLeaked | query_action.py:459 | A final answer containing the marker is the draft itself. |
| Chatbot.ProcessQuery | query_action.py:514-542 | When any model call fails, the reply is `(None, [], 0.0, "처리 중 오류가 발생했습니다.")`. Otherwise the primary article is present exactly when the search found articles, and is then `articles[0]` with its score. The related articles are `articles[1:9]` and the answer is the reviewed draft. In all cases at most 8 related articles come back, and no primary article means no related ones and score 0.0. |
| BodyText.KeptPieces | chrawling_mongoDB.py:27 | The kept pieces are, in order, a subsequence of the input. A piece is kept exactly when it is non-empty and does not start with `//`, and a kept piece appears as many times as in the input. |
| BodyText.JoinBodyShape | chrawling_mongoDB.py:26-28 | The join is empty exactly when every piece is dropped. A non-empty join starts with the first kept piece and never with `//`. |
| BodyText.FullArticleContent | chrawling_mongoDB.py:9-34 | A failed request gives "기사 내용 가져오기 실패: " plus the message, and no body element gives "본문을 찾을 수 없습니다.". A body whose pieces are all dropped gives "본문 내용을 찾을 수 없습니다.", and any other body gives the join. |
| BodyText.PageArticleContent | chrawling_mongoDB.py:135-146 | No body element gives "본문 내용을 찾을 수 없습니다.". Otherwise the result is the join, which is empty exactly when every piece is dropped. |
| ArticleDate.MatchAtComplete | chrawling_mongoDB.py:45 | A date text `YY.MM.DD<whitespace>HH:MM` occurring at position `i` and ending at `e` is matched at `i`, and the match ends at `e`. |
| ArticleDate.SearchFromLeftmost | chrawling_mongoDB.py:45-48 | `re.search(...).group()` returns the match at the leftmost position where a match starts. |
| ArticleDate.DatePresentIsFound | chrawling_mongoDB.py:45-48 | A text holding a date text is found by the search. What is found is the leftmost match, which starts no later than that date text. |
| ArticleDate.SearchFromShape | chrawling_mongoDB.py:45-48 | What `re.search(...).group()` returns has the shape of a date text. |
| ArticleDate.FirstDate | chrawling_mongoDB.py:43-49 | The result is `None` exactly when no text matches. Otherwise it is the match in the first text that has one, and has the shape of a date text. |
| ArticleDate.DateInTextsFound | chrawling_mongoDB.py:43-49 | When some text of the list holds a date text, the scan over the list finds a date. |
| ArticleDate.FindDateText | chrawling_mongoDB.py:40-60 | The two scans with `break` return the first date text among the `li` texts, or failing that among the `span` texts. |
| ArticleDate.CenturyPrefixIsLeadingDigits | chrawling_mongoDB.py:63 | The century prefix is absent exactly when `str(year)` has fewer than two digits. Otherwise, written with two digits, it is `str(year)[:2]`. |
| ArticleDate.ConvertDate | chrawling_mongoDB.py:62-72 | The conversion succeeds exactly when the text has the date shape and the prefix is two digits. The month must be 01-12, the day must exist in that month of that year (leap years included), the hour 00-23 and the minute 00-59. The result is then the 19-character `CCYY-MM-DDTHH:MM:00` built from the input's own digits. |
| ArticleDate.PadTwoDigits | chrawling_mongoDB.py:64-67 | Formatting a field's value with two digits gives back the field's characters, so the conversion is lossless. |
| ArticleDate.GetArticleDate | chrawling_mongoDB.py:37-72 | The result is the conversion of the first date text found: among the `li` texts first, then the `span` texts. It is `None` when there is no date text or the conversion fails. |
| ArticleDate.FoundTextConverts | chrawling_mongoDB.py:62-67 | A date text that was found converts exactly when its fields are in range, so the shape check never rejects it. |
| Cleaning.TrimStart | chrawling_mongoDB.py:191 | The result is a suffix of the input: the leading whitespace removed and no more. |
| Cleaning.TrimEnd | chrawling_mongoDB.py:191 | The result is a prefix of the input: the trailing whitespace removed and no more. |
| Cleaning.StripShape | chrawling_mongoDB.py:191 | `strip()` leaves no whitespace at either end and keeps the single spacing and the alphabet of its input. |
| Cleaning.CollapseSpacing | chrawling_mongoDB.py:188 | After `re.sub(r"\s+", " ")` no two whitespace characters are adjacent and the only whitespace is the plain space. The result is empty only for an empty input, and starts with whitespace exactly when the input does. |
| Cleaning.CollapseKeepsText | chrawling_mongoDB.py:188 | Replacing whitespace runs by one space keeps every non-whitespace character, in order. |
| Cleaning.CollapseAlphabet | chrawling_mongoDB.py:185-188 | Collapsing keeps the alphabet that the substitution left: word characters, spaces and `. ! ? ~ %`. |
| Cleaning.StripIsSlice | chrawling_mongoDB.py:191 | `strip()` returns a contiguous part of its input. |
| Cleaning.StripKeepsText | chrawling_mongoDB.py:191 | `strip()` keeps every non-whitespace character, in order. |
| Cleaning.CleanTextShape | chrawling_mongoDB.py:175-191 | The `clean_text` output has no whitespace at either end and no two adjacent whitespace characters. Its only whitespace is the plain space, and every character is a word character, a space or one of `. ! ? ~ %`. The empty text gives `""`. |
| Cleaning.StripTagsPlain | chrawling_mongoDB.py:182 | Tag removal keeps, unchanged, the text before the first `<`. |
| Cleaning.StripTagsDropsTag | chrawling_mongoDB.py:182 | A tag `<…>` with at least one character and no `>` inside is deleted whole, and the text after it is processed as if the tag were not there. |
| Cleaning.StripTagsNoClose | chrawling_mongoDB.py:182 | A text without `>` holds no tag and comes back unchanged. |
| Cleaning.CleanTextKeepsText | chrawling_mongoDB.py:175-191 | The non-whitespace characters of the `clean_text` output are, in order, exactly those left once the tags are removed and the special characters replaced by spaces. With the three tag lemmas, this means Korean and English letters, digits and `. ! ? ~ %` outside tags survive. |
| Cleaning.CollapseKeepsWords | chrawling_mongoDB.py:188 | `re.sub(r"\s+", " ")` keeps the words of `str.split()`, in order: none is glued to its neighbour and none is cut. |
| Cleaning.StripKeepsWords | chrawling_mongoDB.py:191 | `strip()` keeps the words of `str.split()`. |
| Cleaning.CleanTextKeepsWords | chrawling_mongoDB.py:175-191 | The `clean_text` output splits into the same words as the text after tag removal and special-character replacement, so its words stay apart. |
| Text.SplitBlankTail | chrawling_mongoDB.py:197 | Trailing whitespace adds no word to `str.split()`. |
| Analysis.PiecesCount | chrawling_mongoDB.py:201 | `re.split(r"[.!?]+")` returns one piece more than there are runs of terminators. |
| Analysis.NoSentences | chrawling_mongoDB.py:201-202 | The sentence count is zero exactly when the content holds only whitespace and `. ! ?`. |
| Analysis.NoWords | chrawling_mongoDB.py:197-198 | The word count is zero exactly when the content is blank. |
| Analysis.FrequencyKeysShape | chrawling_mongoDB.py:205-208 | The dictionary keys are exactly the distinct words of length 2 or more. |
| Analysis.CountWords | chrawling_mongoDB.py:205-208 | The loop fills `word_freq` with each word of length 2 or more, counted as often as it occurs. The keys come in first-occurrence order. |
| Analysis.SortPermutes | chrawling_mongoDB.py:212 | The sort by count is a permutation of the dictionary items. |
| Analysis.SortShape | chrawling_mongoDB.py:212 | The sorted items have non-increasing counts and stay distinct. |
| Analysis.AnalyzeContent | chrawling_mongoDB.py:194-219 | The result holds the number of whitespace-separated tokens, the number of non-blank sentence pieces, and the first ten sorted frequency items. |
| Analysis.CommonWordsEntries | chrawling_mongoDB.py:205-213 | `common_words` has at most 10 entries, and no word appears twice. Each entry is a word of the content of length 2 or more, paired with its number of occurrences. |
| Analysis.CommonWordsAreMostFrequent | chrawling_mongoDB.py:211-213 | No omitted word of length 2 or more occurs more often than any listed word. |
| Analysis.FewWordsAllListed | chrawling_mongoDB.py:211-213 | With at most ten distinct long words, each of them is listed with its count. |
| Categories.CategorizeContent | chrawling_mongoDB.py:222-239 | The loop over the keyword table returns the table's categories that the lowercased content mentions, in table order. |
| Categories.MatchingInOrder | chrawling_mongoDB.py:235-237 | The matching names form a subsequence of the category names: table order is kept. |
| Categories.MatchingMembers | chrawling_mongoDB.py:235-237 | A name is in the result exactly when some category of that name is mentioned by the content. |
| Categories.MatchingDistinct | chrawling_mongoDB.py:235-237 | When the category names are distinct, no name appears twice in the result. |
| Categories.CategoriesShape | chrawling_mongoDB.py:222-239 | The result is an order-preserving, duplicate-free subsequence of `[AI, Business, Tech, Research]`. A category is present exactly when one of its lowercased keywords is a substring of the lowercased content. |
| Categories.SharedKeywords | chrawling_mongoDB.py:230-231 | Content containing "기술" or "개발" is tagged both Tech and Research. |
| CrawlLoop.Crawl | chrawling_mongoDB.py:312-335 | The pages visited are 1, 2, … in order, at most 75 of them. The final counter is the run of pages without new articles since the last page that had one. The crawl ends at page 75 or at the first page closing a run of 3, and no earlier page closes one. |
| CrawlLoop.StreakMeaning | chrawling_mongoDB.py:321-333 | A counter of `k` after page `p` means that pages `p-k+1` to `p` brought nothing new, and that page `p-k`, if there is one, did (a page with new articles resets the counter). |
| CrawlLoop.StopReason | chrawling_mongoDB.py:321-335 | An early stop happens only after three pages in a row without new articles. |
| CrawlLoop.ThreeEmptyPagesStop | chrawling_mongoDB.py:324-330 | Three pages in a row without new articles bring the counter to 3. |
| CrawlLoop.StopsAtFirstStreak | chrawling_mongoDB.py:319-330 | The crawl never goes past a page that closes three pages in a row without new articles. |

## Left out

- Database and network I/O: the MongoDB and Elasticsearch connections, index creation, `sync_mongodb_to_elasticsearch`, `save_to_mongodb`, `check_article_exists` and `get_latest_article_info`. The ranking and the ngram/fuzzy matching inside Elasticsearch are the engine's business, so the engine is a parameter.
- HTTP fetching, BeautifulSoup parsing and `time.sleep`. The body strings, the `li`/`span` texts and the fetch outcome are inputs. `get_text().strip()` does not change what the date search finds, because a match never starts or ends with whitespace.
- The rest of `crawl_page`: listing the articles of a page, the duplicate check and storage. The page loop takes its per-page outcome as the function `foundNew`, including the `False` returned on a request error.
- The Gemini calls and the Korean prompt wording. A prompt is its interpolated values, and the model is an uninterpreted function from prompt to optional text. `asyncio` adds nothing, since every call is awaited in turn.
- The clock: the current year is a parameter of `get_article_date`, and the `crawled_date` timestamp is not modelled.
- `app.py`, the console `run` loop and `_display_article_info`: user interface only.
- Floating point: scores are exact reals, so the 0.3 threshold and the relevance ratio are exact.
- Text.Lower: lowercases ASCII letters only, because Hangul has no case and the categories' keywords are ASCII or Hangul. Other scripts' case mapping is not modelled.
- Cleaning.IsWordChar: `\w` is taken to be ASCII letters, digits, `_` and the Hangul ranges, because Unicode's full letter and digit classes are not available. Other scripts' letters are treated as special characters.
- ArticleDate.IsDigit: `\d` is the ASCII digits only. Python's `re` and `strptime` also accept other Unicode decimal digits, for example the full-width `２４.01.15 10:30`. The model misses a date written with them and may pick a later text instead.
- Search.ToArticle: a `_source` field that is present but null is not told apart from a missing one.
- Analysis.SortByCount: the stable descending insertion order is modelled. That ties keep dictionary order is not stated as a lemma.
- `find_relevant_article` is not called by `process_query` in the source. It is modelled on its own.
- `get_full_article_content` is not called anywhere in the crawler. `crawl_page` inlines its own version of the join, which `BodyText.PageArticleContent` models.
- The crawler has two versions of the body join. `crawl_page` (chrawling_mongoDB.py:138-146) keeps an empty join as the empty string. Only `get_full_article_content` (chrawling_mongoDB.py:29) replaces it with "본문 내용을 찾을 수 없습니다.". Both are modelled as written.
