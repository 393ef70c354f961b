/** The article body text (chrawling_mongoDB.py, `get_full_article_content` and the same
    step inlined in `crawl_page`): the strings of the `articleBody` element, with the empty
    ones and the script comments starting `//` dropped, joined by single spaces. */
module BodyText {
  import opened Wrappers
  import opened Text

  /** "Body content not found": the join left nothing (and, in `crawl_page`, no body element). */
  const NoBodyContent := "본문 내용을 찾을 수 없습니다."
  /** "Body not found": the page has no `articleBody` element. */
  const NoBody := "본문을 찾을 수 없습니다."
  /** Prefix of the message for a failed request ("failed to fetch the article content"). */
  const FetchFailedPrefix := "기사 내용 가져오기 실패: "

  /** A piece the generator expression keeps. */
  predicate Kept(piece: string) {
    piece != [] && !("//" <= piece)
  }

  /** The kept pieces, in order. */
  function KeptPieces(pieces: seq<string>): (r: seq<string>)
    ensures forall p :: p in r <==> p in pieces && Kept(p)
    ensures forall p :: multiset(r)[p] == if Kept(p) then multiset(pieces)[p] else 0
    ensures IsSubsequence(r, pieces)
    ensures |r| <= |pieces|
  {
    if pieces == [] then []
    else
      assert pieces == [pieces[0]] + pieces[1..];
      var rest := KeptPieces(pieces[1..]);
      if Kept(pieces[0]) then
        assert ([pieces[0]] + rest)[1..] == rest;
        [pieces[0]] + rest
      else
        SubsequenceCons(rest, pieces[1..], pieces[0]);
        rest
  }

  /** `" ".join(text for text in all_text if text and not text.startswith("//"))`. */
  function JoinBody(pieces: seq<string>): string {
    Join(" ", KeptPieces(pieces))
  }

  /** The join is empty exactly when every piece is dropped; otherwise it starts with the
      first kept piece, so it never starts with `//`. */
  lemma {:induction false} JoinBodyShape(pieces: seq<string>)
    ensures JoinBody(pieces) == [] <==> forall p :: p in pieces ==> !Kept(p)
    ensures JoinBody(pieces) != [] ==> !("//" <= JoinBody(pieces))
    ensures JoinBody(pieces) != [] ==> KeptPieces(pieces)[0] <= JoinBody(pieces)
  {
    var kept := KeptPieces(pieces);
    if kept != [] {
      assert kept[0] in kept;
      var first := kept[0];
      if |kept| > 1 {
        assert Join(" ", kept) == first + (" " + Join(" ", kept[1..]));
      }
      var joined := Join(" ", kept);
      assert first <= joined;
      if |first| >= 2 {
        assert joined[..2] == first[..2];
      } else if |kept| > 1 {
        assert joined[1] == ' ';
      } else {
        assert joined == first;
      }
    } else {
      forall p | p in pieces ensures !Kept(p) {
      }
    }
  }

  /** The outcome of fetching an article page: a failed request with its message, or the
      strings of the body element when the page has one. */
  datatype Fetch = RequestFailed(message: string) | Fetched(body: Option<seq<string>>)

  /** `get_full_article_content`: the body text, with a message for each way it can be
      missing: a failed request, no body element, or a body with nothing kept. */
  function FullArticleContent(fetch: Fetch): (r: string)
    ensures fetch.RequestFailed? ==> r == FetchFailedPrefix + fetch.message
    ensures fetch.Fetched? && fetch.body.None? ==> r == NoBody
    ensures fetch.Fetched? && fetch.body.Some? ==>
      r == (if forall p :: p in fetch.body.value ==> !Kept(p) then NoBodyContent else JoinBody(fetch.body.value))
  {
    match fetch
    case RequestFailed(message) => FetchFailedPrefix + message
    case Fetched(None) => NoBody
    case Fetched(Some(pieces)) =>
      JoinBodyShape(pieces);
      var content := JoinBody(pieces);
      if content != [] then content else NoBodyContent
  }

  /** The step inlined in `crawl_page`: the join when the body element exists, even if it is
      empty, and the "body content not found" message only when there is no body element. */
  function PageArticleContent(body: Option<seq<string>>): (r: string)
    ensures body.None? ==> r == NoBodyContent
    ensures body.Some? ==> r == JoinBody(body.value)
    ensures body.Some? ==> (r == [] <==> forall p :: p in body.value ==> !Kept(p))
  {
    match body
    case None => NoBodyContent
    case Some(pieces) =>
      JoinBodyShape(pieces);
      JoinBody(pieces)
  }
}
