/** Keyword extraction from a natural-language query (query_action.py,
    `DatabaseSearch.extract_keywords_from_query`). */
module Keywords {
  import opened Text

  /** The 23 Korean particles and interrogative forms dropped from a query. */
  const StopWords: set<string> := {
    "은", "는", "이", "가", "을", "를", "에", "에서", "로", "으로",
    "언제", "어디서", "어떻게", "무엇을", "누가", "왜",
    "있나요", "있어요", "인가요", "했나요", "됐나요", "열렸어", "있어"
  }

  /** The query with every `?` and then every `.` deleted. */
  function Normalize(query: string): string {
    Delete(Delete(query, '?'), '.')
  }

  /** The whitespace-separated tokens of the normalized query. */
  function Tokens(query: string): seq<string> {
    Split(Normalize(query))
  }

  /** The list comprehension that keeps the words outside the stop set, in order. */
  function DropStopWords(words: seq<string>): (r: seq<string>)
    ensures IsSubsequence(r, words)
    ensures forall w :: w in r <==> w in words && w !in StopWords
    ensures forall w :: multiset(r)[w] == if w in StopWords then 0 else multiset(words)[w]
  {
    if words == [] then []
    else
      assert words == [words[0]] + words[1..];
      if words[0] in StopWords then DropStopWords(words[1..])
      else [words[0]] + DropStopWords(words[1..])
  }

  /** `extract_keywords_from_query`: every keyword is a non-empty run without whitespace,
      `?` or `.`, and none is a stop word. */
  function ExtractKeywords(query: string): (r: seq<string>)
    ensures forall k :: k in r ==> IsToken(k) && '?' !in k && '.' !in k && k !in StopWords
    ensures IsSubsequence(r, Tokens(query))
    ensures forall t :: t in Tokens(query) ==> (t in r <==> t !in StopWords)
    ensures forall t :: multiset(r)[t] == if t in StopWords then 0 else multiset(Tokens(query))[t]
  {
    var r := DropStopWords(Tokens(query));
    SplitTokens(Normalize(query));
    r
  }

  /** A query yields no keyword exactly when each of its tokens is a stop word;
      in particular the empty query yields none. */
  lemma NoKeywords(query: string)
    ensures ExtractKeywords(query) == [] <==> forall t :: t in Tokens(query) ==> t in StopWords
    ensures query == [] ==> ExtractKeywords(query) == []
  {
    var r := ExtractKeywords(query);
    if r != [] {
      assert r[0] in r;
    }
  }

  /** On a query already made of clean tokens joined by single spaces, extraction is
      exactly the stop-word filter over those tokens. */
  lemma {:induction false} ExtractFromJoined(ts: seq<string>)
    requires forall t :: t in ts ==> IsToken(t) && '?' !in t && '.' !in t
    ensures ExtractKeywords(Join(" ", ts)) == DropStopWords(ts)
  {
    var q := Join(" ", ts);
    if '?' in q {
      JoinChars(" ", ts, '?');
    }
    DeleteAbsent(q, '?');
    if '.' in q {
      JoinChars(" ", ts, '.');
    }
    DeleteAbsent(q, '.');
    assert Normalize(q) == q;
    SplitJoin(ts);
  }
}
