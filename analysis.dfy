/** Content metadata (chrawling_mongoDB.py, `analyze_content`): the number of words, the
    number of sentences, and the ten most frequent words of two characters or more. */
module Analysis {
  import opened Text

  /** An item of the dictionary `common_words`: a word and its count. */
  datatype Entry = Entry(word: string, count: nat)

  /** The three values `analyze_content` returns. */
  datatype ContentAnalysis = ContentAnalysis(wordCount: nat, sentenceCount: nat, commonWords: seq<Entry>)

  /** Entries kept in `common_words`. */
  const MaxCommonWords: nat := 10
  /** Words shorter than this are not counted. */
  const MinWordLength: nat := 2

  // ---------------------------------------------------------------------------------------
  // Sentences: `re.split(r"[.!?]+", content)` and the non-blank pieces

  predicate IsTerminator(c: char) {
    c == '.' || c == '!' || c == '?'
  }

  /** The position of the first terminator in `s`, or `|s|`. */
  function FirstTerminator(s: string): (k: nat)
    ensures k <= |s|
    ensures forall i :: 0 <= i < k ==> !IsTerminator(s[i])
    ensures k < |s| ==> IsTerminator(s[k])
  {
    if s == [] || IsTerminator(s[0]) then 0 else 1 + FirstTerminator(s[1..])
  }

  /** The end of the run of terminators starting at `i`. */
  function TerminatorRunEnd(s: string, i: nat): (j: nat)
    requires i <= |s|
    ensures i <= j <= |s|
    ensures forall k :: i <= k < j ==> IsTerminator(s[k])
    ensures j < |s| ==> !IsTerminator(s[j])
    decreases |s| - i
  {
    if i < |s| && IsTerminator(s[i]) then TerminatorRunEnd(s, i + 1) else i
  }

  /** The pieces `re.split` returns: the text between maximal runs of terminators, with an
      empty piece before a leading run and after a trailing one. */
  function SentencePieces(s: string): (r: seq<string>)
    ensures |r| >= 1
    decreases |s|
  {
    var k := FirstTerminator(s);
    if k == |s| then [s]
    else [s[..k]] + SentencePieces(s[TerminatorRunEnd(s, k + 1)..])
  }

  /** `s.strip()` is empty. */
  predicate Blank(s: string) {
    forall i :: 0 <= i < |s| ==> IsSpace(s[i])
  }

  function NonBlankCount(pieces: seq<string>): (n: nat)
    ensures n <= |pieces|
  {
    if pieces == [] then 0
    else (if Blank(pieces[0]) then 0 else 1) + NonBlankCount(pieces[1..])
  }

  /** `len([s for s in sentences if s.strip()])`. */
  function SentenceCount(s: string): nat {
    NonBlankCount(SentencePieces(s))
  }

  /** The number of maximal runs of terminators in `s`. */
  function TerminatorRuns(s: string): nat
    decreases |s|
  {
    if s == [] then 0
    else if IsTerminator(s[0]) then 1 + TerminatorRuns(s[TerminatorRunEnd(s, 1)..])
    else TerminatorRuns(s[1..])
  }

  /** A prefix without terminators adds no run. */
  lemma {:induction false} RunsAfterPlainPrefix(s: string, k: nat)
    requires k <= |s|
    requires forall i :: 0 <= i < k ==> !IsTerminator(s[i])
    ensures TerminatorRuns(s) == TerminatorRuns(s[k..])
    decreases k
  {
    if k > 0 {
      assert s[1..][k - 1..] == s[k..];
      RunsAfterPlainPrefix(s[1..], k - 1);
    }
  }

  /** The run end computed inside a suffix is the run end of the whole text. */
  lemma {:induction false} RunEndShift(s: string, k: nat, i: nat)
    requires k <= i <= |s|
    ensures TerminatorRunEnd(s[k..], i - k) + k == TerminatorRunEnd(s, i)
    decreases |s| - i
  {
    if i < |s| && IsTerminator(s[i]) {
      RunEndShift(s, k, i + 1);
    }
  }

  /** `re.split` returns one piece more than there are runs of terminators. */
  lemma {:induction false} PiecesCount(s: string)
    ensures |SentencePieces(s)| == 1 + TerminatorRuns(s)
    decreases |s|
  {
    var k := FirstTerminator(s);
    RunsAfterPlainPrefix(s, k);
    if k == |s| {
      assert s[k..] == [];
    } else {
      var j := TerminatorRunEnd(s, k + 1);
      RunEndShift(s, k, k + 1);
      assert s[k..][TerminatorRunEnd(s[k..], 1)..] == s[j..];
      PiecesCount(s[j..]);
    }
  }

  /** The count is zero exactly when the text holds nothing but whitespace and
      terminators. */
  lemma {:induction false} NoSentences(s: string)
    ensures SentenceCount(s) == 0 <==> forall i :: 0 <= i < |s| ==> IsSpace(s[i]) || IsTerminator(s[i])
    decreases |s|
  {
    var k := FirstTerminator(s);
    if k < |s| {
      var j := TerminatorRunEnd(s, k + 1);
      var rest := s[j..];
      NoSentences(rest);
      assert SentenceCount(s) == (if Blank(s[..k]) then 0 else 1) + SentenceCount(rest);
      if forall i :: 0 <= i < |s| ==> IsSpace(s[i]) || IsTerminator(s[i]) {
        forall i | 0 <= i < |rest| ensures IsSpace(rest[i]) || IsTerminator(rest[i]) {
          assert rest[i] == s[j + i];
        }
        forall i | 0 <= i < k ensures IsSpace(s[..k][i]) {
          assert s[..k][i] == s[i];
        }
      }
      if SentenceCount(s) == 0 {
        forall i | 0 <= i < |s| ensures IsSpace(s[i]) || IsTerminator(s[i]) {
          if i < k {
            assert s[i] == s[..k][i];
          } else if j <= i {
            assert s[i] == rest[i - j];
          }
        }
      }
    }
  }

  /** The word count is zero exactly when the text is blank. */
  lemma {:induction false} NoWords(s: string)
    ensures |Split(s)| == 0 <==> Blank(s)
    decreases |s|
  {
    if s != [] && IsSpace(s[0]) {
      NoWords(s[1..]);
      assert Blank(s) <==> Blank(s[1..]) by {
        if Blank(s[1..]) {
          forall i | 0 < i < |s| ensures IsSpace(s[i]) {
            assert s[i] == s[1..][i - 1];
          }
        }
      }
    }
  }

  // ---------------------------------------------------------------------------------------
  // Word frequencies

  /** How often `w` occurs in `words`. */
  function Occurrences(words: seq<string>, w: string): nat {
    multiset(words)[w]
  }

  /** The words of length two or more, each once, in the order of their first occurrence:
      the keys of `word_freq` in insertion order. */
  function FrequencyKeys(words: seq<string>): seq<string>
    decreases |words|
  {
    if words == [] then []
    else
      var init := FrequencyKeys(words[..|words| - 1]);
      var w := words[|words| - 1];
      if |w| >= MinWordLength && w !in init then init + [w] else init
  }

  /** The keys are exactly the long words, each once. */
  lemma {:induction false} FrequencyKeysShape(words: seq<string>)
    ensures forall w :: w in FrequencyKeys(words) <==> w in words && |w| >= MinWordLength
    ensures Distinct(FrequencyKeys(words))
    decreases |words|
  {
    if words != [] {
      var init := words[..|words| - 1];
      FrequencyKeysShape(init);
      assert words == init + [words[|words| - 1]];
    }
  }

  /** `word_freq.items()`: each key with its count. */
  function FrequencyTable(words: seq<string>): (r: seq<Entry>)
    ensures |r| == |FrequencyKeys(words)|
  {
    var keys := FrequencyKeys(words);
    seq(|keys|, i requires 0 <= i < |keys| => Entry(keys[i], Occurrences(words, keys[i])))
  }

  /** The loop over `words` filling `word_freq`: a count per long word, and the keys in the
      order the dictionary keeps them. */
  method CountWords(words: seq<string>) returns (freq: map<string, nat>, keys: seq<string>)
    ensures keys == FrequencyKeys(words)
    ensures forall w :: w in freq <==> w in keys
    ensures forall w :: w in freq ==> freq[w] == Occurrences(words, w)
  {
    freq := map[];
    keys := [];
    for i := 0 to |words|
      invariant keys == FrequencyKeys(words[..i])
      invariant forall w :: w in freq <==> w in keys
      invariant forall w :: w in freq ==> |w| >= MinWordLength
      invariant forall w :: w in freq ==> freq[w] == Occurrences(words[..i], w)
    {
      var word := words[i];
      assert words[..i + 1] == words[..i] + [word];
      assert words[..i + 1][..i] == words[..i];
      assert multiset(words[..i + 1]) == multiset(words[..i]) + multiset{word};
      FrequencyKeysShape(words[..i]);
      if |word| >= MinWordLength {
        if word !in freq {
          keys := keys + [word];
        }
        freq := freq[word := (if word in freq then freq[word] else 0) + 1];
      }
    }
    assert words[..|words|] == words;
  }

  // ---------------------------------------------------------------------------------------
  // `sorted(..., key=lambda x: x[1], reverse=True)[:10]`

  /** `x` placed after every entry with a count at least its own: inserting the entries
      one by one this way is the stable sort by decreasing count. */
  function InsertByCount(sorted: seq<Entry>, x: Entry): (r: seq<Entry>)
    ensures |r| == |sorted| + 1
  {
    if sorted == [] then [x]
    else if sorted[0].count >= x.count then [sorted[0]] + InsertByCount(sorted[1..], x)
    else [x] + sorted
  }

  function SortByCount(entries: seq<Entry>): (r: seq<Entry>)
    ensures |r| == |entries|
    decreases |entries|
  {
    if entries == [] then []
    else InsertByCount(SortByCount(entries[..|entries| - 1]), entries[|entries| - 1])
  }

  /** Inserting adds `x` and loses nothing. */
  lemma {:induction false} InsertPermutes(sorted: seq<Entry>, x: Entry)
    ensures multiset(InsertByCount(sorted, x)) == multiset(sorted) + multiset{x}
    decreases |sorted|
  {
    if sorted != [] {
      assert sorted == [sorted[0]] + sorted[1..];
      if sorted[0].count >= x.count {
        InsertPermutes(sorted[1..], x);
      }
    }
  }

  /** The sort is a permutation. */
  lemma {:induction false} SortPermutes(entries: seq<Entry>)
    ensures multiset(SortByCount(entries)) == multiset(entries)
    decreases |entries|
  {
    if entries != [] {
      var init := entries[..|entries| - 1];
      assert entries == init + [entries[|entries| - 1]];
      SortPermutes(init);
      InsertPermutes(SortByCount(init), entries[|entries| - 1]);
    }
  }

  /** Counts never increase along the sequence. */
  predicate DecreasingCounts(s: seq<Entry>) {
    forall i, j :: 0 <= i < j < |s| ==> s[i].count >= s[j].count
  }

  lemma {:induction false} InsertKeepsOrder(sorted: seq<Entry>, x: Entry)
    requires DecreasingCounts(sorted)
    ensures DecreasingCounts(InsertByCount(sorted, x))
    decreases |sorted|
  {
    if sorted != [] && sorted[0].count >= x.count {
      var rest := InsertByCount(sorted[1..], x);
      InsertKeepsOrder(sorted[1..], x);
      InsertPermutes(sorted[1..], x);
      forall e | e in rest ensures sorted[0].count >= e.count {
        assert e in multiset(rest);
        if e != x {
          assert e in multiset(sorted[1..]);
        }
      }
    }
  }

  lemma {:induction false} InsertKeepsDistinct(sorted: seq<Entry>, x: Entry)
    requires Distinct(sorted) && x !in sorted
    ensures Distinct(InsertByCount(sorted, x))
    decreases |sorted|
  {
    if sorted != [] && sorted[0].count >= x.count {
      var rest := InsertByCount(sorted[1..], x);
      InsertKeepsDistinct(sorted[1..], x);
      InsertPermutes(sorted[1..], x);
      assert sorted[0] !in sorted[1..];
      assert sorted[0] !in multiset(rest);
    }
  }

  /** The sort orders by decreasing count and keeps distinct entries distinct. */
  lemma {:induction false} SortShape(entries: seq<Entry>)
    ensures DecreasingCounts(SortByCount(entries))
    ensures Distinct(entries) ==> Distinct(SortByCount(entries))
    decreases |entries|
  {
    if entries != [] {
      var init := entries[..|entries| - 1];
      var x := entries[|entries| - 1];
      SortShape(init);
      InsertKeepsOrder(SortByCount(init), x);
      if Distinct(entries) {
        assert x !in init;
        SortPermutes(init);
        assert x !in multiset(SortByCount(init));
        InsertKeepsDistinct(SortByCount(init), x);
      }
    }
  }

  /** `common_words`: the first ten entries of the table sorted by decreasing count. */
  function CommonWords(words: seq<string>): seq<Entry> {
    Take(SortByCount(FrequencyTable(words)), MaxCommonWords)
  }

  /** What `analyze_content` returns for `content`. */
  function Analyze(content: string): ContentAnalysis {
    var words := Split(content);
    ContentAnalysis(|words|, SentenceCount(content), CommonWords(words))
  }

  /** `analyze_content`: the word count, the sentence count, and `common_words` built from
      the frequencies the loop collects. */
  method AnalyzeContent(content: string) returns (analysis: ContentAnalysis)
    ensures analysis == Analyze(content)
  {
    var words := Split(content);
    var freq, keys := CountWords(words);
    var items := seq(|keys|, i requires 0 <= i < |keys| => Entry(keys[i], freq[keys[i]]));
    assert items == FrequencyTable(words);
    analysis := ContentAnalysis(|words|, SentenceCount(content), Take(SortByCount(items), MaxCommonWords));
  }

  // ---------------------------------------------------------------------------------------
  // What `common_words` promises

  /** Each entry of the table is a long word of the text with its count, and no word
      appears twice. */
  lemma FrequencyTableShape(words: seq<string>)
    ensures forall e :: e in FrequencyTable(words) ==>
      e.word in words && |e.word| >= MinWordLength && e.count == Occurrences(words, e.word)
    ensures forall w :: w in words && |w| >= MinWordLength ==> Entry(w, Occurrences(words, w)) in FrequencyTable(words)
    ensures Distinct(FrequencyTable(words))
  {
    FrequencyKeysShape(words);
    var keys := FrequencyKeys(words);
    var table := FrequencyTable(words);
    forall w | w in words && |w| >= MinWordLength ensures Entry(w, Occurrences(words, w)) in table {
      var i :| 0 <= i < |keys| && keys[i] == w;
      assert table[i] == Entry(w, Occurrences(words, w));
    }
  }

  /** `common_words` has at most ten entries, each a word of two characters or more that
      occurs in the text, paired with its number of occurrences; no word is listed twice. */
  lemma CommonWordsEntries(words: seq<string>)
    ensures |CommonWords(words)| <= MaxCommonWords
    ensures forall e :: e in CommonWords(words) ==>
      e.word in words && |e.word| >= MinWordLength && e.count == Occurrences(words, e.word)
    ensures forall i, j :: 0 <= i < j < |CommonWords(words)| ==> CommonWords(words)[i].word != CommonWords(words)[j].word
  {
    var table := FrequencyTable(words);
    var sorted := SortByCount(table);
    FrequencyTableShape(words);
    SortShape(table);
    SortPermutes(table);
    var common := CommonWords(words);
    forall e | e in common ensures e in table {
      assert e in multiset(sorted);
    }
    forall i, j | 0 <= i < j < |common| ensures common[i].word != common[j].word {
      assert common[i] in common && common[j] in common;
      assert common[i] == sorted[i] && common[j] == sorted[j];
    }
  }

  /** No word left out of `common_words` occurs more often than one listed there: the
      listed words are a most frequent ten. */
  lemma CommonWordsAreMostFrequent(words: seq<string>, w: string)
    requires w in words && |w| >= MinWordLength
    requires forall e :: e in CommonWords(words) ==> e.word != w
    ensures forall e :: e in CommonWords(words) ==> e.count >= Occurrences(words, w)
  {
    var table := FrequencyTable(words);
    var sorted := SortByCount(table);
    FrequencyTableShape(words);
    SortShape(table);
    SortPermutes(table);
    var x := Entry(w, Occurrences(words, w));
    assert x in multiset(sorted);
    var j :| 0 <= j < |sorted| && sorted[j] == x;
    var common := CommonWords(words);
    assert x !in common;
    assert j >= |common|;
    forall e | e in common ensures e.count >= x.count {
      var i :| 0 <= i < |common| && common[i] == e;
      assert sorted[i] == e;
    }
  }

  /** When there are ten long distinct words or fewer, every one of them is listed. */
  lemma FewWordsAllListed(words: seq<string>, w: string)
    requires |FrequencyKeys(words)| <= MaxCommonWords
    requires w in words && |w| >= MinWordLength
    ensures Entry(w, Occurrences(words, w)) in CommonWords(words)
  {
    var table := FrequencyTable(words);
    FrequencyTableShape(words);
    var sorted := SortByCount(table);
    SortPermutes(table);
    assert Entry(w, Occurrences(words, w)) in multiset(sorted);
  }
}
