/** Text cleaning before storage (chrawling_mongoDB.py, `clean_text`): HTML tags removed,
    characters other than word characters, whitespace and `. ! ? ~ %` turned into spaces,
    whitespace runs collapsed to one space, and the ends trimmed. */
module Cleaning {
  import opened Text

  /** `\w`: letters, digits and `_`, for the ASCII range and Hangul (see README, "Left out"). */
  predicate IsWordChar(c: char) {
    || ('a' <= c <= 'z') || ('A' <= c <= 'Z') || ('0' <= c <= '9') || c == '_'
    || ('\U{AC00}' <= c <= '\U{D7A3}')   // Hangul syllables
    || ('\U{1100}' <= c <= '\U{11FF}')   // Hangul jamo
    || ('\U{3131}' <= c <= '\U{318E}')   // Hangul compatibility jamo
  }

  /** The characters the second substitution keeps as they are. */
  predicate IsKept(c: char) {
    IsWordChar(c) || IsSpace(c) || c in ".!?~%"
  }

  // ---------------------------------------------------------------------------------------
  // re.sub(r"<[^>]+>", "", text)

  /** The position of the first `>` in `s`, if any. */
  function FirstClose(s: string): (k: int)
    ensures -1 <= k < |s|
    ensures k >= 0 ==> s[k] == '>' && forall j :: 0 <= j < k ==> s[j] != '>'
    ensures k == -1 ==> forall j :: 0 <= j < |s| ==> s[j] != '>'
  {
    if s == [] then -1
    else if s[0] == '>' then 0
    else var k := FirstClose(s[1..]); if k == -1 then -1 else k + 1
  }

  /** The length of the tag `<[^>]+>` at the start of `s`, or 0 when none starts there. */
  function TagLength(s: string): (n: nat)
    ensures n == 0 || 3 <= n <= |s|
  {
    if s != [] && s[0] == '<' then
      var k := FirstClose(s[1..]);
      if k >= 1 then k + 2 else 0
    else 0
  }

  /** Scanning left to right, every tag is deleted and every other character kept. */
  function StripTags(s: string): string
    decreases |s|
  {
    if s == [] then []
    else if TagLength(s) > 0 then StripTags(s[TagLength(s)..])
    else [s[0]] + StripTags(s[1..])
  }

  /** Text before the first `<` is kept as it is. */
  lemma {:induction false} StripTagsPlain(a: string, b: string)
    requires '<' !in a
    ensures StripTags(a + b) == a + StripTags(b)
    decreases |a|
  {
    if a == [] {
      assert a + b == b;
    } else {
      var s := a + b;
      assert s[0] == a[0] && a[0] != '<';
      assert TagLength(s) == 0;
      assert s[1..] == a[1..] + b;
      assert '<' !in a[1..];
      StripTagsPlain(a[1..], b);
      assert a == [a[0]] + a[1..];
    }
  }

  /** A tag `<[^>]+>` at the front is deleted whole. */
  lemma StripTagsDropsTag(t: string, b: string)
    requires |t| >= 3 && t[0] == '<' && t[|t| - 1] == '>'
    requires forall j :: 1 <= j < |t| - 1 ==> t[j] != '>'
    ensures StripTags(t + b) == StripTags(b)
  {
    var s := t + b;
    var k := FirstClose(s[1..]);
    assert s[1..][|t| - 2] == '>';
    assert forall j :: 0 <= j < |t| - 2 ==> s[1..][j] == t[j + 1];
    assert k == |t| - 2;
    assert s[|t|..] == b;
  }

  /** A text with no `>` holds no tag and is kept as it is. */
  lemma {:induction false} StripTagsNoClose(s: string)
    requires '>' !in s
    ensures StripTags(s) == s
    decreases |s|
  {
    if s != [] {
      assert '>' !in s[1..];
      assert FirstClose(s[1..]) == -1;
      StripTagsNoClose(s[1..]);
      assert s == [s[0]] + s[1..];
    }
  }

  // ---------------------------------------------------------------------------------------
  // re.sub(r"[^\w\s.!?~%]", " ", text)

  function ReplaceSpecial(s: string): (r: string)
    ensures |r| == |s|
    ensures forall i :: 0 <= i < |s| ==> r[i] == if IsKept(s[i]) then s[i] else ' '
  {
    seq(|s|, i requires 0 <= i < |s| => if IsKept(s[i]) then s[i] else ' ')
  }

  // ---------------------------------------------------------------------------------------
  // re.sub(r"\s+", " ", text) and str.strip()

  /** The number of whitespace characters `s` starts with. */
  function LeadingSpaces(s: string): (n: nat)
    ensures n <= |s|
    ensures forall i :: 0 <= i < n ==> IsSpace(s[i])
    ensures n < |s| ==> !IsSpace(s[n])
    decreases |s|
  {
    if s != [] && IsSpace(s[0]) then
      var n := 1 + LeadingSpaces(s[1..]);
      assert forall i :: 0 < i < n ==> s[i] == s[1..][i - 1];
      n
    else 0
  }

  /** The number of whitespace characters `s` ends with. */
  function TrailingSpaces(s: string): (n: nat)
    ensures n <= |s|
    ensures forall i :: |s| - n <= i < |s| ==> IsSpace(s[i])
    ensures n < |s| ==> !IsSpace(s[|s| - n - 1])
    decreases |s|
  {
    if s != [] && IsSpace(s[|s| - 1]) then
      var n := 1 + TrailingSpaces(s[..|s| - 1]);
      assert forall i :: |s| - n <= i < |s| - 1 ==> s[i] == s[..|s| - 1][i];
      n
    else 0
  }

  /** `s` without its leading whitespace. */
  function TrimStart(s: string): (r: string)
    ensures |r| <= |s| && r == s[|s| - |r|..]
    ensures forall i :: 0 <= i < |s| - |r| ==> IsSpace(s[i])
    ensures r == [] || !IsSpace(r[0])
  {
    s[LeadingSpaces(s)..]
  }

  /** `s` without its trailing whitespace. */
  function TrimEnd(s: string): (r: string)
    ensures r <= s
    ensures forall i :: |r| <= i < |s| ==> IsSpace(s[i])
    ensures r == [] || !IsSpace(r[|r| - 1])
  {
    s[..|s| - TrailingSpaces(s)]
  }

  function Strip(s: string): string {
    TrimEnd(TrimStart(s))
  }

  /** Each maximal whitespace run replaced by one space. */
  function CollapseSpaces(s: string): string
    decreases |s|
  {
    if s == [] then []
    else if IsSpace(s[0]) then
      var rest := TrimStart(s);
      [' '] + CollapseSpaces(rest)
    else [s[0]] + CollapseSpaces(s[1..])
  }

  /** `clean_text`: "" for an empty text, else the four substitutions in order. */
  function CleanText(text: string): string {
    if text == [] then []
    else Strip(CollapseSpaces(ReplaceSpecial(StripTags(text))))
  }

  // ---------------------------------------------------------------------------------------
  // What the cleaned text looks like

  /** No two neighbouring characters are both whitespace. */
  predicate NoDoubleSpace(s: string) {
    forall i :: 0 < i < |s| ==> !(IsSpace(s[i - 1]) && IsSpace(s[i]))
  }

  /** The only whitespace character is the plain space. */
  predicate OnlyPlainSpaces(s: string) {
    forall i :: 0 <= i < |s| ==> IsSpace(s[i]) ==> s[i] == ' '
  }

  /** Every character is a word character, a space or one of `. ! ? ~ %`. */
  predicate CleanAlphabet(s: string) {
    forall i :: 0 <= i < |s| ==> IsWordChar(s[i]) || s[i] == ' ' || s[i] in ".!?~%"
  }

  /** The text has no whitespace at either end. */
  predicate Trimmed(s: string) {
    s == [] || (!IsSpace(s[0]) && !IsSpace(s[|s| - 1]))
  }

  /** Every character is one the second substitution keeps. */
  predicate AllKept(s: string) {
    forall i :: 0 <= i < |s| ==> IsKept(s[i])
  }

  /** Collapsing leaves no double whitespace and no whitespace but the plain space, and
      starts with whitespace exactly when the input does. */
  lemma {:induction false} CollapseSpacing(s: string)
    ensures var r := CollapseSpaces(s);
      && NoDoubleSpace(r) && OnlyPlainSpaces(r)
      && (r == [] <==> s == [])
      && (s != [] ==> (IsSpace(r[0]) <==> IsSpace(s[0])))
    decreases |s|
  {
    if s == [] {
    } else if IsSpace(s[0]) {
      CollapseSpacing(TrimStart(s));
    } else {
      CollapseSpacing(s[1..]);
    }
  }

  /** Collapsing copies every non-whitespace character, so kept characters stay kept. */
  lemma {:induction false} CollapseAlphabet(s: string)
    requires AllKept(s)
    ensures CleanAlphabet(CollapseSpaces(s))
    decreases |s|
  {
    if s == [] {
    } else if IsSpace(s[0]) {
      var rest := TrimStart(s);
      forall i | 0 <= i < |rest| ensures IsKept(rest[i]) {
        assert rest[i] == s[LeadingSpaces(s) + i];
      }
      CollapseAlphabet(rest);
    } else {
      CollapseAlphabet(s[1..]);
    }
  }

  /** Trimming keeps a contiguous part of the text. */
  lemma StripIsSlice(s: string)
    ensures var a := |s| - |TrimStart(s)|;
      a + |Strip(s)| <= |s| && Strip(s) == s[a..a + |Strip(s)|]
  {
    var t := TrimStart(s);
    var r := TrimEnd(t);
    PrefixOfSuffix(s, |s| - |t|, r);
  }

  /** A prefix of a suffix is a slice. */
  lemma PrefixOfSuffix<T>(s: seq<T>, a: nat, r: seq<T>)
    requires a <= |s| && r <= s[a..]
    ensures a + |r| <= |s| && r == s[a..a + |r|]
  {
  }

  /** A contiguous part of a text keeps its spacing and its alphabet. */
  lemma SliceShape(s: string, a: nat, b: nat)
    requires a <= b <= |s|
    requires NoDoubleSpace(s) && OnlyPlainSpaces(s) && CleanAlphabet(s)
    ensures NoDoubleSpace(s[a..b]) && OnlyPlainSpaces(s[a..b]) && CleanAlphabet(s[a..b])
  {
    var r := s[a..b];
    forall i | 0 < i < |r| ensures !(IsSpace(r[i - 1]) && IsSpace(r[i])) {
      assert r[i - 1] == s[a + i - 1] && r[i] == s[a + i];
    }
    forall i | 0 <= i < |r| ensures IsSpace(r[i]) ==> r[i] == ' ' {
      assert r[i] == s[a + i];
    }
    forall i | 0 <= i < |r| ensures IsWordChar(r[i]) || r[i] == ' ' || r[i] in ".!?~%" {
      assert r[i] == s[a + i];
    }
  }

  /** `clean_text` output: trimmed, no two whitespace characters in a row, and made only of
      word characters, single spaces and `. ! ? ~ %`. */
  lemma CleanTextShape(text: string)
    ensures var r := CleanText(text);
      Trimmed(r) && NoDoubleSpace(r) && OnlyPlainSpaces(r) && CleanAlphabet(r)
    ensures text == [] ==> CleanText(text) == []
  {
    if text != [] {
      var replaced := ReplaceSpecial(StripTags(text));
      CollapseSpacing(replaced);
      CollapseAlphabet(replaced);
      StripShape(CollapseSpaces(replaced));
    }
  }

  /** Trimming a text keeps its spacing and alphabet, and leaves no whitespace at the ends. */
  lemma StripShape(c: string)
    requires NoDoubleSpace(c) && OnlyPlainSpaces(c) && CleanAlphabet(c)
    ensures var r := Strip(c);
      Trimmed(r) && NoDoubleSpace(r) && OnlyPlainSpaces(r) && CleanAlphabet(r)
  {
    StripTrimmed(c);
    StripIsSlice(c);
    var a := |c| - |TrimStart(c)|;
    SliceShape(c, a, a + |Strip(c)|);
  }

  /** Trimming leaves no whitespace at either end. */
  lemma StripTrimmed(s: string)
    ensures Trimmed(Strip(s))
  {
    var t := TrimStart(s);
    var r := TrimEnd(t);
    assert r == [] || r[0] == t[0];
  }

  // ---------------------------------------------------------------------------------------
  // What the cleaned text keeps

  /** The non-whitespace characters of `s`, in order. */
  function NonSpaceChars(s: string): string
    decreases |s|
  {
    if s == [] then []
    else if IsSpace(s[0]) then NonSpaceChars(s[1..])
    else [s[0]] + NonSpaceChars(s[1..])
  }

  lemma {:induction false} NonSpaceConcat(a: string, b: string)
    ensures NonSpaceChars(a + b) == NonSpaceChars(a) + NonSpaceChars(b)
    decreases |a|
  {
    if a == [] {
      assert a + b == b;
    } else {
      assert (a + b)[0] == a[0] && (a + b)[1..] == a[1..] + b;
      NonSpaceConcat(a[1..], b);
    }
  }

  lemma {:induction false} NonSpaceOfBlank(s: string)
    requires forall i :: 0 <= i < |s| ==> IsSpace(s[i])
    ensures NonSpaceChars(s) == []
    decreases |s|
  {
    if s != [] {
      NonSpaceOfBlank(s[1..]);
    }
  }

  /** Dropping the leading whitespace keeps the other characters. */
  lemma TrimStartKeepsText(s: string)
    ensures NonSpaceChars(TrimStart(s)) == NonSpaceChars(s)
  {
    var t := TrimStart(s);
    var head := s[..|s| - |t|];
    assert s == head + t;
    assert forall i :: 0 <= i < |head| ==> IsSpace(head[i]) by {
      forall i | 0 <= i < |head| ensures IsSpace(head[i]) {
        assert head[i] == s[i];
      }
    }
    NonSpaceOfBlank(head);
    NonSpaceConcat(head, t);
  }

  /** Dropping the trailing whitespace keeps the other characters. */
  lemma TrimEndKeepsText(t: string)
    ensures NonSpaceChars(TrimEnd(t)) == NonSpaceChars(t)
  {
    var r := TrimEnd(t);
    var tail := t[|r|..];
    assert t == r + tail;
    forall i | 0 <= i < |tail| ensures IsSpace(tail[i]) {
      assert tail[i] == t[|r| + i];
    }
    NonSpaceOfBlank(tail);
    NonSpaceConcat(r, tail);
  }

  /** Trimming only removes whitespace. */
  lemma StripKeepsText(s: string)
    ensures NonSpaceChars(Strip(s)) == NonSpaceChars(s)
  {
    TrimStartKeepsText(s);
    TrimEndKeepsText(TrimStart(s));
  }

  /** Collapsing whitespace runs keeps every other character, in order. */
  lemma {:induction false} CollapseKeepsText(s: string)
    ensures NonSpaceChars(CollapseSpaces(s)) == NonSpaceChars(s)
    decreases |s|
  {
    if s == [] {
    } else if IsSpace(s[0]) {
      var rest := TrimStart(s);
      CollapseKeepsText(rest);
      NonSpaceConcat([' '], CollapseSpaces(rest));
      TrimStartKeepsText(s);
    } else {
      CollapseKeepsText(s[1..]);
      NonSpaceConcat([s[0]], CollapseSpaces(s[1..]));
    }
  }

  /** `clean_text` keeps, in order, every non-whitespace character left after the tags are
      removed and the special characters turned into spaces: Korean and English letters,
      digits and `. ! ? ~ %` all survive. */
  lemma CleanTextKeepsText(text: string)
    ensures NonSpaceChars(CleanText(text)) == NonSpaceChars(ReplaceSpecial(StripTags(text)))
  {
    var replaced := ReplaceSpecial(StripTags(text));
    CollapseKeepsText(replaced);
    StripKeepsText(CollapseSpaces(replaced));
  }

  // ---------------------------------------------------------------------------------------
  // What the cleaned text keeps: the words

  /** Leading whitespace adds no word. */
  lemma {:induction false} SplitTrimStart(s: string)
    ensures Split(TrimStart(s)) == Split(s)
    decreases |s|
  {
    if s != [] && IsSpace(s[0]) {
      SplitTrimStart(s[1..]);
      assert LeadingSpaces(s) == 1 + LeadingSpaces(s[1..]);
      assert s[LeadingSpaces(s)..] == s[1..][LeadingSpaces(s[1..])..];
    }
  }

  /** Collapsing copies a leading run of non-whitespace characters as it is. */
  lemma {:induction false} CollapseToken(s: string, n: nat)
    requires n <= |s|
    requires forall i :: 0 <= i < n ==> !IsSpace(s[i])
    ensures CollapseSpaces(s) == s[..n] + CollapseSpaces(s[n..])
    decreases n
  {
    if n > 0 {
      CollapseToken(s[1..], n - 1);
      assert s[1..][..n - 1] == s[1..n] && s[1..][n - 1..] == s[n..];
      assert s[..n] == [s[0]] + s[1..n];
    }
  }

  /** Collapsing whitespace runs keeps the words `str.split()` sees: none is glued to its
      neighbour and none is split. */
  lemma {:induction false} CollapseKeepsWords(s: string)
    ensures Split(CollapseSpaces(s)) == Split(s)
    decreases |s|
  {
    if s == [] {
    } else if IsSpace(s[0]) {
      var rest := TrimStart(s);
      var c := CollapseSpaces(rest);
      assert ([' '] + c)[1..] == c;
      CollapseKeepsWords(rest);
      SplitTrimStart(s);
    } else {
      var n := TokenEnd(s);
      var t := s[..n];
      var c := CollapseSpaces(s[n..]);
      CollapseToken(s, n);
      CollapseSpacing(s[n..]);
      assert IsToken(t);
      SplitTokenThen(t, c);
      CollapseKeepsWords(s[n..]);
    }
  }

  /** Trimming keeps the words. */
  lemma StripKeepsWords(s: string)
    ensures Split(Strip(s)) == Split(s)
  {
    var t := TrimStart(s);
    var r := TrimEnd(t);
    SplitTrimStart(s);
    assert t == r + t[|r|..];
    forall i | 0 <= i < |t[|r|..]| ensures IsSpace(t[|r|..][i]) {
      assert t[|r|..][i] == t[|r| + i];
    }
    SplitBlankTail(r, t[|r|..]);
  }

  /** `clean_text` keeps the words of the text left once the tags are removed and the
      special characters turned into spaces, in order: so the word counts of
      `analyze_content` see the same words. */
  lemma CleanTextKeepsWords(text: string)
    ensures Split(CleanText(text)) == Split(ReplaceSpecial(StripTags(text)))
  {
    var replaced := ReplaceSpecial(StripTags(text));
    if text != [] {
      CollapseKeepsWords(replaced);
      StripKeepsWords(CollapseSpaces(replaced));
    } else {
      assert replaced == [];
    }
  }
}
