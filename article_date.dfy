/** The publication date of an article page (chrawling_mongoDB.py, `get_article_date`): the
    first text of the `li` elements, then of the `span` elements, holding a date of the form
    `YY.MM.DD HH:MM`, completed with the current century and turned into ISO 8601. */
module ArticleDate {
  import opened Wrappers
  import opened Text

  predicate IsDigit(c: char) {
    '0' <= c <= '9'
  }

  /** The first position at or after `i` that does not hold whitespace. */
  function SpaceRunEnd(s: string, i: nat): (j: nat)
    requires i <= |s|
    ensures i <= j <= |s|
    ensures forall k :: i <= k < j ==> IsSpace(s[k])
    ensures j < |s| ==> !IsSpace(s[j])
    decreases |s| - i
  {
    if i < |s| && IsSpace(s[i]) then SpaceRunEnd(s, i + 1) else i
  }

  /** The end of a match of `\d{2}\.\d{2}\.\d{2}\s+\d{2}:\d{2}` starting at `i`. Backtracking
      into `\s+` cannot succeed where the whole whitespace run fails, since a shorter run
      leaves whitespace where `\d` is needed; so the match takes the whole run. */
  function MatchAt(s: string, i: nat): (e: Option<nat>)
    requires i <= |s|
    ensures e.Some? ==> i + 14 <= e.value <= |s|
  {
    if i + 8 <= |s| && IsDigit(s[i]) && IsDigit(s[i + 1]) && s[i + 2] == '.'
       && IsDigit(s[i + 3]) && IsDigit(s[i + 4]) && s[i + 5] == '.'
       && IsDigit(s[i + 6]) && IsDigit(s[i + 7])
    then
      var j := SpaceRunEnd(s, i + 8);
      if j > i + 8 && j + 5 <= |s| && IsDigit(s[j]) && IsDigit(s[j + 1]) && s[j + 2] == ':'
         && IsDigit(s[j + 3]) && IsDigit(s[j + 4])
      then Some(j + 5)
      else None
    else None
  }

  /** `re.search(pattern, s).group()`, looking from position `i` on: the leftmost match. */
  function SearchFrom(s: string, i: nat): Option<string>
    requires i <= |s|
    decreases |s| - i
  {
    match MatchAt(s, i)
    case Some(e) => Some(s[i..e])
    case None => if i < |s| then SearchFrom(s, i + 1) else None
  }

  function SearchDate(s: string): Option<string> {
    SearchFrom(s, 0)
  }

  /** A date text: two digits, `.`, two digits, `.`, two digits, a non-empty whitespace run,
      two digits, `:`, two digits. */
  predicate DateTextShape(t: string) {
    && |t| >= 14
    && IsDigit(t[0]) && IsDigit(t[1]) && t[2] == '.' && IsDigit(t[3]) && IsDigit(t[4]) && t[5] == '.'
    && IsDigit(t[6]) && IsDigit(t[7])
    && (forall k :: 8 <= k < |t| - 5 ==> IsSpace(t[k]))
    && IsDigit(t[|t| - 5]) && IsDigit(t[|t| - 4]) && t[|t| - 3] == ':' && IsDigit(t[|t| - 2]) && IsDigit(t[|t| - 1])
  }

  /** What the search finds always has the shape of a date text. */
  lemma {:induction false} SearchFromShape(s: string, i: nat)
    requires i <= |s|
    requires SearchFrom(s, i).Some?
    ensures DateTextShape(SearchFrom(s, i).value)
    decreases |s| - i
  {
    match MatchAt(s, i)
    case Some(e) =>
      var t := s[i..e];
      assert forall k :: 0 <= k < |t| ==> t[k] == s[i + k];
    case None =>
      SearchFromShape(s, i + 1);
  }

  /** A date text occurring at `i` is matched there, up to its end: the matcher misses no
      date. */
  lemma MatchAtComplete(s: string, i: nat, e: nat)
    requires i <= e <= |s|
    requires DateTextShape(s[i..e])
    ensures MatchAt(s, i) == Some(e)
  {
    var t := s[i..e];
    assert forall k :: 0 <= k < |t| ==> t[k] == s[i + k];
    assert SpaceRunEnd(s, i + 8) == e - 5 by {
      SpaceRunReaches(s, i + 8, e - 5);
    }
  }

  /** A whitespace run from `i` up to a non-whitespace character at `j` ends at `j`. */
  lemma {:induction false} SpaceRunReaches(s: string, i: nat, j: nat)
    requires i <= j < |s|
    requires forall k :: i <= k < j ==> IsSpace(s[k])
    requires !IsSpace(s[j])
    ensures SpaceRunEnd(s, i) == j
    decreases j - i
  {
    if i < j {
      SpaceRunReaches(s, i + 1, j);
    }
  }

  /** `re.search` returns the match at the leftmost position where one starts. */
  lemma {:induction false} SearchFromLeftmost(s: string, j: nat, k: nat)
    requires j <= k <= |s|
    requires MatchAt(s, k).Some?
    requires forall m :: j <= m < k ==> MatchAt(s, m).None?
    ensures SearchFrom(s, j) == Some(s[k..MatchAt(s, k).value])
    decreases k - j
  {
    if j < k {
      SearchFromLeftmost(s, j + 1, k);
    }
  }

  /** A text holding a date text is found by the search, and what is found is the match at
      the leftmost position `k` where one starts, which is no later than that date text. */
  lemma {:induction false} DatePresentIsFound(s: string, i: nat, e: nat)
    requires i <= e <= |s|
    requires DateTextShape(s[i..e])
    ensures SearchDate(s).Some?
    ensures exists k :: (0 <= k <= i && MatchAt(s, k).Some? && SearchDate(s) == Some(s[k..MatchAt(s, k).value])
                         && forall m :: 0 <= m < k ==> MatchAt(s, m).None?)
  {
    MatchAtComplete(s, i, e);
    var k := LeftmostMatch(s, 0, i);
    SearchFromLeftmost(s, 0, k);
  }

  /** The first position from `j` on where a match starts, given one starts at `i`. */
  lemma {:induction false} LeftmostMatch(s: string, j: nat, i: nat) returns (k: nat)
    requires j <= i <= |s|
    requires MatchAt(s, i).Some?
    ensures j <= k <= i && MatchAt(s, k).Some?
    ensures forall m :: j <= m < k ==> MatchAt(s, m).None?
    decreases i - j
  {
    if MatchAt(s, j).Some? {
      k := j;
    } else {
      k := LeftmostMatch(s, j + 1, i);
    }
  }

  /** The first date text found in `texts`, if any. */
  function FirstDate(texts: seq<string>): (r: Option<string>)
    ensures r.None? <==> forall k :: 0 <= k < |texts| ==> SearchDate(texts[k]).None?
    ensures r.Some? ==>
      exists k :: 0 <= k < |texts| && SearchDate(texts[k]) == r && forall j :: 0 <= j < k ==> SearchDate(texts[j]).None?
    ensures r.Some? ==> DateTextShape(r.value)
  {
    if texts == [] then None
    else match SearchDate(texts[0])
      case Some(t) => SearchFromShape(texts[0], 0); Some(t)
      case None =>
        var r := FirstDate(texts[1..]);
        assert forall k :: 1 <= k < |texts| ==> texts[k] == texts[1..][k - 1];
        r
  }

  /** When some text of a list holds a date text, the scan of that list finds a date. */
  lemma DateInTextsFound(texts: seq<string>, j: nat, i: nat, e: nat)
    requires j < |texts| && i <= e <= |texts[j]|
    requires DateTextShape(texts[j][i..e])
    ensures FirstDate(texts).Some?
  {
    DatePresentIsFound(texts[j], i, e);
  }

  /** The scan over the `li` texts, then the `span` texts, each stopping at the first
      text with a date. */
  method FindDateText(lis: seq<string>, spans: seq<string>) returns (dateText: Option<string>)
    ensures dateText == if FirstDate(lis).Some? then FirstDate(lis) else FirstDate(spans)
  {
    dateText := None;
    for i := 0 to |lis|
      invariant dateText.None?
      invariant FirstDate(lis) == FirstDate(lis[i..])
    {
      var found := SearchDate(lis[i]);
      if found.Some? {
        dateText := found;
        break;
      }
      assert lis[i..][1..] == lis[i + 1..];
    }
    if dateText.None? {
      for i := 0 to |spans|
        invariant dateText.None?
        invariant FirstDate(spans) == FirstDate(spans[i..])
      {
        var found := SearchDate(spans[i]);
        if found.Some? {
          dateText := found;
          break;
        }
        assert spans[i..][1..] == spans[i + 1..];
      }
    }
  }

  // ---------------------------------------------------------------------------------------
  // Conversion: `datetime.strptime(prefix + date_text, "%Y.%m.%d %H:%M").isoformat()`

  function DigitValue(c: char): nat
    requires IsDigit(c)
  {
    c as int - '0' as int
  }

  function TwoDigitValue(a: char, b: char): nat
    requires IsDigit(a) && IsDigit(b)
  {
    10 * DigitValue(a) + DigitValue(b)
  }

  function DigitChar(n: nat): (c: char)
    requires n < 10
    ensures IsDigit(c) && DigitValue(c) == n
  {
    ('0' as int + n) as char
  }

  /** `%02d`. */
  function Pad2(n: nat): (r: string)
    requires n < 100
    ensures |r| == 2
  {
    [DigitChar(n / 10), DigitChar(n % 10)]
  }

  /** `%04d`. */
  function Pad4(n: nat): (r: string)
    requires n < 10000
    ensures |r| == 4
  {
    Pad2(n / 100) + Pad2(n % 100)
  }

  /** The first two characters of `str(year)` as a number, when they are two digits. */
  function CenturyPrefix(year: nat): (p: Option<nat>)
    requires 1 <= year <= 9999
    ensures p.Some? ==> 10 <= p.value <= 99
    ensures p.None? <==> year < 10
  {
    if year >= 1000 then Some(year / 100)
    else if year >= 100 then Some(year / 10)
    else if year >= 10 then Some(year)
    else None
  }

  /** `str(n)`: the decimal digits of `n`, without leading zeros. */
  function DecimalString(n: nat): (r: string)
    ensures |r| >= 1
  {
    if n < 10 then [DigitChar(n)] else DecimalString(n / 10) + [DigitChar(n % 10)]
  }

  /** The century prefix is `str(year)[:2]` read as a number: present exactly when the
      decimal text has at least two digits, and then spelling those two digits. */
  lemma CenturyPrefixIsLeadingDigits(year: nat)
    requires 1 <= year <= 9999
    ensures CenturyPrefix(year).None? <==> |DecimalString(year)| < 2
    ensures CenturyPrefix(year).Some? ==> Pad2(CenturyPrefix(year).value) == DecimalString(year)[..2]
  {
    if year >= 1000 {
      assert DecimalString(year) == DecimalString(year / 100) + [DigitChar((year / 10) % 10), DigitChar(year % 10)] by {
        assert (year / 10) / 10 == year / 100;
      }
      assert DecimalString(year / 100) == [DigitChar(year / 1000), DigitChar((year / 100) % 10)] by {
        assert (year / 100) / 10 == year / 1000;
      }
    } else if year >= 100 {
      assert DecimalString(year) == DecimalString(year / 10) + [DigitChar(year % 10)];
      assert DecimalString(year / 10) == [DigitChar(year / 100), DigitChar((year / 10) % 10)] by {
        assert (year / 10) / 10 == year / 100;
      }
    } else if year >= 10 {
      assert DecimalString(year) == [DigitChar(year / 10), DigitChar(year % 10)];
    }
  }

  predicate IsLeapYear(y: nat) {
    y % 4 == 0 && (y % 100 != 0 || y % 400 == 0)
  }

  function DaysInMonth(y: nat, m: nat): nat
    requires 1 <= m <= 12
  {
    if m == 2 then (if IsLeapYear(y) then 29 else 28)
    else if m == 4 || m == 6 || m == 9 || m == 11 then 30
    else 31
  }

  /** The checks `strptime` and the `datetime` constructor make: month 01-12, a day that
      exists in that month of that year, hour 00-23, minute 00-59. */
  predicate ValidStamp(year: nat, month: nat, day: nat, hour: nat, minute: nat) {
    && 1 <= month <= 12
    && 1 <= day <= DaysInMonth(year, month)
    && hour <= 23
    && minute <= 59
  }

  /** The date text as `CCYY-MM-DDTHH:MM:00`, where `CC` are the first two digits of the
      current year; `None` when the prefix is not two digits, the text has not the shape of a
      date or a field is out of range (the `ValueError` is caught). */
  function ConvertDate(currentYear: nat, t: string): (r: Option<string>)
    requires 1 <= currentYear <= 9999
    ensures r.Some? ==> |r.value| == 19
    ensures r.Some? <==>
      && CenturyPrefix(currentYear).Some? && DateTextShape(t)
      && ValidStamp(100 * CenturyPrefix(currentYear).value + TwoDigitValue(t[0], t[1]),
                    TwoDigitValue(t[3], t[4]), TwoDigitValue(t[6], t[7]),
                    TwoDigitValue(t[|t| - 5], t[|t| - 4]), TwoDigitValue(t[|t| - 2], t[|t| - 1]))
    ensures r.Some? ==>
      r.value == Pad2(CenturyPrefix(currentYear).value) + [t[0], t[1], '-', t[3], t[4], '-', t[6], t[7], 'T',
                 t[|t| - 5], t[|t| - 4], ':', t[|t| - 2], t[|t| - 1], ':', '0', '0']
  {
    match CenturyPrefix(currentYear)
    case None => None
    case Some(century) =>
      if !DateTextShape(t) then None
      else
        var n := |t|;
        var year := 100 * century + TwoDigitValue(t[0], t[1]);
        var month := TwoDigitValue(t[3], t[4]);
        var day := TwoDigitValue(t[6], t[7]);
        var hour := TwoDigitValue(t[n - 5], t[n - 4]);
        var minute := TwoDigitValue(t[n - 2], t[n - 1]);
        if !ValidStamp(year, month, day, hour, minute) then None
        else
          PadTwoDigits(t[0], t[1]);
          PadTwoDigits(t[3], t[4]);
          PadTwoDigits(t[6], t[7]);
          PadTwoDigits(t[n - 5], t[n - 4]);
          PadTwoDigits(t[n - 2], t[n - 1]);
          assert year / 100 == century && year % 100 == TwoDigitValue(t[0], t[1]);
          Some(Pad4(year) + "-" + Pad2(month) + "-" + Pad2(day) + "T" + Pad2(hour) + ":" + Pad2(minute) + ":00")
  }

  /** Formatting a two-digit field gives back its two characters. */
  lemma PadTwoDigits(a: char, b: char)
    requires IsDigit(a) && IsDigit(b)
    ensures Pad2(TwoDigitValue(a, b)) == [a, b]
  {
    var n := TwoDigitValue(a, b);
    assert n / 10 == DigitValue(a) && n % 10 == DigitValue(b);
  }

  /** `get_article_date`: the first date text found, converted; `None` when there is none
      or it does not convert. */
  method GetArticleDate(lis: seq<string>, spans: seq<string>, currentYear: nat) returns (date: Option<string>)
    requires 1 <= currentYear <= 9999
    ensures var t := if FirstDate(lis).Some? then FirstDate(lis) else FirstDate(spans);
      date == if t.Some? then ConvertDate(currentYear, t.value) else None
  {
    var dateText := FindDateText(lis, spans);
    if dateText.Some? {
      date := ConvertDate(currentYear, dateText.value);
    } else {
      date := None;
    }
  }

  /** Every date text found converts unless a field is out of range: the shape check, and
      so a `None` for a malformed text, never comes into play. */
  lemma FoundTextConverts(lis: seq<string>, spans: seq<string>, currentYear: nat)
    requires 10 <= currentYear <= 9999
    requires FirstDate(lis).Some? || FirstDate(spans).Some?
    ensures var t := if FirstDate(lis).Some? then FirstDate(lis).value else FirstDate(spans).value;
      ConvertDate(currentYear, t).Some? <==>
        ValidStamp(100 * CenturyPrefix(currentYear).value + TwoDigitValue(t[0], t[1]),
                   TwoDigitValue(t[3], t[4]), TwoDigitValue(t[6], t[7]),
                   TwoDigitValue(t[|t| - 5], t[|t| - 4]), TwoDigitValue(t[|t| - 2], t[|t| - 1]))
  {
  }
}
