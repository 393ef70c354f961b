/** Category tagging (chrawling_mongoDB.py, `categorize_content`): each category of a fixed
    table, in table order, whose keyword list has a word occurring in the lower-cased
    content. */
module Categories {
  import opened Text

  /** One row of the `keywords` dictionary. */
  datatype Category = Category(name: string, keywords: seq<string>)

  /** The dictionary, in its insertion order. */
  const Table: seq<Category> := [
    Category("AI", ["인공지능", "머신러닝", "딥러닝", "ai", "학습", "알고리즘"]),
    Category("Business", ["비즈니스", "스타트업", "투자", "기업", "시장"]),
    Category("Tech", ["기술", "개발", "프로그래밍", "소프트웨어", "플랫폼"]),
    Category("Research", ["연구", "개발", "논문", "특허", "기술"])
  ]

  /** `any(word.lower() in content_lower for word in words)`. */
  predicate Mentions(contentLower: string, words: seq<string>) {
    exists w :: w in words && IsSubstring(Lower(w), contentLower)
  }

  /** The names of the categories of `table` that `contentLower` mentions, in order. */
  function Matching(contentLower: string, table: seq<Category>): (r: seq<string>)
    ensures |r| <= |table|
  {
    if table == [] then []
    else
      var rest := Matching(contentLower, table[1..]);
      if Mentions(contentLower, table[0].keywords) then [table[0].name] + rest else rest
  }

  /** `categorize_content`: the loop over the table, appending each category the content
      mentions. */
  method CategorizeContent(content: string) returns (categories: seq<string>)
    ensures categories == Matching(Lower(content), Table)
  {
    categories := [];
    var contentLower := Lower(content);
    for i := 0 to |Table|
      invariant categories + Matching(contentLower, Table[i..]) == Matching(contentLower, Table)
    {
      assert Table[i..][1..] == Table[i + 1..];
      if Mentions(contentLower, Table[i].keywords) {
        categories := categories + [Table[i].name];
      }
    }
  }

  function Names(table: seq<Category>): seq<string> {
    seq(|table|, i requires 0 <= i < |table| => table[i].name)
  }

  /** The matching names keep the table's order. */
  lemma {:induction false} MatchingInOrder(contentLower: string, table: seq<Category>)
    ensures IsSubsequence(Matching(contentLower, table), Names(table))
    decreases |table|
  {
    if table != [] {
      var rest := table[1..];
      MatchingInOrder(contentLower, rest);
      assert Names(table)[1..] == Names(rest);
      var m := Matching(contentLower, table);
      if Mentions(contentLower, table[0].keywords) {
        assert m[1..] == Matching(contentLower, rest);
      } else {
        SubsequenceCons(m, Names(rest), table[0].name);
      }
    }
  }

  /** A name matches exactly when a category of that name is mentioned. */
  lemma {:induction false} MatchingMembers(contentLower: string, table: seq<Category>)
    ensures forall n :: n in Matching(contentLower, table) <==>
      exists c :: c in table && c.name == n && Mentions(contentLower, c.keywords)
    decreases |table|
  {
    if table != [] {
      MatchingMembers(contentLower, table[1..]);
      assert table == [table[0]] + table[1..];
    }
  }

  /** With distinct category names, no name matches twice. */
  lemma {:induction false} MatchingDistinct(contentLower: string, table: seq<Category>)
    requires Distinct(Names(table))
    ensures Distinct(Matching(contentLower, table))
    decreases |table|
  {
    if table != [] {
      var rest := table[1..];
      assert Distinct(Names(rest)) by {
        forall i, j | 0 <= i < j < |Names(rest)| ensures Names(rest)[i] != Names(rest)[j] {
          assert Names(rest)[i] == Names(table)[i + 1] && Names(rest)[j] == Names(table)[j + 1];
        }
      }
      MatchingDistinct(contentLower, rest);
      if Mentions(contentLower, table[0].keywords) {
        MatchingMembers(contentLower, rest);
        forall c | c in rest ensures c.name != table[0].name {
          var k :| 0 <= k < |rest| && rest[k] == c;
          assert Names(table)[k + 1] == c.name && Names(table)[0] == table[0].name;
        }
        var m := Matching(contentLower, table);
        var rm := Matching(contentLower, rest);
        assert table[0].name !in rm;
        forall i, j | 0 <= i < j < |m| ensures m[i] != m[j] {
          assert m[j] == rm[j - 1] && m[j] in rm;
          if i > 0 {
            assert m[i] == rm[i - 1];
          }
        }
      }
    }
  }

  /** The categories come out in table order, each at most once, and a category is present
      exactly when some keyword of it, lower-cased, occurs in the lower-cased content. */
  lemma CategoriesShape(content: string)
    ensures IsSubsequence(Matching(Lower(content), Table), ["AI", "Business", "Tech", "Research"])
    ensures Distinct(Matching(Lower(content), Table))
    ensures forall i :: 0 <= i < |Table| ==>
      (Table[i].name in Matching(Lower(content), Table) <==>
        exists w :: w in Table[i].keywords && IsSubstring(Lower(w), Lower(content)))
  {
    var cl := Lower(content);
    assert Names(Table) == ["AI", "Business", "Tech", "Research"];
    MatchingInOrder(cl, Table);
    MatchingDistinct(cl, Table);
    MatchingMembers(cl, Table);
    forall i | 0 <= i < |Table|
      ensures Table[i].name in Matching(cl, Table) <==> Mentions(cl, Table[i].keywords)
    {
      assert Table[i] in Table;
      assert forall c :: c in Table && c.name == Table[i].name ==> c == Table[i];
    }
  }

  /** "기술" (technology) and "개발" (development) are keywords of both Tech and Research, so
      content mentioning either is tagged with both. */
  lemma SharedKeywords(content: string)
    requires IsSubstring("기술", Lower(content)) || IsSubstring("개발", Lower(content))
    ensures "Tech" in Matching(Lower(content), Table) && "Research" in Matching(Lower(content), Table)
  {
    CategoriesShape(content);
    assert Lower("기술") == "기술" && Lower("개발") == "개발";
    assert "기술" in Table[2].keywords && "기술" in Table[3].keywords;
    assert "개발" in Table[2].keywords && "개발" in Table[3].keywords;
  }
}
