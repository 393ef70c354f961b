/** The page loop of the crawler (chrawling_mongoDB.py, `__main__`): pages 1, 2, ... are
    crawled in order, for at most 75 pages, stopping early once three pages in a row have
    brought no new article. */
module CrawlLoop {

  const MaxPages: nat := 75
  const MaxConsecutiveNoNew: nat := 3

  /** The number of pages up to `page` that brought no new article since the last one that
      did, when `foundNew(p)` says whether `crawl_page(p)` found a new article: the value
      of `consecutive_no_new` after page `page`. */
  function NoNewStreak(foundNew: nat -> bool, page: nat): nat {
    if page == 0 then 0
    else if foundNew(page) then 0
    else NoNewStreak(foundNew, page - 1) + 1
  }

  /** The loop: `visited` lists the pages crawled, and `streak` is the final
      `consecutive_no_new`. The pages are 1 to the last page in order; the last page is page
      75 or the first page ending a streak of three, and no earlier page ends one. */
  method Crawl(foundNew: nat -> bool) returns (visited: seq<nat>, streak: nat)
    ensures |visited| <= MaxPages
    ensures forall i :: 0 <= i < |visited| ==> visited[i] == i + 1
    ensures streak == NoNewStreak(foundNew, |visited|)
    ensures |visited| == MaxPages || streak >= MaxConsecutiveNoNew
    ensures forall p :: 1 <= p < |visited| ==> NoNewStreak(foundNew, p) < MaxConsecutiveNoNew
  {
    visited := [];
    streak := 0;
    var page := 1;
    while page <= MaxPages
      invariant 1 <= page <= MaxPages + 1
      invariant |visited| == page - 1
      invariant forall i :: 0 <= i < |visited| ==> visited[i] == i + 1
      invariant streak == NoNewStreak(foundNew, page - 1)
      invariant forall p :: 1 <= p < page ==> NoNewStreak(foundNew, p) < MaxConsecutiveNoNew
      decreases MaxPages + 1 - page
    {
      visited := visited + [page];
      if !foundNew(page) {
        streak := streak + 1;
        if streak >= MaxConsecutiveNoNew {
          break;
        }
      } else {
        streak := 0;
      }
      page := page + 1;
    }
  }

  /** A streak of `k` at `page` means pages `page - k + 1` to `page` all brought nothing
      new, and the page before them, if any, did. */
  lemma {:induction false} StreakMeaning(foundNew: nat -> bool, page: nat)
    ensures NoNewStreak(foundNew, page) <= page
    ensures forall q :: page - NoNewStreak(foundNew, page) < q <= page ==> !foundNew(q)
    ensures NoNewStreak(foundNew, page) < page ==> foundNew(page - NoNewStreak(foundNew, page))
  {
    if page > 0 && !foundNew(page) {
      StreakMeaning(foundNew, page - 1);
    }
  }

  /** The crawl stops only for a reason: it either reached page 75, or its last three pages
      brought nothing new; and a page with a new article is never among the last three
      pages of an early stop. */
  lemma StopReason(foundNew: nat -> bool, visited: seq<nat>, streak: nat)
    requires 1 <= |visited| <= MaxPages
    requires streak == NoNewStreak(foundNew, |visited|)
    requires |visited| == MaxPages || streak >= MaxConsecutiveNoNew
    ensures |visited| == MaxPages || (!foundNew(|visited|) && !foundNew(|visited| - 1) && !foundNew(|visited| - 2))
  {
    StreakMeaning(foundNew, |visited|);
  }

  /** Three pages in a row without a new article stop the crawl at the third of them at
      the latest. */
  lemma {:induction false} ThreeEmptyPagesStop(foundNew: nat -> bool, p: nat)
    requires 3 <= p
    requires !foundNew(p) && !foundNew(p - 1) && !foundNew(p - 2)
    ensures NoNewStreak(foundNew, p) >= MaxConsecutiveNoNew
  {
    assert NoNewStreak(foundNew, p - 2) >= 1;
    assert NoNewStreak(foundNew, p - 1) >= 2;
  }

  /** Pages crawled as `Crawl` promises end no later than the first page that closes three
      pages in a row without a new article. */
  lemma StopsAtFirstStreak(foundNew: nat -> bool, visited: seq<nat>, p: nat)
    requires forall q :: 1 <= q < |visited| ==> NoNewStreak(foundNew, q) < MaxConsecutiveNoNew
    requires 3 <= p
    requires !foundNew(p) && !foundNew(p - 1) && !foundNew(p - 2)
    ensures |visited| <= p
  {
    ThreeEmptyPagesStop(foundNew, p);
  }
}
