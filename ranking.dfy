/**
 * Turning the title-to-total object into the response array: its entries in
 * key order as `{article, views}` records, sorted by views, largest first.
 */
module Ranking {
  import opened Aggregation

  /** The object's entries, in the order their keys were added. */
  function Entries(totals: map<string, int>, order: seq<string>): (es: seq<Article>)
    requires forall t | t in order :: t in totals
    ensures TitlesOf(es) == order
    ensures forall k | 0 <= k < |es| :: es[k].views == totals[order[k]]
  {
    seq(|order|, k requires 0 <= k < |order| => Article(order[k], totals[order[k]]))
  }

  /** Non-increasing by views. */
  predicate SortedDesc(s: seq<Article>) {
    forall i, j | 0 <= i < j < |s| :: s[i].views >= s[j].views
  }

  /** No title occurs twice. */
  predicate DistinctTitles(s: seq<Article>) {
    Distinct(TitlesOf(s))
  }

  /**
   * Places `x` into a list sorted by views, after every record with at least
   * as many views (so records with equal views keep their relative order).
   */
  function Insert(s: seq<Article>, x: Article): (r: seq<Article>)
    requires SortedDesc(s)
    ensures SortedDesc(r)
    ensures multiset(r) == multiset(s) + multiset{x}
    ensures forall y | y in r :: y in s || y == x
  {
    if s == [] then [x]
    else if s[0].views < x.views then
      HeadIsLargest(s);
      PrependSorted(x, s);
      [x] + s
    else
      var rest := Insert(s[1..], x);
      HeadIsLargest(s);
      PrependSorted(s[0], rest);
      assert s == [s[0]] + s[1..];
      assert multiset([s[0]] + rest) == multiset{s[0]} + multiset(rest);
      [s[0]] + rest
  }

  lemma HeadIsLargest(s: seq<Article>)
    requires SortedDesc(s) && s != []
    ensures forall y | y in s :: s[0].views >= y.views
  {
    forall y | y in s
      ensures s[0].views >= y.views
    {
      var k :| 0 <= k < |s| && s[k] == y;
      if k > 0 {
        assert s[0].views >= s[k].views;
      }
    }
  }

  lemma PrependSorted(h: Article, t: seq<Article>)
    requires SortedDesc(t)
    requires forall y | y in t :: h.views >= y.views
    ensures SortedDesc([h] + t)
  {
    var r := [h] + t;
    forall i, j | 0 <= i < j < |r|
      ensures r[i].views >= r[j].views
    {
      assert r[j] == t[j - 1];
      if i > 0 {
        assert r[i] == t[i - 1];
      } else {
        assert t[j - 1] in t;
      }
    }
  }

  /**
   * The comparator sort `(a, b) => b.views - a.views`: a stable sort by
   * views, largest first.
   */
  function SortByViews(s: seq<Article>): (r: seq<Article>)
    ensures SortedDesc(r)
    ensures multiset(r) == multiset(s)
  {
    if s == [] then []
    else
      assert s == s[..|s| - 1] + [s[|s| - 1]];
      Insert(SortByViews(s[..|s| - 1]), s[|s| - 1])
  }

  /** The response array built from the folded totals. */
  function Rank(totals: map<string, int>, order: seq<string>): (r: seq<Article>)
    requires forall t | t in order :: t in totals
    ensures SortedDesc(r)
    ensures multiset(r) == multiset(Entries(totals, order))
  {
    SortByViews(Entries(totals, order))
  }

  lemma {:induction false} InsertKeepsTitlesDistinct(s: seq<Article>, x: Article)
    requires SortedDesc(s) && DistinctTitles(s)
    requires x.article !in TitlesOf(s)
    ensures DistinctTitles(Insert(s, x))
  {
    if s == [] {
      assert TitlesOf([x]) == [x.article];
    } else if s[0].views < x.views {
      PrependDistinct(x, s);
    } else {
      var rest := Insert(s[1..], x);
      TitlesOfTail(s);
      InsertKeepsTitlesDistinct(s[1..], x);
      forall y | y in rest
        ensures y.article != s[0].article
      {
        if y != x {
          var m :| 0 <= m < |s[1..]| && s[1..][m] == y;
          assert TitlesOf(s)[m + 1] == y.article && TitlesOf(s)[0] == s[0].article;
        }
      }
      AbsentTitle(rest, s[0].article);
      PrependDistinct(s[0], rest);
    }
  }

  lemma TitlesOfTail(s: seq<Article>)
    requires s != []
    ensures TitlesOf(s) == [s[0].article] + TitlesOf(s[1..])
  {
  }

  lemma AbsentTitle(t: seq<Article>, title: string)
    requires forall y | y in t :: y.article != title
    ensures title !in TitlesOf(t)
  {
    forall k | 0 <= k < |t|
      ensures TitlesOf(t)[k] != title
    {
      assert t[k] in t;
    }
  }

  lemma PrependDistinct(h: Article, t: seq<Article>)
    requires DistinctTitles(t) && h.article !in TitlesOf(t)
    ensures DistinctTitles([h] + t)
  {
    var ts := TitlesOf([h] + t);
    assert ts == [h.article] + TitlesOf(t);
    forall i, j | 0 <= i < j < |ts|
      ensures ts[i] != ts[j]
    {
      assert ts[j] == TitlesOf(t)[j - 1];
      if i > 0 {
        assert ts[i] == TitlesOf(t)[i - 1];
      }
    }
  }

  /** Sorting never duplicates a title. */
  lemma {:induction false} SortKeepsTitlesDistinct(s: seq<Article>)
    requires DistinctTitles(s)
    ensures DistinctTitles(SortByViews(s))
  {
    if s != [] {
      var init := s[..|s| - 1];
      var x := s[|s| - 1];
      assert TitlesOf(init) == TitlesOf(s)[..|s| - 1];
      SortKeepsTitlesDistinct(init);
      var sorted := SortByViews(init);
      forall k | 0 <= k < |sorted|
        ensures TitlesOf(sorted)[k] != x.article
      {
        assert sorted[k] in multiset(init);
        var m :| 0 <= m < |init| && init[m] == sorted[k];
        assert TitlesOf(s)[m] == sorted[k].article;
        assert TitlesOf(s)[|s| - 1] == x.article;
      }
      InsertKeepsTitlesDistinct(sorted, x);
    }
  }

  /** A list whose views are the titles' totals adds up to the totals of its titles. */
  lemma {:induction false} ViewsAreTotals(out: seq<Article>, days: seq<DayList>)
    requires forall k | 0 <= k < |out| :: out[k].views == SumFor(out[k].article, days)
    ensures ViewsOf(out) == TotalOver(TitlesOf(out), days)
  {
    if out != [] {
      var init := out[..|out| - 1];
      assert TitlesOf(init) == TitlesOf(out)[..|out| - 1];
      ViewsAreTotals(init, days);
    }
  }

  /**
   * What the response array promises about the day lists: sorted by views,
   * largest first; each title once; exactly the titles that occur in some
   * list; each with its total over all the lists.
   */
  predicate IsRanking(out: seq<Article>, days: seq<DayList>) {
    && SortedDesc(out)
    && DistinctTitles(out)
    && (forall k | 0 <= k < |out| :: out[k].views == SumFor(out[k].article, days))
    && (forall k | 0 <= k < |out| :: out[k].article in Titles(days))
    && (forall t | t in Titles(days) :: t in TitlesOf(out))
  }

  /**
   * Ranking the totals the fold produces gives a ranking of the day lists,
   * and its views add up to all the views of all the lists.
   */
  lemma RankOfTotals(days: seq<DayList>, totals: map<string, int>, order: seq<string>)
    requires order == FirstSeen(Titles(days))
    requires forall t :: t in totals <==> t in Titles(days)
    requires forall t | t in totals :: totals[t] == SumFor(t, days)
    ensures forall t | t in order :: t in totals
    ensures IsRanking(Rank(totals, order), days)
    ensures ViewsOf(Rank(totals, order)) == AllViews(days)
  {
    FirstSeenFacts(Titles(days));
    var es := Entries(totals, order);
    var out := Rank(totals, order);
    assert DistinctTitles(es);
    SortKeepsTitlesDistinct(es);
    SameRecords(es, out, order, days);
    ViewsAreTotals(out, days);
    TotalsAddUp(TitlesOf(out), days);
  }

  /** A rearrangement of the entries carries the same titles and the same totals. */
  lemma SameRecords(es: seq<Article>, out: seq<Article>, order: seq<string>, days: seq<DayList>)
    requires multiset(out) == multiset(es)
    requires TitlesOf(es) == order
    requires forall k | 0 <= k < |es| :: es[k].views == SumFor(es[k].article, days)
    ensures forall k | 0 <= k < |out| :: out[k].views == SumFor(out[k].article, days) && out[k].article in order
    ensures forall t | t in order :: t in TitlesOf(out)
  {
    forall k | 0 <= k < |out|
      ensures out[k].views == SumFor(out[k].article, days) && out[k].article in order
    {
      assert out[k] in multiset(es);
      var m :| 0 <= m < |es| && es[m] == out[k];
      assert TitlesOf(es)[m] == out[k].article;
    }
    forall t | t in order
      ensures t in TitlesOf(out)
    {
      var m :| 0 <= m < |order| && order[m] == t;
      assert es[m] in multiset(out);
      var k :| 0 <= k < |out| && out[k] == es[m];
      assert TitlesOf(out)[k] == t;
    }
  }
}
