/**
 * Folding the per-day top-article lists into one total per article title.
 *
 * The handler keeps a plain object from title to running total and walks the
 * day lists with two nested loops; the object also remembers the order in
 * which titles were first added, which is the order its entries are later
 * listed in. `SumFor` is the specification each total is checked against.
 */
module Aggregation {

  /** One `{article, views}` record: an entry of a day's list or of the ranking. */
  datatype Article = Article(article: string, views: int)

  type DayList = seq<Article>

  predicate Distinct(ts: seq<string>) {
    forall i, j | 0 <= i < j < |ts| :: ts[i] != ts[j]
  }

  /** Views credited to `title` by one day's list: every entry with that title counts. */
  function DaySum(title: string, list: DayList): int {
    if list == [] then 0
    else
      var last := list[|list| - 1];
      DaySum(title, list[..|list| - 1]) + (if last.article == title then last.views else 0)
  }

  /** Views credited to `title` over all days; days without the title add nothing. */
  function SumFor(title: string, days: seq<DayList>): int {
    if days == [] then 0
    else SumFor(title, days[..|days| - 1]) + DaySum(title, days[|days| - 1])
  }

  /** Sum of the `views` of every entry of a list. */
  function ViewsOf(list: DayList): int {
    if list == [] then 0
    else ViewsOf(list[..|list| - 1]) + list[|list| - 1].views
  }

  /** Sum of all views in all day lists. */
  function AllViews(days: seq<DayList>): int {
    if days == [] then 0
    else AllViews(days[..|days| - 1]) + ViewsOf(days[|days| - 1])
  }

  /** The titles of a list of records, in list order. */
  function TitlesOf(list: DayList): (ts: seq<string>)
    ensures |ts| == |list|
    ensures forall k | 0 <= k < |list| :: ts[k] == list[k].article
  {
    seq(|list|, k requires 0 <= k < |list| => list[k].article)
  }

  /** Every title of every day list, day by day, repetitions included. */
  function Titles(days: seq<DayList>): seq<string> {
    if days == [] then []
    else Titles(days[..|days| - 1]) + TitlesOf(days[|days| - 1])
  }

  /** `ts` without its repetitions, each title kept at its first occurrence. */
  function FirstSeen(ts: seq<string>): seq<string> {
    if ts == [] then []
    else
      var r := FirstSeen(ts[..|ts| - 1]);
      if ts[|ts| - 1] in r then r else r + [ts[|ts| - 1]]
  }

  /** The first-seen order holds every title of `ts`, each exactly once. */
  lemma {:induction false} FirstSeenFacts(ts: seq<string>)
    ensures forall t :: t in FirstSeen(ts) <==> t in ts
    ensures Distinct(FirstSeen(ts))
  {
    if ts != [] {
      var init := ts[..|ts| - 1];
      FirstSeenFacts(init);
      assert ts == init + [ts[|ts| - 1]];
    }
  }

  /**
   * The nested-loop fold: `totals` maps each title met to its running total,
   * created at 0 the first time the title is met; `order` is the order in
   * which titles were added. (The source re-zeroes an entry whose total is
   * falsy; for a number that is only a total of 0, so nothing changes.)
   */
  method Aggregate(days: seq<DayList>) returns (totals: map<string, int>, order: seq<string>)
    ensures order == FirstSeen(Titles(days))
    ensures forall t :: t in totals <==> t in Titles(days)
    ensures forall t | t in totals :: totals[t] == SumFor(t, days)
  {
    totals := map[];
    order := [];
    for i := 0 to |days|
      invariant order == FirstSeen(Titles(days[..i]))
      invariant forall t :: t in totals <==> t in Titles(days[..i])
      invariant forall t | t in totals :: totals[t] == SumFor(t, days[..i])
    {
      totals, order := AddDayList(totals, order, days[..i], days[i]);
      assert days[..i + 1] == days[..i] + [days[i]];
    }
    assert days[..|days|] == days;
  }

  /**
   * The state of the fold after the days `before` and the first entries
   * `part` of the next day: the titles met so far in the order first met,
   * and each one's total so far.
   */
  ghost predicate Tally(totals: map<string, int>, order: seq<string>, before: seq<DayList>, part: DayList) {
    && order == FirstSeen(Titles(before) + TitlesOf(part))
    && (forall t :: t in totals <==> t in Titles(before) + TitlesOf(part))
    && (forall t | t in totals :: totals[t] == SumFor(t, before) + DaySum(t, part))
  }

  /**
   * The inner loop of the fold: adds every entry of one more day's list to
   * the totals gathered over the days `before`.
   */
  method AddDayList(totals: map<string, int>, order: seq<string>, ghost before: seq<DayList>, list: DayList)
    returns (totals': map<string, int>, order': seq<string>)
    requires order == FirstSeen(Titles(before))
    requires forall t :: t in totals <==> t in Titles(before)
    requires forall t | t in totals :: totals[t] == SumFor(t, before)
    ensures order' == FirstSeen(Titles(before + [list]))
    ensures forall t :: t in totals' <==> t in Titles(before + [list])
    ensures forall t | t in totals' :: totals'[t] == SumFor(t, before + [list])
  {
    totals', order' := totals, order;
    TallyStart(totals, order, before, list);
    for j := 0 to |list|
      invariant Tally(totals', order', before, list[..j])
    {
      totals', order' := AddEntry(totals', order', before, list[..j], list[j]);
      assert list[..j + 1] == list[..j] + [list[j]];
    }
    TallyEnd(totals', order', before, list);
  }

  /**
   * The body of the inner loop: a title met for the first time gets a total
   * of 0 and its place in the key order, then the entry's views are added.
   */
  method AddEntry(totals: map<string, int>, order: seq<string>, ghost before: seq<DayList>, ghost part: DayList,
                  entry: Article)
    returns (totals': map<string, int>, order': seq<string>)
    requires Tally(totals, order, before, part)
    ensures Tally(totals', order', before, part + [entry])
  {
    totals', order' := totals, order;
    if entry.article !in totals' {
      totals' := totals'[entry.article := 0];
      order' := order' + [entry.article];
    }
    totals' := totals'[entry.article := totals'[entry.article] + entry.views];
    TallyStep(totals, order, before, part, entry, totals', order');
  }

  /** One pass of the inner loop body keeps the fold's state exact. */
  lemma TallyStep(totals: map<string, int>, order: seq<string>, before: seq<DayList>, part: DayList, entry: Article,
                  totals': map<string, int>, order': seq<string>)
    requires Tally(totals, order, before, part)
    requires order' == if entry.article in totals then order else order + [entry.article]
    requires totals' == totals[entry.article := (if entry.article in totals then totals[entry.article] else 0) + entry.views]
    ensures Tally(totals', order', before, part + [entry])
  {
    var seen := Titles(before) + TitlesOf(part);
    TitlesOfStep(part, entry);
    assert Titles(before) + TitlesOf(part + [entry]) == seen + [entry.article];
    OrderStep(order, seen, entry.article, order', entry.article in totals);
    TotalsStep(totals, before, part, entry, totals');
  }

  /** The key order after one entry: the title is appended exactly when it is new. */
  lemma OrderStep(order: seq<string>, seen: seq<string>, a: string, order': seq<string>, known: bool)
    requires order == FirstSeen(seen)
    requires known <==> a in seen
    requires order' == if known then order else order + [a]
    ensures order' == FirstSeen(seen + [a])
  {
    FirstSeenFacts(seen);
    FirstSeenStep(seen, a);
  }

  /** The totals after one entry: only the entry's title changes, by the entry's views. */
  lemma TotalsStep(totals: map<string, int>, before: seq<DayList>, part: DayList, entry: Article,
                   totals': map<string, int>)
    requires forall t :: t in totals <==> t in Titles(before) + TitlesOf(part)
    requires forall t | t in totals :: totals[t] == SumFor(t, before) + DaySum(t, part)
    requires totals' == totals[entry.article := (if entry.article in totals then totals[entry.article] else 0) + entry.views]
    ensures forall t | t in totals' :: totals'[t] == SumFor(t, before) + DaySum(t, part + [entry])
  {
    if entry.article !in totals {
      AbsentSumsToZero(entry.article, before, part);
    }
    DaySumStep(part, entry);
  }

  lemma TitlesOfStep(part: DayList, entry: Article)
    ensures TitlesOf(part + [entry]) == TitlesOf(part) + [entry.article]
  {
    var l, r := TitlesOf(part + [entry]), TitlesOf(part) + [entry.article];
    assert |l| == |r|;
    forall k | 0 <= k < |l|
      ensures l[k] == r[k]
    {
      if k < |part| {
        assert (part + [entry])[k] == part[k];
      }
    }
  }

  lemma FirstSeenStep(seen: seq<string>, a: string)
    ensures FirstSeen(seen + [a]) == if a in FirstSeen(seen) then FirstSeen(seen) else FirstSeen(seen) + [a]
  {
    assert (seen + [a])[..|seen|] == seen;
  }

  lemma DaySumStep(part: DayList, entry: Article)
    ensures forall t :: DaySum(t, part + [entry]) == DaySum(t, part) + (if entry.article == t then entry.views else 0)
  {
    assert (part + [entry])[..|part|] == part;
  }

  /** Before the first entry of a day, the fold's state is the one after the earlier days. */
  lemma TallyStart(totals: map<string, int>, order: seq<string>, before: seq<DayList>, list: DayList)
    requires order == FirstSeen(Titles(before))
    requires forall t :: t in totals <==> t in Titles(before)
    requires forall t | t in totals :: totals[t] == SumFor(t, before)
    ensures Tally(totals, order, before, list[..0])
  {
    assert Titles(before) + TitlesOf(list[..0]) == Titles(before);
  }

  /** After the last entry of a day, the fold's state is the one after that day. */
  lemma TallyEnd(totals: map<string, int>, order: seq<string>, before: seq<DayList>, list: DayList)
    requires Tally(totals, order, before, list[..|list|])
    ensures order == FirstSeen(Titles(before + [list]))
    ensures forall t :: t in totals <==> t in Titles(before + [list])
    ensures forall t | t in totals :: totals[t] == SumFor(t, before + [list])
  {
    assert (before + [list])[..|before|] == before;
    assert list[..|list|] == list;
  }

  /** A title that occurs in no list has a total of zero. */
  lemma AbsentSumsToZero(t: string, days: seq<DayList>, list: DayList)
    requires t !in Titles(days) && t !in TitlesOf(list)
    ensures SumFor(t, days) == 0 && DaySum(t, list) == 0
  {
    AbsentFromDays(t, days);
    AbsentFromDay(t, list);
  }

  lemma {:induction false} AbsentFromDay(t: string, list: DayList)
    requires t !in TitlesOf(list)
    ensures DaySum(t, list) == 0
  {
    if list != [] {
      AbsentFromDay(t, list[..|list| - 1]);
    }
  }

  lemma {:induction false} AbsentFromDays(t: string, days: seq<DayList>)
    requires t !in Titles(days)
    ensures SumFor(t, days) == 0
  {
    if days != [] {
      AbsentFromDays(t, days[..|days| - 1]);
      AbsentFromDay(t, days[|days| - 1]);
    }
  }

  /** Totals over two runs of days add up. */
  lemma {:induction false} SumForAppend(t: string, a: seq<DayList>, b: seq<DayList>)
    ensures SumFor(t, a + b) == SumFor(t, a) + SumFor(t, b)
  {
    if b != [] {
      SumForAppend(t, a, b[..|b| - 1]);
      assert (a + b)[..|a + b| - 1] == a + b[..|b| - 1];
    } else {
      assert a + b == a;
    }
  }

  /**
   * The order of the day lists does not matter: any rearrangement of the
   * days gives every title the same total.
   */
  lemma {:induction false} SumForPermutation(t: string, a: seq<DayList>, b: seq<DayList>)
    requires multiset(a) == multiset(b)
    ensures SumFor(t, a) == SumFor(t, b)
    decreases |a|
  {
    if a != [] {
      var last := a[|a| - 1];
      var init := a[..|a| - 1];
      assert a == init + [last];
      assert multiset(init) == multiset(a) - multiset{last};
      assert last in multiset(b);
      var k :| 0 <= k < |b| && b[k] == last;
      MultisetWithout(b, k);
      SumForPermutation(t, init, b[..k] + b[k + 1..]);
      SumForWithout(t, b, k);
    } else {
      assert b == [];
    }
  }

  lemma MultisetWithout(b: seq<DayList>, k: nat)
    requires k < |b|
    ensures multiset(b[..k] + b[k + 1..]) == multiset(b) - multiset{b[k]}
  {
    assert b == b[..k] + [b[k]] + b[k + 1..];
    assert multiset(b) == multiset(b[..k]) + multiset{b[k]} + multiset(b[k + 1..]);
  }

  lemma SumForWithout(t: string, b: seq<DayList>, k: nat)
    requires k < |b|
    ensures SumFor(t, b) == SumFor(t, b[..k] + b[k + 1..]) + DaySum(t, b[k])
  {
    assert b == b[..k] + [b[k]] + b[k + 1..];
    SumForAppend(t, b[..k], b[k + 1..]);
    SumForAppend(t, b[..k] + [b[k]], b[k + 1..]);
    SumForAppend(t, b[..k], [b[k]]);
    assert SumFor(t, [b[k]]) == DaySum(t, b[k]) by {
      assert [b[k]][..0] == [];
    }
  }

  /** Sum of the totals of the titles `ts` over `days`. */
  function TotalOver(ts: seq<string>, days: seq<DayList>): int {
    if ts == [] then 0
    else TotalOver(ts[..|ts| - 1], days) + SumFor(ts[|ts| - 1], days)
  }

  /** Sum of what one day list credits to each of the titles `ts`. */
  function DayOver(ts: seq<string>, list: DayList): int {
    if ts == [] then 0
    else DayOver(ts[..|ts| - 1], list) + DaySum(ts[|ts| - 1], list)
  }

  /** What one entry credits to the titles `ts`. */
  function EntryOver(ts: seq<string>, a: Article): int {
    if ts == [] then 0
    else EntryOver(ts[..|ts| - 1], a) + (if ts[|ts| - 1] == a.article then a.views else 0)
  }

  lemma {:induction false} TotalOverNextDay(ts: seq<string>, days: seq<DayList>, list: DayList)
    ensures TotalOver(ts, days + [list]) == TotalOver(ts, days) + DayOver(ts, list)
  {
    if ts != [] {
      TotalOverNextDay(ts[..|ts| - 1], days, list);
      assert (days + [list])[..|days|] == days;
    }
  }

  lemma {:induction false} DayOverNextEntry(ts: seq<string>, list: DayList, a: Article)
    ensures DayOver(ts, list + [a]) == DayOver(ts, list) + EntryOver(ts, a)
  {
    if ts != [] {
      DayOverNextEntry(ts[..|ts| - 1], list, a);
      assert (list + [a])[..|list|] == list;
    }
  }

  /** An entry is credited exactly once to a list of distinct titles that holds its title. */
  lemma {:induction false} EntryOverOnce(ts: seq<string>, a: Article)
    requires Distinct(ts)
    ensures EntryOver(ts, a) == if a.article in ts then a.views else 0
  {
    if ts != [] {
      var init := ts[..|ts| - 1];
      EntryOverOnce(init, a);
      assert ts == init + [ts[|ts| - 1]];
      if ts[|ts| - 1] == a.article {
        assert a.article !in init;
      }
    }
  }

  lemma {:induction false} DayOverIsDayViews(ts: seq<string>, list: DayList)
    requires Distinct(ts)
    requires forall k | 0 <= k < |list| :: list[k].article in ts
    ensures DayOver(ts, list) == ViewsOf(list)
  {
    if list != [] {
      var init := list[..|list| - 1];
      var a := list[|list| - 1];
      assert list == init + [a];
      DayOverIsDayViews(ts, init);
      DayOverNextEntry(ts, init, a);
      EntryOverOnce(ts, a);
    } else {
      NoEntriesNoTotal(ts);
    }
  }

  lemma {:induction false} NoEntriesNoTotal(ts: seq<string>)
    ensures DayOver(ts, []) == 0
  {
    if ts != [] {
      NoEntriesNoTotal(ts[..|ts| - 1]);
    }
  }

  /**
   * Conservation: over a set of distinct titles that covers every title of
   * every list, the totals add up to all the views in all the lists.
   */
  lemma {:induction false} TotalsAddUp(ts: seq<string>, days: seq<DayList>)
    requires Distinct(ts)
    requires forall t | t in Titles(days) :: t in ts
    ensures TotalOver(ts, days) == AllViews(days)
  {
    if days == [] {
      NoDaysNoTotal(ts);
    } else {
      var init := days[..|days| - 1];
      var list := days[|days| - 1];
      assert days == init + [list];
      TotalsAddUp(ts, init);
      TotalOverNextDay(ts, init, list);
      forall k | 0 <= k < |list|
        ensures list[k].article in ts
      {
        assert days[|days| - 1][k].article == list[k].article;
      }
      DayOverIsDayViews(ts, list);
    }
  }

  lemma {:induction false} NoDaysNoTotal(ts: seq<string>)
    ensures TotalOver(ts, []) == 0
  {
    if ts != [] {
      NoDaysNoTotal(ts[..|ts| - 1]);
    }
  }

  /** A title occurs in `Titles(days)` exactly when some entry of some day carries it. */
  lemma TitlesMembership(days: seq<DayList>, t: string)
    ensures t in Titles(days) <==>
      exists i, j | 0 <= i < |days| && 0 <= j < |days[i]| :: days[i][j].article == t
  {
    if t in Titles(days) {
      TitleHasEntry(days, t);
    }
    if exists i, j | 0 <= i < |days| && 0 <= j < |days[i]| :: days[i][j].article == t {
      var i, j :| 0 <= i < |days| && 0 <= j < |days[i]| && days[i][j].article == t;
      EntryInTitles(days, i, j);
    }
  }

  lemma {:induction false} TitleHasEntry(days: seq<DayList>, t: string)
    requires t in Titles(days)
    ensures exists i, j | 0 <= i < |days| && 0 <= j < |days[i]| :: days[i][j].article == t
  {
    var init := days[..|days| - 1];
    var list := days[|days| - 1];
    if t in Titles(init) {
      TitleHasEntry(init, t);
      var i, j :| 0 <= i < |init| && 0 <= j < |init[i]| && init[i][j].article == t;
      assert days[i][j].article == t;
    } else {
      var j :| 0 <= j < |list| && TitlesOf(list)[j] == t;
      assert days[|days| - 1][j].article == t;
    }
  }

  lemma {:induction false} EntryInTitles(days: seq<DayList>, i: nat, j: nat)
    requires i < |days| && j < |days[i]|
    ensures days[i][j].article in Titles(days)
  {
    var init := days[..|days| - 1];
    if i < |init| {
      EntryInTitles(init, i, j);
      assert init[i] == days[i];
    } else {
      assert TitlesOf(days[i])[j] == days[i][j].article;
    }
  }
}
