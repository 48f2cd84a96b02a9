/**
 * The `/top-articles/:year/:month/:day?duration=week|month` handler: check
 * the duration, then the date; expand the date into days; request every day
 * from the pageviews service; fold the lists into per-title totals; answer
 * with the totals sorted by views, largest first.
 */
module TopArticles {
  import opened Outcomes
  import opened Calendar
  import opened DateText
  import opened DateRange
  import opened Aggregation
  import opened Ranking
  import opened Upstream

  /** What the `duration` query parameter can hold: nothing, one string, or an array or object. */
  datatype QueryValue = Absent | Text(s: string) | Structured

  const InvalidDurationMessage := "Invalid duration. Please select either 'week' or 'month'."
  const InvalidDateMessage := "Invalid date provided."
  const UnknownErrorMessage := "An unknown error occurred."

  datatype Response =
    | Ranked(articles: seq<Article>)   // 200 with the JSON array
    | BadRequest(error: string)        // 400 with `{error}`
    | ServerError(error: string)       // 500 with `{error}`

  function Status(r: Response): (code: int)
    ensures code == 200 <==> r.Ranked?
    ensures code == 400 <==> r.BadRequest?
    ensures code == 500 <==> r.ServerError?
  {
    match r
    case Ranked(_) => 200
    case BadRequest(_) => 400
    case ServerError(_) => 500
  }

  /** Only the exact strings `week` and `month` are durations. */
  function ParseDuration(q: QueryValue): (d: Option<Duration>)
    ensures d == Some(Week) <==> q == Text("week")
    ensures d == Some(Month) <==> q == Text("month")
    ensures d.None? <==> q != Text("week") && q != Text("month")
  {
    match q
    case Text(s) => if s == "week" then Some(Week) else if s == "month" then Some(Month) else None
    case _ => None
  }

  /** The three route parameters joined as `year/month/day`. */
  function JoinParams(year: string, month: string, day: string): (text: string)
    ensures |text| == |year| + |month| + |day| + 2
    ensures text[|year|] == '/' && text[|year| + 1 + |month|] == '/'
    ensures text[..|year|] == year && text[|year| + 1..|year| + 1 + |month|] == month
    ensures text[|year| + |month| + 2..] == day
  {
    year + "/" + month + "/" + day
  }

  /**
   * The joined route parameters name a date exactly when the year, month and
   * day parameters are four, two and two digits naming a real calendar date
   * of a year from 1 on, and then they name that date.
   */
  lemma JoinedDateAccepted(year: string, month: string, day: string)
    ensures ParseDate(JoinParams(year, month, day)).Some? <==>
      && |year| == 4 && |month| == 2 && |day| == 2
      && AllDigits(year) && AllDigits(month) && AllDigits(day)
      && Value(year) >= 1 && IsCalendarDate(Date(Value(year), Value(month), Value(day)))
    ensures ParseDate(JoinParams(year, month, day)).Some? ==>
      ParseDate(JoinParams(year, month, day)).value == Date(Value(year), Value(month), Value(day))
  {
    var text := JoinParams(year, month, day);
    if |text| == 10 && text[4] == '/' && text[7] == '/'
      && AllDigits(text[..4]) && AllDigits(text[5..7]) && AllDigits(text[8..])
    {
      SlashesOnlyAtFourAndSeven(text);
      assert |year| == 4 && |year| + 1 + |month| == 7;
    }
  }

  /** In a text of the `yyyy/MM/dd` shape, every place but 4 and 7 holds a digit. */
  lemma SlashesOnlyAtFourAndSeven(text: string)
    requires |text| == 10 && text[4] == '/' && text[7] == '/'
    requires AllDigits(text[..4]) && AllDigits(text[5..7]) && AllDigits(text[8..])
    ensures forall p | 0 <= p < 10 && text[p] == '/' :: p == 4 || p == 7
  {
    forall p | 0 <= p < 10 && p != 4 && p != 7
      ensures IsDigit(text[p])
    {
      if p < 4 {
        assert text[..4][p] == text[p];
      } else if p < 7 {
        assert text[5..7][p - 5] == text[p];
      } else {
        assert text[8..][p - 8] == text[p];
      }
    }
  }

  /**
   * The request paths for a period: one per day, each the day's
   * `yyyy/MM/dd` text, in day order; each text of a four-digit year reads
   * back as its day.
   */
  function Requests(start: Date, duration: Duration): (requests: seq<string>)
    requires IsCalendarDate(start) && start.year >= 1
    ensures |requests| == |Expand(start, duration)|
    ensures forall i | 0 <= i < |requests| ::
      Expand(start, duration)[i].year >= 1 && requests[i] == FormatDate(Expand(start, duration)[i])
    ensures forall i | 0 <= i < |requests| && Expand(start, duration)[i].year <= 9999 ::
      ParseDate(requests[i]) == Some(Expand(start, duration)[i])
  {
    ExpandedYearsFromOne(start, duration);
    DayTexts(Expand(start, duration))
  }

  /** The texts of a list of days, in order; a four-digit year's text reads back as its day. */
  function DayTexts(days: seq<Date>): (texts: seq<string>)
    requires forall i | 0 <= i < |days| :: IsCalendarDate(days[i]) && days[i].year >= 1
    ensures |texts| == |days|
    ensures forall i | 0 <= i < |texts| :: texts[i] == FormatDate(days[i])
    ensures forall i | 0 <= i < |texts| && days[i].year <= 9999 :: ParseDate(texts[i]) == Some(days[i])
  {
    forall i | 0 <= i < |days| && days[i].year <= 9999
      ensures ParseDate(FormatDate(days[i])) == Some(days[i])
    {
      ParseFormatted(days[i]);
    }
    seq(|days|, i requires 0 <= i < |days| => FormatDate(days[i]))
  }

  /** The 500 answer for a rejected request. */
  function FailureResponse(failure: FetchOutcome): (r: Response)
    requires Rejects(failure)
    ensures r.ServerError?
    ensures failure.RequestFailed? ==> r.error == failure.message
    ensures failure.NoItems? ==> r.error == UnknownErrorMessage
  {
    match failure
    case RequestFailed(message) => ServerError(message)
    case NoItems => ServerError(UnknownErrorMessage)
  }

  /**
   * What the answer to a request that passed validation promises, given the
   * requests sent: 200 with a ranking of all the lists exactly when every
   * request came back with a list; when some request was rejected, 500 with
   * the failure of a rejected request; any other 500 is the unknown-error
   * answer for a request that resolved with no list to walk.
   */
  predicate AnswersFetched(resp: Response, requested: seq<string>, upstream: string -> FetchOutcome) {
    && !resp.BadRequest?
    && (Status(resp) == 200 <==> forall i | 0 <= i < |requested| :: upstream(requested[i]).Fetched?)
    && (resp.Ranked? ==>
          && FetchAll(requested, upstream).AllFetched?
          && IsRanking(resp.articles, FetchAll(requested, upstream).lists)
          && ViewsOf(resp.articles) == AllViews(FetchAll(requested, upstream).lists))
    && ((exists i | 0 <= i < |requested| :: Rejects(upstream(requested[i]))) ==>
          && Status(resp) == 500
          && exists i | 0 <= i < |requested| :: Rejects(upstream(requested[i])) && resp == FailureResponse(upstream(requested[i])))
    && (resp.ServerError? && !(exists i | 0 <= i < |requested| :: Rejects(upstream(requested[i]))) ==>
          && resp == ServerError(UnknownErrorMessage)
          && exists i | 0 <= i < |requested| :: upstream(requested[i]).NoArticles?)
  }

  /**
   * The handler. `requested` lists the requests sent to the pageviews
   * service, in the order they were issued.
   */
  method HandleTopArticles(year: string, month: string, day: string, duration: QueryValue,
                           upstream: string -> FetchOutcome)
    returns (resp: Response, requested: seq<string>)
    ensures ParseDuration(duration).None? ==>
      resp == BadRequest(InvalidDurationMessage) && Status(resp) == 400 && requested == []
    ensures ParseDuration(duration).Some? && ParseDate(JoinParams(year, month, day)).None? ==>
      resp == BadRequest(InvalidDateMessage) && Status(resp) == 400 && requested == []
    ensures ParseDuration(duration).Some? && ParseDate(JoinParams(year, month, day)).Some? ==>
      && requested == Requests(ParseDate(JoinParams(year, month, day)).value, ParseDuration(duration).value)
      && AnswersFetched(resp, requested, upstream)
  {
    var d := ParseDuration(duration);
    if d.None? {
      return BadRequest(InvalidDurationMessage), [];
    }
    var parsed := ParseDate(JoinParams(year, month, day));
    if parsed.None? {
      return BadRequest(InvalidDateMessage), [];
    }
    requested := Requests(parsed.value, d.value);
    resp := RankFetched(requested, upstream);
  }

  /**
   * The part after the requests are issued: wait for all of them, fold the
   * lists and rank the totals. A rejected request answers 500 with its
   * failure; otherwise a day with no list to walk makes the fold throw, which
   * answers 500 with the unknown-error text.
   */
  method RankFetched(requested: seq<string>, upstream: string -> FetchOutcome) returns (resp: Response)
    ensures AnswersFetched(resp, requested, upstream)
  {
    var gathered := FetchAll(requested, upstream);
    if gathered.Failed? {
      return FailureResponse(gathered.failure);
    }
    if gathered.Unreadable? {
      var i :| 0 <= i < |requested| && !upstream(requested[i]).Fetched?;
      assert upstream(requested[i]).NoArticles?;
      return ServerError(UnknownErrorMessage);
    }
    var totals, order := Aggregate(gathered.lists);
    RankOfTotals(gathered.lists, totals, order);
    resp := Ranked(Rank(totals, order));
  }

  /** The days of a range that starts in year 1 or later have years from 1 on. */
  lemma ExpandedYearsFromOne(start: Date, duration: Duration)
    requires IsCalendarDate(start) && start.year >= 1
    ensures forall i | 0 <= i < |Expand(start, duration)| :: Expand(start, duration)[i].year >= 1
  {
    var days := Expand(start, duration);
    ExpandIsInterval(start, duration);
    forall i | 0 <= i < |days|
      ensures days[i].year >= 1
    {
      assert days[i] in days;
    }
  }
}
