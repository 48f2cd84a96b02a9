/**
 * The pageviews service, seen from the handler: one request per day, each
 * coming back with that day's top-article list or with a failure, joined
 * all-or-nothing.
 */
module Upstream {
  import opened Aggregation

  /** What one request for a day comes back with. */
  datatype FetchOutcome =
    | Fetched(articles: DayList)       // `items[0].articles` of a successful JSON body
    | RequestFailed(message: string)   // an HTTP client error: network failure or non-2xx status
    | NoItems                          // a body without `items[0]`: reading `.articles` throws a TypeError
    | NoArticles                       // `items[0]` without an `articles` list: the request resolves with nothing

  /** The request's promise is rejected: a client error, or the TypeError thrown while unpacking the body. */
  predicate Rejects(o: FetchOutcome) {
    o.RequestFailed? || o.NoItems?
  }

  /**
   * The joined outcome of all the requests: every list; the rejection of
   * some request; or every request resolved but some with no list to walk.
   */
  datatype Gathered = AllFetched(lists: seq<DayList>) | Failed(failure: FetchOutcome) | Unreadable

  /**
   * Waiting for every request. A rejection of any request rejects the
   * join, whatever the other requests resolve with; otherwise the join
   * resolves, with the lists in request order when every request had one.
   */
  function FetchAll(requests: seq<string>, upstream: string -> FetchOutcome): (g: Gathered)
    ensures g.AllFetched? <==> forall i | 0 <= i < |requests| :: upstream(requests[i]).Fetched?
    ensures g.AllFetched? ==> |g.lists| == |requests|
    ensures g.AllFetched? ==> forall i | 0 <= i < |requests| :: g.lists[i] == upstream(requests[i]).articles
    ensures g.Failed? <==> exists i | 0 <= i < |requests| :: Rejects(upstream(requests[i]))
    ensures g.Failed? ==> Rejects(g.failure)
    ensures g.Failed? ==> exists i | 0 <= i < |requests| :: upstream(requests[i]) == g.failure
  {
    if requests == [] then AllFetched([])
    else
      var init := requests[..|requests| - 1];
      var earlier := FetchAll(init, upstream);
      var last := upstream(requests[|requests| - 1]);
      if earlier.Failed? then
        var i :| 0 <= i < |init| && upstream(init[i]) == earlier.failure;
        assert upstream(requests[i]) == earlier.failure;
        earlier
      else if Rejects(last) then
        Failed(last)
      else
        assert forall i | 0 <= i < |requests| - 1 :: requests[i] == init[i];
        if earlier.Unreadable? || last.NoArticles? then
          Unreadable
        else
          AllFetched(earlier.lists + [last.articles])
  }
}
