/**
 * The two components in sequence: every username is fetched for the year,
 * then the aggregator reads the files those fetches left behind.
 */
module Pipeline {
  import opened Wrappers
  import opened Persistence
  import opened Contributions
  import opened Total

  /** The store after fetching each username of the list in turn. */
  function FetchAll(store: Store, usernames: seq<string>, year: int, api: Variables -> Response): Store
  {
    if |usernames| == 0 then store
    else
      var before := FetchAll(store, usernames[..|usernames| - 1], year, api);
      FetchContributionsForYear(before, usernames[|usernames| - 1], year, api)
  }

  /**
   * What the aggregator finds for a user after the fetches: the freshly
   * fetched map, or, when that user's fetch failed, whatever the file held
   * before (possibly nothing).
   */
  function FreshOrStale(store: Store, username: string, year: int, api: Variables -> Response): Option<Counts> {
    match Fetch(username, year, api)
    case Success(w) => Some(w.contributions)
    case Failure(_) => Load(store, UserFilePath(username, year))
  }

  /** A user's file is touched only by that user's own fetch. */
  lemma {:induction false} FetchAllLoad(store: Store, usernames: seq<string>, year: int, api: Variables -> Response, u: string)
    ensures Load(FetchAll(store, usernames, year, api), UserFilePath(u, year)) ==
              if u in usernames then FreshOrStale(store, u, year, api) else Load(store, UserFilePath(u, year))
  {
    if |usernames| > 0 {
      var init := usernames[..|usernames| - 1];
      var last := usernames[|usernames| - 1];
      FetchAllLoad(store, init, year, api, u);
      assert usernames == init + [last];
      if last != u {
        if UserFilePath(last, year) == UserFilePath(u, year) {
          UserFilePathInjective(last, year, u, year);
        }
      }
    }
  }

  /**
   * After fetching every listed user, the aggregator loads, for each user in
   * list order, that user's fresh map or, for a failed fetch, the stale file.
   */
  lemma FetchedThenLoaded(store: Store, usernames: seq<string>, year: int, api: Variables -> Response)
    ensures Loads(FetchAll(store, usernames, year, api), usernames, year) ==
              seq(|usernames|, i requires 0 <= i < |usernames| => FreshOrStale(store, usernames[i], year, api))
  {
    forall i | 0 <= i < |usernames|
      ensures Loads(FetchAll(store, usernames, year, api), usernames, year)[i] == FreshOrStale(store, usernames[i], year, api)
    {
      FetchAllLoad(store, usernames, year, api, usernames[i]);
    }
  }

  /**
   * When every fetch succeeds, each date's total is the sum over the listed
   * users of the counts their calendars report, whatever the store held.
   */
  lemma TotalsOfFreshFetches(store: Store, usernames: seq<string>, year: int, api: Variables -> Response, date: string)
    requires forall i :: 0 <= i < |usernames| ==> Fetch(usernames[i], year, api).Success?
    ensures Get(Sum(Loads(FetchAll(store, usernames, year, api), usernames, year)), date) ==
              TotalAt(seq(|usernames|, i requires 0 <= i < |usernames| => Some(Fetch(usernames[i], year, api).value.contributions)), date)
  {
    FetchedThenLoaded(store, usernames, year, api);
    var fetched := seq(|usernames|, i requires 0 <= i < |usernames| => Some(Fetch(usernames[i], year, api).value.contributions));
    assert Loads(FetchAll(store, usernames, year, api), usernames, year) == fetched;
    SumPointwise(fetched, date);
  }
}
