/**
 * The fetcher: one GraphQL request for a user's contribution calendar over
 * a calendar year, whose weeks of days are flattened and folded into a
 * date -> count map that is written to the user's file for that year.
 */
module Contributions {
  import opened Wrappers
  import opened Decimal
  import opened Persistence

  /** One calendar day of the response. */
  datatype Day = Day(date: string, contributionCount: int)

  /** A week's `contributionDays`, in response order. */
  type Week = seq<Day>

  /** The GraphQL variables sent with the query. */
  datatype Variables = Variables(username: string, from: string, to: string)

  /**
   * The parsed JSON body: `errors` is present (even as an empty list, which
   * is still truthy) or absent; `weeks` is the calendar's week list.
   */
  datatype Body = Body(errors: Option<seq<string>>, weeks: seq<Week>)

  /** What the HTTP call returns: the `ok` flag, status line and body. */
  datatype Response = Response(ok: bool, status: int, statusText: string, body: Body)

  /** Why a fetch ended without producing a map. */
  datatype FetchError =
    | HttpError(status: int, statusText: string)
    | GraphQLErrors(errors: seq<string>)

  /** A produced contributions map and the file it is written to. */
  datatype Written = Written(path: string, contributions: Counts)

  const StartOfYear: string := "-01-01T00:00:00Z"
  const EndOfYear: string := "-12-31T23:59:59Z"

  /** The `from` variable: the first second of the year. */
  function RangeFrom(year: int): string {
    IntToDecimal(year) + StartOfYear
  }

  /** The `to` variable: the last second of the year. */
  function RangeTo(year: int): string {
    IntToDecimal(year) + EndOfYear
  }

  function RequestFor(username: string, year: int): Variables {
    Variables(username, RangeFrom(year), RangeTo(year))
  }

  /** `weeks.flatMap(week => week.contributionDays)` */
  function Flatten(weeks: seq<Week>): seq<Day>
  {
    if |weeks| == 0 then [] else Flatten(weeks[..|weeks| - 1]) + weeks[|weeks| - 1]
  }

  /** The date occurs among the days. */
  predicate HasDate(days: seq<Day>, date: string) {
    exists i :: 0 <= i < |days| && days[i].date == date
  }

  /** Day `i` is the last one carrying its date. */
  predicate IsLastOfDate(days: seq<Day>, i: int)
    requires 0 <= i < |days|
  {
    forall j :: i < j < |days| ==> days[j].date != days[i].date
  }

  /**
   * The `reduce` that assigns `acc[day.date] = day.contributionCount` for
   * each day in order: the keys are exactly the days' dates and each holds
   * the count of the last day carrying it.
   */
  function BuildMap(days: seq<Day>): (r: Counts)
    ensures forall d :: d in r <==> HasDate(days, d)
    ensures forall i :: 0 <= i < |days| && IsLastOfDate(days, i) ==>
              days[i].date in r && r[days[i].date] == days[i].contributionCount
  {
    if |days| == 0 then map[]
    else
      var init := days[..|days| - 1];
      var last := days[|days| - 1];
      var before := BuildMap(init);
      var after := before[last.date := last.contributionCount];
      BuildMapStep(days, before, after);
      after
  }

  /** One more day on top of the map built from the days before it. */
  lemma BuildMapStep(days: seq<Day>, before: Counts, r: Counts)
    requires |days| > 0
    requires forall d :: d in before <==> HasDate(days[..|days| - 1], d)
    requires forall i :: 0 <= i < |days| - 1 && IsLastOfDate(days[..|days| - 1], i) ==>
               days[i].date in before && before[days[i].date] == days[i].contributionCount
    requires r == before[days[|days| - 1].date := days[|days| - 1].contributionCount]
    ensures forall d :: d in r <==> HasDate(days, d)
    ensures forall i :: 0 <= i < |days| && IsLastOfDate(days, i) ==>
              days[i].date in r && r[days[i].date] == days[i].contributionCount
  {
  }

  /**
   * fetchContributionsForYear without the write: a non-ok status stops
   * first, then an `errors` field; otherwise the calendar becomes a map
   * destined for the user's file.
   */
  function Fetch(username: string, year: int, api: Variables -> Response): (r: Result<Written, FetchError>)
    ensures r.Success? <==> api(RequestFor(username, year)).ok && api(RequestFor(username, year)).body.errors.None?
    ensures !api(RequestFor(username, year)).ok ==>
              r == Failure(HttpError(api(RequestFor(username, year)).status, api(RequestFor(username, year)).statusText))
    ensures api(RequestFor(username, year)).ok && api(RequestFor(username, year)).body.errors.Some? ==>
              r == Failure(GraphQLErrors(api(RequestFor(username, year)).body.errors.value))
    ensures r.Success? ==>
              var days := Flatten(api(RequestFor(username, year)).body.weeks);
              && r.value.path == UserFilePath(username, year)
              && (forall d :: d in r.value.contributions <==> HasDate(days, d))
              && forall i :: 0 <= i < |days| && IsLastOfDate(days, i) ==>
                   days[i].date in r.value.contributions
                   && r.value.contributions[days[i].date] == days[i].contributionCount
  {
    var response := api(RequestFor(username, year));
    if !response.ok then Failure(HttpError(response.status, response.statusText))
    else if response.body.errors.Some? then Failure(GraphQLErrors(response.body.errors.value))
    else Success(Written(UserFilePath(username, year), BuildMap(Flatten(response.body.weeks))))
  }

  /** fetchContributionsForYear with its write: the store after the call. */
  function FetchContributionsForYear(store: Store, username: string, year: int, api: Variables -> Response): (store': Store)
    ensures Fetch(username, year, api).Failure? ==> store' == store
    ensures Fetch(username, year, api).Success? ==>
              && UserFilePath(username, year) in store'
              && store'[UserFilePath(username, year)] == Fetch(username, year, api).value.contributions
    ensures forall p :: p != UserFilePath(username, year) ==> Load(store', p) == Load(store, p)
  {
    match Fetch(username, year, api)
    case Failure(_) => store
    case Success(w) => store[w.path := w.contributions]
  }

  // ---------------------------------------------------------------------
  // Request range

  /**
   * For a four-digit year both range ends are 20-character ISO-8601 UTC
   * timestamps of that year: the first second of January 1st and the last
   * second of December 31st. They agree on their first five characters and
   * first differ at index 5, where `from` has the smaller character, so
   * `from` sorts before `to` lexicographically.
   */
  lemma RangeSpansTheYear(year: int)
    requires 1000 <= year <= 9999
    ensures |RangeFrom(year)| == 20 && |RangeTo(year)| == 20
    ensures RangeFrom(year)[..4] == RangeTo(year)[..4] == IntToDecimal(year)
    ensures RangeFrom(year)[4..] == "-01-01T00:00:00Z"
    ensures RangeTo(year)[4..] == "-12-31T23:59:59Z"
    ensures RangeFrom(year)[..5] == RangeTo(year)[..5] && RangeFrom(year)[5] < RangeTo(year)[5]
  {
    FourDigitYear(year);
  }

  /** The year can be read back from either range end, for any year the model renders in digits. */
  lemma RangeNamesTheYear(year: int)
    ensures ReadDecimal(RangeFrom(year)[..|RangeFrom(year)| - |StartOfYear|]) == Some(year)
    ensures ReadDecimal(RangeTo(year)[..|RangeTo(year)| - |EndOfYear|]) == Some(year)
  {
    assert RangeFrom(year)[..|RangeFrom(year)| - |StartOfYear|] == IntToDecimal(year);
    assert RangeTo(year)[..|RangeTo(year)| - |EndOfYear|] == IntToDecimal(year);
    IntRoundTrip(year);
  }

  // ---------------------------------------------------------------------
  // Flattening

  lemma {:induction false} FlattenConcat(a: seq<Week>, b: seq<Week>)
    ensures Flatten(a + b) == Flatten(a) + Flatten(b)
    decreases |b|
  {
    if |b| == 0 {
      assert a + b == a;
    } else {
      assert (a + b)[..|a + b| - 1] == a + b[..|b| - 1];
      FlattenConcat(a, b[..|b| - 1]);
    }
  }

  /**
   * The flattened days are the weeks' days in order: the weeks before week
   * `i`, then week `i` itself, then the weeks after it.
   */
  lemma FlattenInOrder(weeks: seq<Week>, i: int)
    requires 0 <= i < |weeks|
    ensures Flatten(weeks) == Flatten(weeks[..i]) + weeks[i] + Flatten(weeks[i + 1..])
  {
    var p, w, q := weeks[..i], weeks[i], weeks[i + 1..];
    calc {
      Flatten(weeks);
      { assert weeks == (p + [w]) + q; }
      Flatten((p + [w]) + q);
      { FlattenConcat(p + [w], q); }
      Flatten(p + [w]) + Flatten(q);
      { FlattenConcat(p, [w]); FlattenSingle(w); }
      Flatten(p) + w + Flatten(q);
    }
  }

  lemma FlattenSingle(w: Week)
    ensures Flatten([w]) == w
  {
  }

  /** A day is flattened out exactly when some week holds it. */
  lemma FlattenMembership(weeks: seq<Week>, day: Day)
    ensures day in Flatten(weeks) <==> exists i :: 0 <= i < |weeks| && day in weeks[i]
  {
    if exists i :: 0 <= i < |weeks| && day in weeks[i] {
      var i :| 0 <= i < |weeks| && day in weeks[i];
      FlattenInOrder(weeks, i);
    }
    if day in Flatten(weeks) {
      FlattenHolder(weeks, day);
    }
  }

  lemma {:induction false} FlattenHolder(weeks: seq<Week>, day: Day)
    requires day in Flatten(weeks)
    ensures exists i :: 0 <= i < |weeks| && day in weeks[i]
  {
    var init := weeks[..|weeks| - 1];
    if day in Flatten(init) {
      FlattenHolder(init, day);
      var i :| 0 <= i < |init| && day in init[i];
      assert weeks[i] == init[i];
    } else {
      assert day in weeks[|weeks| - 1];
    }
  }

  // ---------------------------------------------------------------------
  // Folding into a map

  /** Weeks without days, or no weeks at all, give the empty map rather than an error. */
  lemma NoDaysGiveEmptyMap(weeks: seq<Week>)
    requires forall i :: 0 <= i < |weeks| ==> |weeks[i]| == 0
    ensures BuildMap(Flatten(weeks)) == map[]
  {
  }

  predicate DistinctDates(days: seq<Day>) {
    forall i, j :: 0 <= i < j < |days| ==> days[i].date != days[j].date
  }

  /** With no repeated date the map has one entry per day, holding that day's count. */
  lemma {:induction false} DistinctDatesKeepEveryDay(days: seq<Day>)
    requires DistinctDates(days)
    ensures |BuildMap(days)| == |days|
    ensures forall i :: 0 <= i < |days| ==> BuildMap(days)[days[i].date] == days[i].contributionCount
  {
    forall i | 0 <= i < |days|
      ensures IsLastOfDate(days, i)
    {
    }
    if |days| > 0 {
      var init := days[..|days| - 1];
      DistinctDatesKeepEveryDay(init);
      var last := days[|days| - 1];
      assert last.date !in BuildMap(init);
    }
  }

  /**
   * Later days override earlier ones: folding `a` then `b` is the map of `a`
   * updated by the map of `b`, so a date seen in `b` keeps `b`'s count
   * whatever `a` said about it.
   */
  lemma {:induction false} LastWriteWins(a: seq<Day>, b: seq<Day>)
    ensures BuildMap(a + b) == BuildMap(a) + BuildMap(b)
    decreases |b|
  {
    if |b| == 0 {
      assert a + b == a;
    } else {
      var init, last := b[..|b| - 1], b[|b| - 1];
      assert (a + b)[..|a + b| - 1] == a + init;
      assert (a + b)[|a + b| - 1] == last;
      LastWriteWins(a, init);
      var m1, m2 := BuildMap(a), BuildMap(init);
      UpdateAfterUnion(m1, m2, last.date, last.contributionCount);
    }
  }

  /** Updating a right-biased union updates its right operand. */
  lemma UpdateAfterUnion(m1: Counts, m2: Counts, k: string, v: int)
    ensures (m1 + m2)[k := v] == m1 + m2[k := v]
  {
  }

  /** The response-order dates of a whole calendar become the map's keys. */
  lemma FetchedKeys(weeks: seq<Week>, date: string)
    ensures date in BuildMap(Flatten(weeks)) <==>
              exists i, k :: 0 <= i < |weeks| && 0 <= k < |weeks[i]| && weeks[i][k].date == date
  {
    var days := Flatten(weeks);
    if date in BuildMap(days) {
      var n :| 0 <= n < |days| && days[n].date == date;
      FlattenMembership(weeks, days[n]);
      var i :| 0 <= i < |weeks| && days[n] in weeks[i];
      var k :| 0 <= k < |weeks[i]| && weeks[i][k] == days[n];
    }
    if exists i, k :: 0 <= i < |weeks| && 0 <= k < |weeks[i]| && weeks[i][k].date == date {
      var i, k :| 0 <= i < |weeks| && 0 <= k < |weeks[i]| && weeks[i][k].date == date;
      FlattenMembership(weeks, weeks[i][k]);
    }
  }
}
