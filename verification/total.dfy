/**
 * The aggregator: every user's persisted date -> count map for a year is
 * loaded in turn and added, date by date, into one totals map, which is
 * then persisted under the year's totals file.
 */
module Total {
  import opened Wrappers
  import opened Persistence
  import opened Sequences

  /** The load outcome of each username's file, in the order of the list. */
  function Loads(store: Store, usernames: seq<string>, year: int): (loads: seq<Option<Counts>>)
    ensures |loads| == |usernames|
  {
    seq(|usernames|, i requires 0 <= i < |usernames| => Load(store, UserFilePath(usernames[i], year)))
  }

  /**
   * One iteration of the inner loop as written: the running total is
   * overwritten when it is falsy (absent or 0) and added to otherwise.
   */
  function TruthyStep(total: Counts, date: string, c: int): Counts {
    if date in total && total[date] != 0 then total[date := total[date] + c]
    else total[date := c]
  }

  /** The truthiness test is the same as adding with a default of 0. */
  lemma TruthyStepAddsWithDefault(total: Counts, date: string, c: int)
    ensures TruthyStep(total, date, c) == total[date := Get(total, date) + c]
    ensures Get(TruthyStep(total, date, c), date) == Get(total, date) + c
  {
  }

  /** Element-wise addition of one user's map into the running totals. */
  function Merge(total: Counts, m: Counts): Counts {
    map d | d in total.Keys + m.Keys :: Get(total, d) + Get(m, d)
  }

  /** The totals after the loaded maps of `loads` were added in list order. */
  function Sum(loads: seq<Option<Counts>>): Counts
  {
    if |loads| == 0 then map[]
    else
      var before := Sum(loads[..|loads| - 1]);
      match loads[|loads| - 1]
      case None => before
      case Some(m) => Merge(before, m)
  }

  /** Reference: the plain integer sum of a date's counts over the loaded maps. */
  function TotalAt(loads: seq<Option<Counts>>, date: string): int
  {
    if |loads| == 0 then 0
    else TotalAt(loads[..|loads| - 1], date) + Contribution(loads[|loads| - 1], date)
  }

  function Contribution(load: Option<Counts>, date: string): int {
    match load
    case None => 0
    case Some(m) => Get(m, date)
  }

  /** Reference: the date is a key of some successfully loaded map. */
  predicate InSomeLoaded(loads: seq<Option<Counts>>, date: string) {
    exists i :: 0 <= i < |loads| && loads[i].Some? && date in loads[i].value
  }

  /** The loaded maps of `loads`, failures dropped, order kept. */
  function Loaded(loads: seq<Option<Counts>>): (r: seq<Option<Counts>>)
    ensures forall i :: 0 <= i < |r| ==> r[i].Some?
  {
    if |loads| == 0 then []
    else
      var rest := Loaded(loads[..|loads| - 1]);
      if loads[|loads| - 1].Some? then rest + [loads[|loads| - 1]] else rest
  }

  // ---------------------------------------------------------------------
  // The merge loop as written

  /**
   * The `for (const date in contributions)` loop: the keys of one user's
   * map are visited in an arbitrary order and each goes through TruthyStep.
   * Whatever the order, the result is element-wise addition.
   */
  method MergeUser(total: Counts, m: Counts) returns (r: Counts)
    ensures r.Keys == total.Keys + m.Keys
    ensures forall d :: Get(r, d) == Get(total, d) + Get(m, d)
  {
    r := total;
    var pending := m.Keys;
    while pending != {}
      invariant pending <= m.Keys
      invariant r.Keys == total.Keys + (m.Keys - pending)
      invariant forall d :: Get(r, d) == Get(total, d) + (if d in m && d !in pending then m[d] else 0)
      decreases pending
    {
      var d :| d in pending;
      TruthyStepAddsWithDefault(r, d, m[d]);
      r := TruthyStep(r, d, m[d]);
      pending := pending - {d};
    }
  }

  /**
   * sumContributions: each username's file is loaded in list order; a file
   * that cannot be read or parsed is reported and skipped.
   */
  method SumContributions(store: Store, usernames: seq<string>, year: int)
    returns (total: Counts, failed: seq<string>)
    ensures forall d :: d in total <==> InSomeLoaded(Loads(store, usernames, year), d)
    ensures forall d :: Get(total, d) == TotalAt(Loads(store, usernames, year), d)
    ensures failed == FailedPaths(store, usernames, year)
    ensures forall p :: p in failed <==>
              p !in store && exists i :: 0 <= i < |usernames| && p == UserFilePath(usernames[i], year)
  {
    var loads := Loads(store, usernames, year);
    total, failed := map[], [];
    var i := 0;
    while i < |usernames|
      invariant 0 <= i <= |usernames|
      invariant total == Sum(loads[..i])
      invariant failed == FailedPaths(store, usernames[..i], year)
    {
      var path := UserFilePath(usernames[i], year);
      SumStep(store, usernames, year, i);
      if path in store {
        var merged := MergeUser(total, store[path]);
        MergeIsUnique(total, store[path], merged);
        total := merged;
      } else {
        failed := failed + [path];
      }
      i := i + 1;
    }
    assert loads[..i] == loads;
    assert usernames[..i] == usernames;
    FailedPathsMembership(store, usernames, year);
    SumMeaning(loads);
  }

  /** One step of the loop: the next username's load extends both the total and the failures. */
  lemma SumStep(store: Store, usernames: seq<string>, year: int, i: int)
    requires 0 <= i < |usernames|
    ensures var path := UserFilePath(usernames[i], year);
      && Sum(Loads(store, usernames, year)[..i + 1])
         == (if path in store then Merge(Sum(Loads(store, usernames, year)[..i]), store[path])
             else Sum(Loads(store, usernames, year)[..i]))
      && FailedPaths(store, usernames[..i + 1], year)
         == FailedPaths(store, usernames[..i], year) + (if path in store then [] else [path])
  {
    var loads := Loads(store, usernames, year);
    assert loads[..i + 1] == loads[..i] + [loads[i]];
    SumAppend(loads[..i], loads[i]);
    assert usernames[..i + 1][..i] == usernames[..i];
  }

  /** Element-wise addition is determined by its keys and its values. */
  lemma MergeIsUnique(a: Counts, b: Counts, r: Counts)
    requires r.Keys == a.Keys + b.Keys
    requires forall d :: Get(r, d) == Get(a, d) + Get(b, d)
    ensures r == Merge(a, b)
  {
  }

  /** The folded map holds exactly the loaded dates, each with its column total. */
  lemma SumMeaning(loads: seq<Option<Counts>>)
    ensures forall d :: d in Sum(loads) <==> InSomeLoaded(loads, d)
    ensures forall d :: Get(Sum(loads), d) == TotalAt(loads, d)
  {
    forall d
      ensures (d in Sum(loads) <==> InSomeLoaded(loads, d)) && Get(Sum(loads), d) == TotalAt(loads, d)
    {
      SumKeys(loads, d);
      SumPointwise(loads, d);
    }
  }

  /** The paths of the listed users whose file fails to load, in list order. */
  function FailedPaths(store: Store, usernames: seq<string>, year: int): seq<string>
  {
    if |usernames| == 0 then []
    else
      var path := UserFilePath(usernames[|usernames| - 1], year);
      FailedPaths(store, usernames[..|usernames| - 1], year) + (if path in store then [] else [path])
  }

  lemma {:induction false} FailedPathsMembership(store: Store, usernames: seq<string>, year: int)
    ensures forall p :: p in FailedPaths(store, usernames, year) <==>
              p !in store && exists i :: 0 <= i < |usernames| && p == UserFilePath(usernames[i], year)
  {
    if |usernames| > 0 {
      var init := usernames[..|usernames| - 1];
      FailedPathsMembership(store, init, year);
      forall p | p !in store && exists i :: 0 <= i < |usernames| && p == UserFilePath(usernames[i], year)
        ensures p in FailedPaths(store, usernames, year)
      {
        var i :| 0 <= i < |usernames| && p == UserFilePath(usernames[i], year);
        if i < |init| {
          assert init[i] == usernames[i];
        }
      }
      forall p | p in FailedPaths(store, init, year)
        ensures exists i :: 0 <= i < |usernames| && p == UserFilePath(usernames[i], year)
      {
        var i :| 0 <= i < |init| && p == UserFilePath(init[i], year);
        assert init[i] == usernames[i];
      }
    }
  }

  /** createTotal: the sum of all users' files is written to the year's totals file. */
  method CreateTotal(store: Store, usernames: seq<string>, year: int)
    returns (store': Store, path: string)
    ensures path == TotalFilePath(year) && path in store'
    ensures forall d :: Get(store'[path], d) == TotalAt(Loads(store, usernames, year), d)
    ensures forall d :: d in store'[path] <==> InSomeLoaded(Loads(store, usernames, year), d)
    ensures forall p :: p != path ==> (p in store' <==> p in store)
    ensures forall p :: p != path && p in store ==> store'[p] == store[p]
  {
    var total, _ := SumContributions(store, usernames, year);
    path := TotalFilePath(year);
    store' := store[path := total];
  }

  // ---------------------------------------------------------------------
  // Properties of the sum

  /** Each date's total is the sum of its counts over the loaded maps. */
  lemma {:induction false} SumPointwise(loads: seq<Option<Counts>>, date: string)
    ensures Get(Sum(loads), date) == TotalAt(loads, date)
  {
    if |loads| > 0 {
      SumPointwise(loads[..|loads| - 1], date);
    }
  }

  /** The totals hold exactly the dates of the loaded maps, no others. */
  lemma {:induction false} SumKeys(loads: seq<Option<Counts>>, date: string)
    ensures date in Sum(loads) <==> InSomeLoaded(loads, date)
  {
    if |loads| > 0 {
      var init := loads[..|loads| - 1];
      SumKeys(init, date);
      if InSomeLoaded(init, date) {
        var i :| 0 <= i < |init| && init[i].Some? && date in init[i].value;
        assert loads[i] == init[i];
      }
      if InSomeLoaded(loads, date) && !(loads[|loads| - 1].Some? && date in loads[|loads| - 1].value) {
        var i :| 0 <= i < |loads| && loads[i].Some? && date in loads[i].value;
        assert init[i] == loads[i];
      }
    }
  }

  /** No users, or only failed ones, give the empty totals. */
  lemma {:induction false} SumOfFailuresIsEmpty(loads: seq<Option<Counts>>)
    requires forall i :: 0 <= i < |loads| ==> loads[i].None?
    ensures Sum(loads) == map[]
  {
    if |loads| > 0 {
      SumOfFailuresIsEmpty(loads[..|loads| - 1]);
    }
  }

  /** Adding one more load outcome at the end of the list. */
  lemma SumAppend(loads: seq<Option<Counts>>, last: Option<Counts>)
    ensures Sum(loads + [last]) == if last.Some? then Merge(Sum(loads), last.value) else Sum(loads)
  {
  }

  /** A single loaded map is its own total. */
  lemma SumOfOne(m: Counts)
    ensures Sum([Some(m)]) == m
  {
  }

  /** Two loaded maps add date by date, a missing date counting as 0. */
  lemma SumOfTwo(a: Counts, b: Counts, date: string)
    ensures Get(Sum([Some(a), Some(b)]), date) == Get(a, date) + Get(b, date)
    ensures date in Sum([Some(a), Some(b)]) <==> date in a || date in b
  {
    SumAppend([], Some(a));
    SumAppend([Some(a)], Some(b));
    assert [] + [Some(a)] == [Some(a)];
    assert [Some(a)] + [Some(b)] == [Some(a), Some(b)];
  }

  lemma {:induction false} TotalAtConcat(a: seq<Option<Counts>>, b: seq<Option<Counts>>, date: string)
    ensures TotalAt(a + b, date) == TotalAt(a, date) + TotalAt(b, date)
    decreases |b|
  {
    if |b| == 0 {
      assert a + b == a;
    } else {
      assert (a + b)[..|a + b| - 1] == a + b[..|b| - 1];
      TotalAtConcat(a, b[..|b| - 1], date);
    }
  }

  lemma {:induction false} TotalAtPermutation(a: seq<Option<Counts>>, b: seq<Option<Counts>>, date: string)
    requires multiset(a) == multiset(b)
    ensures TotalAt(a, date) == TotalAt(b, date)
    decreases |a|
  {
    if |a| == 0 {
      assert |multiset(b)| == 0;
    } else {
      var i := PermutationTail(a, b);
      TotalAtPermutation(a[..|a| - 1], RemoveAt(b, i), date);
      TotalAtWithout(b, i, date);
    }
  }

  /** Taking one load outcome out of the list takes its count out of the total. */
  lemma TotalAtWithout(b: seq<Option<Counts>>, i: int, date: string)
    requires 0 <= i < |b|
    ensures TotalAt(b, date) == TotalAt(RemoveAt(b, i), date) + Contribution(b[i], date)
  {
    var p, x, q := b[..i], b[i], b[i + 1..];
    TotalAtConcat(p + [x], q, date);
    TotalAtConcat(p, [x], date);
    TotalAtConcat(p, q, date);
    assert [x][..0] == [];
  }

  lemma LoadedKeyPermutation(a: seq<Option<Counts>>, b: seq<Option<Counts>>, date: string)
    requires multiset(a) == multiset(b)
    ensures InSomeLoaded(a, date) <==> InSomeLoaded(b, date)
  {
    if InSomeLoaded(a, date) {
      var i :| 0 <= i < |a| && a[i].Some? && date in a[i].value;
      assert a[i] in multiset(b);
      var j :| 0 <= j < |b| && b[j] == a[i];
    }
    if InSomeLoaded(b, date) {
      var i :| 0 <= i < |b| && b[i].Some? && date in b[i].value;
      assert b[i] in multiset(a);
      var j :| 0 <= j < |a| && a[j] == b[i];
    }
  }

  /** Reordering the load outcomes leaves the totals unchanged. */
  lemma SumPermutation(a: seq<Option<Counts>>, b: seq<Option<Counts>>)
    requires multiset(a) == multiset(b)
    ensures Sum(a) == Sum(b)
  {
    forall d
      ensures (d in Sum(a) <==> d in Sum(b)) && Get(Sum(a), d) == Get(Sum(b), d)
    {
      SumKeys(a, d);
      SumKeys(b, d);
      LoadedKeyPermutation(a, b, d);
      SumPointwise(a, d);
      SumPointwise(b, d);
      TotalAtPermutation(a, b, d);
    }
  }

  /** Failed loads contribute nothing: the totals are those of the loaded maps alone. */
  lemma {:induction false} SumSkipsFailures(loads: seq<Option<Counts>>)
    ensures Sum(loads) == Sum(Loaded(loads))
  {
    if |loads| > 0 {
      var init := loads[..|loads| - 1];
      SumSkipsFailures(init);
      var rest := Loaded(init);
      if loads[|loads| - 1].Some? {
        assert (rest + [loads[|loads| - 1]])[..|rest|] == rest;
      }
    }
  }

  /** A failing user anywhere in the list neither adds anything nor stops the users after it. */
  lemma FailureInTheMiddle(before: seq<Option<Counts>>, after: seq<Option<Counts>>)
    ensures Sum(before + [None] + after) == Sum(before + after)
  {
    assert multiset(before + [None] + after) == multiset([None] + before + after);
    SumPermutation(before + [None] + after, [None] + before + after);
    assert [None] + before + after == [None] + (before + after);
    SumSkipsFailures([None] + (before + after));
    SumSkipsFailures(before + after);
    LoadedDropsLeadingFailure(before + after);
  }

  lemma {:induction false} LoadedDropsLeadingFailure(s: seq<Option<Counts>>)
    ensures Loaded([None] + s) == Loaded(s)
  {
    if |s| > 0 {
      assert ([None] + s)[..|s|] == [None] + s[..|s| - 1];
      LoadedDropsLeadingFailure(s[..|s| - 1]);
    }
  }

  lemma {:induction false} LoadsPermutation(store: Store, a: seq<string>, b: seq<string>, year: int)
    requires multiset(a) == multiset(b)
    ensures multiset(Loads(store, a, year)) == multiset(Loads(store, b, year))
    decreases |a|
  {
    if |a| == 0 {
      assert |multiset(b)| == 0;
    } else {
      var i := PermutationTail(a, b);
      var init, x := a[..|a| - 1], a[|a| - 1];
      LoadsPermutation(store, init, RemoveAt(b, i), year);
      assert a == init + [x];
      LoadsConcat(store, init, [x], year);
      LoadsConcat(store, b[..i] + [x], b[i + 1..], year);
      LoadsConcat(store, b[..i], [x], year);
      LoadsConcat(store, b[..i], b[i + 1..], year);
    }
  }

  lemma LoadsConcat(store: Store, a: seq<string>, b: seq<string>, year: int)
    ensures Loads(store, a + b, year) == Loads(store, a, year) + Loads(store, b, year)
  {
  }

  /** The order in which the usernames are listed does not affect the totals. */
  lemma UsernameOrderIrrelevant(store: Store, a: seq<string>, b: seq<string>, year: int)
    requires multiset(a) == multiset(b)
    ensures Sum(Loads(store, a, year)) == Sum(Loads(store, b, year))
  {
    LoadsPermutation(store, a, b, year);
    SumPermutation(Loads(store, a, year), Loads(store, b, year));
  }

  /**
   * Two users with overlapping dates: 3 + 5 on the shared date, and each
   * user's own dates carried over, including an explicit 0.
   */
  lemma TwoUsersExample()
    ensures Sum([Some(map["2024-01-01" := 3, "2024-01-02" := 0]), Some(map["2024-01-01" := 5, "2024-01-03" := 2])])
            == map["2024-01-01" := 8, "2024-01-02" := 0, "2024-01-03" := 2]
    ensures Sum([Some(map["2024-01-01" := 3, "2024-01-02" := 0]), None])
            == map["2024-01-01" := 3, "2024-01-02" := 0]
  {
    var alice := map["2024-01-01" := 3, "2024-01-02" := 0];
    var bob := map["2024-01-01" := 5, "2024-01-03" := 2];
    var expected := map["2024-01-01" := 8, "2024-01-02" := 0, "2024-01-03" := 2];
    var both := Sum([Some(alice), Some(bob)]);
    forall d
      ensures (d in both <==> d in expected) && Get(both, d) == Get(expected, d)
    {
      SumOfTwo(alice, bob, d);
    }
    SumAppend([Some(alice)], None);
    assert [Some(alice)] + [None] == [Some(alice), None];
    SumOfOne(alice);
  }
}
