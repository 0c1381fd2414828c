/**
 * The persisted contribution files: one per (username, year) written by the
 * fetcher and read by the aggregator, and one per year for the combined
 * totals. A file's YAML content is modelled as the date -> count map it
 * holds.
 */
module Persistence {
  import opened Wrappers
  import opened Decimal

  /** A contributions document: ISO date -> contribution count. */
  type Counts = map<string, int>

  /** The files that exist and parse, by path; any other path fails to load. */
  type Store = map<string, Counts>

  /** The count recorded for a date, 0 when the date is absent. */
  function Get(m: Counts, date: string): int {
    if date in m then m[date] else 0
  }

  /** Reading and parsing one file: None stands for the exception either raises. */
  function Load(store: Store, path: string): Option<Counts> {
    if path in store then Some(store[path]) else None
  }

  const Prefix: string := "contributions_"
  const Extension: string := ".yml"

  /** `contributions_<username>_<year>.yml` */
  function UserFilePath(username: string, year: int): string
  {
    Prefix + username + "_" + IntToDecimal(year) + Extension
  }

  /** `contributions_total_<year>.yml` */
  function TotalFilePath(year: int): string
  {
    Prefix + "total_" + IntToDecimal(year) + Extension
  }

  predicate NoUnderscore(s: string) {
    forall i :: 0 <= i < |s| ==> s[i] != '_'
  }

  /** A rendered number holds no underscore, so it cannot absorb part of a user name. */
  lemma DecimalHasNoUnderscore(n: int)
    ensures NoUnderscore(IntToDecimal(n))
  {
  }

  /** Equal texts with equal surroundings have equal middles. */
  lemma StripSurroundings(a: string, m1: string, m2: string, b: string)
    requires a + m1 + b == a + m2 + b
    ensures m1 == m2
  {
    var s := a + m1 + b;
    assert m1 == s[|a|..|s| - |b|];
    assert m2 == (a + m2 + b)[|a|..|s| - |b|];
  }

  /** In `u + "_" + y` with no underscore in `y`, every underscore sits at or before index `|u|`. */
  lemma UnderscoreNotInSuffix(u: string, y: string, k: nat)
    requires NoUnderscore(y)
    requires k < |u + "_" + y| && (u + "_" + y)[k] == '_'
    ensures k <= |u|
  {
  }

  /** The last underscore splits `u + "_" + y` uniquely when `y` has none. */
  lemma SplitAtLastUnderscore(u1: string, y1: string, u2: string, y2: string)
    requires NoUnderscore(y1) && NoUnderscore(y2)
    requires u1 + "_" + y1 == u2 + "_" + y2
    ensures u1 == u2 && y1 == y2
  {
    var s := u1 + "_" + y1;
    var t := u2 + "_" + y2;
    assert s[|u1|] == '_' && t[|u2|] == '_';
    UnderscoreNotInSuffix(u1, y1, |u2|);
    UnderscoreNotInSuffix(u2, y2, |u1|);
    assert u1 == s[..|u1|] == t[..|u2|] == u2;
    assert y1 == s[|u1| + 1..] == t[|u2| + 1..] == y2;
  }

  /**
   * Different (username, year) pairs never share a per-user file, so no
   * fetch overwrites another user's or another year's data.
   */
  lemma UserFilePathInjective(u1: string, y1: int, u2: string, y2: int)
    requires UserFilePath(u1, y1) == UserFilePath(u2, y2)
    ensures u1 == u2 && y1 == y2
  {
    var d1, d2 := IntToDecimal(y1), IntToDecimal(y2);
    assert Prefix + (u1 + "_" + d1) + Extension == UserFilePath(u1, y1);
    assert Prefix + (u2 + "_" + d2) + Extension == UserFilePath(u2, y2);
    StripSurroundings(Prefix, u1 + "_" + d1, u2 + "_" + d2, Extension);
    DecimalHasNoUnderscore(y1);
    DecimalHasNoUnderscore(y2);
    SplitAtLastUnderscore(u1, d1, u2, d2);
    IntToDecimalInjective(y1, y2);
  }

  /** Totals of different years go to different files. */
  lemma TotalFilePathInjective(y1: int, y2: int)
    requires TotalFilePath(y1) == TotalFilePath(y2)
    ensures y1 == y2
  {
    assert Prefix + "total_" + IntToDecimal(y1) + Extension == TotalFilePath(y1);
    StripSurroundings(Prefix + "total_", IntToDecimal(y1), IntToDecimal(y2), Extension);
    IntToDecimalInjective(y1, y2);
  }

  /**
   * The totals file of a year is exactly the per-user file a user named
   * `total` gets for that year, and no other user's.
   */
  lemma TotalFileSharedOnlyWithUserTotal(username: string, year: int, y: int)
    ensures TotalFilePath(year) == UserFilePath("total", year)
    ensures UserFilePath(username, y) == TotalFilePath(year) <==> username == "total" && y == year
  {
    assert TotalFilePath(year) == UserFilePath("total", year);
    if UserFilePath(username, y) == TotalFilePath(year) {
      UserFilePathInjective(username, y, "total", year);
    }
  }
}
