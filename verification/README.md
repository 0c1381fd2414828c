# gh-contributions-collection, modelled in Dafny

This project models the pure core of a small Deno tool that collects GitHub
contribution calendars. Three pieces are modelled:

- **Fetcher** (`functions/gh-contributions.ts`). It sends one GraphQL request per user and
  year, flattens the calendar's weeks of days into one list, and folds that
  list into a date -> count map. The map is written to
  `contributions_<username>_<year>.yml`.
- **Aggregator** (`functions/total.ts`). It loads each listed user's file for
  the year and adds the maps date by date into one totals map, which is
  written to `contributions_total_<year>.yml`. A user whose file cannot be
  read or parsed is reported and skipped.
- **Input** (`functions/input.ts`). It reads the year, a username, and more
  usernames for as long as the user answers yes. Any bad answer ends the
  process.

Modules, one per concern:

| file | module | models |
|---|---|---|
| `wrappers.dfy` | `Wrappers` | `Option` and `Result` |
| `decimal.dfy` | `Decimal` | how a template literal renders an integer (`${year}`), plus a parser used to prove the rendering injective |
| `persistence.dfy` | `Persistence` | the persisted files: a store of path -> date/count map, and the two file-name schemes |
| `total.dfy` | `Total` | `sumContributions` and `createTotal` |
| `contributions.dfy` | `Contributions` | `fetchContributionsForYear` |
| `input.dfy` | `Input` | `getYearFromUser`, `getUsernameFromUser`, `getYesNoAnswer`, `getUserInput` |
| `pipeline.dfy` | `Pipeline` | the fetcher followed by the aggregator over the same store |

External edges are parameters:

- The file system is a `Store`, a map from path to the date -> count map the
  file's YAML holds. A path missing from the store is a file that cannot be
  read or parsed.
- The GraphQL endpoint is a function `api: Variables -> Response` from the
  request variables to the HTTP response.
- `prompt` is a sequence of answers. Reading past its end gives `None`,
  which is what `prompt` returns at end of input.
- `parseInt` is a function `parse: string -> Option<int>`, where `None`
  stands for `NaN`.
- The clock is a `currentYear` parameter.
- Each `Deno.exit(1)` is a `Failure` carrying an `InputError`.

## Model

| member | source | states |
|---|---|---|
| Decimal.IntToDecimal | functions/gh-contributions.ts:16-17 | definition of how `${year}` renders an integer: non-empty, digits with an optional leading `-`; `Decimal.IntRoundTrip` proves the parser reads it back, so distinct years render differently |
| Persistence.Load | functions/total.ts:11-24 | definition of reading and parsing one file inside the `try`: the stored map, or `None` where the `catch` at lines 22-24 takes over; no contract of its own, the case split behind `Total.SumContributions` and `Total.Loads` |
| Persistence.UserFilePath | functions/total.ts:9 | definition of `contributions_${username}_${year}.yml` (also gh-contributions.ts:85); no contract of its own, characterised by `Persistence.UserFilePathInjective` |
| Persistence.TotalFilePath | functions/total.ts:33 | definition of `contributions_total_${year}.yml`; no contract of its own, characterised by `Persistence.TotalFilePathInjective` and `Persistence.TotalFileSharedOnlyWithUserTotal` |
| Persistence.UserFilePathInjective | functions/total.ts:9 | two different (username, year) pairs never name the same per-user file; the year text holds no `_`, so the last underscore splits name from year |
| Persistence.TotalFilePathInjective | functions/total.ts:33-36 | totals of different years go to different files |
| Persistence.TotalFileSharedOnlyWithUserTotal | functions/total.ts:33-36 | the year's totals file is exactly the per-user file of a user called `total` for that year, and of no other user or year |
| Total.Loads | functions/total.ts:8-13 | definition of the per-username path and load, in list order; its contract gives exactly one outcome per listed username, and `Total.LoadsPermutation` shows that reordering the usernames gives the same multiset of outcomes |
| Total.FailedPaths | functions/total.ts:22-23 | definition of the `console.error` lines of the `catch`, as the list of failing paths in username order, one per failing listed user; characterised by `Total.FailedPathsMembership`, and `Total.SumContributions` returns exactly this list |
| Total.TruthyStep | functions/total.ts:16-20 | definition of the as-written branch for one date; no contract of its own, characterised by `Total.TruthyStepAddsWithDefault` |
| Total.Merge | functions/total.ts:15-21 | definition of adding one user's map into the totals date by date (absent dates as 0); no contract of its own, the target `Total.MergeUser` is proved to reach |
| Total.Sum | functions/total.ts:8-24 | definition of the per-user loop over load outcomes in list order, a failed load skipped; no contract of its own, characterised by `Total.SumKeys`, `Total.SumPointwise`, `Total.SumPermutation` and `Total.SumSkipsFailures` |
| Total.TruthyStepAddsWithDefault | functions/total.ts:16-20 | the as-written branch (overwrite when the running total is absent or 0, else add) equals adding the count to the running total with 0 as default |
| Total.MergeUser | functions/total.ts:15-21 | visiting one user's dates in any order through the truthy branch yields the union of the key sets, each date holding the old total plus the user's count |
| Total.SumContributions | functions/total.ts:5-28 | the totals hold exactly the dates of the successfully loaded files; each date's value is the sum of its counts over those files, an absent date counting 0; the reported failures are exactly the paths of listed users whose file is missing; the failures come back in username order, one per failing user, as the `catch` logs them |
| Total.CreateTotal | functions/total.ts:30-36 | the totals are written to `contributions_total_<year>.yml` with the summed contents, and no other file changes |
| Total.SumPointwise | functions/total.ts:15-21 | each date's total equals the integer sum over loaded maps of that date's count, with 0 for a missing date |
| Total.SumKeys | functions/total.ts:6-21 | a date is in the totals if and only if some loaded map has it |
| Total.SumOfFailuresIsEmpty | functions/total.ts:5-8 | an empty user list, or one whose every load fails, gives the empty totals |
| Total.SumOfOne | functions/total.ts:15-21 | a single loaded map is its own total |
| Total.SumOfTwo | functions/total.ts:15-21 | with two loaded maps each date holds `A.get(d,0) + B.get(d,0)`, and the dates are those of either map |
| Total.SumPermutation | functions/total.ts:8-21 | any reordering of the load outcomes gives the same totals |
| Total.UsernameOrderIrrelevant | functions/total.ts:8-21 | any reordering of the username list gives the same totals |
| Total.SumSkipsFailures | functions/total.ts:11-24 | the totals equal the totals of the successfully loaded maps alone, in order |
| Total.FailureInTheMiddle | functions/total.ts:11-24 | a failed user anywhere in the list neither contributes nor stops the later users from being summed |
| Total.TwoUsersExample | functions/total.ts:15-21 | `{01: 3, 02: 0}` and `{01: 5, 03: 2}` total `{01: 8, 02: 0, 03: 2}`; with the second file missing the total is the first map |
| Contributions.RequestFor | functions/gh-contributions.ts:19-23 | definition of the `variables` object: the username with the two range ends; no contract of its own, `Contributions.Fetch`'s contract is stated over the response to it |
| Contributions.RangeFrom | functions/gh-contributions.ts:16 | definition of `${year}-01-01T00:00:00Z`; no contract of its own, characterised by `Contributions.RangeSpansTheYear` and `Contributions.RangeNamesTheYear` |
| Contributions.RangeTo | functions/gh-contributions.ts:17 | definition of `${year}-12-31T23:59:59Z`; no contract of its own, characterised by the same two lemmas |
| Contributions.Flatten | functions/gh-contributions.ts:71-73 | definition of `weeks.flatMap(week => week.contributionDays)`; no contract of its own, characterised by `Contributions.FlattenInOrder` and `Contributions.FlattenMembership` |
| Contributions.BuildMap | functions/gh-contributions.ts:75-81 | the map's keys are exactly the days' dates, and each date holds the count of the last day carrying it |
| Contributions.Fetch | functions/gh-contributions.ts:51-85 | a map is produced if and only if the status is ok and the body has no `errors`; a non-ok status is an HTTP error carrying the status and status text, even when the body also has errors; an ok response with `errors` fails with exactly those GraphQL errors; the map's keys are the dates of the flattened calendar, each holding the count of the last day carrying it, and its path is `contributions_<username>_<year>.yml` |
| Contributions.FetchContributionsForYear | functions/gh-contributions.ts:51-86 | on either failure nothing is written; on success exactly the user's file for the year is (over)written with the map; every other path loads as before |
| Contributions.RangeSpansTheYear | functions/gh-contributions.ts:16-17 | for a four-digit year `from` is `<year>-01-01T00:00:00Z` and `to` is `<year>-12-31T23:59:59Z`, 20 characters each, sharing the year; the two agree on their first five characters and first differ at index 5, where `from` has the smaller character, so `from` sorts first lexicographically |
| Contributions.RangeNamesTheYear | functions/gh-contributions.ts:16-17 | for any year rendered in digits (JavaScript does so below 10^21) the requested year can be read back from either range end |
| Contributions.FlattenInOrder | functions/gh-contributions.ts:69-73 | the day list is the weeks before week `i`, then week `i`'s days in order, then the weeks after |
| Contributions.FlattenMembership | functions/gh-contributions.ts:71-73 | a day is in the flattened list if and only if some week holds it |
| Contributions.FetchedKeys | functions/gh-contributions.ts:69-81 | a date is a key of the fetched map if and only if some day of some week carries it |
| Contributions.NoDaysGiveEmptyMap | functions/gh-contributions.ts:75-81 | zero weeks, or weeks with no days, give the empty map |
| Contributions.DistinctDatesKeepEveryDay | functions/gh-contributions.ts:75-81 | with no repeated date the map has one entry per day, holding that day's count |
| Contributions.LastWriteWins | functions/gh-contributions.ts:75-81 | folding days `a` then days `b` gives the map of `a` overridden by the map of `b`: every date `b` carries takes `b`'s count whatever `a` held for it, and the other dates keep `a`'s |
| Input.ValidateYear | functions/input.ts:1-23 | accepted if and only if an answer is present and non-empty, it parses, and `2000 <= year <= currentYear`; the accepted year is the parsed one; a missing answer is "required", any other rejection "invalid year" |
| Input.Trim | functions/input.ts:28-33 | definition of `String.prototype.trim` over the JavaScript white-space set; no contract of its own, characterised by `Input.TrimIsUnique`, `Input.TrimIdempotent` and `Input.AcceptedUsernameIsTrimmed` |
| Input.ToLower | functions/input.ts:37 | lower-casing keeps the length, turns each ASCII capital into the lower-case letter at the same alphabet position, leaves no ASCII capital, and changes no other character |
| Input.ValidateUsername | functions/input.ts:25-34 | rejected ("required") if and only if the answer is missing, empty or white space only; an accepted name is non-empty |
| Input.AcceptedUsernameIsTrimmed | functions/input.ts:28-33 | an accepted name has no leading or trailing white space and is the answer with only white space removed around it |
| Input.TrimIsUnique | functions/input.ts:33 | trimming yields `core` if and only if the text is `core` with only white space around it (for `core` without outer white space) |
| Input.TrimIdempotent | functions/input.ts:33 | trimming a trimmed name changes nothing |
| Input.YesNo | functions/input.ts:36-47 | a missing answer is rejected, and every rejection is "invalid yes/no" |
| Input.YesNoMeaning | functions/input.ts:37-46 | true if and only if the lower-cased answer is `y` or `yes` padded with white space; false if and only if it is `n` or `no` so padded; anything else is rejected |
| Input.FailedRoundCompletesNothing | functions/input.ts:55-64 | once a username or yes/no answer is rejected after accepted rounds, no number of usernames completes the dialogue |
| Input.GetUserInput | functions/input.ts:49-67 | succeeds if and only if the year is valid and the answers complete the dialogue; the list then holds at least one name, one more than the yes answers before the first no, each the trimmed answer to its prompt in entry order; a rejected year fails with the year's own error, and otherwise a failure carries the error of the first round whose username or yes/no answer was rejected |
| Pipeline.FetchAll | functions/gh-contributions.ts:12-89 | definition of running this function once per username, in list order, on one store (the composition of fetcher and aggregator; the repository's own driver loop is not part of this model); no contract of its own, characterised by `Pipeline.FetchAllLoad` |
| Pipeline.FetchAllLoad | functions/gh-contributions.ts:83-86 | after fetching a list of users, a user's file holds that user's fresh map if their fetch succeeded, else what it held before; files of unlisted users are untouched |
| Pipeline.FetchedThenLoaded | functions/total.ts:8-13 | the aggregator then loads, per listed user in order, the fresh map or, after a failed fetch, the stale earlier file |
| Pipeline.TotalsOfFreshFetches | functions/total.ts:8-21 | when every fetch succeeds, each date's total is the sum of the listed users' fetched counts, whatever the files held before |

## Left out

- `main.ts`: a single GraphQL query whose results are printed; it holds no logic.
- The HTTP call itself: `fetch`, headers and the bearer token (functions/gh-contributions.ts:42-49). These are foreign I/O; the response is the `api` parameter's result.
- The module-load token check and its `Deno.exit` (functions/gh-contributions.ts:5-10). This is process-global environment.
- `fetch` rejecting on a network failure (functions/gh-contributions.ts:42) and `response.json()` rejecting on a body that is not JSON (functions/gh-contributions.ts:60). The function has no `try`/`catch`, so both exceptions escape it, unlike the two logged `return`s. The model's `api` always returns a parsed response, so neither rejection is modelled. `Pipeline.FetchAll` likewise assumes every fetch returns.
- Pipeline.FetchAll: `api` is a pure function, so a username listed twice gets the same response both times. A real endpoint can fail on the second call or return newer data; that is not modelled.
- `${n}` for a number of magnitude 10^21 or more renders in exponent notation (`1e+21`) in JavaScript. `Decimal.IntToDecimal` renders every integer in digits, so the path and range facts hold for years as JavaScript prints them only below that bound.
- A response that is ok and has no `errors` but lacks `data.user...weeks` throws a `TypeError` in the source. The model assumes the weeks are present.
- YAML `stringify`/`parse`, `Deno.readTextFile`/`writeTextFile` and `ensureFile`. These are library and file I/O: a file is the map it holds. A write that throws is not modelled. A file that parses to `null` (an empty file) or to a scalar has no keys for `for...in` to visit, so it behaves as the empty map: it adds nothing and is not reported, which is a store entry holding `map[]`. A document that parses to a string or a list, whose indices `for...in` would walk, is not modelled.
- `console.log`/`console.error`. The failed paths that `sumContributions` logs are returned as `failed`, the fetch errors as `FetchError`.
- `prompt`, `Deno.exit` and `new Date().getFullYear()`. These are replaced by the answer sequence, error results and `currentYear`.
- The exact behaviour of `parseInt` (leading white space, trailing garbage, `NaN`). It is the abstract `parse` parameter.
- `toLowerCase` is modelled on ASCII letters only. No other character lowers to a letter of `y`, `yes`, `n`, `no` or to white space, so the yes/no decision is unaffected.
- Paths are compared as exact strings, with no case folding or path normalisation. On a case-insensitive file system `contributions_Total_2024.yml` would also be the totals file; `Persistence.TotalFileSharedOnlyWithUserTotal` speaks of exact names only.
- JavaScript numbers are modelled as unbounded integers. Counts are small integers, so floating point and `NaN` from a non-numeric YAML value are left out.
- Object-key quirks of `Record<string, number>` (prototype keys such as `__proto__`, key enumeration order) are left out. Dafny maps have no order, and any visiting order is allowed in `Total.MergeUser`.
- async/await: the loops are sequential, so there is no concurrency to model.
- The type alias at functions/gh-contributions.ts:66 declares `contributionDays` as one object, while `flatMap` treats it as an array. Each week is modelled as a sequence of days, which is what the API returns.
- The code takes a username list, not a set, and only logs load failures. The model follows the code: the input is a sequence, duplicates are summed twice, and the failures come back as the list of failed paths.
