# Roblox profile scanner: a Dafny model of the matcher and the crawler

The repository scans Roblox account profiles for blocked words. Two parts hold
its logic, and this project models both:

- **The text matcher** (`ContentScanner` in `scanner.py`). It holds a
  blocklist and an allowlist loaded from a configuration file. `scan_text`
  lower-cases the text and deletes every occurrence of each allowed phrase,
  in list order. It then returns, without duplicates, each blocklist entry in
  its own casing whose lower-cased form still occurs in the text.
  `is_clean` holds when that result is empty.
- **The crawler** (`run_crawler` and `scan_single_user_by_id` in `main.py`).
  It resolves a seed account, then runs a breadth-first search over the
  friend graph. Each pass dequeues an `(id, depth)` entry and skips it when it
  is deeper than the depth limit. Otherwise it fetches and scans the profile
  (display name, a newline, then the description) and reports it when
  something matched. If the budget and the depth limit allow, it then
  enqueues the friends not yet visited, one level deeper. It stops when the
  queue is empty or `limit` profiles have been scanned.

Files:

- `wrappers.dfy`: the `Option` type. It stands for `dict.get` defaults and for
  the lookups that can fail.
- `strings.dfy`: ASCII `lower`, substring containment, `replace(p, "")`, and
  the decimal conversions `isdigit`, `int(s)` and `str(n)`.
- `scanner.dfy`: the specification `ScanResult` and its properties. Also the
  `ContentScanner` class, whose `ScanText` loops are proved against
  `ScanResult`.
- `reporter.dfy`: the reporter as an append-only log of records.
- `crawler.dfy`: the crawler, its rules, and the properties of every run.

The remote service (`roblox_client.py`) is three total functions passed to
the crawler: name to `Option<id>`, id to `Option<Profile>`, and id to a
friend list. The crawler returns a ghost trace of `Step`s. Each step records
what became of one dequeued entry: skipped for depth, fetch failed, or
scanned, and whether its friends were fetched. The run's properties are
stated about that trace and about the reporter's log.

Four details of the code decide behaviour at the edges, and the model keeps
them:

- `str.replace(phrase, "")` removes every non-overlapping occurrence of an
  allowed phrase, scanning left to right (`Strings.ReplaceAll`).
- In `if depth_limit and ...` a depth limit of `0` is falsy, so it means no
  limit at all (`TooDeep`, `MayExpand`, `Crawler.DepthLimitZeroIsNone`).
- The crawl is abandoned when the seed name does not resolve, and also when
  it resolves to id `0`, which is falsy too (`Crawler.ResolveSeed`).
- The reported user name is the profile's `name` key, or `ID:<id>` when the
  key is absent (`Crawler.Username`, `Crawler.AliceReported`).

The queue is modelled exactly. `Crawler.Discovered` lists every entry a run
has put in its queue so far, in order: the seed at depth 0, then, for each
step, the entries that step appended (`Crawler.Added`). The deque is always
the part of that list not yet dequeued, and the visited set is always the
set of its ids (`Crawler.Crawling`). A trace is valid (`Crawler.Trace`) when
each step handles the next entry of that list, as the rules make of it.

## Model

| member | source | states |
|---|---|---|
| Strings.ContainsAt | scanner.py:36 | `p in s` (the recursive `Contains`) holds exactly when some window of `s` equals `p` |
| Strings.ReplaceAll | scanner.py:42 | deleting every occurrence of `p` never lengthens the text, removes something whenever a non-empty `p` occurs, and changes nothing when `p` does not occur or is empty |
| Strings.NatToString | main.py:35 | `str(n)` is a digit string that reads back as `n`, with no leading zero except in `"0"` itself |
| Scanner.Edited | scanner.py:35-42 | deleting the allowed phrases in list order never lengthens the text and leaves it unchanged when no phrase occurs |
| Scanner.EditedConcat | scanner.py:35-42 | deleting the phrases of `a1 + a2` is deleting those of `a1`, then those of `a2` from what remains |
| Scanner.Hits | scanner.py:44-49 | an entry is collected exactly when it is a blocklist entry whose lower-cased form occurs in the working text; there are no more hits than blocklist entries |
| Scanner.Dedup | scanner.py:51 | `list(set(s))` has no duplicates and the same members as `s` |
| Scanner.ScanResult | scanner.py:24-51 | the result has no duplicates and holds exactly the blocklist entries, in their own casing, whose lower-cased form occurs in the lower-cased text after the allowlist deletions; empty text gives an empty result |
| Scanner.ScanCaseInsensitive | scanner.py:32 | scanning `lower(t)` gives the same result as scanning `t` |
| Scanner.ScanWithoutAllowlist | scanner.py:44-49 | with an empty allowlist, `p` is returned exactly when it is in the blocklist and `lower(p)` occurs in `lower(text)` |
| Scanner.BlocklistAppend | scanner.py:45-49 | a term is found with blocklist `b1 + b2` exactly when it is found with `b1` or with `b2` |
| Scanner.AllowedPhraseSuppressesMatch | scanner.py:35-42 | "I love discord pie" with blocklist ["discord"] and allowlist ["discord pie"] gives an empty result |
| Scanner.AllowedPhraseCanCreateMatch | scanner.py:35-49 | deleting the allowed "abc" from "disABCcord" joins "dis" and "cord", so "Discord" is returned although the text itself does not contain it |
| Scanner.ContentScanner.constructor | scanner.py:6-10 | a scanner starts with empty lists, then loads the configuration |
| Scanner.ContentScanner.ReloadConfig | scanner.py:12-22 | a found configuration replaces both lists; a missing key gives an empty list, allowed phrases are lower-cased, and a missing file keeps the lists |
| Scanner.ContentScanner.ScanText | scanner.py:24-51 | the two loops compute `ScanResult` of the text and the scanner's current lists |
| Scanner.ContentScanner.IsClean | scanner.py:53-54 | clean exactly when the scan result is empty, that is, when the text is empty or no blocklist entry occurs in the edited text |
| Reporting.Reporter.constructor | reporter.py:7-9 | a new reporter has logged nothing |
| Reporting.Reporter.LogFlaggedAccount | reporter.py:18-28 | each call appends exactly one record with the given name, id, terms and snippet, and changes nothing else |
| Crawler.ReportFor | main.py:35-44 | a scanned profile yields one record exactly when its match set is non-empty; the record holds the profile's name (or `ID:<id>`), the id, the matches, and a snippet that starts the description, is all of it when it has at most 100 characters, and has exactly 100 characters otherwise |
| Crawler.BlockedTermReported | main.py:39-44 | with no allowlist, a blocked term in the display name or the description gets the account reported for that term |
| Crawler.AliceReported | main.py:35-44 | account 1 named "alice" whose description is "contact me on discord" is reported as ("alice", 1, ["discord"], "contact me on discord") |
| Crawler.ScanSingleUserById | main.py:26-48 | succeeds exactly when the profile is fetched, returns the reported name, and appends exactly the records `ReportFor` gives, nothing on failure |
| Crawler.ResolveSeed | main.py:55-61 | the seed fails exactly when it is a name that is not all digits and resolves to nothing or to 0; an id is used as it is, a digit string gives its decimal value, and any other name gives the id it resolves to |
| Crawler.NewFriendsFacts | main.py:87-91 | the friends the loop enqueues are friends not yet visited, each once, and afterwards every friend in the list is visited |
| Crawler.AddedFacts | main.py:84-91 | a step enqueues only friends it fetched that were not yet visited, one level deeper, each once (that a step enqueues nothing unless it scanned and may expand is `Added`'s own ensures) |
| Crawler.AddedCoversFriends | main.py:87-90 | after a step that fetched friends, every one of them is visited |
| Crawler.EnqueueFriends | main.py:85-91 | the queue gains, after its old contents, one entry at `depth + 1` per friend not yet visited, in friend-list order and once each (`NewFriends`), and the visited set gains exactly their ids |
| Crawler.VisitNext | main.py:69-91 | one pass turns the front entry into the step the rules give, counts a scan only when the profile was fetched, drops the front of the queue and appends exactly what that step enqueues (`Added`), marks those ids visited, and logs exactly that step's records |
| Crawler.Advance | main.py:64-91 | one pass keeps the loop invariant: the steps form a trace, the queue is the part of the queued entries not yet dequeued, the visited set is the ids of all queued entries, and the count is the number of scans |
| Crawler.RunCrawler | main.py:50-95 | an unresolved seed does nothing; otherwise the run is a trace that has stopped (queue empty or `limit` scans), takes at least one step when `limit > 0`, scans at most `max(limit, 0)` profiles, logs exactly the records of its scans, and when it stops before the budget every friend of an account whose friends were fetched was itself dequeued |
| Crawler.ReportsOfBound | main.py:77-79 | a run logs at most one record per successful scan |
| Crawler.DiscoveredDistinct | main.py:87-90 | no account is queued twice |
| Crawler.ListedDiscovered | main.py:85-91 | every friend of a step that fetched friends has been queued |
| Crawler.DiscoveredOrigin | main.py:84-90 | every queued entry but the seed was enqueued, one level deeper, by the first step whose fetched friend list held its account |
| Crawler.TraceEntries | main.py:64-69 | the queue is first in, first out: step `i` handled the `i`-th entry ever queued |
| Crawler.TraceFollowsRules | main.py:68-84 | each step is taken while fewer than `limit` profiles were scanned, and is skipped, failed or scanned as the depth limit and the fetch decide, expanding exactly when the count after it and its depth allow |
| Crawler.TraceWithinBudget | main.py:68-79 | a run scans at most `max(limit, 0)` profiles |
| Crawler.TraceLinked | main.py:64-90 | the first step is the seed at depth 0; every later step handles an account one level deeper than the earlier step that enqueued it, which is the first step whose fetched friend list held that account |
| Crawler.TraceDistinct | main.py:87-90 | no account is dequeued twice |
| Crawler.DiscoveredSorted | main.py:64-90 | the queued entries are sorted by depth, and none is more than one level deeper than the last dequeued one |
| Crawler.TraceDepthOrdered | main.py:64-90 | entries are dequeued in order of depth, and the entries still waiting span at most one level |
| Crawler.DepthLimitRespected | main.py:72-84 | with a depth limit `d > 0`, nothing deeper than `d` is ever queued, so nothing is skipped, and friends are fetched only below depth `d` |
| Crawler.DepthLimitZeroIsNone | main.py:72-84 | a depth limit of 0 allows exactly the runs that no depth limit allows |
| Crawler.UnfetchableScansNothing | main.py:31-33 | when no profile can be fetched, nothing is scanned or reported, nothing but the seed is queued, and the run ends after the seed |
| Crawler.QueueOrderExample | main.py:64-91 | with friends 1 -> [2, 3], 2 -> [3], 3 -> [4] and depth limit 2, every run scans 1, then 2, then 3 at depth 1 with its friends fetched, as the first-in first-out queue and the first visit decide |
| Crawler.TraceDeterministic | main.py:68-95 | of two runs with the same inputs, the shorter is a prefix of the longer |
| Crawler.StopsWhenFinished | main.py:68 | a run does not go on past a point where the queue is empty or `limit` profiles were scanned |
| Crawler.RunIsUnique | main.py:68-95 | two finished runs with the same inputs are the same run |
| Crawler.ExhaustedExplored | main.py:68-91 | a run that stopped with an empty queue dequeued every friend it fetched |

## Left out

- `roblox_client.py` is not part of this model. Its HTTP requests, JSON
  parsing, `time.sleep` pacing and conversion of errors into `None` become the
  three functions passed to the crawler.
- The reporter's files and console output are left out: the CSV header, CSV
  and JSON writing, the choice by file extension, timestamps, the profile
  link, the `", ".join` of the terms, and the newline clean-up of the CSV
  snippet. The log keeps the four values each record is made from.
- `load_config` and `main` in `main.py` are left out: argparse, `input()`,
  the bulk and single-user modes, and the default configuration written to
  disk. So are all `print` calls.
- Reading `config.json` is left out: `ContentScanner.constructor` and
  `ReloadConfig` take the parsed file, or `None` when it is missing. A file
  that is present but malformed raises in the source and is not modelled.
- `str.lower` and `str.isdigit` are modelled on ASCII letters and digits only,
  with no Unicode case folding or Unicode digits.
- The order of `list(set(...))` is unspecified in Python, and with string
  hashing randomized per process it may change from one run to the next.
  `Scanner.Dedup` keeps first occurrences, which is one order Python may
  produce. `ScanText`, `ReportFor`, `ScanSingleUserById`, `VisitNext` and
  `RunCrawler` return or log the terms in that order, so their equalities
  hold only up to the order of each term list. The scanner's own properties
  (`ScanResult`, `ScanWithoutAllowlist`, `BlocklistAppend`) are stated by
  membership.
- Strings.ReplaceAll: the contract gives only the length and identity facts.
  The exact left-to-right, non-overlapping deletion is the function's
  definition, and the two allowlist example lemmas exercise it.
- A profile is a record of three optional fields. An empty dictionary, which
  `if not profile` treats as a failed fetch, and JSON `null` field values are
  not distinguished from a fetched profile with absent keys.
- Crawler.RunCrawler: the seed is a name or a natural-number id, so a
  negative integer seed is not modelled. Likewise, friend ids are natural
  numbers.
- Crawler.RunCrawler: the source returns nothing. The model's ghost trace is
  only an observation of the run, and concurrency and timing are not
  modelled, since the source runs one call at a time.
