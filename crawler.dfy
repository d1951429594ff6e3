/**
 * The breadth-first crawler of main.py. Starting from a seed account it
 * dequeues `(id, depth)` entries, scans each profile it can fetch, reports the
 * flagged ones, and enqueues the not-yet-visited friends of scanned profiles
 * while the scan budget and the depth limit allow.
 *
 * The remote service is three total functions supplied by the caller: name to
 * id, id to profile, id to friend ids. What the loop did with each dequeued
 * entry is returned as a ghost trace of `Step`s, and the properties of a run
 * are stated about that trace and about the reporter's log.
 */
module Crawler {
  import opened Wrappers
  import opened Strings
  import opened Scanner
  import opened Reporting

  /** The fields of a fetched profile that the crawler reads; each key may be absent. */
  datatype Profile = Profile(name: Option<string>, displayName: Option<string>, description: Option<string>)

  /** The seed as given: an account name, or an account id. */
  datatype Seed = Name(name: string) | Id(id: nat)

  /** A frontier entry: an account id and its distance from the seed. */
  datatype Entry = Entry(id: nat, depth: nat)

  /** What became of one dequeued entry. */
  datatype Step =
    | Skipped(id: nat, depth: nat)                  // deeper than the depth limit
    | Failed(id: nat, depth: nat)                   // the profile could not be fetched
    | Scanned(id: nat, depth: nat, expanded: bool)  // scanned; `expanded` when its friends were fetched

  // ---------------------------------------------------------------- one profile

  /** The name reported for an account: its `name`, or "ID:" and its id when the key is absent. */
  function Username(id: nat, p: Profile): string {
    p.name.GetOr("ID:" + NatToString(id))
  }

  /** The description, empty when absent. */
  function Description(p: Profile): string {
    p.description.GetOr("")
  }

  /** The text handed to the scanner: display name, a newline, then the description. */
  function ScannedText(p: Profile): string {
    p.displayName.GetOr("") + "\n" + Description(p)
  }

  /** `description[:100]`. */
  function Snippet(p: Profile): string {
    var d := Description(p);
    if |d| <= 100 then d else d[..100]
  }

  /**
   * The records scanning profile `p` of account `id` logs: one exactly when
   * some blocklist term matched, holding those terms and at most the first
   * 100 characters of the description.
   */
  function ReportFor(id: nat, p: Profile, block: seq<string>, allow: seq<string>): (r: seq<Report>)
    ensures |r| <= 1
    ensures r == [] <==> ScanResult(ScannedText(p), block, allow) == []
    ensures forall rep :: rep in r ==>
              && rep.username == Username(id, p)
              && rep.userId == id
              && rep.terms == ScanResult(ScannedText(p), block, allow)
              && |rep.snippet| <= 100
              && rep.snippet <= Description(p)
              && (|Description(p)| <= 100 ==> rep.snippet == Description(p))
              && (|Description(p)| > 100 ==> |rep.snippet| == 100)
  {
    var matches := ScanResult(ScannedText(p), block, allow);
    if matches == [] then [] else [Report(Username(id, p), id, matches, Snippet(p))]
  }

  /**
   * Without an allowlist, a blocklisted term that occurs, ignoring case, in
   * the display name or in the description gets the account reported, and
   * the record lists that term.
   */
  lemma BlockedTermReported(id: nat, p: Profile, block: seq<string>, term: string)
    requires term in block
    requires Contains(Lower(p.displayName.GetOr("")), Lower(term)) || Contains(Lower(Description(p)), Lower(term))
    ensures |ReportFor(id, p, block, [])| == 1
    ensures term in ReportFor(id, p, block, [])[0].terms
  {
    var name, desc := p.displayName.GetOr(""), Description(p);
    LowerConcat(name, "\n");
    LowerConcat(name + "\n", desc);
    if Contains(Lower(name), Lower(term)) {
      ContainsConcat(Lower(name), Lower("\n"), Lower(term));
    }
    ContainsConcat(Lower(name + "\n"), Lower(desc), Lower(term));
    assert term in ScanResult(ScannedText(p), block, []);
  }

  /**
   * The account named "alice" with id 1 whose description reads "contact me
   * on discord" is reported once, for "discord", with the whole description
   * as its snippet.
   */
  lemma AliceReported(id: nat, p: Profile, block: seq<string>)
    requires id == 1 && block == ["discord"]
    requires p == Profile(Some("alice"), None, Some("contact me on discord"))
    ensures ReportFor(id, p, block, []) == [Report("alice", 1, ["discord"], "contact me on discord")]
  {
    DiscordInDescription(Description(p), "discord");
    BlockedTermReported(id, p, block, "discord");
    SingletonOfMember(ReportFor(id, p, block, [])[0].terms, "discord");
  }

  /** The example's description contains the blocked term. */
  lemma DiscordInDescription(desc: string, term: string)
    requires desc == "contact me on discord" && term == "discord"
    ensures Contains(Lower(desc), Lower(term))
  {
    var head := "contact me on ";
    assert Lower(term) == term;
    assert Lower(desc) == head + term;
    assert StartsWith(term, term);
    ContainsSkip(head, term, term);
  }

  /**
   * Fetches and scans one account. Succeeds exactly when the profile could
   * be fetched, and then logs a record when, and only when, a term matched.
   */
  method ScanSingleUserById(userId: nat, fetchProfile: nat -> Option<Profile>,
                            scanner: ContentScanner, reporter: Reporter)
    returns (success: bool, username: Option<string>)
    modifies reporter
    ensures success <==> fetchProfile(userId).Some?
    ensures username == if success then Some(Username(userId, fetchProfile(userId).value)) else None
    ensures reporter.log == old(reporter.log) +
              (if success then ReportFor(userId, fetchProfile(userId).value, scanner.blocklist, scanner.allowlist)
               else [])
  {
    var profile := fetchProfile(userId);
    if profile.None? {
      return false, None;
    }
    var p := profile.value;
    var name := Username(userId, p);
    var description := Description(p);
    var textToScan := p.displayName.GetOr("") + "\n" + description;
    var matches := scanner.ScanText(textToScan);
    if matches != [] {
      reporter.LogFlaggedAccount(name, userId, matches, Snippet(p));
    }
    return true, Some(name);
  }

  // ---------------------------------------------------------------- the seed

  /**
   * The seed's id. A name made of digits is read as an id; any other name is
   * resolved, and resolving to nothing or to 0 counts as failure.
   */
  function ResolveSeed(seed: Seed, resolve: string -> Option<nat>): (r: Option<nat>)
    ensures r.None? <==> seed.Name? && !IsDigits(seed.name) && (resolve(seed.name).None? || resolve(seed.name) == Some(0))
    ensures seed.Id? ==> r == Some(seed.id)
    ensures seed.Name? && IsDigits(seed.name) ==> r == Some(DecimalValue(seed.name))
    ensures seed.Name? && !IsDigits(seed.name) && r.Some? ==> r == resolve(seed.name)
  {
    match seed
    case Id(n) => Some(n)
    case Name(s) =>
      if IsDigits(s) then Some(DecimalValue(s))
      else match resolve(s)
        case None => None
        case Some(n) => if n == 0 then None else Some(n)
  }

  // ---------------------------------------------------------------- the rules for one entry

  /** The depth limit is in force (neither absent nor 0) and `depth` exceeds it. */
  predicate TooDeep(depth: nat, depthLimit: Option<int>) {
    depthLimit.Some? && depthLimit.value != 0 && depth > depthLimit.value
  }

  /** After `scanned` scans, the friends of an account at `depth` are fetched. */
  predicate MayExpand(scanned: nat, depth: nat, limit: int, depthLimit: Option<int>) {
    scanned < limit && (depthLimit.None? || depthLimit.value == 0 || depth < depthLimit.value)
  }

  /** What happens to entry `e` when `scannedBefore` profiles have been scanned. */
  function Outcome(e: Entry, scannedBefore: nat, fetchProfile: nat -> Option<Profile>,
                   limit: int, depthLimit: Option<int>): Step
  {
    if TooDeep(e.depth, depthLimit) then Skipped(e.id, e.depth)
    else if fetchProfile(e.id).None? then Failed(e.id, e.depth)
    else Scanned(e.id, e.depth, MayExpand(scannedBefore + 1, e.depth, limit, depthLimit))
  }

  /** The number of successful scans in a trace. */
  function ScannedCount(steps: seq<Step>): nat {
    if steps == [] then 0
    else ScannedCount(steps[..|steps| - 1]) + (if steps[|steps| - 1].Scanned? then 1 else 0)
  }

  /** The records one step logs: those of its scan, if it scanned. */
  function StepReports(s: Step, fetchProfile: nat -> Option<Profile>,
                       block: seq<string>, allow: seq<string>): seq<Report>
  {
    if s.Scanned? && fetchProfile(s.id).Some? then ReportFor(s.id, fetchProfile(s.id).value, block, allow) else []
  }

  /** The records a trace logs, in order. */
  function ReportsOf(steps: seq<Step>, fetchProfile: nat -> Option<Profile>,
                     block: seq<string>, allow: seq<string>): seq<Report>
  {
    if steps == [] then []
    else ReportsOf(steps[..|steps| - 1], fetchProfile, block, allow) +
         StepReports(steps[|steps| - 1], fetchProfile, block, allow)
  }

  /** The budget `limit`, never below zero. */
  function Budget(limit: int): nat {
    if limit < 0 then 0 else limit
  }

  // ---------------------------------------------------------------- the queue

  /** The ids of the accounts a trace dequeued. */
  function StepIds(steps: seq<Step>): set<nat> {
    if steps == [] then {} else StepIds(steps[..|steps| - 1]) + {steps[|steps| - 1].id}
  }

  /** The ids of a list of entries. */
  function IdsOf(entries: seq<Entry>): set<nat>
    decreases |entries|
  {
    if entries == [] then {} else IdsOf(entries[..|entries| - 1]) + {entries[|entries| - 1].id}
  }

  lemma {:induction false} IdsOfAppend(a: seq<Entry>, b: seq<Entry>)
    ensures IdsOf(a + b) == IdsOf(a) + IdsOf(b)
    decreases |b|
  {
    if b == [] {
      assert a + b == a;
    } else {
      var front := b[..|b| - 1];
      assert (a + b)[..|a + b| - 1] == a + front;
      IdsOfAppend(a, front);
    }
  }

  /** An id is among the ids of some entries exactly when one of them carries it. */
  lemma {:induction false} IdsOfMembers(entries: seq<Entry>, x: nat)
    ensures x in IdsOf(entries) <==> exists k :: 0 <= k < |entries| && entries[k].id == x
    decreases |entries|
  {
    if entries != [] {
      var front := entries[..|entries| - 1];
      IdsOfMembers(front, x);
      if exists k :: 0 <= k < |front| && front[k].id == x {
        var k :| 0 <= k < |front| && front[k].id == x;
        assert entries[k] == front[k];
      }
      if exists k :: 0 <= k < |entries| && entries[k].id == x {
        var k :| 0 <= k < |entries| && entries[k].id == x;
        if k < |front| {
          assert front[k] == entries[k];
        }
      }
    }
  }

  /** Entries for `ids`, in the same order, all at `depth`. */
  function AtDepth(ids: seq<nat>, depth: nat): (r: seq<Entry>)
    ensures |r| == |ids|
  {
    if ids == [] then [] else AtDepth(ids[..|ids| - 1], depth) + [Entry(ids[|ids| - 1], depth)]
  }

  lemma {:induction false} AtDepthIndex(ids: seq<nat>, depth: nat, k: nat)
    requires k < |ids|
    ensures AtDepth(ids, depth)[k] == Entry(ids[k], depth)
    decreases |ids|
  {
    if k < |ids| - 1 {
      AtDepthIndex(ids[..|ids| - 1], depth, k);
    }
  }

  lemma IdsOfAtDepth(ids: seq<nat>, depth: nat, x: nat)
    ensures x in IdsOf(AtDepth(ids, depth)) <==> x in ids
  {
    IdsOfMembers(AtDepth(ids, depth), x);
    forall k | 0 <= k < |ids|
      ensures AtDepth(ids, depth)[k].id == ids[k]
    {
      AtDepthIndex(ids, depth, k);
    }
  }

  /**
   * The friends that the loop over `friends` enqueues while `visited` holds
   * the visited ids: each friend not visited before, in list order, once.
   */
  function NewFriends(friends: seq<nat>, visited: set<nat>): (r: seq<nat>)
    ensures |r| <= |friends|
    decreases |friends|
  {
    if friends == [] then []
    else
      var earlier := NewFriends(friends[..|friends| - 1], visited);
      var f := friends[|friends| - 1];
      if f in visited || f in earlier then earlier else earlier + [f]
  }

  /** The new friends are unvisited friends, each once, and every friend is visited or among them. */
  lemma {:induction false} NewFriendsFacts(friends: seq<nat>, visited: set<nat>)
    ensures var r := NewFriends(friends, visited);
            && (forall x :: x in r ==> x in friends && x !in visited)
            && (forall f :: f in friends ==> f in visited || f in r)
            && (forall a, b :: 0 <= a < b < |r| ==> r[a] != r[b])
    decreases |friends|
  {
    if friends != [] {
      var front := friends[..|friends| - 1];
      assert friends == front + [friends[|friends| - 1]];
      NewFriendsFacts(front, visited);
    }
  }

  /** `parent` was scanned and its friend list, which was fetched, lists `id`. */
  ghost predicate Lists(parent: Step, id: nat, fetchFriends: nat -> seq<nat>) {
    parent.Scanned? && parent.expanded && id in fetchFriends(parent.id)
  }

  /**
   * The entries the loop appends to the queue after `step` while `visited`
   * holds the visited ids: none unless the step scanned its account and
   * fetched its friends; then each unvisited friend, in friend-list order,
   * once, one level deeper.
   */
  function Added(step: Step, visited: set<nat>, fetchFriends: nat -> seq<nat>): (r: seq<Entry>)
    ensures !(step.Scanned? && step.expanded) ==> r == []
  {
    if step.Scanned? && step.expanded then AtDepth(NewFriends(fetchFriends(step.id), visited), step.depth + 1)
    else []
  }

  /** What `step` enqueues are friends it fetched, not yet visited, one level deeper, each once. */
  lemma AddedFacts(step: Step, visited: set<nat>, fetchFriends: nat -> seq<nat>)
    ensures var r := Added(step, visited, fetchFriends);
            && (forall k :: 0 <= k < |r| ==>
                  r[k].id in fetchFriends(step.id) && r[k].id !in visited && r[k].depth == step.depth + 1)
            && (forall a, b :: 0 <= a < b < |r| ==> r[a].id != r[b].id)
  {
    if step.Scanned? && step.expanded {
      var ids := NewFriends(fetchFriends(step.id), visited);
      var r := AtDepth(ids, step.depth + 1);
      NewFriendsFacts(fetchFriends(step.id), visited);
      forall k | 0 <= k < |r|
        ensures r[k].id in fetchFriends(step.id) && r[k].id !in visited && r[k].depth == step.depth + 1
      {
        AtDepthIndex(ids, step.depth + 1, k);
        assert ids[k] in ids;
      }
      forall a, b | 0 <= a < b < |r|
        ensures r[a].id != r[b].id
      {
        AtDepthIndex(ids, step.depth + 1, a);
        AtDepthIndex(ids, step.depth + 1, b);
      }
    }
  }

  /** After `step`, every friend it fetched is visited: it was before, or it was just enqueued. */
  lemma AddedCoversFriends(step: Step, visited: set<nat>, fetchFriends: nat -> seq<nat>, f: nat)
    requires Lists(step, f, fetchFriends)
    ensures f in visited || f in IdsOf(Added(step, visited, fetchFriends))
  {
    NewFriendsFacts(fetchFriends(step.id), visited);
    IdsOfAtDepth(NewFriends(fetchFriends(step.id), visited), step.depth + 1, f);
  }

  /**
   * Every entry a run with steps `steps` has put in its queue, in queue
   * order: the seed at depth 0, then what each step appended. The visited
   * set is always exactly the ids of these entries.
   */
  function Discovered(steps: seq<Step>, seedId: nat, fetchFriends: nat -> seq<nat>): (r: seq<Entry>)
    ensures |r| >= 1 && r[0] == Entry(seedId, 0)
    decreases |steps|
  {
    if steps == [] then [Entry(seedId, 0)]
    else
      var earlier := Discovered(steps[..|steps| - 1], seedId, fetchFriends);
      earlier + Added(steps[|steps| - 1], IdsOf(earlier), fetchFriends)
  }

  /**
   * The trace of a run from `seedId`, step by step. The loop goes on only
   * while fewer than `limit` profiles were scanned and the queue is not
   * empty. The queue is first in, first out, so the next step handles the
   * next entry ever queued, as the rules make of it given the scans before.
   */
  ghost predicate Trace(steps: seq<Step>, seedId: nat, fetchProfile: nat -> Option<Profile>,
                        fetchFriends: nat -> seq<nat>, limit: int, depthLimit: Option<int>)
    decreases |steps|
  {
    if steps == [] then true
    else
      var prev := steps[..|steps| - 1];
      var queued := Discovered(prev, seedId, fetchFriends);
      && Trace(prev, seedId, fetchProfile, fetchFriends, limit, depthLimit)
      && ScannedCount(prev) < limit
      && |prev| < |queued|
      && steps[|steps| - 1] == Outcome(queued[|prev|], ScannedCount(prev), fetchProfile, limit, depthLimit)
  }

  /** The loop has stopped: `limit` profiles were scanned, or the queue is empty. */
  ghost predicate Finished(steps: seq<Step>, seedId: nat, fetchFriends: nat -> seq<nat>, limit: int) {
    ScannedCount(steps) >= limit || |steps| >= |Discovered(steps, seedId, fetchFriends)|
  }

  // ---------------------------------------------------------------- one iteration

  /** The loop's invariant: the queue is what was discovered and not yet dequeued, the visited set all that was discovered. */
  ghost predicate Crawling(queue: seq<Entry>, steps: seq<Step>, visited: set<nat>, scannedCount: nat, seedId: nat,
                           fetchProfile: nat -> Option<Profile>, fetchFriends: nat -> seq<nat>,
                           limit: int, depthLimit: Option<int>)
  {
    var queued := Discovered(steps, seedId, fetchFriends);
    && Trace(steps, seedId, fetchProfile, fetchFriends, limit, depthLimit)
    && |steps| <= |queued|
    && queue == queued[|steps|..]
    && visited == IdsOf(queued)
    && scannedCount == ScannedCount(steps)
    && scannedCount <= Budget(limit)
  }

  /**
   * One pass of the crawl loop keeps its invariant: the front entry is
   * dequeued and recorded as the step the rules give, the count grows by one
   * exactly when that step scanned, and the step's new friends are appended
   * and marked visited.
   */
  lemma Advance(queue: seq<Entry>, newQueue: seq<Entry>, steps: seq<Step>, step: Step,
                visited: set<nat>, newVisited: set<nat>, count: nat, newCount: nat, seedId: nat,
                fetchProfile: nat -> Option<Profile>, fetchFriends: nat -> seq<nat>,
                limit: int, depthLimit: Option<int>)
    requires queue != [] && count < limit
    requires Crawling(queue, steps, visited, count, seedId, fetchProfile, fetchFriends, limit, depthLimit)
    requires step == Outcome(queue[0], count, fetchProfile, limit, depthLimit)
    requires newCount == count + (if step.Scanned? then 1 else 0)
    requires newQueue == queue[1..] + Added(step, visited, fetchFriends)
    requires newVisited == visited + IdsOf(Added(step, visited, fetchFriends))
    ensures Crawling(newQueue, steps + [step], newVisited, newCount, seedId, fetchProfile, fetchFriends, limit, depthLimit)
  {
    var queued := Discovered(steps, seedId, fetchFriends);
    var added := Added(step, visited, fetchFriends);
    assert queue[0] == queued[|steps|];
    NextDiscovered(steps, step, seedId, fetchFriends);
    NextTrace(steps, step, seedId, fetchProfile, fetchFriends, limit, depthLimit);
    IdsOfAppend(queued, added);
    QueueShift(queued, added, |steps|, queue, newQueue);
  }

  /** Dequeuing the front and appending `added` moves the window over the queued entries by one. */
  lemma QueueShift(queued: seq<Entry>, added: seq<Entry>, n: nat, queue: seq<Entry>, newQueue: seq<Entry>)
    requires n < |queued| && queue == queued[n..] && newQueue == queue[1..] + added
    ensures newQueue == (queued + added)[n + 1..]
  {
  }

  /** Recording one more step appends what it added to the entries queued so far. */
  lemma NextDiscovered(steps: seq<Step>, step: Step, seedId: nat, fetchFriends: nat -> seq<nat>)
    ensures Discovered(steps + [step], seedId, fetchFriends) ==
            Discovered(steps, seedId, fetchFriends) + Added(step, IdsOf(Discovered(steps, seedId, fetchFriends)), fetchFriends)
    ensures ScannedCount(steps + [step]) == ScannedCount(steps) + (if step.Scanned? then 1 else 0)
  {
    assert (steps + [step])[..|steps|] == steps;
  }

  /** Recording the step the rules give for the next queued entry, while the budget lasts, extends a trace. */
  lemma NextTrace(steps: seq<Step>, step: Step, seedId: nat, fetchProfile: nat -> Option<Profile>,
                  fetchFriends: nat -> seq<nat>, limit: int, depthLimit: Option<int>)
    requires Trace(steps, seedId, fetchProfile, fetchFriends, limit, depthLimit)
    requires ScannedCount(steps) < limit && |steps| < |Discovered(steps, seedId, fetchFriends)|
    requires step == Outcome(Discovered(steps, seedId, fetchFriends)[|steps|], ScannedCount(steps), fetchProfile, limit, depthLimit)
    ensures Trace(steps + [step], seedId, fetchProfile, fetchFriends, limit, depthLimit)
  {
    assert (steps + [step])[..|steps|] == steps;
  }

  /** Logging the records of one more step extends the log of the trace by that step. */
  lemma LogExtend(log0: seq<Report>, log: seq<Report>, newLog: seq<Report>, steps: seq<Step>, s: Step,
                  fetchProfile: nat -> Option<Profile>, block: seq<string>, allow: seq<string>)
    requires log == log0 + ReportsOf(steps, fetchProfile, block, allow)
    requires newLog == log + StepReports(s, fetchProfile, block, allow)
    ensures newLog == log0 + ReportsOf(steps + [s], fetchProfile, block, allow)
  {
    assert (steps + [s])[..|steps|] == steps;
  }

  /** At most one record per successful scan. */
  lemma {:induction false} ReportsOfBound(steps: seq<Step>, fetchProfile: nat -> Option<Profile>,
                                          block: seq<string>, allow: seq<string>)
    ensures |ReportsOf(steps, fetchProfile, block, allow)| <= ScannedCount(steps)
  {
    if steps != [] {
      ReportsOfBound(steps[..|steps| - 1], fetchProfile, block, allow);
    }
  }

  // ---------------------------------------------------------------- what is discovered

  /** No account is queued twice: a friend is enqueued only when it is not yet visited. */
  lemma {:induction false} DiscoveredDistinct(steps: seq<Step>, seedId: nat, fetchFriends: nat -> seq<nat>)
    ensures forall a, b :: 0 <= a < b < |Discovered(steps, seedId, fetchFriends)| ==>
              Discovered(steps, seedId, fetchFriends)[a].id != Discovered(steps, seedId, fetchFriends)[b].id
    decreases |steps|
  {
    if steps != [] {
      var prev := steps[..|steps| - 1];
      var earlier := Discovered(prev, seedId, fetchFriends);
      var added := Added(steps[|steps| - 1], IdsOf(earlier), fetchFriends);
      DiscoveredDistinct(prev, seedId, fetchFriends);
      AddedFacts(steps[|steps| - 1], IdsOf(earlier), fetchFriends);
      forall a, b | 0 <= a < b < |earlier + added|
        ensures (earlier + added)[a].id != (earlier + added)[b].id
      {
        if a < |earlier| <= b {
          IdsOfMembers(earlier, earlier[a].id);
        }
      }
    }
  }

  /** Every friend of an account whose friends were fetched has been queued, now or earlier. */
  lemma {:induction false} ListedDiscovered(steps: seq<Step>, seedId: nat, fetchFriends: nat -> seq<nat>)
    ensures Explored(steps, IdsOf(Discovered(steps, seedId, fetchFriends)), fetchFriends)
    decreases |steps|
  {
    if steps != [] {
      var prev, s := steps[..|steps| - 1], steps[|steps| - 1];
      var earlier := Discovered(prev, seedId, fetchFriends);
      var added := Added(s, IdsOf(earlier), fetchFriends);
      ListedDiscovered(prev, seedId, fetchFriends);
      IdsOfAppend(earlier, added);
      forall j, f | 0 <= j < |steps| && Lists(steps[j], f, fetchFriends)
        ensures f in IdsOf(earlier + added)
      {
        if j < |prev| {
          assert steps[j] == prev[j];
        } else {
          AddedCoversFriends(s, IdsOf(earlier), fetchFriends, f);
        }
      }
    }
  }

  /** Every friend of every step that fetched friends is among `seen`. */
  ghost predicate Explored(steps: seq<Step>, seen: set<nat>, fetchFriends: nat -> seq<nat>) {
    forall j, f :: 0 <= j < |steps| && Lists(steps[j], f, fetchFriends) ==> f in seen
  }

  /** `parent` lists `e`'s account among the friends it fetched, and `e` is one level deeper. */
  ghost predicate Expands(parent: Step, e: Entry, fetchFriends: nat -> seq<nat>) {
    Lists(parent, e.id, fetchFriends) && e.depth == parent.depth + 1
  }

  /** Step `j` is the first step whose fetched friend list holds `e`'s account, and `e` is one level deeper. */
  ghost predicate FirstLister(steps: seq<Step>, j: int, e: Entry, fetchFriends: nat -> seq<nat>) {
    && 0 <= j < |steps|
    && Expands(steps[j], e, fetchFriends)
    && forall k :: 0 <= k < j ==> !Lists(steps[k], e.id, fetchFriends)
  }

  lemma FirstListerPrefix(steps: seq<Step>, n: nat, j: int, e: Entry, fetchFriends: nat -> seq<nat>)
    requires n <= |steps| && FirstLister(steps[..n], j, e, fetchFriends)
    ensures FirstLister(steps, j, e, fetchFriends)
  {
    assert steps[..n][j] == steps[j];
    forall k | 0 <= k < j
      ensures !Lists(steps[k], e.id, fetchFriends)
    {
      assert steps[..n][k] == steps[k];
    }
  }

  /** Every queued entry but the seed was enqueued by step `j`, the first step that listed it. */
  lemma {:induction false} DiscoveredOrigin(steps: seq<Step>, seedId: nat, fetchFriends: nat -> seq<nat>, m: nat)
    returns (j: nat)
    requires 0 < m < |Discovered(steps, seedId, fetchFriends)|
    ensures FirstLister(steps, j, Discovered(steps, seedId, fetchFriends)[m], fetchFriends)
    decreases |steps|
  {
    if steps != [] {
      var prev, s := steps[..|steps| - 1], steps[|steps| - 1];
      var earlier := Discovered(prev, seedId, fetchFriends);
      var added := Added(s, IdsOf(earlier), fetchFriends);
      assert steps == prev + [s];
      NextDiscovered(prev, s, seedId, fetchFriends);
      if m < |earlier| {
        j := DiscoveredOrigin(prev, seedId, fetchFriends, m);
        assert Discovered(steps, seedId, fetchFriends)[m] == earlier[m];
        FirstListerPrefix(steps, |steps| - 1, j, earlier[m], fetchFriends);
      } else {
        assert Discovered(steps, seedId, fetchFriends)[m] == added[m - |earlier|];
        AddedByLast(prev, s, seedId, fetchFriends, m - |earlier|);
        j := |prev|;
      }
    }
  }

  /** An entry the last step appended was first listed by that step. */
  lemma AddedByLast(prev: seq<Step>, s: Step, seedId: nat, fetchFriends: nat -> seq<nat>, k: nat)
    requires k < |Added(s, IdsOf(Discovered(prev, seedId, fetchFriends)), fetchFriends)|
    ensures FirstLister(prev + [s], |prev|, Added(s, IdsOf(Discovered(prev, seedId, fetchFriends)), fetchFriends)[k],
                        fetchFriends)
  {
    var e := Added(s, IdsOf(Discovered(prev, seedId, fetchFriends)), fetchFriends)[k];
    var steps := prev + [s];
    ListedDiscovered(prev, seedId, fetchFriends);
    AddedFacts(s, IdsOf(Discovered(prev, seedId, fetchFriends)), fetchFriends);
    forall j | 0 <= j < |prev|
      ensures !Lists(steps[j], e.id, fetchFriends)
    {
      assert steps[j] == prev[j];
    }
  }

  // ---------------------------------------------------------------- what every trace satisfies

  lemma {:induction false} StepIdsHas(steps: seq<Step>, i: nat)
    requires i < |steps|
    ensures steps[i].id in StepIds(steps)
  {
    if i < |steps| - 1 {
      var prev := steps[..|steps| - 1];
      assert prev[i] == steps[i];
      StepIdsHas(prev, i);
    }
  }

  /** Every prefix of a trace is a trace: the run could have stopped there. */
  lemma {:induction false} TracePrefix(steps: seq<Step>, k: nat, seedId: nat, fetchProfile: nat -> Option<Profile>,
                                       fetchFriends: nat -> seq<nat>, limit: int, depthLimit: Option<int>)
    requires Trace(steps, seedId, fetchProfile, fetchFriends, limit, depthLimit)
    requires k <= |steps|
    ensures Trace(steps[..k], seedId, fetchProfile, fetchFriends, limit, depthLimit)
    decreases |steps|
  {
    if k == |steps| {
      assert steps[..k] == steps;
    } else {
      var prev := steps[..|steps| - 1];
      assert steps[..k] == prev[..k];
      TracePrefix(prev, k, seedId, fetchProfile, fetchFriends, limit, depthLimit);
    }
  }

  /** Step `i` of a trace: taken while the budget lasted, on the `i`-th entry queued, as the rules make of it. */
  lemma TraceAt(steps: seq<Step>, i: nat, seedId: nat, fetchProfile: nat -> Option<Profile>,
                fetchFriends: nat -> seq<nat>, limit: int, depthLimit: Option<int>)
    requires Trace(steps, seedId, fetchProfile, fetchFriends, limit, depthLimit)
    requires i < |steps|
    ensures ScannedCount(steps[..i]) < limit
    ensures i < |Discovered(steps[..i], seedId, fetchFriends)|
    ensures Entry(steps[i].id, steps[i].depth) == Discovered(steps[..i], seedId, fetchFriends)[i]
    ensures steps[i] == Outcome(Discovered(steps[..i], seedId, fetchFriends)[i], ScannedCount(steps[..i]),
                                fetchProfile, limit, depthLimit)
  {
    TracePrefix(steps, i + 1, seedId, fetchProfile, fetchFriends, limit, depthLimit);
    PrefixOfPrefix(steps, i);
  }

  lemma PrefixOfPrefix(steps: seq<Step>, i: nat)
    requires i < |steps|
    ensures |steps[..i + 1]| == i + 1 && steps[..i + 1][..i] == steps[..i] && steps[..i + 1][i] == steps[i]
  {
  }

  /** The queue is first in, first out: step `i` handled the `i`-th entry ever queued. */
  lemma {:induction false} TraceEntries(steps: seq<Step>, seedId: nat, fetchProfile: nat -> Option<Profile>,
                                        fetchFriends: nat -> seq<nat>, limit: int, depthLimit: Option<int>)
    requires Trace(steps, seedId, fetchProfile, fetchFriends, limit, depthLimit)
    ensures |steps| <= |Discovered(steps, seedId, fetchFriends)|
    ensures forall i :: 0 <= i < |steps| ==>
              Entry(steps[i].id, steps[i].depth) == Discovered(steps, seedId, fetchFriends)[i]
    decreases |steps|
  {
    if steps != [] {
      var prev := steps[..|steps| - 1];
      TraceEntries(prev, seedId, fetchProfile, fetchFriends, limit, depthLimit);
      forall i | 0 <= i < |prev|
        ensures Entry(steps[i].id, steps[i].depth) == Discovered(steps, seedId, fetchFriends)[i]
      {
        assert steps[i] == prev[i];
      }
    }
  }

  /** Each step is what the rules make of its entry given the scans before it, taken while the budget lasts. */
  lemma {:induction false} TraceFollowsRules(steps: seq<Step>, seedId: nat, fetchProfile: nat -> Option<Profile>,
                                             fetchFriends: nat -> seq<nat>, limit: int, depthLimit: Option<int>)
    requires Trace(steps, seedId, fetchProfile, fetchFriends, limit, depthLimit)
    ensures forall i :: 0 <= i < |steps| ==>
              && ScannedCount(steps[..i]) < limit
              && steps[i] == Outcome(Entry(steps[i].id, steps[i].depth), ScannedCount(steps[..i]), fetchProfile, limit, depthLimit)
  {
    forall i | 0 <= i < |steps|
      ensures ScannedCount(steps[..i]) < limit
      ensures steps[i] == Outcome(Entry(steps[i].id, steps[i].depth), ScannedCount(steps[..i]), fetchProfile, limit, depthLimit)
    {
      TraceAt(steps, i, seedId, fetchProfile, fetchFriends, limit, depthLimit);
    }
  }

  /** A run never scans more than `limit` profiles. */
  lemma {:induction false} TraceWithinBudget(steps: seq<Step>, seedId: nat, fetchProfile: nat -> Option<Profile>,
                                             fetchFriends: nat -> seq<nat>, limit: int, depthLimit: Option<int>)
    requires Trace(steps, seedId, fetchProfile, fetchFriends, limit, depthLimit)
    ensures ScannedCount(steps) <= Budget(limit)
    decreases |steps|
  {
    if steps != [] {
      TraceWithinBudget(steps[..|steps| - 1], seedId, fetchProfile, fetchFriends, limit, depthLimit);
    }
  }

  /**
   * The first step is the seed at depth 0. Every later one is an account
   * first listed by an earlier step that fetched friends, one level deeper
   * than that step.
   */
  lemma {:induction false} TraceLinked(steps: seq<Step>, seedId: nat, fetchProfile: nat -> Option<Profile>,
                                       fetchFriends: nat -> seq<nat>, limit: int, depthLimit: Option<int>)
    requires Trace(steps, seedId, fetchProfile, fetchFriends, limit, depthLimit)
    ensures steps != [] ==> steps[0].id == seedId && steps[0].depth == 0
    ensures forall i :: 0 < i < |steps| ==> EnqueuedBy(steps, i, fetchFriends)
  {
    if steps != [] {
      TraceAt(steps, 0, seedId, fetchProfile, fetchFriends, limit, depthLimit);
    }
    forall i | 0 < i < |steps|
      ensures EnqueuedBy(steps, i, fetchFriends)
    {
      var j := LinkedAt(steps, i, seedId, fetchProfile, fetchFriends, limit, depthLimit);
    }
  }

  /** Step `i` handled an entry enqueued by an earlier step, the first one whose friend list held it. */
  ghost predicate EnqueuedBy(steps: seq<Step>, i: int, fetchFriends: nat -> seq<nat>)
    requires 0 <= i < |steps|
  {
    exists j :: 0 <= j < i && FirstLister(steps, j, Entry(steps[i].id, steps[i].depth), fetchFriends)
  }

  /** Step `i > 0` of a trace handles an entry that step `j < i` enqueued, the first to list it. */
  lemma LinkedAt(steps: seq<Step>, i: nat, seedId: nat, fetchProfile: nat -> Option<Profile>,
                 fetchFriends: nat -> seq<nat>, limit: int, depthLimit: Option<int>) returns (j: nat)
    requires Trace(steps, seedId, fetchProfile, fetchFriends, limit, depthLimit)
    requires 0 < i < |steps|
    ensures j < i && FirstLister(steps, j, Entry(steps[i].id, steps[i].depth), fetchFriends)
  {
    TraceAt(steps, i, seedId, fetchProfile, fetchFriends, limit, depthLimit);
    j := DiscoveredOrigin(steps[..i], seedId, fetchFriends, i);
    FirstListerPrefix(steps, i, j, Entry(steps[i].id, steps[i].depth), fetchFriends);
  }

  /** No account is dequeued twice. */
  lemma TraceDistinct(steps: seq<Step>, seedId: nat, fetchProfile: nat -> Option<Profile>,
                      fetchFriends: nat -> seq<nat>, limit: int, depthLimit: Option<int>)
    requires Trace(steps, seedId, fetchProfile, fetchFriends, limit, depthLimit)
    ensures forall i, j :: 0 <= i < j < |steps| ==> steps[i].id != steps[j].id
  {
    TraceEntries(steps, seedId, fetchProfile, fetchFriends, limit, depthLimit);
    DiscoveredDistinct(steps, seedId, fetchFriends);
  }

  /**
   * The queued entries are sorted by depth, and none is more than one level
   * deeper than the last dequeued one.
   */
  lemma {:induction false} DiscoveredSorted(steps: seq<Step>, seedId: nat, fetchProfile: nat -> Option<Profile>,
                                            fetchFriends: nat -> seq<nat>, limit: int, depthLimit: Option<int>)
    requires Trace(steps, seedId, fetchProfile, fetchFriends, limit, depthLimit)
    ensures forall a, b :: 0 <= a <= b < |Discovered(steps, seedId, fetchFriends)| ==>
              Discovered(steps, seedId, fetchFriends)[a].depth <= Discovered(steps, seedId, fetchFriends)[b].depth
    ensures steps != [] ==> forall k :: 0 <= k < |Discovered(steps, seedId, fetchFriends)| ==>
              Discovered(steps, seedId, fetchFriends)[k].depth <= steps[|steps| - 1].depth + 1
    decreases |steps|
  {
    if steps != [] {
      var prev, s := steps[..|steps| - 1], steps[|steps| - 1];
      var earlier := Discovered(prev, seedId, fetchFriends);
      var added := Added(s, IdsOf(earlier), fetchFriends);
      DiscoveredSorted(prev, seedId, fetchProfile, fetchFriends, limit, depthLimit);
      TraceEntries(prev, seedId, fetchProfile, fetchFriends, limit, depthLimit);
      AddedFacts(s, IdsOf(earlier), fetchFriends);
      assert s.depth == earlier[|prev|].depth;
      forall k | 0 <= k < |earlier|
        ensures earlier[k].depth <= s.depth + 1
      {
        if prev != [] {
          assert prev[|prev| - 1].depth == earlier[|prev| - 1].depth;
        }
      }
      forall a, b | 0 <= a <= b < |earlier + added|
        ensures (earlier + added)[a].depth <= (earlier + added)[b].depth
      {
      }
    }
  }

  /**
   * Entries are dequeued in order of depth, as breadth-first search does,
   * and the entries still waiting span at most one level.
   */
  lemma TraceDepthOrdered(steps: seq<Step>, seedId: nat, fetchProfile: nat -> Option<Profile>,
                          fetchFriends: nat -> seq<nat>, limit: int, depthLimit: Option<int>)
    requires Trace(steps, seedId, fetchProfile, fetchFriends, limit, depthLimit)
    ensures forall i, j :: 0 <= i <= j < |steps| ==> steps[i].depth <= steps[j].depth
    ensures forall a, b :: |steps| <= a <= b < |Discovered(steps, seedId, fetchFriends)| ==>
              Discovered(steps, seedId, fetchFriends)[a].depth <= Discovered(steps, seedId, fetchFriends)[b].depth
              <= Discovered(steps, seedId, fetchFriends)[a].depth + 1
  {
    var queued := Discovered(steps, seedId, fetchFriends);
    TraceEntries(steps, seedId, fetchProfile, fetchFriends, limit, depthLimit);
    DiscoveredSorted(steps, seedId, fetchProfile, fetchFriends, limit, depthLimit);
    forall a, b | |steps| <= a <= b < |queued|
      ensures queued[a].depth <= queued[b].depth <= queued[a].depth + 1
    {
      if steps != [] {
        assert queued[|steps| - 1].depth <= queued[a].depth;
      }
    }
  }

  /**
   * With a depth limit `d` in force (`d > 0`), nothing deeper than `d` is
   * ever queued, so no dequeued entry is skipped, and only accounts
   * shallower than `d` have their friends fetched.
   */
  lemma {:induction false} DepthLimitRespected(steps: seq<Step>, seedId: nat, fetchProfile: nat -> Option<Profile>,
                                               fetchFriends: nat -> seq<nat>, limit: int, d: int)
    requires Trace(steps, seedId, fetchProfile, fetchFriends, limit, Some(d))
    requires d > 0
    ensures forall k :: 0 <= k < |Discovered(steps, seedId, fetchFriends)| ==>
              Discovered(steps, seedId, fetchFriends)[k].depth <= d
    ensures forall i :: 0 <= i < |steps| ==>
              && steps[i].depth <= d
              && !steps[i].Skipped?
              && (steps[i].Scanned? && steps[i].expanded ==> steps[i].depth < d)
    decreases |steps|
  {
    if steps != [] {
      var prev, s := steps[..|steps| - 1], steps[|steps| - 1];
      DepthLimitRespected(prev, seedId, fetchProfile, fetchFriends, limit, d);
      AddedFacts(s, IdsOf(Discovered(prev, seedId, fetchFriends)), fetchFriends);
      forall i | 0 <= i < |prev|
        ensures steps[i].depth <= d && !steps[i].Skipped?
        ensures steps[i].Scanned? && steps[i].expanded ==> steps[i].depth < d
      {
        assert steps[i] == prev[i];
      }
    }
  }

  /** A depth limit of 0 is no limit: the runs it allows are exactly those without one. */
  lemma {:induction false} DepthLimitZeroIsNone(steps: seq<Step>, seedId: nat, fetchProfile: nat -> Option<Profile>,
                                                fetchFriends: nat -> seq<nat>, limit: int)
    ensures Trace(steps, seedId, fetchProfile, fetchFriends, limit, Some(0)) <==>
            Trace(steps, seedId, fetchProfile, fetchFriends, limit, None)
    decreases |steps|
  {
    if steps != [] {
      DepthLimitZeroIsNone(steps[..|steps| - 1], seedId, fetchProfile, fetchFriends, limit);
    }
  }

  /**
   * When no profile can be fetched nothing is scanned, nothing is reported,
   * and no friend list is fetched, so nothing but the seed is ever queued.
   */
  lemma {:induction false} UnfetchableScansNothing(steps: seq<Step>, seedId: nat, fetchProfile: nat -> Option<Profile>,
                                                   fetchFriends: nat -> seq<nat>, limit: int, depthLimit: Option<int>,
                                                   block: seq<string>, allow: seq<string>)
    requires Trace(steps, seedId, fetchProfile, fetchFriends, limit, depthLimit)
    requires forall id :: fetchProfile(id).None?
    ensures forall i :: 0 <= i < |steps| ==> !steps[i].Scanned?
    ensures |steps| <= 1
    ensures ScannedCount(steps) == 0
    ensures ReportsOf(steps, fetchProfile, block, allow) == []
    ensures Discovered(steps, seedId, fetchFriends) == [Entry(seedId, 0)]
    decreases |steps|
  {
    if steps != [] {
      var prev := steps[..|steps| - 1];
      UnfetchableScansNothing(prev, seedId, fetchProfile, fetchFriends, limit, depthLimit, block, allow);
    }
  }

  /** A run is fixed by its inputs: of two traces, the shorter is a prefix of the longer. */
  lemma {:induction false} TraceDeterministic(a: seq<Step>, b: seq<Step>, seedId: nat,
                                              fetchProfile: nat -> Option<Profile>, fetchFriends: nat -> seq<nat>,
                                              limit: int, depthLimit: Option<int>)
    requires Trace(a, seedId, fetchProfile, fetchFriends, limit, depthLimit)
    requires Trace(b, seedId, fetchProfile, fetchFriends, limit, depthLimit)
    requires |a| <= |b|
    ensures a == b[..|a|]
    decreases |a|
  {
    if a != [] {
      var n := |a| - 1;
      TracePrefix(a, n, seedId, fetchProfile, fetchFriends, limit, depthLimit);
      TraceDeterministic(a[..n], b, seedId, fetchProfile, fetchFriends, limit, depthLimit);
      SameNext(a, b, seedId, fetchProfile, fetchFriends, limit, depthLimit);
      SnocEq(a, b);
    }
  }

  /** Sequences that agree before their last position and on it are equal. */
  lemma SnocEq(a: seq<Step>, b: seq<Step>)
    requires 0 < |a| <= |b| && a[..|a| - 1] == b[..|a| - 1] && a[|a| - 1] == b[|a| - 1]
    ensures a == b[..|a|]
  {
    assert a == a[..|a| - 1] + [a[|a| - 1]];
    assert b[..|a|] == b[..|a| - 1] + [b[|a| - 1]];
  }

  /** Two traces that agree before step `|a| - 1` agree on it too. */
  lemma SameNext(a: seq<Step>, b: seq<Step>, seedId: nat, fetchProfile: nat -> Option<Profile>,
                 fetchFriends: nat -> seq<nat>, limit: int, depthLimit: Option<int>)
    requires Trace(a, seedId, fetchProfile, fetchFriends, limit, depthLimit)
    requires Trace(b, seedId, fetchProfile, fetchFriends, limit, depthLimit)
    requires 0 < |a| <= |b| && a[..|a| - 1] == b[..|a| - 1]
    ensures a[|a| - 1] == b[|a| - 1]
  {
    TraceAt(a, |a| - 1, seedId, fetchProfile, fetchFriends, limit, depthLimit);
    TraceAt(b, |a| - 1, seedId, fetchProfile, fetchFriends, limit, depthLimit);
  }

  /**
   * Friends 1 -> [2, 3], 2 -> [3], 3 -> [4], depth limit 2: account 2 is
   * scanned before account 3, and 3 is scanned at depth 1, where it was
   * first queued, so its friends are fetched and 4 is reached.
   */
  lemma QueueOrderExample(steps: seq<Step>, fetchProfile: nat -> Option<Profile>, fetchFriends: nat -> seq<nat>)
    requires Trace(steps, 1, fetchProfile, fetchFriends, 10, Some(2)) && |steps| >= 3
    requires forall id :: fetchProfile(id).Some?
    requires fetchFriends(1) == [2, 3] && fetchFriends(2) == [3] && fetchFriends(3) == [4]
    ensures steps[0] == Scanned(1, 0, true)
    ensures steps[1] == Scanned(2, 1, true)
    ensures steps[2] == Scanned(3, 1, true)
  {
    var s0, s1 := Scanned(1, 0, true), Scanned(2, 1, true);
    TraceAt(steps, 0, 1, fetchProfile, fetchFriends, 10, Some(2));
    assert steps[..0] == [];
    assert steps[0] == s0;
    ExampleQueue(fetchFriends);
    TraceAt(steps, 1, 1, fetchProfile, fetchFriends, 10, Some(2));
    assert steps[..1] == [s0];
    assert ScannedCount([s0]) == 1 by {
      assert [s0][..0] == [];
    }
    assert steps[1] == s1;
    TraceAt(steps, 2, 1, fetchProfile, fetchFriends, 10, Some(2));
    assert steps[..2] == [s0, s1];
    assert [s0, s1][..1] == [s0];
    assert Discovered([s0, s1], 1, fetchFriends)[2] == Entry(3, 1);
    assert ScannedCount([s0, s1]) == 2;
  }

  /** Scanning account 1, whose friends are [2, 3], queues 2 and then 3, one level deeper. */
  lemma ExampleQueue(fetchFriends: nat -> seq<nat>)
    requires fetchFriends(1) == [2, 3]
    ensures Discovered([Scanned(1, 0, true)], 1, fetchFriends) == [Entry(1, 0), Entry(2, 1), Entry(3, 1)]
  {
    var s0 := Scanned(1, 0, true);
    assert [s0][..0] == [];
    assert IdsOf([Entry(1, 0)]) == {1} by {
      assert [Entry(1, 0)][..0] == [];
    }
    assert [2, 3][..1] == [2];
    assert NewFriends([2], {1}) == [2] by {
      assert [2][..0] == [];
    }
    assert NewFriends([2, 3], {1}) == [2, 3];
    assert AtDepth([2], 1) == [Entry(2, 1)] by {
      assert [2][..0] == [];
    }
    assert AtDepth([2, 3], 1) == [Entry(2, 1), Entry(3, 1)];
  }

  /** A trace does not go on past a point where the loop stops. */
  lemma StopsWhenFinished(steps: seq<Step>, k: nat, seedId: nat, fetchProfile: nat -> Option<Profile>,
                          fetchFriends: nat -> seq<nat>, limit: int, depthLimit: Option<int>)
    requires Trace(steps, seedId, fetchProfile, fetchFriends, limit, depthLimit)
    requires k <= |steps| && Finished(steps[..k], seedId, fetchFriends, limit)
    ensures k == |steps|
  {
    if k < |steps| {
      assert steps[..k + 1][..k] == steps[..k];
      TracePrefix(steps, k + 1, seedId, fetchProfile, fetchFriends, limit, depthLimit);
    }
  }

  /** Two finished runs from the same seed, service and limits are the same run. */
  lemma RunIsUnique(a: seq<Step>, b: seq<Step>, seedId: nat,
                    fetchProfile: nat -> Option<Profile>, fetchFriends: nat -> seq<nat>,
                    limit: int, depthLimit: Option<int>)
    requires Trace(a, seedId, fetchProfile, fetchFriends, limit, depthLimit) && Finished(a, seedId, fetchFriends, limit)
    requires Trace(b, seedId, fetchProfile, fetchFriends, limit, depthLimit) && Finished(b, seedId, fetchFriends, limit)
    ensures a == b
  {
    if |a| <= |b| {
      TraceDeterministic(a, b, seedId, fetchProfile, fetchFriends, limit, depthLimit);
      StopsWhenFinished(b, |a|, seedId, fetchProfile, fetchFriends, limit, depthLimit);
      assert b[..|b|] == b;
    } else {
      TraceDeterministic(b, a, seedId, fetchProfile, fetchFriends, limit, depthLimit);
      StopsWhenFinished(a, |b|, seedId, fetchProfile, fetchFriends, limit, depthLimit);
    }
  }

  /** A run that stopped because its queue ran empty dequeued every friend it fetched. */
  lemma ExhaustedExplored(steps: seq<Step>, seedId: nat, fetchProfile: nat -> Option<Profile>,
                          fetchFriends: nat -> seq<nat>, limit: int, depthLimit: Option<int>)
    requires Trace(steps, seedId, fetchProfile, fetchFriends, limit, depthLimit)
    requires |steps| >= |Discovered(steps, seedId, fetchFriends)|
    ensures Explored(steps, StepIds(steps), fetchFriends)
  {
    var queued := Discovered(steps, seedId, fetchFriends);
    TraceEntries(steps, seedId, fetchProfile, fetchFriends, limit, depthLimit);
    ListedDiscovered(steps, seedId, fetchFriends);
    forall j, f | 0 <= j < |steps| && Lists(steps[j], f, fetchFriends)
      ensures f in StepIds(steps)
    {
      IdsOfMembers(queued, f);
      var k :| 0 <= k < |queued| && queued[k].id == f;
      StepIdsHas(steps, k);
    }
  }

  // ---------------------------------------------------------------- the crawl

  /**
   * Appends, in order, an entry at `depth + 1` for each friend not yet
   * visited, marking it visited; a friend listed twice is enqueued once.
   */
  method EnqueueFriends(queue: seq<Entry>, visited: set<nat>, friends: seq<nat>, depth: nat)
    returns (newQueue: seq<Entry>, newVisited: set<nat>)
    ensures newQueue == queue + AtDepth(NewFriends(friends, visited), depth + 1)
    ensures newVisited == visited + IdsOf(AtDepth(NewFriends(friends, visited), depth + 1))
  {
    newQueue, newVisited := queue, visited;
    for k := 0 to |friends|
      invariant newQueue == queue + AtDepth(NewFriends(friends[..k], visited), depth + 1)
      invariant newVisited == visited + IdsOf(AtDepth(NewFriends(friends[..k], visited), depth + 1))
    {
      var friendId := friends[k];
      ghost var earlier := NewFriends(friends[..k], visited);
      assert friends[..k + 1][..k] == friends[..k];
      IdsOfAtDepth(earlier, depth + 1, friendId);
      if friendId !in newVisited {
        var entry := Entry(friendId, depth + 1);
        assert (earlier + [friendId])[..|earlier|] == earlier;
        newVisited := newVisited + {friendId};
        newQueue := newQueue + [entry];
      }
    }
    assert friends[..|friends|] == friends;
  }

  /**
   * One pass of the crawl loop: dequeues the front entry; unless it is too
   * deep, scans its account, and when the scan succeeded and the budget and
   * depth limit allow, enqueues its unvisited friends. `step` is what the
   * rules make of that entry, and the log gains exactly that step's records.
   */
  method VisitNext(queue: seq<Entry>, visited: set<nat>, scannedCount: nat,
                   fetchProfile: nat -> Option<Profile>, fetchFriends: nat -> seq<nat>,
                   scanner: ContentScanner, reporter: Reporter, limit: int, depthLimit: Option<int>)
    returns (newQueue: seq<Entry>, newVisited: set<nat>, newCount: nat, ghost step: Step)
    modifies reporter
    requires queue != []
    ensures step == Outcome(queue[0], scannedCount, fetchProfile, limit, depthLimit)
    ensures newCount == scannedCount + (if step.Scanned? then 1 else 0)
    ensures newQueue == queue[1..] + Added(step, visited, fetchFriends)
    ensures newVisited == visited + IdsOf(Added(step, visited, fetchFriends))
    ensures reporter.log == old(reporter.log) + StepReports(step, fetchProfile, scanner.blocklist, scanner.allowlist)
  {
    var current := queue[0];
    newQueue, newVisited, newCount := queue[1..], visited, scannedCount;
    step := Outcome(current, scannedCount, fetchProfile, limit, depthLimit);
    ghost var added := Added(step, visited, fetchFriends);
    ghost var expands := !TooDeep(current.depth, depthLimit) && fetchProfile(current.id).Some? &&
                         MayExpand(scannedCount + 1, current.depth, limit, depthLimit);
    assert added == if expands then AtDepth(NewFriends(fetchFriends(current.id), visited), current.depth + 1) else [];
    if !TooDeep(current.depth, depthLimit) {
      var success, username := ScanSingleUserById(current.id, fetchProfile, scanner, reporter);
      if success {
        newCount := scannedCount + 1;
        if MayExpand(newCount, current.depth, limit, depthLimit) {
          var friends := fetchFriends(current.id);
          newQueue, newVisited := EnqueueFriends(newQueue, visited, friends, current.depth);
        } else {
          NothingAdded(queue[1..], visited);
        }
      } else {
        NothingAdded(queue[1..], visited);
      }
    } else {
      NothingAdded(queue[1..], visited);
    }
  }

  /** Appending no entries changes neither the queue nor the visited set. */
  lemma NothingAdded(queue: seq<Entry>, visited: set<nat>)
    ensures queue + [] == queue && visited + IdsOf([]) == visited
  {
  }

  /**
   * Crawls breadth-first from `seed`, scanning at most `limit` profiles and,
   * when `depthLimit` is in force, none deeper than it. The run it makes is
   * the one finished trace of its inputs.
   */
  method RunCrawler(seed: Seed, resolve: string -> Option<nat>, fetchProfile: nat -> Option<Profile>,
                    fetchFriends: nat -> seq<nat>, scanner: ContentScanner, reporter: Reporter,
                    limit: int, depthLimit: Option<int>)
    returns (ghost steps: seq<Step>)
    modifies reporter
    ensures ResolveSeed(seed, resolve).None? ==> steps == []
    ensures ResolveSeed(seed, resolve).Some? ==>
              && Trace(steps, ResolveSeed(seed, resolve).value, fetchProfile, fetchFriends, limit, depthLimit)
              && Finished(steps, ResolveSeed(seed, resolve).value, fetchFriends, limit)
    ensures ResolveSeed(seed, resolve).Some? && limit > 0 ==> steps != []
    ensures ScannedCount(steps) <= Budget(limit)
    ensures ScannedCount(steps) >= limit || Explored(steps, StepIds(steps), fetchFriends)
    ensures reporter.log == old(reporter.log) + ReportsOf(steps, fetchProfile, scanner.blocklist, scanner.allowlist)
    ensures |reporter.log| <= |old(reporter.log)| + Budget(limit)
  {
    steps := [];
    var resolved := ResolveSeed(seed, resolve);
    if resolved.None? {
      return;
    }
    var seedId := resolved.value;
    var queue := [Entry(seedId, 0)];
    var visited := {seedId};
    var scannedCount := 0;
    assert queue[..0] == [];
    ghost var block, allow := scanner.blocklist, scanner.allowlist;
    while queue != [] && scannedCount < limit
      invariant Crawling(queue, steps, visited, scannedCount, seedId, fetchProfile, fetchFriends, limit, depthLimit)
      invariant scanner.blocklist == block && scanner.allowlist == allow
      invariant reporter.log == old(reporter.log) + ReportsOf(steps, fetchProfile, block, allow)
      decreases limit - scannedCount, |queue|
    {
      ghost var oldLog := reporter.log;
      var nextQueue, nextVisited, nextCount, step := VisitNext(queue, visited, scannedCount, fetchProfile, fetchFriends,
                                                              scanner, reporter, limit, depthLimit);
      Advance(queue, nextQueue, steps, step, visited, nextVisited, scannedCount, nextCount, seedId,
              fetchProfile, fetchFriends, limit, depthLimit);
      LogExtend(old(reporter.log), oldLog, reporter.log, steps, step, fetchProfile, block, allow);
      queue, visited, scannedCount, steps := nextQueue, nextVisited, nextCount, steps + [step];
    }
    if scannedCount < limit {
      ExhaustedExplored(steps, seedId, fetchProfile, fetchFriends, limit, depthLimit);
    }
    ReportsOfBound(steps, fetchProfile, block, allow);
  }
}
