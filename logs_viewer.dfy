/**
 * The "Activity Logs" page of components/logs_viewer.py: one pass over the
 * stored log documents that counts recognized and unknown entries, tallies
 * recognitions per person, and cleans each document for display; then the
 * five most recognized people and the twenty first clean entries.
 */
module LogsViewer {
  import opened Wrappers
  import opened PyValues
  import StableSort
  import FaceProcessor
  import Database
  import RealtimeTest

  type Timestamp = RealtimeTest.Timestamp

  /** A document of the logs collection; a field may be missing from it. */
  datatype StoredLog = StoredLog(
    timestamp: Option<Timestamp>,
    status: Option<PyVal>,
    personName: Option<PyVal>,
    confidence: Option<real>,
    imageBase64: Option<string>,
    faceImage: Option<string>)

  /** The cleaned entry the page lists. */
  datatype CleanLog = CleanLog(
    timestamp: Timestamp,
    status: PyVal,
    personName: PyVal,
    confidence: real,
    image: Option<string>)

  const Recognized := PyStr("recognized")

  function StatusOf(log: StoredLog): PyVal {
    if log.status.Some? then log.status.value else PyStr("unknown")
  }

  /**
   * The person name the page works with: "Unknown" when missing, the name
   * inside a dict (see `DictName`), a string as it is, `str()` of anything else.
   */
  function NameOf(log: StoredLog): (r: PyVal)
    ensures log.personName.None? ==> r == PyStr("Unknown")
    ensures log.personName.Some? && log.personName.value.PyStr? ==> r == log.personName.value
    ensures log.personName.Some? && log.personName.value.PyDict? ==> r == DictName(log.personName.value.items)
    ensures log.personName.Some? && !log.personName.value.PyStr? && !log.personName.value.PyDict? ==>
              r == PyStr(Str(log.personName.value))
    ensures !(log.personName.Some? && log.personName.value.PyDict?) ==> r.PyStr?
  {
    match log.personName
    case None => PyStr("Unknown")
    case Some(v) =>
      match v
      case PyDict(items) => DictName(items)
      case PyStr(_) => v
      case _ => PyStr(Str(v))
  }

  /** A truthy text: present and not empty. */
  predicate Truthy(s: Option<string>) {
    s.Some? && s.value != ""
  }

  /** The cleaned entry of one document. */
  function CleanOf(log: StoredLog, now: Timestamp): (c: CleanLog)
    ensures c.image == (if Truthy(log.imageBase64) then log.imageBase64 else log.faceImage)
    ensures c.status == StatusOf(log) && c.personName == NameOf(log)
    ensures c.confidence == (if log.confidence.Some? then log.confidence.value else 0.0)
    ensures c.timestamp == (if log.timestamp.Some? then log.timestamp.value else now)
  {
    CleanLog(
      if log.timestamp.Some? then log.timestamp.value else now,
      StatusOf(log),
      NameOf(log),
      if log.confidence.Some? then log.confidence.value else 0.0,
      if Truthy(log.imageBase64) then log.imageBase64 else log.faceImage)
  }

  // ---------------------------------------------------------------------------
  // person_stats: a dict from name to count, in insertion order
  // ---------------------------------------------------------------------------

  function NameSet(stats: seq<(PyVal, nat)>): set<PyVal> {
    if stats == [] then {} else {stats[0].0} + NameSet(stats[1..])
  }

  /** A dict of the page's tallies: distinct hashable names, each counted at least once. */
  predicate WellFormedStats(stats: seq<(PyVal, nat)>) {
    stats == [] ||
    (stats[0].0 !in NameSet(stats[1..]) && stats[0].1 >= 1 && Hashable(stats[0].0)
     && WellFormedStats(stats[1..]))
  }

  /** `person_stats.get(name, 0)`. */
  function CountOf(stats: seq<(PyVal, nat)>, name: PyVal): nat {
    if stats == [] then 0
    else if stats[0].0 == name then stats[0].1
    else CountOf(stats[1..], name)
  }

  function Total(stats: seq<(PyVal, nat)>): nat {
    if stats == [] then 0 else stats[0].1 + Total(stats[1..])
  }

  /** Adding a new name at 0 when absent, then `person_stats[name] += 1`. */
  function Bump(stats: seq<(PyVal, nat)>, name: PyVal): seq<(PyVal, nat)> {
    if stats == [] then [(name, 1)]
    else if stats[0].0 == name then [(name, stats[0].1 + 1)] + stats[1..]
    else [stats[0]] + Bump(stats[1..], name)
  }

  lemma {:induction false} BumpSpec(stats: seq<(PyVal, nat)>, name: PyVal)
    requires WellFormedStats(stats) && Hashable(name)
    ensures NameSet(Bump(stats, name)) == NameSet(stats) + {name}
    ensures WellFormedStats(Bump(stats, name))
    ensures forall m :: CountOf(Bump(stats, name), m) == CountOf(stats, m) + (if m == name then 1 else 0)
    ensures Total(Bump(stats, name)) == Total(stats) + 1
  {
    var b := Bump(stats, name);
    if stats == [] {
      assert b[1..] == [];
    } else if stats[0].0 == name {
      assert b[1..] == stats[1..];
    } else {
      BumpSpec(stats[1..], name);
      assert b[1..] == Bump(stats[1..], name);
    }
  }

  /** In a well-formed tally a name has a positive count exactly when it is present. */
  lemma {:induction false} CountOfPositive(stats: seq<(PyVal, nat)>, m: PyVal)
    requires WellFormedStats(stats)
    ensures CountOf(stats, m) > 0 <==> m in NameSet(stats)
  {
    if stats != [] && stats[0].0 != m {
      CountOfPositive(stats[1..], m);
    }
  }

  // ---------------------------------------------------------------------------
  // The pass over the logs
  // ---------------------------------------------------------------------------

  /** The page's accumulators; `skipped` counts the "Skipped a log entry" warnings. */
  datatype Tally = Tally(
    clean: seq<CleanLog>,
    recognized: nat,
    unknown: nat,
    stats: seq<(PyVal, nat)>,
    skipped: nat)

  /**
   * One iteration of the loop.  A recognized entry is counted before its
   * name is looked up in `person_stats`; a dict name (which cannot be a
   * dict key) raises there, and the entry is then skipped, still counted
   * as recognized but neither tallied nor cleaned.
   */
  function Step(t: Tally, log: StoredLog, now: Timestamp): Tally {
    var name := NameOf(log);
    if StatusOf(log) == Recognized then
      if Hashable(name) then
        t.(recognized := t.recognized + 1, stats := Bump(t.stats, name), clean := t.clean + [CleanOf(log, now)])
      else
        t.(recognized := t.recognized + 1, skipped := t.skipped + 1)
    else
      t.(unknown := t.unknown + 1, clean := t.clean + [CleanOf(log, now)])
  }

  /** The accumulators after the loop has seen `logs`. */
  function TallyOf(logs: seq<StoredLog>, now: Timestamp): Tally {
    if logs == [] then Tally([], 0, 0, [], 0)
    else Step(TallyOf(logs[..|logs| - 1], now), logs[|logs| - 1], now)
  }

  // Reference counts, each defined on its own.

  predicate IsRecognized(log: StoredLog) {
    StatusOf(log) == Recognized
  }

  predicate IsSkipped(log: StoredLog) {
    IsRecognized(log) && !Hashable(NameOf(log))
  }

  function RecognizedIn(logs: seq<StoredLog>): nat {
    if logs == [] then 0
    else RecognizedIn(logs[..|logs| - 1]) + (if IsRecognized(logs[|logs| - 1]) then 1 else 0)
  }

  function SkippedIn(logs: seq<StoredLog>): nat {
    if logs == [] then 0
    else SkippedIn(logs[..|logs| - 1]) + (if IsSkipped(logs[|logs| - 1]) then 1 else 0)
  }

  /** How many recognized entries carry the name `name`. */
  function Occurrences(logs: seq<StoredLog>, name: PyVal): nat {
    if logs == [] then 0
    else
      var last := logs[|logs| - 1];
      Occurrences(logs[..|logs| - 1], name) + (if IsRecognized(last) && NameOf(last) == name then 1 else 0)
  }

  /** The cleaned entries of the documents that are not skipped, in order. */
  function Kept(logs: seq<StoredLog>, now: Timestamp): seq<CleanLog> {
    if logs == [] then []
    else
      var last := logs[|logs| - 1];
      Kept(logs[..|logs| - 1], now) + (if IsSkipped(last) then [] else [CleanOf(last, now)])
  }

  lemma {:induction false} SkippedAtMostRecognized(logs: seq<StoredLog>)
    ensures SkippedIn(logs) <= RecognizedIn(logs)
  {
    if logs != [] {
      SkippedAtMostRecognized(logs[..|logs| - 1]);
    }
  }

  /**
   * What the pass computes: every document is counted as recognized or
   * unknown; the skipped ones are exactly the recognized ones with a dict
   * name; the clean list keeps every other document in order; each hashable
   * name is tallied once per recognized document carrying it, and only
   * such names appear in the tally.
   */
  lemma {:induction false} TallySpec(logs: seq<StoredLog>, now: Timestamp)
    ensures var t := TallyOf(logs, now);
      && t.recognized == RecognizedIn(logs)
      && t.unknown == |logs| - RecognizedIn(logs)
      && t.skipped == SkippedIn(logs)
      && t.clean == Kept(logs, now)
      && |t.clean| == |logs| - t.skipped
      && WellFormedStats(t.stats)
      && Total(t.stats) == t.recognized - t.skipped
      && (forall name :: Hashable(name) ==> CountOf(t.stats, name) == Occurrences(logs, name))
  {
    SkippedAtMostRecognized(logs);
    if logs != [] {
      var init := logs[..|logs| - 1];
      var last := logs[|logs| - 1];
      TallySpec(init, now);
      SkippedAtMostRecognized(init);
      var t0 := TallyOf(init, now);
      if IsRecognized(last) && Hashable(NameOf(last)) {
        BumpSpec(t0.stats, NameOf(last));
      }
    }
  }

  /** A name is in the tally exactly when some recognized document carries it and it is hashable. */
  lemma TallyNames(logs: seq<StoredLog>, now: Timestamp, name: PyVal)
    ensures name in NameSet(TallyOf(logs, now).stats) <==> Hashable(name) && Occurrences(logs, name) > 0
  {
    TallySpec(logs, now);
    CountOfPositive(TallyOf(logs, now).stats, name);
    if name in NameSet(TallyOf(logs, now).stats) {
      NamesHashable(TallyOf(logs, now).stats, name);
    }
  }

  lemma {:induction false} NamesHashable(stats: seq<(PyVal, nat)>, name: PyVal)
    requires WellFormedStats(stats) && name in NameSet(stats)
    ensures Hashable(name)
  {
    if stats[0].0 != name {
      NamesHashable(stats[1..], name);
    }
  }

  // ---------------------------------------------------------------------------
  // Top recognized people
  // ---------------------------------------------------------------------------

  const TopLimit: nat := 5
  const RecentLimit: nat := 20

  function ByCount(p: (PyVal, nat)): int {
    p.1
  }

  /** `sorted(person_stats.items(), key=count, reverse=True)[:5]`. */
  function TopPeople(stats: seq<(PyVal, nat)>): seq<(PyVal, nat)> {
    StableSort.Take(StableSort.SortDesc(stats, ByCount), TopLimit)
  }

  lemma {:induction false} WithKeyTake<T>(s: seq<T>, key: T -> int, n: nat, k: int)
    ensures StableSort.WithKey(StableSort.Take(s, n), key, k) <= StableSort.WithKey(s, key, k)
  {
    if s != [] && n > 0 {
      WithKeyTake(s[1..], key, n - 1, k);
      var t := StableSort.Take(s, n);
      assert t[0] == s[0];
      assert t[1..] == StableSort.Take(s[1..], n - 1);
    }
  }

  /** The sorted tallies are the tallies rearranged, from the largest count down. */
  lemma SortedTallies(stats: seq<(PyVal, nat)>)
    ensures |StableSort.SortDesc(stats, ByCount)| == |stats|
    ensures multiset(StableSort.SortDesc(stats, ByCount)) == multiset(stats)
    ensures StableSort.SortedDesc(StableSort.SortDesc(stats, ByCount), ByCount)
  {
    StableSort.SortDescPermutes(stats, ByCount);
    StableSort.SortDescSorted(stats, ByCount);
  }

  /**
   * The table holds the five largest tallies (all of them when there are
   * fewer), from the largest down, each taken from the tally.
   */
  lemma TopPeopleSpec(stats: seq<(PyVal, nat)>)
    ensures |TopPeople(stats)| == if |stats| < TopLimit then |stats| else TopLimit
    ensures StableSort.SortedDesc(TopPeople(stats), ByCount)
    ensures multiset(TopPeople(stats)) <= multiset(stats)
  {
    var s := StableSort.SortDesc(stats, ByCount);
    var top := TopPeople(stats);
    SortedTallies(stats);
    assert s == top + s[|top|..];
    assert multiset(s) == multiset(top) + multiset(s[|top|..]);
  }

  /** Every person left out of the table has a count no larger than anyone shown. */
  lemma TopPeopleExcluded(stats: seq<(PyVal, nat)>, p: (PyVal, nat), q: (PyVal, nat))
    requires p in stats && q in TopPeople(stats) && p !in TopPeople(stats)
    ensures p.1 <= q.1
  {
    var s := StableSort.SortDesc(stats, ByCount);
    var top := TopPeople(stats);
    SortedTallies(stats);
    assert p in multiset(s);
    var j :| 0 <= j < |s| && s[j] == p;
    var i :| 0 <= i < |top| && top[i] == q;
    assert forall m :: 0 <= m < |top| ==> s[m] in top;
    assert ByCount(s[i]) >= ByCount(s[j]);
  }

  /** Among equal counts the table shows the first people tallied, in tally order. */
  lemma TopPeopleTies(stats: seq<(PyVal, nat)>, k: int)
    ensures StableSort.WithKey(TopPeople(stats), ByCount, k) <= StableSort.WithKey(stats, ByCount, k)
  {
    WithKeyTake(StableSort.SortDesc(stats, ByCount), ByCount, TopLimit, k);
    StableSort.SortDescStable(stats, ByCount, k);
  }

  // ---------------------------------------------------------------------------
  // The page
  // ---------------------------------------------------------------------------

  /** What the page shows: "No logs available", or the statistics and the recent entries. */
  datatype View =
    | NoLogsAvailable
    | Statistics(recognized: nat, unknown: nat, topPeople: seq<(PyVal, nat)>, recent: seq<CleanLog>, skipped: nat)

  /** `show_logs_viewer`, given the documents `get_logs` returned and the current time. */
  method ShowLogsViewer(logs: seq<StoredLog>, now: Timestamp) returns (v: View)
    ensures logs == [] <==> v == NoLogsAvailable
    ensures v.Statistics? ==>
              var t := TallyOf(logs, now);
              v == Statistics(t.recognized, t.unknown, TopPeople(t.stats), StableSort.Take(t.clean, RecentLimit), t.skipped)
    ensures v.Statistics? ==>
              && v.recognized == RecognizedIn(logs)
              && v.recognized + v.unknown == |logs|
              && |v.topPeople| <= TopLimit
              && (v.topPeople == [] <==> forall name :: Hashable(name) ==> Occurrences(logs, name) == 0)
              && v.recent == StableSort.Take(Kept(logs, now), RecentLimit)
  {
    if logs == [] {
      return NoLogsAvailable;
    }
    var clean: seq<CleanLog> := [];
    var recognizedCount: nat := 0;
    var unknownCount: nat := 0;
    var personStats: seq<(PyVal, nat)> := [];
    var skipped: nat := 0;
    var i := 0;
    while i < |logs|
      invariant i <= |logs|
      invariant Tally(clean, recognizedCount, unknownCount, personStats, skipped) == TallyOf(logs[..i], now)
    {
      assert logs[..i + 1][..i] == logs[..i];
      var log := logs[i];
      var name := NameOf(log);
      if StatusOf(log) == Recognized {
        recognizedCount := recognizedCount + 1;
        if Hashable(name) {
          personStats := Bump(personStats, name);
          clean := clean + [CleanOf(log, now)];
        } else {
          skipped := skipped + 1;
        }
      } else {
        unknownCount := unknownCount + 1;
        clean := clean + [CleanOf(log, now)];
      }
      i := i + 1;
    }
    assert logs[..i] == logs;
    TallySpec(logs, now);
    TopPeopleSpec(personStats);
    TopPeopleEmpty(logs, now);
    return Statistics(recognizedCount, unknownCount, TopPeople(personStats), StableSort.Take(clean, RecentLimit), skipped);
  }

  lemma TopPeopleEmpty(logs: seq<StoredLog>, now: Timestamp)
    ensures TopPeople(TallyOf(logs, now).stats) == [] <==> forall name :: Hashable(name) ==> Occurrences(logs, name) == 0
  {
    var stats := TallyOf(logs, now).stats;
    TopPeopleSpec(stats);
    TallySpec(logs, now);
    if stats != [] {
      var name := stats[0].0;
      assert name in NameSet(stats);
      TallyNames(logs, now, name);
    } else {
      forall name | Hashable(name) ensures Occurrences(logs, name) == 0 {
        TallyNames(logs, now, name);
      }
    }
  }

  // ---------------------------------------------------------------------------
  // Documents written by the realtime page
  // ---------------------------------------------------------------------------

  /** The document `add_log` stores for a record, at time `at`, with `encode` standing for the JPEG/base64 step. */
  function Stored(d: RealtimeTest.DbLog, at: Timestamp, encode: RealtimeTest.FaceImage -> string): (s: StoredLog)
    ensures s.timestamp == Some(at) && s.status == Some(PyStr(d.status))
    ensures s.personName == Some(d.personName) && s.confidence == Some(d.confidence)
    ensures s.imageBase64.Some? <==> d.image.Some?
    ensures s.faceImage == None
    ensures CleanOf(s, at).image == (if d.image.Some? && encode(d.image.value) != "" then s.imageBase64 else None)
  {
    StoredLog(Some(at), Some(PyStr(d.status)), Some(d.personName), Some(d.confidence),
              if d.image.Some? then Some(encode(d.image.value)) else None, None)
  }

  /**
   * When every face the realtime page logged was matched to a registered
   * user's payload or not matched at all, the viewer skips none of the
   * resulting documents and tallies every recognition under the user's name.
   */
  lemma {:induction false} RealtimeLogsAreTallied(outcomes: seq<FaceProcessor.FaceOutcome>, users: seq<Database.User>,
                                                  at: Timestamp, encode: RealtimeTest.FaceImage -> string,
                                                  now: Timestamp)
    requires forall i :: 0 <= i < |outcomes| ==>
               if outcomes[i].recognized then exists u :: u in users && outcomes[i].matched == Database.UserData(u)
               else outcomes[i].matched == PyNone
    ensures var logs := seq(|outcomes|, i requires 0 <= i < |outcomes| => Stored(RealtimeTest.DbLogFor(outcomes[i]), at, encode));
      var t := TallyOf(logs, now);
      t.skipped == 0 && |t.clean| == |outcomes| && Total(t.stats) == t.recognized
  {
    var logs := seq(|outcomes|, i requires 0 <= i < |outcomes| => Stored(RealtimeTest.DbLogFor(outcomes[i]), at, encode));
    forall i | 0 <= i < |logs| ensures !IsSkipped(logs[i]) {
      var o := outcomes[i];
      RealtimeTest.DbLogForSpec(o);
      if o.recognized {
        var u :| u in users && o.matched == Database.UserData(u);
        assert RealtimeTest.DbLogFor(o).personName == PyStr(u.name);
      }
    }
    NoneSkipped(logs);
    TallySpec(logs, now);
  }

  /**
   * End to end: the documents the realtime page stores for a successful
   * recognition against the registered users' gallery are never skipped by
   * the viewer, and their tallies sum to the recognized count.
   */
  lemma LiveLogsAreTallied(img: FaceProcessor.Image, dets: FaceProcessor.Detections, users: seq<Database.User>,
                           sim: (FaceProcessor.Embedding, FaceProcessor.Embedding) -> FaceProcessor.Score,
                           at: Timestamp, encode: RealtimeTest.FaceImage -> string, now: Timestamp)
    requires FaceProcessor.WellFormed(img)
    requires FaceProcessor.Recognize(img, dets, Some(Database.Gallery(users)), sim).Success?
    ensures var outcomes := FaceProcessor.Recognize(img, dets, Some(Database.Gallery(users)), sim).value.1;
      var logs := seq(|outcomes|, i requires 0 <= i < |outcomes| => Stored(RealtimeTest.DbLogFor(outcomes[i]), at, encode));
      var t := TallyOf(logs, now);
      t.skipped == 0 && |t.clean| == |outcomes| && Total(t.stats) == t.recognized
  {
    var g := Database.Gallery(users);
    var outcomes := FaceProcessor.Recognize(img, dets, Some(g), sim).value.1;
    var cs := FaceProcessor.Candidates(img, dets);
    var m := FaceProcessor.MatcherFor(dets, sim);
    FaceProcessor.RecognizeSpec(img, dets, Some(g), sim);
    Database.GalleryMembers(users);
    forall i | 0 <= i < |outcomes|
      ensures if outcomes[i].recognized then exists u :: u in users && outcomes[i].matched == Database.UserData(u)
              else outcomes[i].matched == PyNone
    {
      FaceProcessor.FaceResultSpec(m, img, cs[i], Some(g));
      if outcomes[i].recognized {
        var k :| 0 <= k < |g| && outcomes[i].matched == g[k].userData;
        assert g[k] in g;
        var j :| 0 <= j < |users| && users[j].embedding.Some? && g[k] == Database.Entry(users[j]);
        assert users[j] in users;
      }
    }
    RealtimeLogsAreTallied(outcomes, users, at, encode, now);
  }

  lemma {:induction false} NoneSkipped(logs: seq<StoredLog>)
    requires forall i :: 0 <= i < |logs| ==> !IsSkipped(logs[i])
    ensures SkippedIn(logs) == 0
  {
    if logs != [] {
      NoneSkipped(logs[..|logs| - 1]);
    }
  }
}
