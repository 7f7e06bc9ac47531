/**
 * The bookkeeping of pages/realtime_test.py: turning each face outcome into
 * a session log entry and a database log record, the session log kept in
 * Streamlit's session state (newest first, at most 50 entries), and the
 * "Recent Activity" panel of `display_logs`.  Widgets, timestamps and text
 * rendering are left to the page; a timestamp is a given value here.
 */
module RealtimeTest {
  import opened Wrappers
  import opened PyValues
  import opened FaceProcessor
  import Database
  import StableSort

  type Timestamp = int

  /** The pixels of a face crop, standing for its base64 JPEG text. */
  type FaceImage = seq<seq<Pixel>>

  const RecognizedStatus := "recognized"
  const UnknownStatus := "unknown"

  /** The `details` line of an entry; its text rendering is not modelled. */
  datatype Details = RecognizedAs(matched: PyVal, confidence: real) | UnknownPersonDetected

  /** A session log entry. */
  datatype SessionEntry = SessionEntry(
    timestamp: Timestamp,
    status: string,
    personId: Option<string>,
    personName: PyVal,
    confidence: real,
    details: Details,
    image: Option<FaceImage>)

  /** The arguments of the `add_log` call made for one face. */
  datatype DbLog = DbLog(
    personId: Option<string>,
    personName: PyVal,
    status: string,
    confidence: real,
    image: Option<FaceImage>)

  /** The session entry for one face outcome. */
  function EntryFor(o: FaceOutcome, now: Timestamp): (e: SessionEntry)
    ensures e.timestamp == now && e.image == o.faceImage
    ensures o.recognized ==>
              e.status == RecognizedStatus && e.personId == o.userId && e.personName == o.matched
              && e.confidence == o.confidence && e.details == RecognizedAs(o.matched, o.confidence)
    ensures !o.recognized ==>
              e.status == UnknownStatus && e.personId == None && e.personName == PyNone
              && e.confidence == 0.0 && e.details == UnknownPersonDetected
  {
    if o.recognized then
      SessionEntry(now, RecognizedStatus, o.userId, o.matched, o.confidence,
                   RecognizedAs(o.matched, o.confidence), o.faceImage)
    else
      SessionEntry(now, UnknownStatus, None, PyNone, 0.0, UnknownPersonDetected, o.faceImage)
  }

  /** The name logged to the database: the "name" of a dict payload, the payload itself otherwise. */
  function DisplayName(matched: PyVal): PyVal {
    if matched.PyDict? && HasKey(matched.items, "name") then Get(matched.items, "name") else matched
  }

  /** The `add_log` record for one face outcome. */
  function DbLogFor(o: FaceOutcome): DbLog {
    var e := EntryFor(o, 0);
    DbLog(e.personId, DisplayName(o.matched), e.status, e.confidence, o.faceImage)
  }

  /**
   * A recognized face whose payload is the `user_data` of a user is logged
   * under that user's id and name, with the match's confidence; any other
   * face is logged as unknown with no id, name None and confidence 0.
   */
  lemma DbLogForSpec(o: FaceOutcome)
    ensures forall u :: o.recognized && o.matched == Database.UserData(u) ==>
              DbLogFor(o) == DbLog(o.userId, PyStr(u.name), RecognizedStatus, o.confidence, o.faceImage)
    ensures !o.recognized && o.matched == PyNone ==>
              DbLogFor(o) == DbLog(None, PyNone, UnknownStatus, 0.0, o.faceImage)
  {
    forall u | o.recognized && o.matched == Database.UserData(u)
      ensures DbLogFor(o) == DbLog(o.userId, PyStr(u.name), RecognizedStatus, o.confidence, o.faceImage)
    {
      assert o.matched.items[0] == ("name", PyStr(u.name));
      assert HasKey(o.matched.items, "name");
    }
  }

  // ---------------------------------------------------------------------------
  // The session log
  // ---------------------------------------------------------------------------

  const SessionLogLimit: nat := 50

  /** `s` reversed: the newest entry of a history first. */
  function Reversed<T>(s: seq<T>): (r: seq<T>)
    ensures |r| == |s|
  {
    if s == [] then [] else [s[|s| - 1]] + Reversed(s[..|s| - 1])
  }

  /** The entries a session log of the given history holds: the 50 newest, newest first. */
  function MostRecent(history: seq<SessionEntry>): seq<SessionEntry> {
    StableSort.Take(Reversed(history), SessionLogLimit)
  }

  lemma {:induction false} ReversedAt<T>(s: seq<T>, i: nat)
    requires i < |s|
    ensures Reversed(s)[i] == s[|s| - 1 - i]
  {
    if i > 0 {
      ReversedAt(s[..|s| - 1], i - 1);
    }
  }

  /**
   * The session log holds the `min(50, n)` newest of the `n` entries
   * inserted since it was last cleared, newest first.
   */
  lemma MostRecentSpec(history: seq<SessionEntry>)
    ensures |MostRecent(history)| == if |history| < SessionLogLimit then |history| else SessionLogLimit
    ensures forall i :: 0 <= i < |MostRecent(history)| ==>
              MostRecent(history)[i] == history[|history| - 1 - i]
  {
    forall i | 0 <= i < |MostRecent(history)|
      ensures MostRecent(history)[i] == history[|history| - 1 - i]
    {
      ReversedAt(history, i);
    }
  }

  /** Inserting at the front and cutting to 50 keeps the log equal to the newest 50. */
  lemma InsertKeepsMostRecent(history: seq<SessionEntry>, e: SessionEntry)
    ensures MostRecent(history + [e]) == StableSort.Take([e] + MostRecent(history), SessionLogLimit)
  {
    assert (history + [e])[..|history|] == history;
    assert Reversed(history + [e]) == [e] + Reversed(history);
  }

  class SessionLog {
    /** `st.session_state.recognition_logs`. */
    var entries: seq<SessionEntry>

    /** Every entry inserted since the log was last cleared, oldest first. */
    ghost var history: seq<SessionEntry>

    ghost predicate Valid()
      reads this
    {
      entries == MostRecent(history)
    }

    constructor ()
      ensures Valid() && entries == [] && history == []
    {
      entries := [];
      history := [];
    }

    /** "Clear Current Logs". */
    method Clear()
      modifies this
      ensures Valid() && entries == [] && history == []
    {
      entries := [];
      history := [];
    }

    /** `insert(0, entry)`, then keep the first 50 when longer. */
    method Insert(e: SessionEntry)
      requires Valid()
      modifies this
      ensures Valid() && history == old(history) + [e]
      ensures entries == StableSort.Take([e] + old(entries), SessionLogLimit)
      ensures entries[0] == e && |entries| <= SessionLogLimit
    {
      InsertKeepsMostRecent(history, e);
      entries := [e] + entries;
      if |entries| > SessionLogLimit {
        entries := entries[..SessionLogLimit];
      }
      history := history + [e];
    }

    /**
     * The loop over `matches`: one `add_log` record and one session entry per
     * face, in order.
     */
    method RecordMatches(matches: seq<FaceOutcome>, now: Timestamp) returns (dbLogs: seq<DbLog>)
      requires Valid()
      modifies this
      ensures Valid()
      ensures history == old(history) + seq(|matches|, i requires 0 <= i < |matches| => EntryFor(matches[i], now))
      ensures dbLogs == seq(|matches|, i requires 0 <= i < |matches| => DbLogFor(matches[i]))
    {
      dbLogs := [];
      var i := 0;
      while i < |matches|
        invariant i <= |matches| && Valid()
        invariant history == old(history) + seq(i, j requires 0 <= j < i => EntryFor(matches[j], now))
        invariant dbLogs == seq(i, j requires 0 <= j < i => DbLogFor(matches[j]))
      {
        var o := matches[i];
        var entry: SessionEntry;
        if o.recognized {
          entry := SessionEntry(now, RecognizedStatus, o.userId, o.matched, o.confidence,
                                RecognizedAs(o.matched, o.confidence), o.faceImage);
        } else {
          entry := SessionEntry(now, UnknownStatus, None, PyNone, 0.0, UnknownPersonDetected, o.faceImage);
        }
        var displayName := o.matched;
        if displayName.PyDict? && HasKey(displayName.items, "name") {
          displayName := Get(displayName.items, "name");
        }
        assert entry == EntryFor(o, now);
        ghost var entries := seq(i, j requires 0 <= j < i => EntryFor(matches[j], now));
        assert seq(i + 1, j requires 0 <= j < i + 1 => EntryFor(matches[j], now)) == entries + [entry];
        assert seq(i + 1, j requires 0 <= j < i + 1 => DbLogFor(matches[j]))
            == dbLogs + [DbLog(entry.personId, displayName, entry.status, entry.confidence, o.faceImage)];
        dbLogs := dbLogs + [DbLog(entry.personId, displayName, entry.status, entry.confidence, o.faceImage)];
        Insert(entry);
        i := i + 1;
      }
    }
  }

  /**
   * One run of the detection column of `live_detection_page`: nothing
   * happens without registered users or without a captured frame;
   * otherwise the frame is recognised against the gallery (an error raised
   * there leaves the log as it was) and every outcome is logged.
   */
  method LiveDetection(log: SessionLog, db: Database.UserTable, capture: Option<(Image, Detections)>,
                       sim: (Embedding, Embedding) -> Score, now: Timestamp)
    returns (r: Result<seq<DbLog>, Error>)
    requires log.Valid() && (capture.Some? ==> WellFormed(capture.value.0))
    modifies log
    ensures log.Valid()
    ensures Database.Gallery(db.users) == [] || capture.None? ==>
              r == Success([]) && log.history == old(log.history)
    ensures Database.Gallery(db.users) != [] && capture.Some? ==>
              match Recognize(capture.value.0, capture.value.1, Some(Database.Gallery(db.users)), sim)
              case Failure(e) => r == Failure(e) && log.history == old(log.history)
              case Success(res) =>
                r == Success(seq(|res.1|, i requires 0 <= i < |res.1| => DbLogFor(res.1[i])))
                && log.history == old(log.history) +
                     seq(|res.1|, i requires 0 <= i < |res.1| => EntryFor(res.1[i], now))
  {
    var embeddings := db.GetAllEmbeddings();
    if embeddings == [] || capture.None? {
      return Success([]);
    }
    var (frame, dets) := capture.value;
    var recognition := DetectFaceRealtime(frame, dets, Some(embeddings), sim);
    match recognition
    case Failure(e) =>
      return Failure(e);
    case Success(res) =>
      var dbLogs := log.RecordMatches(res.1, now);
      assert dbLogs == seq(|res.1|, i requires 0 <= i < |res.1| => DbLogFor(res.1[i]));
      return Success(dbLogs);
  }

  // ---------------------------------------------------------------------------
  // display_logs
  // ---------------------------------------------------------------------------

  predicate IsCased(c: char) {
    'a' <= c <= 'z' || 'A' <= c <= 'Z'
  }

  function Upper(c: char): char {
    if 'a' <= c <= 'z' then (c as int - 32) as char else c
  }

  function Lower(c: char): char {
    if 'A' <= c <= 'Z' then (c as int + 32) as char else c
  }

  /**
   * `str.title()` on ASCII text, `prevCased` telling whether the character
   * before `s` is a letter: each letter is upper-cased after a non-letter
   * and lower-cased after a letter.
   */
  function Title(s: string, prevCased: bool): (r: string)
    ensures |r| == |s|
  {
    if s == [] then []
    else
      var c := s[0];
      [if !IsCased(c) then c else if prevCased then Lower(c) else Upper(c)] + Title(s[1..], IsCased(c))
  }

  /** `key.replace('_', ' ').title()`. */
  function FormatKey(key: string): (r: string)
    ensures |r| == |key|
  {
    Title(seq(|key|, i requires 0 <= i < |key| => if key[i] == '_' then ' ' else key[i]), false)
  }

  /** The character `FormatKey` puts at position `i`, described on its own. */
  function FormattedAt(key: string, i: nat): char
    requires i < |key|
  {
    var c := key[i];
    if c == '_' then ' '
    else if !IsCased(c) then c
    else if i > 0 && IsCased(key[i - 1]) then Lower(c)
    else Upper(c)
  }

  lemma {:induction false} TitleAt(s: string, prevCased: bool, i: nat)
    requires i < |s|
    ensures Title(s, prevCased)[i] ==
      if !IsCased(s[i]) then s[i]
      else if (if i == 0 then prevCased else IsCased(s[i - 1])) then Lower(s[i])
      else Upper(s[i])
  {
    if i > 0 {
      TitleAt(s[1..], IsCased(s[0]), i - 1);
    }
  }

  /**
   * The formatted key has no underscore left, and each letter is upper case
   * exactly at the start of a word (after a non-letter) and lower case
   * inside one.
   */
  lemma FormatKeyAt(key: string)
    ensures forall i :: 0 <= i < |key| ==> FormatKey(key)[i] == FormattedAt(key, i)
  {
    var spaced := seq(|key|, i requires 0 <= i < |key| => if key[i] == '_' then ' ' else key[i]);
    forall i | 0 <= i < |key| ensures FormatKey(key)[i] == FormattedAt(key, i) {
      TitleAt(spaced, false, i);
    }
  }

  /** Formatting a formatted key changes nothing. */
  lemma FormatKeyIdempotent(key: string)
    ensures FormatKey(FormatKey(key)) == FormatKey(key)
  {
    var once := FormatKey(key);
    FormatKeyAt(key);
    FormatKeyAt(once);
    forall i | 0 <= i < |key| ensures FormatKey(once)[i] == once[i] {
      assert IsCased(once[i]) <==> IsCased(key[i]);
      if i > 0 {
        assert IsCased(once[i - 1]) <==> IsCased(key[i - 1]);
      }
    }
  }

  /** One block of the "Recent Activity" markdown. */
  datatype Card =
    | RecognizedCard(name: PyVal, timestamp: Timestamp, confidence: real,
                     details: Option<seq<(string, PyVal)>>, image: Option<FaceImage>)
    | UnknownCard(timestamp: Timestamp, image: Option<FaceImage>)

  /** What the panel shows: "No recent activity", or the cards in order. */
  datatype Panel = NoRecentActivity | Cards(cards: seq<Card>)

  /** The "Person Details" lines: every key but "name", formatted. */
  function DetailLines(items: seq<(string, PyVal)>): (r: seq<(string, PyVal)>)
    ensures |r| <= |items|
  {
    if items == [] then []
    else
      (if items[0].0 != "name" then [(FormatKey(items[0].0), items[0].1)] else []) + DetailLines(items[1..])
  }

  /** The name shown in a card header: a dict's name (see `DictName`), any other value as it is. */
  function HeaderName(v: PyVal): PyVal {
    if v.PyDict? then DictName(v.items) else v
  }

  /**
   * The detail lines follow the dict's order: those of consecutive items are
   * concatenated, and one item gives one line with its formatted key unless
   * its key is "name".
   */
  lemma {:induction false} DetailLinesAppend(a: seq<(string, PyVal)>, b: seq<(string, PyVal)>)
    ensures DetailLines(a + b) == DetailLines(a) + DetailLines(b)
  {
    if a == [] {
      assert a + b == b;
    } else {
      var ab := a + b;
      assert ab[0] == a[0] && ab[1..] == a[1..] + b;
      var head := if a[0].0 != "name" then [(FormatKey(a[0].0), a[0].1)] else [];
      calc {
        DetailLines(ab);
        head + DetailLines(a[1..] + b);
        { DetailLinesAppend(a[1..], b); }
        head + (DetailLines(a[1..]) + DetailLines(b));
        DetailLines(a) + DetailLines(b);
      }
    }
  }

  lemma DetailLinesSingle(k: string, v: PyVal)
    ensures DetailLines([(k, v)]) == if k != "name" then [(FormatKey(k), v)] else []
  {
    assert [(k, v)][1..] == [];
  }

  /** The card `display_logs` renders for one entry. */
  function CardFor(e: SessionEntry): Card {
    if e.status == RecognizedStatus then
      var details := if e.personName.PyDict? && e.personName.items != [] then Some(DetailLines(e.personName.items)) else None;
      RecognizedCard(HeaderName(e.personName), e.timestamp, e.confidence, details, e.image)
    else UnknownCard(e.timestamp, e.image)
  }

  /**
   * The header name is the dict's "name" entry, else its first value, else
   * the text of the empty dict; a value that is not a dict is shown as it is.
   */
  lemma HeaderNameSpec(v: PyVal)
    ensures v.PyDict? && HasKey(v.items, "name") ==> HeaderName(v) == Get(v.items, "name")
    ensures v.PyDict? && !HasKey(v.items, "name") && v.items != [] ==> HeaderName(v) == v.items[0].1
    ensures v == PyDict([]) ==> HeaderName(v) == PyStr("{}")
    ensures !v.PyDict? ==> HeaderName(v) == v
  {
  }

  /** The detail lines are the non-"name" entries, in order, with formatted keys. */
  lemma {:induction false} DetailLinesSpec(items: seq<(string, PyVal)>)
    ensures forall d :: d in DetailLines(items) ==>
              exists i :: 0 <= i < |items| && items[i].0 != "name" && d == (FormatKey(items[i].0), items[i].1)
    ensures forall i :: 0 <= i < |items| && items[i].0 != "name" ==>
              (FormatKey(items[i].0), items[i].1) in DetailLines(items)
  {
    if items != [] {
      DetailLinesSpec(items[1..]);
      forall i | 0 <= i < |items| && items[i].0 != "name"
        ensures (FormatKey(items[i].0), items[i].1) in DetailLines(items)
      {
        if i > 0 {
          assert items[1..][i - 1] == items[i];
        }
      }
      forall d | d in DetailLines(items)
        ensures exists i :: 0 <= i < |items| && items[i].0 != "name" && d == (FormatKey(items[i].0), items[i].1)
      {
        if d !in DetailLines(items[1..]) {
          assert items[0].0 != "name" && d == (FormatKey(items[0].0), items[0].1);
        } else {
          var i :| 0 <= i < |items[1..]| && items[1..][i].0 != "name"
                   && d == (FormatKey(items[1..][i].0), items[1..][i].1);
          assert items[i + 1] == items[1..][i];
        }
      }
    }
  }

  /** `display_logs(logs, max_logs)`: at most `max_logs` cards, for the first entries, in order. */
  method DisplayLogs(logs: seq<SessionEntry>, maxLogs: nat) returns (panel: Panel)
    ensures logs == [] <==> panel == NoRecentActivity
    ensures panel.Cards? ==>
              |panel.cards| == (if |logs| < maxLogs then |logs| else maxLogs)
              && forall i :: 0 <= i < |panel.cards| ==> panel.cards[i] == CardFor(logs[i])
  {
    if logs == [] {
      return NoRecentActivity;
    }
    var shown := StableSort.Take(logs, maxLogs);
    var cards: seq<Card> := [];
    var i := 0;
    while i < |shown|
      invariant i <= |shown|
      invariant |cards| == i
      invariant forall j :: 0 <= j < i ==> cards[j] == CardFor(logs[j])
    {
      var log := shown[i];
      var name := log.personName;
      var card: Card;
      if log.status == RecognizedStatus {
        var details: Option<seq<(string, PyVal)>> := None;
        if name.PyDict? && name.items != [] {
          details := Some(DetailLines(name.items));
        }
        card := RecognizedCard(HeaderName(name), log.timestamp, log.confidence, details, log.image);
      } else {
        card := UnknownCard(log.timestamp, log.image);
      }
      cards := cards + [card];
      i := i + 1;
    }
    return Cards(cards);
  }
}
