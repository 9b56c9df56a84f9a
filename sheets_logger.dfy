/**
 * The local log buffer of the Google Sheets usage logger
 * (Source/Utils/SheetsLogger.py). Usage, session and error events are
 * appended to three JSON log files, each holding an `entries` list capped at
 * the last 1000 entries; pending (not yet uploaded) entries are turned into
 * sheet rows and, once the sheet accepted them, flagged `uploaded`.
 * The Google API is reduced to the spreadsheet id a create call returns and
 * whether an append call succeeds; the rows it accepted are kept per sheet.
 */
module SheetsLog {
  import opened Wrappers
  import opened Text
  import opened Tally

  /** The JSON values the log entries hold (numbers as integers). */
  datatype JsonValue = JNull | JBool(b: bool) | JNum(n: int) | JStr(s: string)

  /** One log entry: a JSON object. */
  type Entry = map<string, JsonValue>

  /**
   * A log file on disk: missing, not loadable as JSON, or a JSON object
   * whose `entries` list may be absent.
   */
  datatype LogFile = Missing | Unreadable | Present(entries: Option<seq<Entry>>)

  /** The three files the logger writes. */
  datatype LogKind = UsageLog | SessionLog | ErrorLog

  /** Most entries a log file keeps. */
  const MaxEntries: nat := 1000

  /** Pending usage entries that trigger a batch upload. */
  const UploadThreshold: nat := 50

  /** Python truthiness of a JSON value. */
  predicate Truthy(v: JsonValue) {
    match v
    case JNull => false
    case JBool(b) => b
    case JNum(n) => n != 0
    case JStr(s) => s != []
  }

  /** `not entry.get('uploaded', False)`. */
  predicate IsPending(e: Entry) {
    "uploaded" !in e || !Truthy(e["uploaded"])
  }

  /** The pending entries, in order. */
  function Pending(es: seq<Entry>): (ps: seq<Entry>)
    ensures |ps| <= |es|
    ensures forall k :: 0 <= k < |ps| ==> IsPending(ps[k])
  {
    if es == [] then []
    else Pending(es[..|es| - 1]) + (if IsPending(es[|es| - 1]) then [es[|es| - 1]] else [])
  }

  /** Exactly the pending entries are kept, with their order. */
  lemma {:induction false} PendingExactly(es: seq<Entry>)
    ensures forall e :: e in Pending(es) <==> e in es && IsPending(e)
    ensures (forall k :: 0 <= k < |es| ==> IsPending(es[k])) ==> Pending(es) == es
  {
    if es != [] {
      var init := es[..|es| - 1];
      PendingExactly(init);
      assert es == init + [es[|es| - 1]];
    }
  }

  lemma {:induction false} PendingAppend(es: seq<Entry>, e: Entry)
    ensures Pending(es + [e]) == Pending(es) + (if IsPending(e) then [e] else [])
  {
    assert (es + [e])[..|es|] == es;
  }

  /** The entries a file holds; a missing `entries` list reads as empty. */
  function EntriesOf(log: LogFile): seq<Entry> {
    if log.Present? && log.entries.Some? then log.entries.value else []
  }

  /** `GetPendingLogCount`: 0 for a missing or unreadable file. */
  function PendingCount(log: LogFile): nat {
    if log.Present? then |Pending(EntriesOf(log))| else 0
  }

  // ---- appending ----

  /** The last `MaxEntries` of `es`. */
  function KeepLast(es: seq<Entry>): (r: seq<Entry>)
    ensures |r| <= MaxEntries
    ensures |r| == if |es| <= MaxEntries then |es| else MaxEntries
  {
    if |es| > MaxEntries then es[|es| - MaxEntries..] else es
  }

  lemma KeepLastIsSuffix(es: seq<Entry>)
    ensures KeepLast(es) == es[|es| - |KeepLast(es)|..]
  {
  }

  /** `entry['uploaded'] = False`. */
  function Fresh(entry: Entry): Entry {
    entry["uploaded" := JBool(false)]
  }

  /**
   * The file after `AppendToLocalLog`: a missing file starts from an empty
   * list; an unreadable file, or one without `entries`, fails and is left
   * as it was.
   */
  function Appended(log: LogFile, entry: Entry): LogFile {
    match log
    case Missing => Present(Some(KeepLast([Fresh(entry)])))
    case Unreadable => Unreadable
    case Present(entries) =>
      if entries.None? then log else Present(Some(KeepLast(entries.value + [Fresh(entry)])))
  }

  lemma AppendedEntries(log: LogFile, entry: Entry)
    requires log.Missing? || (log.Present? && log.entries.Some?)
    ensures Appended(log, entry).Present? && Appended(log, entry).entries.Some?
    ensures EntriesOf(Appended(log, entry)) == KeepLast(EntriesOf(log) + [Fresh(entry)])
  {
  }

  lemma FreshIsPending(entry: Entry)
    ensures IsPending(Fresh(entry))
  {
  }

  lemma KeepLastEndsWith(all: seq<Entry>, e: Entry)
    requires all != [] && all[|all| - 1] == e
    ensures var r := KeepLast(all); r != [] && r[|r| - 1] == e
  {
    KeepLastIsSuffix(all);
  }

  /**
   * After an append that succeeds, the new entry is last and pending, the
   * log holds at most 1000 entries, and those are the most recent ones in
   * their original order, whether or not the dropped ones were uploaded.
   */
  lemma AppendKeepsLatest(log: LogFile, entry: Entry)
    requires log.Missing? || (log.Present? && log.entries.Some?)
    ensures Appended(log, entry).Present? && Appended(log, entry).entries.Some?
    ensures var r := EntriesOf(Appended(log, entry));
      var all := EntriesOf(log) + [Fresh(entry)];
      r != [] && r[|r| - 1] == Fresh(entry) && IsPending(r[|r| - 1])
      && |r| <= MaxEntries
      && r == all[|all| - |r|..]
      && (|all| <= MaxEntries ==> r == all)
  {
    var all := EntriesOf(log) + [Fresh(entry)];
    var r := KeepLast(all);
    assert EntriesOf(Appended(log, entry)) == r by { AppendedEntries(log, entry); }
    assert IsPending(Fresh(entry)) by { FreshIsPending(entry); }
    assert r != [] && r[|r| - 1] == Fresh(entry) by { KeepLastEndsWith(all, Fresh(entry)); }
    assert r == all[|all| - |r|..] by { KeepLastIsSuffix(all); }
  }

  /** Appending below the cap adds exactly one pending entry. */
  lemma AppendAddsPending(log: LogFile, entry: Entry)
    requires log.Missing? || (log.Present? && log.entries.Some?)
    requires |EntriesOf(log)| < MaxEntries
    ensures PendingCount(Appended(log, entry)) == PendingCount(log) + 1
  {
    var all := EntriesOf(log) + [Fresh(entry)];
    PendingAppend(EntriesOf(log), Fresh(entry));
    assert EntriesOf(Appended(log, entry)) == all;
  }

  // ---- rows ----

  /** A cell of an uploaded row: the value as is, or passed through `str()`. */
  datatype Cell = Raw(v: JsonValue) | Str(v: JsonValue)

  type Row = seq<Cell>

  /** `entry.get(key, '')`. */
  function Get(e: Entry, key: string): JsonValue {
    if key in e then e[key] else JStr("")
  }

  /** The columns of a `Usage Log` row, each with whether it goes through `str()`. */
  const UsageColumns: seq<(string, bool)> := [
    ("timestamp", false), ("session_id", false), ("user_email", false), ("action", false),
    ("book_id", true), ("book_title", false), ("action_details", false), ("client_ip", false),
    ("user_agent", false), ("duration", true)]

  /** The columns of a `Session Log` row. */
  const SessionColumns: seq<(string, bool)> := [
    ("session_start", false), ("session_end", false), ("user_email", false), ("total_actions", true),
    ("books_viewed", true), ("searches_performed", true), ("duration", true), ("client_info", false)]

  function Cells(e: Entry, columns: seq<(string, bool)>): (row: Row)
    ensures |row| == |columns|
    ensures forall j :: 0 <= j < |columns| ==> row[j].v == Get(e, columns[j].0) && row[j].Str? == columns[j].1
  {
    seq(|columns|, j requires 0 <= j < |columns| =>
      if columns[j].1 then Str(Get(e, columns[j].0)) else Raw(Get(e, columns[j].0)))
  }

  /** The row for an entry on sheet `sheet`; no other sheet than these two has one. */
  function RowFor(sheet: string, e: Entry): Option<Row> {
    if sheet == "Usage Log" then Some(Cells(e, UsageColumns))
    else if sheet == "Session Log" then Some(Cells(e, SessionColumns))
    else None
  }

  /** The rows for `es`, in order. */
  function RowsOf(sheet: string, es: seq<Entry>): seq<Row> {
    if es == [] then []
    else
      var last := RowFor(sheet, es[|es| - 1]);
      RowsOf(sheet, es[..|es| - 1]) + (if last.Some? then [last.value] else [])
  }

  /** The width of a row on `sheet`: 10 for usage, 8 for sessions. */
  function Width(sheet: string): nat {
    if sheet == "Usage Log" then 10 else 8
  }

  /**
   * On the usage and session sheets, one row per entry, row `k` holding
   * entry `k`'s columns; on any other sheet (the error sheet among them)
   * no rows at all.
   */
  lemma {:induction false} RowsShape(sheet: string, es: seq<Entry>)
    ensures sheet != "Usage Log" && sheet != "Session Log" ==> RowsOf(sheet, es) == []
    ensures sheet == "Usage Log" || sheet == "Session Log" ==>
      |RowsOf(sheet, es)| == |es|
      && forall k :: 0 <= k < |es| ==> |RowsOf(sheet, es)[k]| == Width(sheet) && Some(RowsOf(sheet, es)[k]) == RowFor(sheet, es[k])
  {
    if es != [] {
      var init := es[..|es| - 1];
      RowsShape(sheet, init);
      if sheet == "Usage Log" || sheet == "Session Log" {
        var rows := RowsOf(sheet, es);
        assert rows == RowsOf(sheet, init) + [RowFor(sheet, es[|es| - 1]).value];
        forall k | 0 <= k < |es|
          ensures |rows[k]| == Width(sheet) && Some(rows[k]) == RowFor(sheet, es[k])
        {
          if k < |init| {
            assert rows[k] == RowsOf(sheet, init)[k];
          }
        }
      }
    }
  }

  // ---- marking ----

  /** Every pending entry flagged `uploaded = True`. */
  function MarkUploaded(es: seq<Entry>): (r: seq<Entry>)
    ensures |r| == |es|
    ensures forall k :: 0 <= k < |es| ==> r[k] == if IsPending(es[k]) then es[k]["uploaded" := JBool(true)] else es[k]
  {
    seq(|es|, k requires 0 <= k < |es| => if IsPending(es[k]) then es[k]["uploaded" := JBool(true)] else es[k])
  }

  /**
   * Marking leaves nothing pending and changes no entry, and no position,
   * other than by its `uploaded` flag.
   */
  lemma MarkingClearsPending(es: seq<Entry>)
    ensures Pending(MarkUploaded(es)) == []
    ensures forall k :: 0 <= k < |es| ==> MarkUploaded(es)[k] - {"uploaded"} == es[k] - {"uploaded"}
  {
    var r := MarkUploaded(es);
    NonePending(r);
    forall k | 0 <= k < |es| ensures r[k] - {"uploaded"} == es[k] - {"uploaded"} {
      if IsPending(es[k]) {
        assert r[k] == es[k]["uploaded" := JBool(true)];
      }
    }
  }

  lemma {:induction false} NonePending(es: seq<Entry>)
    requires forall k :: 0 <= k < |es| ==> !IsPending(es[k])
    ensures Pending(es) == []
  {
    if es != [] {
      NonePending(es[..|es| - 1]);
    }
  }

  // ---- entries the logger builds ----

  /** `value or default` on an optional string: `None` and `''` fall back. */
  function OrDefault(value: Option<string>, default: string): (r: string)
    ensures r == default || (value == Some(r) && r != [])
  {
    if value.None? || value.value == [] then default else value.value
  }

  /** `key` holds a non-empty string: the fallbacks leave no entry without a user or a session. */
  predicate NamedBy(e: Entry, key: string) {
    key in e && e[key].JStr? && e[key].s != []
  }

  /** The entry `LogUsage` builds; `now` and `epochSeconds` stand for the clock. */
  function UsageEntry(now: string, epochSeconds: nat, action: string, bookId: Option<int>, bookTitle: Option<string>,
                      actionDetails: Option<string>, userEmail: Option<string>, sessionId: Option<string>,
                      clientIp: Option<string>, userAgent: Option<string>, duration: Option<int>): (e: Entry)
    ensures IsPending(e)
    ensures "timestamp" in e && e["timestamp"] == JStr(now)
    ensures NamedBy(e, "session_id") && NamedBy(e, "user_email")
    ensures "book_id" in e && (Truthy(e["book_id"]) <==> bookId.Some? && bookId.value != 0)
  {
    map[
      "timestamp" := JStr(now),
      "session_id" := JStr(OrDefault(sessionId, "session_" + Decimal(epochSeconds))),
      "user_email" := JStr(OrDefault(userEmail, "anonymous")),
      "action" := JStr(action),
      "book_id" := (if bookId.Some? then JNum(bookId.value) else JNull),
      "book_title" := JStr(OrDefault(bookTitle, "")),
      "action_details" := JStr(OrDefault(actionDetails, "")),
      "client_ip" := JStr(OrDefault(clientIp, "")),
      "user_agent" := JStr(OrDefault(userAgent, "")),
      "duration" := JNum(if duration.Some? then duration.value else 0)]
  }

  /** The entry `LogSession` builds; `durationSeconds` stands for `(end - start).total_seconds()`. */
  function SessionEntry(start: string, end: string, userEmail: Option<string>, totalActions: int, booksViewed: int,
                        searchesPerformed: int, durationSeconds: int, clientInfo: Option<string>): (e: Entry)
    ensures IsPending(e)
    ensures NamedBy(e, "user_email")
    ensures "session_end" in e && e["session_end"] == JStr(end)
  {
    map[
      "session_start" := JStr(start),
      "session_end" := JStr(end),
      "user_email" := JStr(OrDefault(userEmail, "anonymous")),
      "total_actions" := JNum(totalActions),
      "books_viewed" := JNum(booksViewed),
      "searches_performed" := JNum(searchesPerformed),
      "duration" := JNum(durationSeconds),
      "client_info" := JStr(OrDefault(clientInfo, ""))]
  }

  /** The entry `LogError` builds. */
  function ErrorEntry(now: string, errorType: string, errorMessage: string, userEmail: Option<string>,
                      context: Option<string>, severity: string): (e: Entry)
    ensures "uploaded" in e && IsPending(e)
    ensures NamedBy(e, "user_email")
    ensures "severity" in e && e["severity"] == JStr(severity)
  {
    map[
      "timestamp" := JStr(now),
      "error_type" := JStr(errorType),
      "error_message" := JStr(errorMessage),
      "user_email" := JStr(OrDefault(userEmail, "system")),
      "context" := JStr(OrDefault(context, "")),
      "severity" := JStr(severity),
      "uploaded" := JBool(false)]
  }

  /** Every column of a usage row is filled from the entry `LogUsage` built: none falls back to `''`. */
  lemma UsageEntryFillsRow(now: string, epochSeconds: nat, action: string, bookId: Option<int>, bookTitle: Option<string>,
                           actionDetails: Option<string>, userEmail: Option<string>, sessionId: Option<string>,
                           clientIp: Option<string>, userAgent: Option<string>, duration: Option<int>)
    ensures var e := UsageEntry(now, epochSeconds, action, bookId, bookTitle, actionDetails, userEmail, sessionId, clientIp, userAgent, duration);
      forall j :: 0 <= j < |UsageColumns| ==> UsageColumns[j].0 in e
  {
  }

  /** Likewise for a session row and the entry `LogSession` built. */
  lemma SessionEntryFillsRow(start: string, end: string, userEmail: Option<string>, totalActions: int, booksViewed: int,
                             searchesPerformed: int, durationSeconds: int, clientInfo: Option<string>)
    ensures var e := SessionEntry(start, end, userEmail, totalActions, booksViewed, searchesPerformed, durationSeconds, clientInfo);
      forall j :: 0 <= j < |SessionColumns| ==> SessionColumns[j].0 in e
  {
  }

  /** `LogError` uploads at once exactly for these severities. */
  predicate IsSevere(severity: string) {
    severity == "CRITICAL" || severity == "FATAL"
  }

  // ---- analytics ----

  /** `entry.get(key)`: an absent key reads as `None`, like JSON null. */
  function GetOrNull(e: Entry, key: string): JsonValue {
    if key in e then e[key] else JNull
  }

  /** The distinct values of `vs`. */
  function ValueSet(vs: seq<JsonValue>): (r: set<JsonValue>)
    ensures |r| <= |vs|
    ensures forall v :: v in r <==> v in vs
  {
    if vs == [] then {}
    else
      var init := vs[..|vs| - 1];
      var r := ValueSet(init) + {vs[|vs| - 1]};
      assert vs == init + [vs[|vs| - 1]];
      r
  }

  /** The values under `key` of the entries, in order. */
  function Column(es: seq<Entry>, key: string): (vs: seq<JsonValue>)
    ensures |vs| == |es|
    ensures forall k :: 0 <= k < |es| ==> vs[k] == GetOrNull(es[k], key)
  {
    seq(|es|, k requires 0 <= k < |es| => GetOrNull(es[k], key))
  }

  /** The truthy `book_id` values, in order. */
  function BookIds(es: seq<Entry>): (vs: seq<JsonValue>)
    ensures |vs| <= |es|
  {
    if es == [] then []
    else
      var b := GetOrNull(es[|es| - 1], "book_id");
      BookIds(es[..|es| - 1]) + (if Truthy(b) then [b] else [])
  }

  /** `entry.get('action', 'unknown')`, in order. */
  function Actions(es: seq<Entry>): (vs: seq<JsonValue>)
    ensures |vs| == |es|
    ensures forall k :: 0 <= k < |es| ==> vs[k] == if "action" in es[k] then es[k]["action"] else JStr("unknown")
  {
    seq(|es|, k requires 0 <= k < |es| => if "action" in es[k] then es[k]["action"] else JStr("unknown"))
  }

  /** Python's `==` on JSON values: `True == 1` and `False == 0`; any other two values are equal only when identical. */
  predicate PyEq(a: JsonValue, b: JsonValue) {
    match (a, b)
    case (JBool(x), JNum(n)) => n == (if x then 1 else 0)
    case (JNum(n), JBool(x)) => n == (if x then 1 else 0)
    case _ => a == b
  }

  /** The value a set element or a dict key stands for: a boolean is its number, since the two hash and compare alike. */
  function PyKey(v: JsonValue): (k: JsonValue)
    ensures !k.JBool?
    ensures PyEq(v, k)
  {
    if v.JBool? then JNum(if v.b then 1 else 0) else v
  }

  /** Two values fall together in a set or in a dict exactly when Python finds them equal. */
  lemma PyKeyMerges(a: JsonValue, b: JsonValue)
    ensures PyKey(a) == PyKey(b) <==> PyEq(a, b)
  {
  }

  /** `vs` as a set or a dict sees them. */
  function Keyed(vs: seq<JsonValue>): (ks: seq<JsonValue>)
    ensures |ks| == |vs|
    ensures forall k :: 0 <= k < |vs| ==> ks[k] == PyKey(vs[k])
  {
    seq(|vs|, k requires 0 <= k < |vs| => PyKey(vs[k]))
  }

  /** The counting part of the analytics summary (the average, a float, is not part of it). */
  datatype Summary = Summary(
    periodDays: int, totalActions: nat, uniqueSessions: nat, uniqueUsers: nat, booksAccessed: nat,
    actionBreakdown: Counts<JsonValue>)

  /**
   * The day cutoff on one entry: `Some(true)` keeps it, `Some(false)` skips
   * it and `None` is a `TypeError`, which ends the whole summary. A missing
   * timestamp (`KeyError`) skips the entry; one that is not a string cannot
   * be parsed at all and raises. A string goes to `atOrAfter`, which stands
   * for `datetime.fromisoformat` and the comparison with the cutoff: it
   * skips a string that does not parse (`ValueError`) or an earlier time, and
   * raises for a time with an offset, which cannot be compared with the
   * cutoff's naive one.
   */
  function Cutoff(e: Entry, atOrAfter: string -> Option<bool>): Option<bool> {
    if "timestamp" !in e then Some(false)
    else
      match e["timestamp"]
      case JStr(t) => atOrAfter(t)
      case _ => None
  }

  predicate Kept(e: Entry, atOrAfter: string -> Option<bool>) {
    Cutoff(e, atOrAfter) == Some(true)
  }

  /** The cutoff raises on some entry of `es`. */
  predicate CutoffRaises(es: seq<Entry>, atOrAfter: string -> Option<bool>) {
    exists k :: 0 <= k < |es| && Cutoff(es[k], atOrAfter).None?
  }

  /** An entry whose timestamp is a number or null makes the cutoff raise, whatever `atOrAfter` says. */
  lemma NonStringTimestampRaises(es: seq<Entry>, k: nat, atOrAfter: string -> Option<bool>)
    requires k < |es| && "timestamp" in es[k] && !es[k]["timestamp"].JStr?
    ensures CutoffRaises(es, atOrAfter)
  {
    assert Cutoff(es[k], atOrAfter).None?;
  }

  /** The entries the day cutoff keeps, in order. */
  function Recent(es: seq<Entry>, atOrAfter: string -> Option<bool>): (r: seq<Entry>)
    ensures |r| <= |es|
    ensures forall k :: 0 <= k < |r| ==> Kept(r[k], atOrAfter) && r[k] in es
    ensures forall e :: e in es && Kept(e, atOrAfter) ==> e in r
  {
    if es == [] then []
    else
      var init := es[..|es| - 1];
      var r := Recent(init, atOrAfter) + (if Kept(es[|es| - 1], atOrAfter) then [es[|es| - 1]] else []);
      assert forall e :: e in init ==> e in es;
      assert es == init + [es[|es| - 1]];
      r
  }

  /** The cutoff keeps each passing entry as often as it occurs, and no other: a filter that keeps order. */
  lemma {:induction false} RecentCounts(es: seq<Entry>, atOrAfter: string -> Option<bool>, e: Entry)
    ensures multiset(Recent(es, atOrAfter))[e] == if Kept(e, atOrAfter) then multiset(es)[e] else 0
  {
    if es != [] {
      var init := es[..|es| - 1];
      var last := es[|es| - 1];
      RecentCounts(init, atOrAfter, e);
      assert es == init + [last];
      assert multiset(es) == multiset(init) + multiset{last};
    }
  }

  /** Filtering a longer log extends the filtered shorter one. */
  lemma RecentAppend(es: seq<Entry>, e: Entry, atOrAfter: string -> Option<bool>)
    ensures Recent(es + [e], atOrAfter) == Recent(es, atOrAfter) + (if Kept(e, atOrAfter) then [e] else [])
  {
    assert (es + [e])[..|es + [e]| - 1] == es;
  }

  function SummaryOf(days: int, recent: seq<Entry>): Summary {
    Summary(days, |recent|, |ValueSet(Keyed(Column(recent, "session_id")))|, |ValueSet(Keyed(Column(recent, "user_email")))|,
      |ValueSet(Keyed(BookIds(recent)))|, TallyOf(Keyed(Actions(recent))))
  }

  /**
   * The breakdown counts add up to the number of actions, one key per
   * action up to Python's `==`, and there are never more distinct sessions,
   * users or books than actions.
   */
  lemma SummaryBounds(days: int, recent: seq<Entry>)
    ensures var s := SummaryOf(days, recent);
      Total(s.actionBreakdown) == s.totalActions
      && DistinctKeys(s.actionBreakdown)
      && (forall a :: a in Keys(s.actionBreakdown) <==> a in Keyed(Actions(recent)))
      && s.uniqueSessions <= s.totalActions && s.uniqueUsers <= s.totalActions && s.booksAccessed <= s.totalActions
  {
    TallyTotal(Keyed(Actions(recent)));
    TallyKeys(Keyed(Actions(recent)));
  }

  /**
   * The filter loop of `GetAnalyticsSummary`: the entries the cutoff keeps,
   * in order, or nothing when the cutoff raises on one of them.
   */
  method RecentEntries(es: seq<Entry>, atOrAfter: string -> Option<bool>) returns (r: Option<seq<Entry>>)
    ensures r.None? <==> CutoffRaises(es, atOrAfter)
    ensures r.Some? ==> r.value == Recent(es, atOrAfter)
  {
    var recent: seq<Entry> := [];
    for k := 0 to |es|
      invariant recent == Recent(es[..k], atOrAfter)
      invariant forall j :: 0 <= j < k ==> Cutoff(es[j], atOrAfter).Some?
    {
      assert es[..k + 1][..k] == es[..k];
      var keep := Cutoff(es[k], atOrAfter);
      if keep.None? {
        return None;
      }
      if keep.value {
        recent := recent + [es[k]];
      }
    }
    assert es[..|es|] == es;
    return Some(recent);
  }

  /** The counting loop of `GetAnalyticsSummary`: `action_counts`. */
  method ActionCounts(actions: seq<JsonValue>) returns (counts: Counts<JsonValue>)
    ensures counts == TallyOf(actions)
  {
    counts := [];
    for k := 0 to |actions|
      invariant counts == TallyOf(actions[..k])
    {
      assert actions[..k + 1][..k] == actions[..k];
      counts := Bump(counts, actions[k]);
    }
    assert actions[..|actions|] == actions;
  }

  /** A session id `true` and a session id `1` are one session, as they are one element of a Python set. */
  lemma TrueAndOneAreOneSession(days: int)
    ensures SummaryOf(days, [map["session_id" := JBool(true)], map["session_id" := JNum(1)]]).uniqueSessions == 1
  {
    var recent: seq<Entry> := [map["session_id" := JBool(true)], map["session_id" := JNum(1)]];
    var ks := Keyed(Column(recent, "session_id"));
    assert ks == [JNum(1), JNum(1)];
    assert ValueSet(ks) == {JNum(1)};
  }

  // ---- the effect of an upload ----

  /** The rows `sheet` already holds. */
  function RowsIn(sheets: map<string, seq<Row>>, sheet: string): seq<Row> {
    if sheet in sheets then sheets[sheet] else []
  }

  /** Whether `UploadLogFile` appends rows: the file loads, it yields rows for the sheet, and the append call succeeds. */
  predicate Sends(log: LogFile, sheet: string, apiOk: bool) {
    log.Present? && RowsOf(sheet, Pending(EntriesOf(log))) != [] && apiOk
  }

  /** The file after `UploadLogFile`: every entry flagged uploaded when the rows were sent, otherwise as it was. */
  function UploadedFile(log: LogFile, sheet: string, apiOk: bool): LogFile {
    if Sends(log, sheet, apiOk) then Present(Some(MarkUploaded(EntriesOf(log)))) else log
  }

  /** The sheets after `UploadLogFile`: `sheet` extended by the rows when they were sent. */
  function UploadedSheets(log: LogFile, sheet: string, apiOk: bool, sheets: map<string, seq<Row>>): map<string, seq<Row>> {
    if Sends(log, sheet, apiOk) then sheets[sheet := RowsIn(sheets, sheet) + RowsOf(sheet, Pending(EntriesOf(log)))] else sheets
  }

  /** What a batch upload can change: the usage and session files and the sheets. */
  datatype Store = Store(usage: LogFile, session: LogFile, sheets: map<string, seq<Row>>)

  /**
   * A batch upload with a spreadsheet to upload to: the usage file, then the session
   * file; a file that does not load stops the batch before it changes
   * anything. The error log builds no rows, so it adds nothing.
   */
  function AfterBatch(st: Store, apiOk: bool): Store {
    if st.usage.Unreadable? then st
    else
      var usage := UploadedFile(st.usage, "Usage Log", apiOk);
      var sheets := UploadedSheets(st.usage, "Usage Log", apiOk, st.sheets);
      if st.session.Unreadable? then Store(usage, st.session, sheets)
      else Store(usage, UploadedFile(st.session, "Session Log", apiOk), UploadedSheets(st.session, "Session Log", apiOk, sheets))
  }

  /**
   * A batch whose append calls succeed leaves no usage entry pending, keeps
   * every entry in place but for its `uploaded` flag, and puts one row per
   * previously pending entry on the usage sheet.
   */
  lemma BatchClearsUsage(st: Store)
    requires st.usage.Present?
    ensures var after := AfterBatch(st, true);
      PendingCount(after.usage) == 0
      && |EntriesOf(after.usage)| == |EntriesOf(st.usage)|
      && (forall k :: 0 <= k < |EntriesOf(st.usage)| ==> EntriesOf(after.usage)[k] - {"uploaded"} == EntriesOf(st.usage)[k] - {"uploaded"})
      && RowsIn(after.sheets, "Usage Log") == RowsIn(st.sheets, "Usage Log") + RowsOf("Usage Log", Pending(EntriesOf(st.usage)))
  {
    var es := EntriesOf(st.usage);
    var usage := UploadedFile(st.usage, "Usage Log", true);
    var sheets := UploadedSheets(st.usage, "Usage Log", true, st.sheets);
    var after := AfterBatch(st, true);
    assert after.usage == usage && RowsIn(after.sheets, "Usage Log") == RowsIn(sheets, "Usage Log");
    if Sends(st.usage, "Usage Log", true) {
      assert EntriesOf(usage) == MarkUploaded(es);
      MarkingClearsPending(es);
    } else {
      assert Pending(es) == [] by { RowsShape("Usage Log", Pending(es)); }
      assert RowsOf("Usage Log", Pending(es)) == [];
    }
  }

  /**
   * When an append triggers the batch and the append calls succeed, the
   * usage log is left with nothing pending: the new entry is uploaded with
   * the rest.
   */
  lemma TriggeredBatchClearsPending(log: LogFile, entry: Entry, session: LogFile, sheets: map<string, seq<Row>>)
    requires !log.Unreadable?
    ensures PendingCount(AfterBatch(Store(Appended(log, entry), session, sheets), true).usage) == 0
  {
    BatchClearsUsage(Store(Appended(log, entry), session, sheets));
  }

  // ---- the logger ----

  /** `usage_sheet_id` after `GetOrCreateUsageSheet`: a set id stays; an unset one takes the created id, if any. */
  function SheetAfter(id: string, created: Option<string>): string {
    if id != [] || created.None? then id else created.value
  }

  /** `usage_sheet_id` after one `GetOrCreateUsageSheet` per create result in `calls`. */
  function SheetAfterAll(id: string, calls: seq<Option<string>>): string
    decreases calls
  {
    if calls == [] then id else SheetAfterAll(SheetAfter(id, calls[0]), calls[1..])
  }

  /** Once a spreadsheet is set, no later call replaces it. */
  lemma {:induction false} SheetStaysSet(id: string, calls: seq<Option<string>>)
    requires id != []
    ensures SheetAfterAll(id, calls) == id
  {
    if calls != [] {
      SheetStaysSet(SheetAfter(id, calls[0]), calls[1..]);
    }
  }

  /** An `HttpError`-free failure that propagates out of `UploadLogFile`: the file did not load. */
  datatype Raised = LoadFailed

  class SheetsLogger {
    var usageLog: LogFile
    var sessionLog: LogFile
    var errorLog: LogFile
    /** The rows each sheet accepted, in order. */
    var sheets: map<string, seq<Row>>
    /** `usage_sheet_id`; the empty string stands for `None`, which the code only tests for truth as well. */
    var sheetId: string

    /** The logger over the three log files as they are on disk; nothing uploaded yet, no spreadsheet. */
    constructor(usage: LogFile, session: LogFile, errors: LogFile)
      ensures usageLog == usage && sessionLog == session && errorLog == errors && sheets == map[]
      ensures sheetId == []
    {
      usageLog := usage;
      sessionLog := session;
      errorLog := errors;
      sheets := map[];
      sheetId := [];
    }

    function File(kind: LogKind): LogFile
      reads this
    {
      match kind
      case UsageLog => usageLog
      case SessionLog => sessionLog
      case ErrorLog => errorLog
    }

    function SheetRows(sheet: string): seq<Row>
      reads this
    {
      RowsIn(sheets, sheet)
    }

    method SetFile(kind: LogKind, f: LogFile)
      modifies this`usageLog, this`sessionLog, this`errorLog
      ensures File(kind) == f
      ensures kind != UsageLog ==> usageLog == old(usageLog)
      ensures kind != SessionLog ==> sessionLog == old(sessionLog)
      ensures kind != ErrorLog ==> errorLog == old(errorLog)
    {
      match kind {
        case UsageLog => usageLog := f;
        case SessionLog => sessionLog := f;
        case ErrorLog => errorLog := f;
      }
    }

    /** `AppendToLocalLog`: the entry appended to the file of `kind`, which is then capped. */
    method AppendToLocalLog(kind: LogKind, entry: Entry)
      modifies this`usageLog, this`sessionLog, this`errorLog
      ensures File(kind) == Appended(old(File(kind)), entry)
      ensures kind != UsageLog ==> usageLog == old(usageLog)
      ensures kind != SessionLog ==> sessionLog == old(sessionLog)
      ensures kind != ErrorLog ==> errorLog == old(errorLog)
    {
      var log := File(kind);
      match log {
        case Missing =>
          SetFile(kind, Present(Some(KeepLast([Fresh(entry)]))));
        case Unreadable =>
        case Present(entries) =>
          if entries.Some? {
            var es := entries.value + [Fresh(entry)];
            if |es| > MaxEntries {
              es := es[|es| - MaxEntries..];
            }
            SetFile(kind, Present(Some(es)));
          }
      }
    }

    /** `GetPendingLogCount`: the pending entries of the usage log. */
    method GetPendingLogCount() returns (n: nat)
      ensures n == PendingCount(usageLog)
      ensures n <= |EntriesOf(usageLog)|
    {
      if usageLog.Present? {
        n := |Pending(EntriesOf(usageLog))|;
      } else {
        n := 0;
      }
    }

    /**
     * `UploadLogFile`: the pending entries of the file become rows for
     * `sheet`; when there are rows and the append call succeeds (`apiOk`),
     * the sheet gains them and every entry of the file is flagged uploaded.
     * A failed append (`HttpError`) gives false and changes nothing; a file
     * that does not load raises.
     */
    method UploadLogFile(kind: LogKind, sheet: string, apiOk: bool) returns (r: Result<bool, Raised>)
      modifies this`usageLog, this`sessionLog, this`errorLog, this`sheets
      ensures old(File(kind)).Unreadable? <==> r.Err?
      ensures r.Ok? ==>
        (r.value <==>
          (Sends(old(File(kind)), sheet, apiOk) || RowsOf(sheet, Pending(EntriesOf(old(File(kind))))) == [] || !old(File(kind)).Present?))
      ensures File(kind) == UploadedFile(old(File(kind)), sheet, apiOk)
      ensures sheets == UploadedSheets(old(File(kind)), sheet, apiOk, old(sheets))
      ensures kind != UsageLog ==> usageLog == old(usageLog)
      ensures kind != SessionLog ==> sessionLog == old(sessionLog)
      ensures kind != ErrorLog ==> errorLog == old(errorLog)
    {
      var log := File(kind);
      if log.Missing? {
        return Ok(true);
      }
      if log.Unreadable? {
        return Err(LoadFailed);
      }
      var es := EntriesOf(log);
      var pending := Pending(es);
      if pending == [] {
        assert RowsOf(sheet, pending) == [];
        return Ok(true);
      }
      var rows: seq<Row> := [];
      for k := 0 to |pending|
        invariant rows == RowsOf(sheet, pending[..k])
      {
        assert pending[..k + 1][..k] == pending[..k];
        var row := RowFor(sheet, pending[k]);
        if row.None? {
          continue;
        }
        rows := rows + [row.value];
      }
      assert pending[..|pending|] == pending;
      if rows != [] {
        if !apiOk {
          return Ok(false);
        }
        sheets := sheets[sheet := SheetRows(sheet) + rows];
        var marked := es;
        for k := 0 to |es|
          invariant |marked| == |es|
          invariant forall j :: 0 <= j < k ==> marked[j] == MarkUploaded(es)[j]
          invariant forall j :: k <= j < |es| ==> marked[j] == es[j]
        {
          if IsPending(marked[k]) {
            marked := marked[k := marked[k]["uploaded" := JBool(true)]];
          }
        }
        assert marked == MarkUploaded(es);
        SetFile(kind, Present(Some(marked)));
      }
      return Ok(true);
    }

    /** `UploadErrorLogs`: the error log to the `Error Log` sheet, which builds no rows. */
    method UploadErrorLogs(apiOk: bool) returns (r: Result<bool, Raised>)
      modifies this`usageLog, this`sessionLog, this`errorLog, this`sheets
      ensures r == (if old(errorLog).Unreadable? then Err(LoadFailed) else Ok(true))
      ensures usageLog == old(usageLog) && sessionLog == old(sessionLog) && errorLog == old(errorLog)
      ensures sheets == old(sheets)
    {
      RowsShape("Error Log", Pending(EntriesOf(errorLog)));
      assert File(ErrorLog) == errorLog;
      r := UploadLogFile(ErrorLog, "Error Log", apiOk);
      match r {
        case Ok(v) => assert v;
        case Err(e) => assert e == LoadFailed;
      }
    }

    /**
     * `GetOrCreateUsageSheet`: the spreadsheet id once one is set; otherwise
     * the result of the create call, `created`, which is `None` when the call
     * fails with `HttpError` and leaves the id unset. A created id is kept for
     * every later call.
     */
    method GetOrCreateUsageSheet(created: Option<string>) returns (id: string)
      modifies this`sheetId
      ensures sheetId == SheetAfter(old(sheetId), created)
      ensures id == sheetId
      ensures old(sheetId) != [] ==> sheetId == old(sheetId)
    {
      if sheetId != [] {
        return sheetId;
      }
      if created.None? {
        return [];
      }
      sheetId := created.value;
      return sheetId;
    }

    /**
     * `BatchUploadLogs`: with a spreadsheet to upload to, the usage, session
     * and error logs in turn; a file that does not load stops the batch,
     * which then reports false.
     */
    method BatchUploadLogs(created: Option<string>, apiOk: bool) returns (ok: bool)
      modifies this`usageLog, this`sessionLog, this`errorLog, this`sheets, this`sheetId
      ensures sheetId == SheetAfter(old(sheetId), created)
      ensures ok <==> sheetId != [] && !old(usageLog).Unreadable? && !old(sessionLog).Unreadable? && !old(errorLog).Unreadable?
      ensures var before := Store(old(usageLog), old(sessionLog), old(sheets));
        Store(usageLog, sessionLog, sheets) == if sheetId != [] then AfterBatch(before, apiOk) else before
      ensures errorLog == old(errorLog)
    {
      var id := GetOrCreateUsageSheet(created);
      if id == [] {
        return false;
      }
      var r := UploadLogFile(UsageLog, "Usage Log", apiOk);
      if r.Err? {
        return false;
      }
      r := UploadLogFile(SessionLog, "Session Log", apiOk);
      if r.Err? {
        return false;
      }
      r := UploadErrorLogs(apiOk);
      ok := r.Ok?;
    }

    /**
     * `LogUsage`: build the usage entry, append it to the usage log, then
     * upload in a batch exactly when 50 or more entries are pending.
     */
    method LogUsage(now: string, epochSeconds: nat, action: string, bookId: Option<int>, bookTitle: Option<string>,
                    actionDetails: Option<string>, userEmail: Option<string>, sessionId: Option<string>,
                    clientIp: Option<string>, userAgent: Option<string>, duration: Option<int>,
                    created: Option<string>, apiOk: bool)
      returns (uploadTriggered: bool)
      modifies this`usageLog, this`sessionLog, this`errorLog, this`sheets, this`sheetId
      ensures var entry := UsageEntry(now, epochSeconds, action, bookId, bookTitle, actionDetails, userEmail, sessionId,
                                      clientIp, userAgent, duration);
        uploadTriggered <==> PendingCount(Appended(old(usageLog), entry)) >= UploadThreshold
      ensures sheetId == if uploadTriggered then SheetAfter(old(sheetId), created) else old(sheetId)
      ensures var entry := UsageEntry(now, epochSeconds, action, bookId, bookTitle, actionDetails, userEmail, sessionId,
                                      clientIp, userAgent, duration);
        var appended := Store(Appended(old(usageLog), entry), old(sessionLog), old(sheets));
        Store(usageLog, sessionLog, sheets) == if uploadTriggered && sheetId != [] then AfterBatch(appended, apiOk) else appended
      ensures errorLog == old(errorLog)
    {
      var entry := UsageEntry(now, epochSeconds, action, bookId, bookTitle, actionDetails, userEmail, sessionId,
                              clientIp, userAgent, duration);
      AppendToLocalLog(UsageLog, entry);
      var pending := GetPendingLogCount();
      uploadTriggered := pending >= UploadThreshold;
      if uploadTriggered {
        var _ := BatchUploadLogs(created, apiOk);
      }
    }

    /** `LogSession`: build the session entry and append it to the session log. */
    method LogSession(start: string, end: string, userEmail: Option<string>, totalActions: int, booksViewed: int,
                      searchesPerformed: int, durationSeconds: int, clientInfo: Option<string>)
      modifies this`usageLog, this`sessionLog, this`errorLog
      ensures sessionLog == Appended(old(sessionLog),
        SessionEntry(start, end, userEmail, totalActions, booksViewed, searchesPerformed, durationSeconds, clientInfo))
      ensures usageLog == old(usageLog) && errorLog == old(errorLog)
    {
      var entry := SessionEntry(start, end, userEmail, totalActions, booksViewed, searchesPerformed, durationSeconds, clientInfo);
      AppendToLocalLog(SessionLog, entry);
    }

    /**
     * `LogError`: build the error entry and append it to the error log; for
     * a CRITICAL or FATAL severity upload the error log at once, which
     * raises if that file does not load.
     */
    method LogError(now: string, errorType: string, errorMessage: string, userEmail: Option<string>,
                    context: Option<string>, severity: string, apiOk: bool)
      returns (raised: bool)
      modifies this`usageLog, this`sessionLog, this`errorLog, this`sheets
      ensures errorLog == Appended(old(errorLog), ErrorEntry(now, errorType, errorMessage, userEmail, context, severity))
      ensures usageLog == old(usageLog) && sessionLog == old(sessionLog) && sheets == old(sheets)
      ensures raised <==> IsSevere(severity) && old(errorLog).Unreadable?
    {
      var entry := ErrorEntry(now, errorType, errorMessage, userEmail, context, severity);
      AppendToLocalLog(ErrorLog, entry);
      raised := false;
      if IsSevere(severity) {
        var r := UploadErrorLogs(apiOk);
        raised := r.Err?;
      }
    }

    /**
     * `GetAnalyticsSummary`: nothing for a usage log that is missing or does
     * not load, or when the cutoff raises on one of its entries; otherwise
     * the counts over the recent entries.
     */
    method GetAnalyticsSummary(days: int, atOrAfter: string -> Option<bool>) returns (s: Option<Summary>)
      ensures s.None? <==> !usageLog.Present? || CutoffRaises(EntriesOf(usageLog), atOrAfter)
      ensures s.Some? ==> s.value == SummaryOf(days, Recent(EntriesOf(usageLog), atOrAfter))
      ensures s.Some? ==>
        (Total(s.value.actionBreakdown) == s.value.totalActions
         && s.value.uniqueSessions <= s.value.totalActions && s.value.uniqueUsers <= s.value.totalActions)
    {
      if !usageLog.Present? {
        return None;
      }
      var recent := RecentEntries(EntriesOf(usageLog), atOrAfter);
      if recent.None? {
        return None;
      }
      var counts := ActionCounts(Keyed(Actions(recent.value)));
      SummaryBounds(days, recent.value);
      s := Some(Summary(days, |recent.value|, |ValueSet(Keyed(Column(recent.value, "session_id")))|,
        |ValueSet(Keyed(Column(recent.value, "user_email")))|, |ValueSet(Keyed(BookIds(recent.value)))|, counts));
    }
  }
}
