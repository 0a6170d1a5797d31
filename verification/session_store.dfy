/**
 * Per-session storage (utils/session-manager.ts). Each browser tab works in a
 * session whose id comes from the page address, else from the tab's own
 * storage, else is generated; every stored value lives under
 * `<base key>_<session id>`, and each save refreshes a metadata record under
 * `session-metadata_<session id>`.
 *
 * The shared key-value storage is a map from keys to entries; an entry is the
 * empty string, text that does not parse, or a parsed document. The page
 * address, the tab storage and the id generator form the environment `Env`,
 * threaded through every call that may consult or change it. A generated id is
 * "session_" followed by a counter, standing for the clock reading and random
 * suffix the source uses.
 */
module SessionStore {
  import opened Wrappers
  import opened Strings
  import opened TimerSync

  /**
   * A parsed JSON document: `null`, session metadata, a timer snapshot, or any
   * other value. `JValue` holds the value's canonical text as `JSON.stringify`
   * writes it back: numbers in shortest form (so zero is always "0", never "0.0"
   * or "-0"), strings quoted, and `NaN` or infinities already turned into `null`.
   */
  datatype Doc = JNull | JSession(meta: SessionData) | JTimer(snapshot: Snapshot) | JValue(text: string)

  /** `SessionData`: the metadata record of one session. */
  datatype SessionData = SessionData(
    sessionId: string,
    createdAt: int,
    lastUpdated: int,
    settings: Doc,
    timerState: Doc,
    meetingSummaryData: Doc)

  /** One storage entry as `getItem` then `JSON.parse` see it. */
  datatype Entry = Blank | Garbage | Json(doc: Doc)

  type Store = map<string, Entry>

  /**
   * The browser context: whether a window exists, the address's `session`
   * parameter, the tab storage's `current-session-id`, and how many ids have
   * been generated.
   */
  datatype Env = Env(hasWindow: bool, urlSession: Option<string>, tabSession: Option<string>, generated: nat)

  const MetadataBase: string := "session-metadata"
  const MetadataMarker: string := "session-metadata_session_"
  const SettingsBase: string := "countdown-agenda-settings"
  const TimerStateBase: string := "countdown-agenda-timer-state"
  const SummaryBase: string := "countdown-agenda-meeting-summary"
  const DayMs: int := 24 * 60 * 60 * 1000

  /** `generateSessionId`: the `k`-th generated id, always starting "session_". */
  function FreshSessionId(k: nat): (r: string)
    ensures StartsWith(r, "session_") && |r| > |"session_"|
  {
    "session_" + NatToString(k)
  }

  /** Generated ids never repeat. */
  lemma FreshSessionIdInjective(a: nat, b: nat)
    requires FreshSessionId(a) == FreshSessionId(b)
    ensures a == b
  {
    assert NatToString(a) == FreshSessionId(a)[|"session_"|..];
    assert NatToString(b) == FreshSessionId(b)[|"session_"|..];
    NatToStringInjective(a, b);
  }

  /**
   * `getCurrentSessionId`: without a window, a fresh id every time; otherwise
   * the address's id, else the tab's id, else a fresh id that is recorded in
   * both the tab storage and the address.
   */
  function GetCurrentSessionId(env: Env): (r: (string, Env))
    ensures r.0 != ""
    ensures !env.hasWindow ==> r == (FreshSessionId(env.generated), env.(generated := env.generated + 1))
    ensures env.hasWindow && Truthy(env.urlSession) ==> r == (env.urlSession.value, env)
    ensures env.hasWindow && !Truthy(env.urlSession) && Truthy(env.tabSession) ==> r == (env.tabSession.value, env)
    ensures env.hasWindow && !Truthy(env.urlSession) && !Truthy(env.tabSession) ==>
      var id := FreshSessionId(env.generated);
      r == (id, env.(urlSession := Some(id), tabSession := Some(id), generated := env.generated + 1))
  {
    if !env.hasWindow then (FreshSessionId(env.generated), env.(generated := env.generated + 1))
    else if Truthy(env.urlSession) then (env.urlSession.value, env)
    else if Truthy(env.tabSession) then (env.tabSession.value, env)
    else
      var id := FreshSessionId(env.generated);
      (id, env.(urlSession := Some(id), tabSession := Some(id), generated := env.generated + 1))
  }

  /**
   * In a window the session id is stable: asking again in the context the
   * first answer left returns the same id and changes nothing more.
   */
  lemma CurrentSessionIdStable(env: Env)
    requires env.hasWindow
    ensures var (id, env1) := GetCurrentSessionId(env);
      GetCurrentSessionId(env1) == (id, env1)
  {
  }

  /** `sessionId || getCurrentSessionId()`: an explicit non-empty id wins. */
  function ResolveId(sessionId: Option<string>, env: Env): (r: (string, Env))
    ensures r.0 != ""
    ensures Truthy(sessionId) ==> r == (sessionId.value, env)
    ensures !Truthy(sessionId) ==> r == GetCurrentSessionId(env)
  {
    if Truthy(sessionId) then (sessionId.value, env) else GetCurrentSessionId(env)
  }

  /** `getSessionKey`: the base key, an underscore and the resolved session id. */
  function GetSessionKey(base: string, sessionId: Option<string>, env: Env): (r: (string, Env))
    ensures var (id, env1) := ResolveId(sessionId, env);
      r == (base + "_" + id, env1)
  {
    var (id, env1) := ResolveId(sessionId, env);
    (base + "_" + id, env1)
  }

  /** The value of an entry for a loader with a default: only a parsed document replaces the default. */
  function EntryValue(store: Store, key: string, default: Doc): Doc {
    if key in store && store[key].Json? then store[key].doc else default
  }

  /**
   * `loadSessionData`: the parsed document under the session key; the default
   * when the entry is missing, empty or does not parse.
   */
  function LoadSessionData(store: Store, env: Env, key: string, default: Doc, sessionId: Option<string>): (r: (Doc, Env))
    ensures var (k, env1) := GetSessionKey(key, sessionId, env);
      && r.1 == env1
      && (k in store && store[k].Json? ==> r.0 == store[k].doc)
      && (k !in store || !store[k].Json? ==> r.0 == default)
  {
    var (k, env1) := GetSessionKey(key, sessionId, env);
    (EntryValue(store, k, default), env1)
  }

  /**
   * `updateSessionMetadata`: the session's metadata record is rewritten with
   * both timestamps at `now` and the session's current settings, timer state and
   * summary (null when absent).
   */
  function UpdateSessionMetadata(store: Store, env: Env, sessionId: Option<string>, now: int): (r: (Store, Env))
    ensures var (id, env1) := ResolveId(sessionId, env);
      && r.1 == env1
      && r.0.Keys == store.Keys + {MetadataBase + "_" + id}
      && (forall k :: k in store && k != MetadataBase + "_" + id ==> r.0[k] == store[k])
      && r.0[MetadataBase + "_" + id] == Json(JSession(SessionData(id, now, now,
           EntryValue(store, SettingsBase + "_" + id, JNull),
           EntryValue(store, TimerStateBase + "_" + id, JNull),
           EntryValue(store, SummaryBase + "_" + id, JNull))))
  {
    var (id, env1) := ResolveId(sessionId, env);
    var meta := SessionData(id, now, now,
      LoadSessionData(store, env1, SettingsBase, JNull, Some(id)).0,
      LoadSessionData(store, env1, TimerStateBase, JNull, Some(id)).0,
      LoadSessionData(store, env1, SummaryBase, JNull, Some(id)).0);
    (store[MetadataBase + "_" + id := Json(JSession(meta))], env1)
  }

  /**
   * `saveSessionData`: the document is written under the session key, then the
   * metadata refreshed. The metadata key is resolved anew from the context the
   * key lookup left, so without a window it names a second fresh id. Only those
   * two keys are written; the document stays under its key unless that key is
   * the metadata key itself, and the metadata record is stamped with `now`.
   */
  function SaveSessionData(store: Store, env: Env, key: string, data: Doc, sessionId: Option<string>, now: int): (r: (Store, Env))
    ensures var (k, env1) := GetSessionKey(key, sessionId, env);
      var (id, env2) := ResolveId(sessionId, env1);
      var m := MetadataBase + "_" + id;
      && r.1 == env2
      && r.0.Keys == store.Keys + {k, m}
      && (forall o :: o in store && o != k && o != m ==> r.0[o] == store[o])
      && (k != m ==> r.0[k] == Json(data))
      && r.0[m].Json? && r.0[m].doc.JSession?
      && r.0[m].doc.meta.sessionId == id && r.0[m].doc.meta.lastUpdated == now
  {
    var (k, env1) := GetSessionKey(key, sessionId, env);
    UpdateSessionMetadata(store[k := Json(data)], env1, sessionId, now)
  }

  /**
   * Loading after saving, for the same key and session, returns the document
   * saved: with an explicit id, or in a window where the context the save left
   * resolves to the same id. The metadata key itself is excluded, since the
   * metadata refresh overwrites it.
   */
  lemma SaveThenLoad(store: Store, env: Env, key: string, data: Doc, sessionId: Option<string>, now: int, default: Doc)
    requires Truthy(sessionId) || env.hasWindow
    requires key != MetadataBase
    ensures var (store1, env1) := SaveSessionData(store, env, key, data, sessionId, now);
      LoadSessionData(store1, env1, key, default, sessionId).0 == data
  {
    var (k, env1) := GetSessionKey(key, sessionId, env);
    var id := ResolveId(sessionId, env).0;
    if !Truthy(sessionId) {
      CurrentSessionIdStable(env);
    }
    var m := MetadataBase + "_" + id;
    if |key| == |MetadataBase| {
      assert k[..|key|] == key && m[..|key|] == MetadataBase;
    }
    assert k != m;
    var (store2, env2) := UpdateSessionMetadata(store[k := Json(data)], env1, sessionId, now);
    assert store2[k] == Json(data);
    assert GetSessionKey(key, sessionId, env2).0 == k;
  }

  /** Without an entry, or with one that is empty or does not parse, loading yields the default. */
  lemma LoadDefault(store: Store, env: Env, key: string, default: Doc, id: string)
    requires id != ""
    requires key + "_" + id !in store || !store[key + "_" + id].Json?
    ensures LoadSessionData(store, env, key, default, Some(id)) == (default, env)
  {
  }

  /** Values of another session or another base key are untouched by a save. */
  lemma SaveKeepsOtherKeys(store: Store, env: Env, key: string, data: Doc, id: string, now: int, other: string)
    requires id != ""
    requires other in store && other != key + "_" + id && other != MetadataBase + "_" + id
    ensures var (store1, env1) := SaveSessionData(store, env, key, data, Some(id), now);
      other in store1 && store1[other] == store[other] && env1 == env
  {
  }

  /** `deleteSession`: every key containing "_" followed by the id is removed; all others stay. */
  function DeleteSession(store: Store, sessionId: string): (r: Store)
    ensures forall k :: k in r <==> k in store && !Contains(k, "_" + sessionId)
    ensures forall k :: k in r ==> r[k] == store[k]
  {
    map k | k in store && !Contains(k, "_" + sessionId) :: store[k]
  }

  /** Anything ending in "_" and the id contains it. */
  lemma SuffixContained(base: string, id: string)
    ensures Contains(base + "_" + id, "_" + id)
  {
    var k := base + "_" + id;
    assert OccursAt(k, "_" + id, |base|) by {
      assert k[|base|..|base| + |"_" + id|] == "_" + id;
    }
  }

  /** After deleting a session, each of its values loads as the default. */
  lemma DeletedSessionLoadsDefault(store: Store, env: Env, key: string, default: Doc, id: string)
    requires id != ""
    ensures LoadSessionData(DeleteSession(store, id), env, key, default, Some(id)) == (default, env)
  {
    SuffixContained(key, id);
  }

  /** Sessions are ordered most recently updated first. */
  predicate SortedByRecency(s: seq<SessionData>) {
    forall i, j :: 0 <= i < j < |s| ==> s[i].lastUpdated >= s[j].lastUpdated
  }

  /** Inserts a session after every one updated at the same time or later, keeping ties in arrival order. */
  function InsertByRecency(x: SessionData, s: seq<SessionData>): (r: seq<SessionData>)
    ensures multiset(r) == multiset(s) + multiset{x}
    ensures |r| == |s| + 1
  {
    if |s| == 0 then [x]
    else if s[0].lastUpdated >= x.lastUpdated then
      assert s == [s[0]] + s[1..];
      [s[0]] + InsertByRecency(x, s[1..])
    else
      [x] + s
  }

  /** Insertion into a list sorted most recent first keeps it sorted. */
  lemma {:induction false} InsertKeepsSorted(x: SessionData, s: seq<SessionData>)
    requires SortedByRecency(s)
    ensures SortedByRecency(InsertByRecency(x, s))
  {
    if |s| > 0 && s[0].lastUpdated >= x.lastUpdated {
      var rest := InsertByRecency(x, s[1..]);
      InsertKeepsSorted(x, s[1..]);
      forall j | 0 <= j < |rest|
        ensures s[0].lastUpdated >= rest[j].lastUpdated
      {
        assert rest[j] in multiset(rest);
        assert rest[j] in multiset(s[1..]) || rest[j] == x;
      }
    }
  }

  /** `sort((a, b) => b.lastUpdated - a.lastUpdated)`: a stable sort, most recent first. */
  function SortByRecency(s: seq<SessionData>): (r: seq<SessionData>)
    ensures multiset(r) == multiset(s) && |r| == |s|
    ensures SortedByRecency(r)
  {
    if |s| == 0 then []
    else
      assert s == s[..|s| - 1] + [s[|s| - 1]];
      var sorted := SortByRecency(s[..|s| - 1]);
      InsertKeepsSorted(s[|s| - 1], sorted);
      InsertByRecency(s[|s| - 1], sorted)
  }

  /** The scan's outcome: the sessions collected, and whether a metadata entry failed to parse. */
  datatype Scan = Scan(sessions: seq<SessionData>, aborted: bool)

  /** A key the scan looks at: its value is read when the key holds the metadata marker. */
  predicate IsMetadataKey(k: string) {
    Contains(k, MetadataMarker)
  }

  /** A metadata key whose value does not parse: reading it ends the scan. */
  predicate FailsToParse(store: Store, k: string) {
    IsMetadataKey(k) && k in store && store[k] == Garbage
  }

  /** A metadata key holding a session record. */
  predicate HoldsSession(store: Store, k: string) {
    IsMetadataKey(k) && k in store && store[k].Json? && store[k].doc.JSession?
  }

  /** No key before position `i` of the storage order holds an unparsable metadata value. */
  predicate ParsesBefore(store: Store, order: seq<string>, i: int) {
    forall j :: 0 <= j < i && j < |order| ==> !FailsToParse(store, order[j])
  }

  /**
   * The loop of `getActiveSessions` over the keys in storage order: metadata
   * entries are parsed and collected in order; empty ones are skipped; the first
   * that does not parse ends the scan.
   */
  function ScanSessions(store: Store, order: seq<string>): (r: Scan)
    ensures forall x :: x in r.sessions ==>
      exists k :: k in order && IsMetadataKey(k) && k in store && store[k] == Json(JSession(x))
    ensures (forall k :: k in order && IsMetadataKey(k) && k in store ==> store[k] != Garbage) ==> !r.aborted
    ensures forall i :: 0 <= i < |order| && HoldsSession(store, order[i]) && ParsesBefore(store, order, i) ==>
      store[order[i]].doc.meta in r.sessions
  {
    if |order| == 0 then Scan([], false)
    else
      var k := order[0];
      var rest := ScanSessions(store, order[1..]);
      if IsMetadataKey(k) && k in store then
        match store[k]
        case Blank => rest
        case Garbage => Scan([], true)
        case Json(doc) =>
          if doc.JSession? then Scan([doc.meta] + rest.sessions, rest.aborted) else rest
      else rest
  }

  /**
   * `getActiveSessions`: when every metadata entry parses, the collected
   * sessions most recent first; a failing entry cuts the scan short and the
   * sessions collected before it are returned unsorted.
   */
  function GetActiveSessions(store: Store, order: seq<string>): (r: seq<SessionData>)
    ensures forall x :: x in r ==>
      exists k :: k in order && IsMetadataKey(k) && k in store && store[k] == Json(JSession(x))
    ensures (forall k :: k in order && IsMetadataKey(k) && k in store ==> store[k] != Garbage) ==>
      SortedByRecency(r) && multiset(r) == multiset(ScanSessions(store, order).sessions)
    ensures forall i :: 0 <= i < |order| && HoldsSession(store, order[i]) && ParsesBefore(store, order, i) ==>
      store[order[i]].doc.meta in r
  {
    var scan := ScanSessions(store, order);
    if scan.aborted then scan.sessions
    else
      var r := SortByRecency(scan.sessions);
      assert forall x :: x in r <==> x in scan.sessions by {
        forall x
          ensures x in r <==> x in scan.sessions
        {
          assert x in r <==> x in multiset(r);
          assert x in scan.sessions <==> x in multiset(scan.sessions);
        }
      }
      r
  }

  /** The keys deleted for stale sessions among `ss`. */
  predicate Doomed(k: string, ss: seq<SessionData>, cutoff: int) {
    |ss| > 0 && ((ss[0].lastUpdated < cutoff && Contains(k, "_" + ss[0].sessionId)) || Doomed(k, ss[1..], cutoff))
  }

  /** The `forEach` of `cleanupOldSessions`: each stale session is deleted in turn. */
  function DeleteStale(store: Store, ss: seq<SessionData>, cutoff: int): Store {
    if |ss| == 0 then store
    else
      var store1 := if ss[0].lastUpdated < cutoff then DeleteSession(store, ss[0].sessionId) else store;
      DeleteStale(store1, ss[1..], cutoff)
  }

  /** Deleting stale sessions one by one removes exactly the keys of some stale session. */
  lemma {:induction false} DeleteStaleRemovesDoomed(store: Store, ss: seq<SessionData>, cutoff: int)
    ensures var r := DeleteStale(store, ss, cutoff);
      && (forall k :: k in r <==> k in store && !Doomed(k, ss, cutoff))
      && (forall k :: k in r ==> r[k] == store[k])
  {
    if |ss| > 0 {
      var store1 := if ss[0].lastUpdated < cutoff then DeleteSession(store, ss[0].sessionId) else store;
      DeleteStaleRemovesDoomed(store1, ss[1..], cutoff);
    }
  }

  /**
   * `cleanupOldSessions`: every session whose metadata was last updated more
   * than a day before `now` is deleted, and with it every key naming it.
   */
  function CleanupOldSessions(store: Store, order: seq<string>, now: int): (r: Store)
    ensures var ss := GetActiveSessions(store, order);
      && (forall k :: k in r <==> k in store && !Doomed(k, ss, now - DayMs))
      && (forall k :: k in r ==> r[k] == store[k])
  {
    var ss := GetActiveSessions(store, order);
    DeleteStaleRemovesDoomed(store, ss, now - DayMs);
    DeleteStale(store, ss, now - DayMs)
  }

  /** A key is removed by the clean-up only for a session older than the cutoff whose id it names. */
  lemma {:induction false} DoomedMeansStale(k: string, ss: seq<SessionData>, cutoff: int)
    requires Doomed(k, ss, cutoff)
    ensures exists i :: 0 <= i < |ss| && ss[i].lastUpdated < cutoff && Contains(k, "_" + ss[i].sessionId)
  {
    if !(ss[0].lastUpdated < cutoff && Contains(k, "_" + ss[0].sessionId)) {
      DoomedMeansStale(k, ss[1..], cutoff);
      var i :| 0 <= i < |ss[1..]| && ss[1..][i].lastUpdated < cutoff && Contains(k, "_" + ss[1..][i].sessionId);
      assert ss[i + 1] == ss[1..][i];
    }
  }

  /** A key naming a listed session older than the cutoff is among the doomed keys. */
  lemma {:induction false} StaleMemberDoomed(k: string, ss: seq<SessionData>, cutoff: int, x: SessionData)
    requires x in ss && x.lastUpdated < cutoff && Contains(k, "_" + x.sessionId)
    ensures Doomed(k, ss, cutoff)
  {
    if ss[0] != x {
      assert x in ss[1..];
      StaleMemberDoomed(k, ss[1..], cutoff, x);
    }
  }

  /**
   * The clean-up reaches every stale session: a key naming a session whose
   * record is stored under a metadata key, with no unparsable metadata
   * before it in storage order, is gone when that session was last updated
   * more than a day before `now`.
   */
  lemma StaleSessionCleanedUp(store: Store, order: seq<string>, now: int, i: int, k: string)
    requires 0 <= i < |order| && HoldsSession(store, order[i]) && ParsesBefore(store, order, i)
    requires store[order[i]].doc.meta.lastUpdated < now - DayMs
    requires Contains(k, "_" + store[order[i]].doc.meta.sessionId)
    ensures k !in CleanupOldSessions(store, order, now)
  {
    StaleMemberDoomed(k, GetActiveSessions(store, order), now - DayMs, store[order[i]].doc.meta);
  }

  /**
   * `createNewSession`: a fresh id is recorded in the tab storage and the
   * address. It needs a window: the tab storage does not exist without one.
   */
  function CreateNewSession(env: Env): (r: (string, Env))
    requires env.hasWindow
    ensures r.1.tabSession == Some(r.0) && r.1.urlSession == Some(r.0)
    ensures r.0 == FreshSessionId(env.generated) && r.1.generated == env.generated + 1
  {
    var id := FreshSessionId(env.generated);
    (id, env.(tabSession := Some(id), urlSession := Some(id), generated := env.generated + 1))
  }

  /** After a new session is created, it is the current session, whatever the address said before. */
  lemma NewSessionIsCurrent(env: Env)
    requires env.hasWindow
    ensures var (id, env1) := CreateNewSession(env);
      GetCurrentSessionId(env1) == (id, env1)
  {
  }
}
