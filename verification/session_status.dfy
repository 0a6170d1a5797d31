/**
 * The session list dialog (components/session-manager.tsx): the status badge
 * of each listed session, its colour, and the delete action that refuses to
 * delete the session the tab is working in.
 */
module SessionStatus {
  import opened Wrappers
  import opened Strings
  import opened TimerSync
  import opened SessionStore

  /**
   * JavaScript truthiness of a parsed document. With canonical text, the falsy
   * values besides `null` are exactly zero, `false` and the empty string.
   */
  predicate DocTruthy(d: Doc) {
    match d
    case JNull => false
    case JValue(text) => text !in {"0", "false", "\"\""}
    case _ => true
  }

  /**
   * `getSessionStatus`: "Not Started" without a timer state; then "Completed"
   * before "Running" before "Paused" (some item current) before "Ready". A
   * stored value that is not a timer snapshot has none of the fields, so its
   * current index is `undefined`, which is not `null`: it reads as "Paused".
   */
  function GetSessionStatus(session: SessionData): (r: string)
    ensures !DocTruthy(session.timerState) <==> r == "Not Started"
    ensures session.timerState.JTimer? ==>
      var t := session.timerState.snapshot;
      && (r == "Completed" <==> t.meetingCompleted)
      && (r == "Running" <==> !t.meetingCompleted && t.running)
      && (r == "Paused" <==> !t.meetingCompleted && !t.running && t.currentIndex.Some?)
      && (r == "Ready" <==> !t.meetingCompleted && !t.running && t.currentIndex.None?)
  {
    match session.timerState
    case JTimer(t) =>
      if t.meetingCompleted then "Completed"
      else if t.running then "Running"
      else if t.currentIndex.Some? then "Paused"
      else "Ready"
    case _ => if !DocTruthy(session.timerState) then "Not Started" else "Paused"
  }

  /** `getStatusColor`: a colour per named status, grey for anything else. */
  function GetStatusColor(status: string): string {
    if status == "Running" then "bg-green-500"
    else if status == "Paused" then "bg-yellow-500"
    else if status == "Completed" then "bg-blue-500"
    else if status == "Ready" then "bg-orange-500"
    else "bg-gray-500"
  }

  /**
   * The four statuses of a started session get four different colours, none of
   * them the grey that marks a session not started.
   */
  lemma StatusColorsDistinct(a: SessionData, b: SessionData)
    ensures GetStatusColor(GetSessionStatus(a)) == "bg-gray-500" <==> GetSessionStatus(a) == "Not Started"
    ensures GetSessionStatus(a) != GetSessionStatus(b) ==>
      GetStatusColor(GetSessionStatus(a)) != GetStatusColor(GetSessionStatus(b))
  {
  }

  /** The keys of `order` still in the store, in order: the storage's enumeration after a change. */
  function KeysStill(order: seq<string>, store: Store): (r: seq<string>)
    ensures forall k :: k in r <==> k in order && k in store
  {
    if |order| == 0 then []
    else (if order[0] in store then [order[0]] else []) + KeysStill(order[1..], store)
  }

  /**
   * The dialog's refresh: stale sessions are cleaned up, then the remaining
   * ones listed. Exactly the keys of stale listed sessions go; every listed
   * session is stored under a surviving metadata key, and when no surviving
   * metadata value fails to parse, every stored session is listed.
   */
  function RefreshSessions(store: Store, order: seq<string>, now: int): (r: (Store, seq<SessionData>))
    ensures forall k :: k in r.0 <==> k in store && !Doomed(k, GetActiveSessions(store, order), now - DayMs)
    ensures forall k :: k in r.0 ==> r.0[k] == store[k]
    ensures forall x :: x in r.1 ==> exists k :: k in order && IsMetadataKey(k) && k in r.0 && r.0[k] == Json(JSession(x))
    ensures (forall k :: k in r.0 ==> !FailsToParse(r.0, k)) ==>
      forall k :: k in order && HoldsSession(r.0, k) ==> r.0[k].doc.meta in r.1
  {
    var store1 := CleanupOldSessions(store, order, now);
    var ks := KeysStill(order, store1);
    var listed := GetActiveSessions(store1, ks);
    assert (forall k :: k in store1 ==> !FailsToParse(store1, k)) ==>
      forall k :: k in order && HoldsSession(store1, k) ==> store1[k].doc.meta in listed by {
      if forall k :: k in store1 ==> !FailsToParse(store1, k) {
        forall k | k in order && HoldsSession(store1, k)
          ensures store1[k].doc.meta in listed
        {
          assert k in ks;
          var i :| 0 <= i < |ks| && ks[i] == k;
          assert ParsesBefore(store1, ks, i);
        }
      }
    }
    (store1, listed)
  }

  /**
   * `handleDeleteSession`: refused for the session the tab is working in;
   * otherwise the session is deleted and the list refreshed.
   */
  function HandleDeleteSession(store: Store, order: seq<string>, sessionId: string,
                               currentSessionId: string, listed: seq<SessionData>, now: int): (r: (Store, seq<SessionData>))
    ensures sessionId == currentSessionId ==> r == (store, listed)
    ensures sessionId != currentSessionId ==>
      && (forall k :: k in r.0 ==> k in store && r.0[k] == store[k])
      && (forall k :: k in r.0 ==> !Contains(k, "_" + sessionId))
    ensures sessionId != currentSessionId ==>
      var store1 := DeleteSession(store, sessionId);
      var order1 := KeysStill(order, store1);
      && (forall k :: k in r.0 <==>
            k in store && !Contains(k, "_" + sessionId) && !Doomed(k, GetActiveSessions(store1, order1), now - DayMs))
      && r.1 == RefreshSessions(store1, order1, now).1
  {
    if sessionId == currentSessionId then (store, listed)
    else
      var store1 := DeleteSession(store, sessionId);
      RefreshSessions(store1, KeysStill(order, store1), now)
  }

  /** The current session survives a delete request for it, key for key. */
  lemma CurrentSessionNotDeleted(store: Store, order: seq<string>, current: string, listed: seq<SessionData>, now: int)
    ensures HandleDeleteSession(store, order, current, current, listed, now).0 == store
  {
  }
}
