/**
 * What the timer's transitions keep: the state invariant across every user
 * action and tick, the countdown/ledger agreement across ticks, and the
 * accounting of a run of one-second ticks.
 */
module TimerInvariants {
  import opened Wrappers
  import opened AgendaTypes
  import opened TimerModel
  import opened TimerEngine

  /** A tick keeps the state invariant. */
  lemma TickPreservesValid(s: TimerState, now: int)
    requires Valid(s) && s.running && s.currentIndex.Some?
    ensures Valid(Tick(s, now))
  {
    var r := Tick(s, now);
    var i := s.currentIndex.value;
    var e := ElapsedSeconds(s.lastTickMs, now);
    if e > 0 {
      var rec := s.ledger[i];
      assert ConsistentRecord(rec);
      assert r.ledger[i] == Accrue(rec, e);
      CurrentRecordUpdateKeepsValid(s, r);
    }
  }

  /**
   * A change to the current item's record alone keeps the invariant when the
   * new record is consistent and plans the same time, and the counters stay
   * non-negative.
   */
  lemma CurrentRecordUpdateKeepsValid(s: TimerState, r: TimerState)
    requires Valid(s) && s.currentIndex.Some?
    requires r.agenda == s.agenda && r.currentIndex == s.currentIndex
    requires SameExcept(r.ledger, s.ledger, s.currentIndex.value)
    requires ConsistentRecord(r.ledger[s.currentIndex.value])
    requires r.ledger[s.currentIndex.value].plannedDuration == s.ledger[s.currentIndex.value].plannedDuration
    requires r.timeLeft >= 0 && r.overtimeSeconds >= 0
    ensures Valid(r)
  {
    var i := s.currentIndex.value;
    assert forall j :: 0 <= j < |r.ledger| ==> ConsistentRecord(r.ledger[j]) by {
      forall j | 0 <= j < |r.ledger| ensures ConsistentRecord(r.ledger[j]) {
        if j != i { assert r.ledger[j] == s.ledger[j]; }
      }
    }
    assert PlannedAgrees(r) by {
      forall j | 0 <= j < |r.ledger| ensures r.ledger[j].plannedDuration == PlannedSeconds(r.agenda[j]) {
        if j != i { assert r.ledger[j] == s.ledger[j]; }
      }
    }
  }

  /**
   * A tick keeps the countdown in step with the current record: from a synced
   * state the time left stays the plan minus the actual time (floored at zero),
   * the indicator stays up exactly when no time is left, and the counter stays
   * the actual time beyond the plan.
   */
  lemma TickPreservesSynced(s: TimerState, now: int)
    requires Valid(s) && Synced(s) && s.running
    ensures Synced(Tick(s, now))
  {
    var r := Tick(s, now);
    var i := s.currentIndex.value;
    var e := ElapsedSeconds(s.lastTickMs, now);
    if e > 0 {
      var rec := s.ledger[i];
      var c := CountDown(s.(lastTickMs := now, totalElapsed := s.totalElapsed + e), e);
      var a := AccrueCurrent(c, e);
      assert r.timeLeft == c.timeLeft && r.isOvertime == a.isOvertime && r.overtimeSeconds == a.overtimeSeconds;
      assert r.ledger[i] == Accrue(rec, e);
      if rec.actualDuration + e > rec.plannedDuration {
        assert r.timeLeft == 0 && r.isOvertime;
      } else {
        assert r.timeLeft == rec.plannedDuration - rec.actualDuration - e;
      }
    }
  }

  /**
   * Moving on keeps the state invariant, and when a next item becomes current
   * its countdown starts in step with its untouched record.
   */
  lemma SkipToNextPreservesValid(s: TimerState, now: int)
    requires Valid(s)
    ensures Valid(SkipToNext(s, now))
    ensures s.currentIndex.Some? && s.currentIndex.value < |s.agenda| - 1 ==> Synced(SkipToNext(s, now))
  {
    if s.currentIndex.Some? {
      var i := s.currentIndex.value;
      var r := SkipToNext(s, now);
      var l := MarkCompleted(s.ledger, i);
      assert r.ledger == l && r.agenda == s.agenda;
      assert forall j :: 0 <= j < |l| ==> ConsistentRecord(l[j]);
      if i < |s.agenda| - 1 {
        assert PlannedAgrees(r);
        assert forall j :: i < j < |l| ==> l[j] == s.ledger[j];
        assert FutureUntouched(r);
      } else {
        assert r.currentIndex.None?;
      }
    }
  }

  /** A state whose ledger has just been re-created from its agenda keeps the invariant. */
  lemma FreshLedgerValid(t: TimerState)
    requires ValidAgenda(t.agenda) && IndexInRange(t) && t.timeLeft >= 0 && t.overtimeSeconds >= 0
    ensures Valid(t.(ledger := FreshLedger(t.agenda)))
  {
  }

  /** The settings handler keeps the scalar parts of the invariant. */
  lemma HandleSettingsChangeScalars(s: TimerState, newAgenda: seq<AgendaItem>)
    requires Valid(s) && ValidAgenda(newAgenda)
    ensures var h := HandleSettingsChange(s, newAgenda);
      IndexInRange(h) && h.timeLeft >= 0 && h.overtimeSeconds >= 0
      && |h.ledger| == |s.ledger|
      && (Active(h) ==> h.currentIndex == s.currentIndex)
  {
  }

  /**
   * After the handler, with the ledger still as long as the new agenda,
   * re-planning gives entries that plan the new minutes, stay consistent and
   * leave the items to come untimed.
   */
  lemma ReplanKeepsLedger(s: TimerState, newAgenda: seq<AgendaItem>)
    requires Valid(s) && ValidAgenda(newAgenda) && |s.ledger| == |newAgenda|
    requires Active(HandleSettingsChange(s, newAgenda))
    ensures var r := ReplanLedger(HandleSettingsChange(s, newAgenda));
      && PlannedAgrees(r)
      && (forall j :: 0 <= j < |r.ledger| ==> ConsistentRecord(r.ledger[j]))
      && FutureUntouched(r)
  {
    var h := HandleSettingsChange(s, newAgenda);
    var r := ReplanLedger(h);
    var i := s.currentIndex.value;
    assert h.currentIndex == s.currentIndex;
    forall j | 0 <= j < |r.ledger|
      ensures ConsistentRecord(r.ledger[j])
    {
      assert r.ledger[j].actualDuration == h.ledger[j].actualDuration;
      if j != i {
        assert h.ledger[j] == s.ledger[j];
      }
    }
    forall j | i < j < |r.ledger|
      ensures Untouched(r.ledger[j])
    {
      assert h.ledger[j] == s.ledger[j];
      assert Untouched(s.ledger[j]);
    }
  }

  /** The corrected agenda edit keeps the state invariant. */
  lemma EditAgendaPreservesValid(s: TimerState, newAgenda: seq<AgendaItem>)
    requires Valid(s) && ValidAgenda(newAgenda)
    ensures Valid(EditAgenda(s, newAgenda))
  {
    var h := HandleSettingsChange(s, newAgenda);
    HandleSettingsChangeScalars(s, newAgenda);
    var p := ReplanLedger(h);
    if |p.ledger| != |p.agenda| {
      FreshLedgerValid(p);
    } else if Active(h) {
      ReplanKeepsLedger(s, newAgenda);
    } else {
      assert p == h;
      forall j | 0 <= j < |h.ledger|
        ensures ConsistentRecord(h.ledger[j])
      {
        assert h.ledger[j] == s.ledger[j];
      }
    }
  }

  /** Everything the user, the interval or the pop-out can do to the timer. */
  datatype Action =
    | StartAction(now: int)
    | TickAction(now: int)
    | ToggleAction(now: int)
    | NextAction(now: int)
    | PreviousAction(now: int)
    | ResetAction
    | DecideAction(endMeeting: bool)
    | ManualEndAction
    | ScrubAction(target: int)
    | EditAction(agenda: seq<AgendaItem>)

  /** An edit only ever delivers an agenda the timer accepts. */
  predicate WellFormed(a: Action) {
    a.EditAction? ==> ValidAgenda(a.agenda)
  }

  /**
   * A scrub keeps the invariant and leaves the countdown in step with the
   * current record: the time left is the plan minus the actual time and the
   * indicator is up exactly at zero.
   */
  lemma ScrubPreservesValid(s: TimerState, t: int)
    requires Valid(s) && s.currentIndex.Some?
    requires 0 <= t <= PlannedSeconds(s.agenda[s.currentIndex.value])
    ensures Valid(Scrub(s, t)) && Synced(Scrub(s, t))
  {
    var r := Scrub(s, t);
    var i := s.currentIndex.value;
    assert r.ledger[i].plannedDuration == PlannedSeconds(s.agenda[i]);
    assert ConsistentRecord(r.ledger[i]);
  }

  /**
   * One action on a valid state. The interval fires only while running on an
   * item; a scrub target is clamped to the current item's span as the mouse
   * fraction is clamped to [0, 1]. An agenda edit goes through the corrected
   * `EditAgenda`: the edit as written does not keep the invariant (see
   * `TimerFindings`).
   */
  function Apply(s: TimerState, a: Action): (r: TimerState)
    requires Valid(s) && WellFormed(a)
    ensures Valid(r)
  {
    match a
    case StartAction(now) => Start(s, now)
    case TickAction(now) =>
      if s.running && s.currentIndex.Some? then
        TickPreservesValid(s, now);
        Tick(s, now)
      else s
    case ToggleAction(now) => TogglePauseResume(s, now)
    case NextAction(now) =>
      SkipToNextPreservesValid(s, now);
      SkipToNext(s, now)
    case PreviousAction(now) => SkipToPrevious(s, now)
    case ResetAction => Reset(s)
    case DecideAction(endMeeting) => Decide(s, endMeeting)
    case ManualEndAction => ManualEnd(s)
    case ScrubAction(target) =>
      if s.currentIndex.None? then s
      else
        var planned := PlannedSeconds(s.agenda[s.currentIndex.value]);
        var t := if target < 0 then 0 else if target > planned then planned else target;
        ScrubPreservesValid(s, t);
        Scrub(s, t)
    case EditAction(agenda) =>
      EditAgendaPreservesValid(s, agenda);
      EditAgenda(s, agenda)
  }

  /** A sequence of actions applied in order. */
  function Run(s: TimerState, actions: seq<Action>): TimerState
    requires Valid(s)
    requires forall k :: 0 <= k < |actions| ==> WellFormed(actions[k])
    decreases |actions|
  {
    if |actions| == 0 then s else Run(Apply(s, actions[0]), actions[1..])
  }

  /**
   * Starting from the mounted state, no sequence of actions ever leaves the
   * invariant: time left and overtime never go negative, every ledger entry
   * stays consistent, the index stays in range.
   */
  lemma {:induction false} RunPreservesValid(s: TimerState, actions: seq<Action>)
    requires Valid(s)
    requires forall k :: 0 <= k < |actions| ==> WellFormed(actions[k])
    ensures Valid(Run(s, actions))
    decreases |actions|
  {
    if |actions| > 0 {
      RunPreservesValid(Apply(s, actions[0]), actions[1..]);
    }
  }

  /** The interval body, which does nothing unless the timer runs on some item. */
  function TickIfRunning(s: TimerState, now: int): TimerState {
    if s.running && s.currentIndex.Some? then Tick(s, now) else s
  }

  /** `n` interval firings one second apart, the first one second after `t0`. */
  function TickEverySecond(s: TimerState, t0: int, n: nat): TimerState
    decreases n
  {
    if n == 0 then s else TickIfRunning(TickEverySecond(s, t0, n - 1), t0 + 1000 * n)
  }

  /**
   * One more second on a synced first item: the actual time, the total and
   * the countdown move by exactly one second.
   */
  lemma OneSecondOnFirstItem(p: TimerState, now: int)
    requires Valid(p) && Synced(p) && p.running && p.currentIndex == Some(0)
    requires now == p.lastTickMs + 1000
    ensures var q := TickIfRunning(p, now);
      && Valid(q) && Synced(q) && q.running && q.currentIndex == Some(0) && q.lastTickMs == now
      && q.ledger[0].actualDuration == p.ledger[0].actualDuration + 1
      && q.totalElapsed == p.totalElapsed + 1
      && q.ledger[0].plannedDuration == p.ledger[0].plannedDuration
      && q.agenda == p.agenda
  {
    assert ElapsedSeconds(p.lastTickMs, now) == 1;
    TickPreservesValid(p, now);
    TickPreservesSynced(p, now);
  }

  /**
   * The state `n` seconds into the first item of a meeting started at `t0`:
   * valid and in step, running on the first item, ticked last at `t0 + 1000 n`,
   * with `n` seconds accrued to the item and to the meeting total.
   */
  predicate FirstItemAfter(p: TimerState, s: TimerState, t0: int, n: nat)
    requires ValidAgenda(s.agenda)
  {
    && Valid(p) && Synced(p) && p.running && p.currentIndex == Some(0)
    && p.lastTickMs == t0 + 1000 * n
    && p.agenda == s.agenda
    && p.ledger[0].plannedDuration == PlannedSeconds(s.agenda[0])
    && p.ledger[0].actualDuration == n
    && p.totalElapsed == n
  }

  /** Right after `startAgenda`, no time has accrued to the first item. */
  lemma FirstItemAtStart(s: TimerState, t0: int)
    requires ValidAgenda(s.agenda)
    ensures FirstItemAfter(TickEverySecond(Start(s, t0), t0, 0), s, t0, 0)
  {
    var p0 := Start(s, t0);
    assert TickEverySecond(p0, t0, 0) == p0;
    assert Untouched(p0.ledger[0]);
  }

  /** One more interval firing a second later moves the first item on by one second. */
  lemma FirstItemOneMore(p: TimerState, s: TimerState, t0: int, n: nat)
    requires ValidAgenda(s.agenda) && n >= 1 && FirstItemAfter(p, s, t0, n - 1)
    ensures FirstItemAfter(TickIfRunning(p, t0 + 1000 * n), s, t0, n)
  {
    OneSecondOnFirstItem(p, t0 + 1000 * n);
  }

  /**
   * After `startAgenda` at `t0` and `n` one-second ticks on the first item,
   * the item's actual time and the meeting total are both `n`, with the
   * countdown still in step with the record.
   */
  lemma {:induction false} TicksFromStartAccrue(s: TimerState, t0: int, n: nat)
    requires ValidAgenda(s.agenda)
    ensures FirstItemAfter(TickEverySecond(Start(s, t0), t0, n), s, t0, n)
    decreases n
  {
    var p0 := Start(s, t0);
    if n == 0 {
      FirstItemAtStart(s, t0);
    } else {
      var q := TickEverySecond(p0, t0, n - 1);
      TicksFromStartAccrue(s, t0, n - 1);
      FirstItemOneMore(q, s, t0, n);
      assert TickEverySecond(p0, t0, n) == TickIfRunning(q, t0 + 1000 * n);
    }
  }

  /**
   * After `startAgenda` and `n` one-second ticks on the first item with planned
   * length P, the countdown shows max(0, P - n) and the overtime indicator is up
   * exactly when n >= P, with counter max(0, n - P).
   */
  lemma TicksFromStart(s: TimerState, t0: int, n: nat)
    requires ValidAgenda(s.agenda)
    ensures var p := TickEverySecond(Start(s, t0), t0, n);
      var planned := PlannedSeconds(s.agenda[0]);
      && |p.ledger| >= 1
      && p.ledger[0].actualDuration == n
      && p.totalElapsed == n
      && p.timeLeft == Max(0, planned - n)
      && (p.isOvertime <==> n >= planned)
      && p.overtimeSeconds == Max(0, n - planned)
  {
    TicksFromStartAccrue(s, t0, n);
  }

  /** Pausing then resuming leaves the total untouched and restarts the tick clock at the resume. */
  lemma PauseResumeKeepsTotal(s: TimerState, pauseAt: int, resumeAt: int)
    requires s.running
    ensures var r := TogglePauseResume(TogglePauseResume(s, pauseAt), resumeAt);
      r.running && r.totalElapsed == s.totalElapsed && r.lastTickMs == resumeAt
      && r.ledger == s.ledger && r.timeLeft == s.timeLeft
  {
  }
}
