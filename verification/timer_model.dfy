/**
 * The meeting timer's state (components/countdown-agenda.tsx): the current
 * item, the seconds left on it, the running flag, the meeting's elapsed total,
 * the overtime indicator, the per-item ledger and the end-of-meeting flags.
 * React's separate `useState` cells and refs are gathered into one immutable
 * record; `lastTickMs` is the tick reference timestamp and `lastCommand` the
 * key of the last pop-out command handled.
 */
module TimerModel {
  import opened Wrappers
  import opened AgendaTypes

  datatype TimerState = TimerState(
    agenda: seq<AgendaItem>,
    currentIndex: Option<nat>,
    timeLeft: int,
    running: bool,
    totalElapsed: int,
    isOvertime: bool,
    overtimeSeconds: int,
    ledger: seq<ItemTimeData>,
    meetingCompleted: bool,
    showEndMeetingDialog: bool,
    showManualEndButton: bool,
    showSummary: bool,
    lastTickMs: int,
    lastCommand: Option<string>)

  /**
   * The state right after the view mounts with `agenda`: nothing started, and
   * the ledger already filled by the effect that aligns it with the agenda.
   */
  function Initial(agenda: seq<AgendaItem>, now: int): TimerState {
    TimerState(agenda, None, 0, false, 0, false, 0, FreshLedger(agenda),
               false, false, false, false, now, None)
  }

  /** A meeting is in progress: some item is current. */
  predicate Active(s: TimerState) {
    s.currentIndex.Some?
  }

  /** The current index, when there is one, names an agenda item. */
  predicate IndexInRange(s: TimerState) {
    s.currentIndex.Some? ==> s.currentIndex.value < |s.agenda|
  }

  /** Every ledger entry plans exactly its agenda item's minutes. */
  predicate PlannedAgrees(s: TimerState) {
    |s.ledger| == |s.agenda|
    && forall i :: 0 <= i < |s.ledger| ==> s.ledger[i].plannedDuration == PlannedSeconds(s.agenda[i])
  }

  /** A ledger entry nobody has timed yet. */
  predicate Untouched(r: ItemTimeData) {
    r.actualDuration == 0 && r.overTime == 0 && !r.completed
  }

  /** The items after the current one have not been timed. */
  predicate FutureUntouched(s: TimerState) {
    s.currentIndex.Some? ==>
      forall j :: s.currentIndex.value < j < |s.ledger| ==> Untouched(s.ledger[j])
  }

  /**
   * The invariant every reachable state keeps: a valid agenda with an aligned
   * ledger of consistent entries, an index in range, no negative time left or
   * overtime, and during a meeting a ledger that plans the agenda's minutes and
   * has not timed the items still to come.
   */
  predicate Valid(s: TimerState) {
    && ValidAgenda(s.agenda)
    && |s.ledger| == |s.agenda|
    && IndexInRange(s)
    && s.timeLeft >= 0
    && s.overtimeSeconds >= 0
    && (forall i :: 0 <= i < |s.ledger| ==> ConsistentRecord(s.ledger[i]))
    && (Active(s) ==> PlannedAgrees(s))
    && FutureUntouched(s)
  }

  /**
   * The countdown agrees with the ledger for the current item: the time left is
   * what the plan leaves after the actual time, the overtime indicator is up
   * exactly when no time is left, and the overtime counter is the actual time
   * beyond the plan.
   */
  predicate Synced(s: TimerState) {
    && s.currentIndex.Some?
    && s.currentIndex.value < |s.ledger|
    && var r := s.ledger[s.currentIndex.value];
       && s.timeLeft == Max(0, r.plannedDuration - r.actualDuration)
       && (s.isOvertime <==> s.timeLeft == 0)
       && s.overtimeSeconds == Max(0, r.actualDuration - r.plannedDuration)
  }

  /** The ledgers agree everywhere except possibly at index `i`. */
  predicate SameExcept(a: seq<ItemTimeData>, b: seq<ItemTimeData>, i: int) {
    |a| == |b| && forall j :: 0 <= j < |a| && j != i ==> a[j] == b[j]
  }

  /** The mounted state satisfies the invariant. */
  lemma InitialValid(agenda: seq<AgendaItem>, now: int)
    requires ValidAgenda(agenda)
    ensures Valid(Initial(agenda, now))
  {
  }
}
