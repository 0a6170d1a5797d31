/**
 * The timer's transitions (components/countdown-agenda.tsx), each a pure
 * function from one state to the next. `now` is the wall-clock time in
 * milliseconds that the source reads with `Date.now()`.
 */
module TimerEngine {
  import opened Wrappers
  import opened AgendaTypes
  import opened TimerModel

  /** `startAgenda`: a fresh ledger, the first item current with its full time, running. */
  function Start(s: TimerState, now: int): (r: TimerState)
    requires |s.agenda| >= 1
    ensures r.currentIndex == Some(0) && r.running && r.totalElapsed == 0
    ensures r.timeLeft == PlannedSeconds(s.agenda[0]) && !r.isOvertime && r.overtimeSeconds == 0
    ensures |r.ledger| == |s.agenda|
    ensures forall i :: 0 <= i < |r.ledger| ==>
              Untouched(r.ledger[i]) && r.ledger[i].plannedDuration == PlannedSeconds(s.agenda[i])
    ensures !r.meetingCompleted && !r.showEndMeetingDialog && !r.showManualEndButton
    ensures r.agenda == s.agenda && r.lastTickMs == now
    ensures ValidAgenda(s.agenda) ==> Valid(r) && Synced(r)
  {
    s.(lastTickMs := now,
       ledger := FreshLedger(s.agenda),
       currentIndex := Some(0),
       timeLeft := PlannedSeconds(s.agenda[0]),
       running := true,
       totalElapsed := 0,
       isOvertime := false,
       overtimeSeconds := 0,
       meetingCompleted := false,
       showEndMeetingDialog := false,
       showManualEndButton := false)
  }

  /** Whole seconds between the tick reference and `now`: `Math.floor((now - last) / 1000)`. */
  function ElapsedSeconds(lastTickMs: int, now: int): (e: int)
    ensures e * 1000 <= now - lastTickMs < e * 1000 + 1000
  {
    (now - lastTickMs) / 1000
  }

  /**
   * The record of the current item after `elapsed` more seconds: the actual
   * time grows and, once past the plan, the overtime follows it.
   */
  function Accrue(rec: ItemTimeData, elapsed: int): ItemTimeData {
    var actual := rec.actualDuration + elapsed;
    if actual > rec.plannedDuration then rec.(actualDuration := actual, overTime := actual - rec.plannedDuration)
    else rec.(actualDuration := actual)
  }

  /**
   * The countdown half of a tick: a countdown still above zero drops by the
   * elapsed seconds, floored at zero, and reaching zero raises the overtime
   * indicator with a zero counter unless it was already up.
   */
  function CountDown(s: TimerState, elapsed: int): (r: TimerState)
    requires elapsed > 0
    ensures r == s.(timeLeft := r.timeLeft, isOvertime := r.isOvertime, overtimeSeconds := r.overtimeSeconds)
    ensures s.timeLeft > 0 ==> r.timeLeft == Max(0, s.timeLeft - elapsed)
    ensures s.timeLeft <= 0 ==> r.timeLeft == s.timeLeft
    ensures r.isOvertime == (s.isOvertime || (s.timeLeft > 0 && r.timeLeft == 0))
    ensures r.overtimeSeconds == (if !s.isOvertime && s.timeLeft > 0 && r.timeLeft == 0 then 0 else s.overtimeSeconds)
  {
    if s.timeLeft > 0 then
      var newTimeLeft := Max(0, s.timeLeft - elapsed);
      if newTimeLeft == 0 && !s.isOvertime then s.(timeLeft := 0, isOvertime := true, overtimeSeconds := 0)
      else s.(timeLeft := newTimeLeft)
    else s
  }

  /**
   * The ledger half of a tick (the `setItemTimeData` updater): the current
   * record accrues the elapsed seconds, and a record past its plan sets the
   * overtime indicator and counter.
   */
  function AccrueCurrent(s: TimerState, elapsed: int): (r: TimerState)
    requires s.currentIndex.Some?
    ensures r == s.(ledger := r.ledger, isOvertime := r.isOvertime, overtimeSeconds := r.overtimeSeconds)
    ensures SameExcept(r.ledger, s.ledger, s.currentIndex.value)
    ensures s.currentIndex.value < |s.ledger| ==>
      var rec := Accrue(s.ledger[s.currentIndex.value], elapsed);
      && r.ledger[s.currentIndex.value] == rec
      && (rec.actualDuration > rec.plannedDuration ==>
            r.isOvertime && r.overtimeSeconds == rec.actualDuration - rec.plannedDuration)
      && (rec.actualDuration <= rec.plannedDuration ==>
            r.isOvertime == s.isOvertime && r.overtimeSeconds == s.overtimeSeconds)
    ensures s.currentIndex.value >= |s.ledger| ==> r == s
  {
    var i := s.currentIndex.value;
    if i < |s.ledger| then
      var rec := Accrue(s.ledger[i], elapsed);
      var s1 := s.(ledger := s.ledger[i := rec]);
      if rec.actualDuration > rec.plannedDuration then
        s1.(isOvertime := true, overtimeSeconds := rec.actualDuration - rec.plannedDuration)
      else s1
    else s
  }

  /**
   * One firing of the one-second interval, which only runs while the timer is
   * running on some item. The elapsed whole seconds since the last tick are
   * added to the meeting total and to the current record; the countdown drops
   * by them, floored at zero; reaching zero, or the record passing its plan,
   * raises the overtime indicator. The reference timestamp moves to `now` even
   * when less than a second has passed.
   *
   * Both halves may set the overtime counter on one tick; the ledger updater
   * runs while React renders, after the countdown half's updates are queued, so
   * its value is the one kept.
   */
  function Tick(s: TimerState, now: int): (r: TimerState)
    requires s.running && s.currentIndex.Some?
    ensures SameExcept(r.ledger, s.ledger, s.currentIndex.value)
    ensures var e := ElapsedSeconds(s.lastTickMs, now);
      && r.lastTickMs == now
      && (e <= 0 ==> r == s.(lastTickMs := now))
      && (e > 0 ==> r.totalElapsed == s.totalElapsed + e)
      && (e > 0 ==> r.timeLeft == (if s.timeLeft > 0 then Max(0, s.timeLeft - e) else s.timeLeft))
      && (e > 0 && s.currentIndex.value < |s.ledger| ==>
            r.ledger[s.currentIndex.value].actualDuration == s.ledger[s.currentIndex.value].actualDuration + e)
    ensures s.currentIndex.value < |s.ledger| ==>
      && r.ledger[s.currentIndex.value].plannedDuration == s.ledger[s.currentIndex.value].plannedDuration
      && r.ledger[s.currentIndex.value].completed == s.ledger[s.currentIndex.value].completed
    ensures r.currentIndex == s.currentIndex && r.running && r.agenda == s.agenda
    ensures r.meetingCompleted == s.meetingCompleted && r.showEndMeetingDialog == s.showEndMeetingDialog
    ensures r.showManualEndButton == s.showManualEndButton && r.lastCommand == s.lastCommand
    ensures s.timeLeft >= 0 ==> r.timeLeft >= 0
    ensures s.isOvertime ==> r.isOvertime
    ensures s.timeLeft > 0 && r.timeLeft == 0 ==> r.isOvertime
  {
    var elapsed := ElapsedSeconds(s.lastTickMs, now);
    if elapsed <= 0 then s.(lastTickMs := now)
    else AccrueCurrent(CountDown(s.(lastTickMs := now, totalElapsed := s.totalElapsed + elapsed), elapsed), elapsed)
  }

  /** `togglePauseResume`: flips `running`; resuming moves the tick reference to `now`. */
  function TogglePauseResume(s: TimerState, now: int): (r: TimerState)
    ensures r.running == !s.running
    ensures r.lastTickMs == (if s.running then s.lastTickMs else now)
    ensures r.(running := s.running, lastTickMs := s.lastTickMs) == s
    ensures Valid(s) ==> Valid(r)
  {
    s.(lastTickMs := if !s.running then now else s.lastTickMs, running := !s.running)
  }

  /** The ledger after `skipToNext` marks entry `i` completed; its times and plan stay as they were. */
  function MarkCompleted(ledger: seq<ItemTimeData>, i: nat): (r: seq<ItemTimeData>)
    ensures SameExcept(r, ledger, i)
    ensures i < |ledger| ==> r[i] == ledger[i].(completed := true)
    ensures forall j :: 0 <= j < |r| ==>
      r[j].plannedDuration == ledger[j].plannedDuration && (ConsistentRecord(ledger[j]) ==> ConsistentRecord(r[j]))
  {
    if i < |ledger| then ledger[i := ledger[i].(completed := true)] else ledger
  }

  /**
   * `skipToNext`: nothing without a current item. Otherwise the current record
   * is marked completed; after the last item the timer stops, no item is
   * current and the end-of-meeting question is raised; before it, the next item
   * becomes current with its full time and no overtime.
   */
  function SkipToNext(s: TimerState, now: int): (r: TimerState)
    requires IndexInRange(s)
    ensures s.currentIndex.None? ==> r == s
    ensures r.lastCommand == s.lastCommand
    ensures s.currentIndex.Some? ==>
      var i := s.currentIndex.value;
      && r.lastTickMs == now
      && SameExcept(r.ledger, s.ledger, i)
      && (i < |s.ledger| ==> r.ledger[i] == s.ledger[i].(completed := true))
      && r.totalElapsed == s.totalElapsed
      && r.agenda == s.agenda
      && r.meetingCompleted == s.meetingCompleted && r.showManualEndButton == s.showManualEndButton
      && (i == |s.agenda| - 1 ==>
            !r.running && r.currentIndex.None? && r.showEndMeetingDialog
            && r.timeLeft == s.timeLeft && r.isOvertime == s.isOvertime)
      && (i < |s.agenda| - 1 ==>
            r.currentIndex == Some(i + 1) && r.timeLeft == PlannedSeconds(s.agenda[i + 1])
            && !r.isOvertime && r.overtimeSeconds == 0
            && r.running == s.running && r.showEndMeetingDialog == s.showEndMeetingDialog)
  {
    if s.currentIndex.None? then s
    else
      var i := s.currentIndex.value;
      var s1 := s.(lastTickMs := now, ledger := MarkCompleted(s.ledger, i));
      if i == |s.agenda| - 1 then
        s1.(running := false, currentIndex := None, showEndMeetingDialog := true)
      else
        s1.(currentIndex := Some(i + 1), timeLeft := PlannedSeconds(s.agenda[i + 1]),
            isOvertime := false, overtimeSeconds := 0)
  }

  /**
   * `skipToPrevious`: nothing without a current item or on the first one.
   * Otherwise the record of the item being left is cleared (not completed, no
   * actual time, no overtime), the previous item becomes current with its full
   * time and no overtime, and its own record is left exactly as it was.
   */
  function SkipToPrevious(s: TimerState, now: int): (r: TimerState)
    requires IndexInRange(s)
    ensures s.currentIndex.None? || s.currentIndex == Some(0) ==> r == s
    ensures s.currentIndex.Some? && s.currentIndex.value > 0 ==>
      var i := s.currentIndex.value;
      && r.lastTickMs == now
      && SameExcept(r.ledger, s.ledger, i)
      && (i < |s.ledger| ==>
            r.ledger[i] == s.ledger[i].(completed := false, actualDuration := 0, overTime := 0))
      && r.currentIndex == Some(i - 1)
      && r.timeLeft == PlannedSeconds(s.agenda[i - 1])
      && !r.isOvertime && r.overtimeSeconds == 0
      && r.running == s.running && r.totalElapsed == s.totalElapsed && r.agenda == s.agenda
    ensures Valid(s) ==> Valid(r)
  {
    if s.currentIndex.None? || s.currentIndex.value == 0 then s
    else
      var i := s.currentIndex.value;
      var ledger := if i < |s.ledger| then
                      s.ledger[i := s.ledger[i].(completed := false, actualDuration := 0, overTime := 0)]
                    else s.ledger;
      s.(lastTickMs := now, ledger := ledger, currentIndex := Some(i - 1),
         timeLeft := PlannedSeconds(s.agenda[i - 1]), isOvertime := false, overtimeSeconds := 0)
  }

  /** `resetAgenda`: back to the not-started state with a fresh ledger and all end flags cleared. */
  function Reset(s: TimerState): (r: TimerState)
    ensures r.currentIndex.None? && r.timeLeft == 0 && !r.running && r.totalElapsed == 0
    ensures !r.isOvertime && r.overtimeSeconds == 0
    ensures !r.meetingCompleted && !r.showEndMeetingDialog && !r.showManualEndButton
    ensures |r.ledger| == |s.agenda|
    ensures forall i :: 0 <= i < |r.ledger| ==>
              Untouched(r.ledger[i]) && r.ledger[i].plannedDuration == PlannedSeconds(s.agenda[i])
    ensures r.agenda == s.agenda && r.lastTickMs == s.lastTickMs && r.lastCommand == s.lastCommand
    ensures ValidAgenda(s.agenda) ==> Valid(r)
  {
    s.(currentIndex := None, timeLeft := 0, running := false, totalElapsed := 0,
       isOvertime := false, overtimeSeconds := 0, meetingCompleted := false,
       showEndMeetingDialog := false, showManualEndButton := false,
       ledger := FreshLedger(s.agenda))
  }

  /**
   * `handleEndMeetingResponse`: the question is dismissed; "end" completes the
   * meeting, opens the summary and zeroes the elapsed total; "not yet" offers the
   * manual end button instead. The ledger is never touched.
   */
  function Decide(s: TimerState, endMeeting: bool): (r: TimerState)
    ensures !r.showEndMeetingDialog && r.ledger == s.ledger && r.currentIndex == s.currentIndex
    ensures r.running == s.running && r.agenda == s.agenda
    ensures endMeeting ==>
      r.meetingCompleted && r.showSummary && r.totalElapsed == 0 && r.showManualEndButton == s.showManualEndButton
    ensures !endMeeting ==>
      r.showManualEndButton && r.meetingCompleted == s.meetingCompleted && r.totalElapsed == s.totalElapsed
      && r.showSummary == s.showSummary
    ensures Valid(s) ==> Valid(r)
  {
    var s1 := s.(showEndMeetingDialog := false);
    if endMeeting then s1.(meetingCompleted := true, showSummary := true, totalElapsed := 0)
    else s1.(showManualEndButton := true)
  }

  /** `handleManualEndMeeting`: the same ending as answering "end", hiding the button. */
  function ManualEnd(s: TimerState): (r: TimerState)
    ensures r.meetingCompleted && r.showSummary && !r.showManualEndButton && r.totalElapsed == 0
    ensures r.ledger == s.ledger && r.currentIndex == s.currentIndex && r.running == s.running
    ensures r.showEndMeetingDialog == s.showEndMeetingDialog && r.agenda == s.agenda
    ensures Valid(s) ==> Valid(r)
  {
    s.(meetingCompleted := true, showSummary := true, showManualEndButton := false, totalElapsed := 0)
  }

  /**
   * `updateTimeFromMousePosition` with the position already turned into the
   * target countdown `t` (`Math.round(planned * (1 - fraction))` with the fraction
   * clamped to [0, 1], hence 0 <= t <= planned). The countdown jumps to `t`, the
   * current record's actual time becomes the planned time minus `t`, no record
   * overtime remains, and the meeting total moves by the change in the item's
   * elapsed time as the countdown measures it. Landing exactly on the end raises
   * the overtime indicator with a zero counter.
   */
  function Scrub(s: TimerState, t: int): (r: TimerState)
    requires IndexInRange(s)
    requires s.currentIndex.Some? ==> 0 <= t <= PlannedSeconds(s.agenda[s.currentIndex.value])
    ensures s.currentIndex.None? ==> r == s
    ensures s.currentIndex.Some? ==>
      var i := s.currentIndex.value;
      var planned := PlannedSeconds(s.agenda[i]);
      && r.timeLeft == t
      && (r.isOvertime <==> t == 0) && r.overtimeSeconds == 0
      && SameExcept(r.ledger, s.ledger, i)
      && (i < |s.ledger| ==>
            r.ledger[i] == s.ledger[i].(actualDuration := planned - t, overTime := 0))
      && r.totalElapsed - (planned - r.timeLeft) == s.totalElapsed - (planned - s.timeLeft)
      && r.currentIndex == s.currentIndex && r.running == s.running && r.agenda == s.agenda
      && r.lastTickMs == s.lastTickMs
  {
    if s.currentIndex.None? then s
    else
      var i := s.currentIndex.value;
      var totalTime := PlannedSeconds(s.agenda[i]);
      var s1 := if t <= 0 then s.(timeLeft := 0, isOvertime := true, overtimeSeconds := -t)
                else s.(timeLeft := t, isOvertime := false, overtimeSeconds := 0);
      var elapsed := totalTime - t;
      var ledger := if i < |s.ledger| then
                      s.ledger[i := s.ledger[i].(actualDuration := elapsed,
                                                  overTime := if elapsed > totalTime then elapsed - totalTime else 0)]
                    else s.ledger;
      var currentItemElapsed := totalTime - s.timeLeft;
      var newItemElapsed := totalTime - t;
      s1.(ledger := ledger, totalElapsed := s.totalElapsed + (newItemElapsed - currentItemElapsed))
  }

  /**
   * `Math.round(a / b)` for a positive divisor: the nearest integer, halves
   * rounded up.
   */
  function RoundDiv(a: int, b: int): (r: int)
    requires b > 0
    ensures 2 * a - b < 2 * b * r <= 2 * a + b
  {
    (2 * a + b) / (2 * b)
  }

  /**
   * The countdown after the current item's length changes from `oldPlanned` to
   * `newPlanned` seconds, keeping the fraction already used:
   * `Math.round(newPlanned * (1 - (oldPlanned - timeLeft) / oldPlanned))`,
   * which is `newPlanned * timeLeft / oldPlanned` rounded to the nearest
   * integer, replaced by one second when that is not positive.
   */
  function RescaledTimeLeft(timeLeft: int, oldPlanned: int, newPlanned: int): (r: int)
    requires oldPlanned > 0
    ensures r >= 1
    ensures r > 1 ==> 2 * newPlanned * timeLeft - oldPlanned < 2 * oldPlanned * r <= 2 * newPlanned * timeLeft + oldPlanned
    ensures r == 1 ==> 2 * newPlanned * timeLeft < 3 * oldPlanned
  {
    var newTimeLeft := RoundDiv(newPlanned * timeLeft, oldPlanned);
    if newTimeLeft > 0 then newTimeLeft else 1
  }

  /**
   * The effect that re-creates the ledger whenever its length differs from the
   * agenda's (components/countdown-agenda.tsx:173-184).
   */
  function AlignLedger(s: TimerState): (r: TimerState)
    ensures |r.ledger| == |r.agenda|
    ensures |s.ledger| == |s.agenda| ==> r == s
    ensures |s.ledger| != |s.agenda| ==> r == s.(ledger := FreshLedger(s.agenda))
  {
    if |s.ledger| != |s.agenda| then s.(ledger := FreshLedger(s.agenda)) else s
  }

  /**
   * `handleSettingsChange` restricted to the agenda. During a meeting, an index
   * past the new agenda stops the timer with no item current; a change to the
   * current item's minutes rescales the countdown to keep the fraction already
   * used (at least one second) and re-plans the current record, recomputing its
   * overtime and the indicator against the new plan. No other record is touched.
   */
  function HandleSettingsChange(s: TimerState, newAgenda: seq<AgendaItem>): (r: TimerState)
    requires ValidAgenda(s.agenda) && ValidAgenda(newAgenda)
    ensures r.agenda == newAgenda && |r.ledger| == |s.ledger|
    ensures s.currentIndex.None? ==> r == s.(agenda := newAgenda)
    ensures s.currentIndex.Some? && s.currentIndex.value >= |newAgenda| ==>
      r == s.(agenda := newAgenda, currentIndex := None, timeLeft := 0, running := false)
    ensures s.currentIndex.Some? && s.currentIndex.value < |newAgenda| ==>
      var i := s.currentIndex.value;
      && r.currentIndex == s.currentIndex && r.running == s.running && r.totalElapsed == s.totalElapsed
      && SameExcept(r.ledger, s.ledger, i)
      && (i < |s.agenda| && newAgenda[i].time != s.agenda[i].time ==>
            var (oldPlanned, newPlanned) := (PlannedSeconds(s.agenda[i]), PlannedSeconds(newAgenda[i]));
            && r.timeLeft == RescaledTimeLeft(s.timeLeft, oldPlanned, newPlanned)
            && (i < |s.ledger| ==>
                  var rec := s.ledger[i];
                  && r.ledger[i] == rec.(plannedDuration := newPlanned,
                                         overTime := Max(0, rec.actualDuration - newPlanned))
                  && (r.isOvertime <==> rec.actualDuration > newPlanned)
                  && r.overtimeSeconds == Max(0, rec.actualDuration - newPlanned)))
      && (i >= |s.agenda| || newAgenda[i].time == s.agenda[i].time ==>
            r == s.(agenda := newAgenda))
  {
    var s1 := s.(agenda := newAgenda);
    if s.currentIndex.None? then s1
    else
      var i := s.currentIndex.value;
      if i >= |newAgenda| then s1.(currentIndex := None, timeLeft := 0, running := false)
      else if i < |s.agenda| && newAgenda[i].time != s.agenda[i].time then
        RescaleCurrent(s1, i, PlannedSeconds(s.agenda[i]), PlannedSeconds(newAgenda[i]))
      else s1
  }

  /**
   * The current item's length changed from `oldPlanned` to `newPlanned`
   * seconds: the countdown keeps the fraction already used, at least one
   * second; the record plans the new length and its overtime, with the
   * indicator and counter, is recomputed against it.
   */
  function RescaleCurrent(s: TimerState, i: nat, oldPlanned: int, newPlanned: int): (r: TimerState)
    requires oldPlanned > 0
    ensures r.agenda == s.agenda && r.currentIndex == s.currentIndex && r.running == s.running
    ensures r.totalElapsed == s.totalElapsed
    ensures SameExcept(r.ledger, s.ledger, i)
    ensures r.timeLeft == RescaledTimeLeft(s.timeLeft, oldPlanned, newPlanned)
    ensures i < |s.ledger| ==>
      var rec := s.ledger[i];
      && r.ledger[i] == rec.(plannedDuration := newPlanned, overTime := Max(0, rec.actualDuration - newPlanned))
      && (r.isOvertime <==> rec.actualDuration > newPlanned)
      && r.overtimeSeconds == Max(0, rec.actualDuration - newPlanned)
    ensures i >= |s.ledger| ==> r.isOvertime == s.isOvertime && r.overtimeSeconds == s.overtimeSeconds
  {
    var s2 := s.(timeLeft := RescaledTimeLeft(s.timeLeft, oldPlanned, newPlanned));
    if i < |s.ledger| then
      var actual := s.ledger[i].actualDuration;
      var over := if actual > newPlanned then actual - newPlanned else 0;
      s2.(ledger := s.ledger[i := s.ledger[i].(plannedDuration := newPlanned, overTime := over)],
          isOvertime := actual > newPlanned, overtimeSeconds := over)
    else s2
  }

  /**
   * Every record re-planned against the agenda's minutes, with its overtime
   * recomputed, while a meeting is in progress.
   */
  function ReplanLedger(s: TimerState): (r: TimerState)
    ensures r == s.(ledger := r.ledger) && |r.ledger| == |s.ledger|
    ensures !Active(s) ==> r == s
    ensures Active(s) ==> forall j :: 0 <= j < |s.ledger| && j < |s.agenda| ==>
      var rec := s.ledger[j];
      r.ledger[j] == rec.(plannedDuration := PlannedSeconds(s.agenda[j]),
                          overTime := Max(0, rec.actualDuration - PlannedSeconds(s.agenda[j])))
    ensures forall j :: |s.agenda| <= j < |s.ledger| ==> r.ledger[j] == s.ledger[j]
  {
    if !Active(s) then s
    else
      var ledger := seq(|s.ledger|, j requires 0 <= j < |s.ledger| =>
        if j < |s.agenda| then
          var p := PlannedSeconds(s.agenda[j]);
          s.ledger[j].(plannedDuration := p, overTime := Max(0, s.ledger[j].actualDuration - p))
        else s.ledger[j]);
      s.(ledger := ledger)
  }

  /**
   * The agenda edited while the timer view is showing, as the source does it:
   * the settings handler, then the ledger-alignment effect.
   */
  function EditAgendaAsWritten(s: TimerState, newAgenda: seq<AgendaItem>): (r: TimerState)
    requires ValidAgenda(s.agenda) && ValidAgenda(newAgenda)
    ensures r.agenda == newAgenda && |r.ledger| == |newAgenda|
    ensures |s.ledger| == |newAgenda| ==> r == HandleSettingsChange(s, newAgenda)
    ensures |s.ledger| != |newAgenda| ==> r == HandleSettingsChange(s, newAgenda).(ledger := FreshLedger(newAgenda))
    ensures |s.ledger| != |newAgenda| ==> forall i :: 0 <= i < |r.ledger| ==> Untouched(r.ledger[i])
  {
    var h := HandleSettingsChange(s, newAgenda);
    AlignLedger(h)
  }

  /**
   * The agenda edit with every record re-planned during a meeting, not only the
   * current one: the settings handler, the re-planning, then the alignment
   * effect. Keeps the state invariant, which the as-written edit does not.
   */
  function EditAgenda(s: TimerState, newAgenda: seq<AgendaItem>): (r: TimerState)
    requires ValidAgenda(s.agenda) && ValidAgenda(newAgenda)
    ensures r.agenda == newAgenda && |r.ledger| == |newAgenda|
    ensures r.currentIndex == HandleSettingsChange(s, newAgenda).currentIndex
    ensures r.timeLeft == HandleSettingsChange(s, newAgenda).timeLeft
    ensures r.isOvertime == HandleSettingsChange(s, newAgenda).isOvertime
    ensures r.running == s.running || (s.currentIndex.Some? && s.currentIndex.value >= |newAgenda| && !r.running)
    ensures Active(r) && |s.ledger| == |newAgenda| ==> PlannedAgrees(r)
  {
    AlignLedger(ReplanLedger(HandleSettingsChange(s, newAgenda)))
  }
}
