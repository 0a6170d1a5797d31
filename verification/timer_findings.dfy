/**
 * Two behaviours of the timer as written that contradict what it evidently
 * intends, each shown on a concrete run next to the corrected operation.
 */
module TimerFindings {
  import opened Wrappers
  import opened Strings
  import opened AgendaTypes
  import opened TimerModel
  import opened TimerEngine
  import opened TimerInvariants
  import opened TimerSync

  /** Two five-minute items. */
  function TwoItems(): seq<AgendaItem> {
    [AgendaItem("Segue", 5, Some("")), AgendaItem("Scorecard", 5, Some(""))]
  }

  /** The same agenda with the second item lengthened to ten minutes. */
  function SecondLengthened(): seq<AgendaItem> {
    [AgendaItem("Segue", 5, Some("")), AgendaItem("Scorecard", 10, Some(""))]
  }

  /** The first item started at time 0; the second still untouched and planning five minutes. */
  lemma TwoItemsStarted()
    ensures var s0 := Start(Initial(TwoItems(), 0), 0);
      && Valid(s0) && Synced(s0) && s0.running && s0.currentIndex == Some(0) && s0.lastTickMs == 0
      && |s0.ledger| == 2 && s0.ledger[1] == ItemTimeData(300, 0, 0, false)
  {
  }

  /**
   * After the as-written edit and a skip, the second item counts down its new
   * ten minutes while its record still plans five.
   */
  lemma StaleEditThenNext()
    ensures var s1 := EditAgendaAsWritten(Start(Initial(TwoItems(), 0), 0), SecondLengthened());
      var s2 := SkipToNext(s1, 0);
      && !Valid(s1)
      && s2.running && s2.currentIndex == Some(1) && s2.lastTickMs == 0
      && s2.timeLeft == 600 && !s2.isOvertime
      && |s2.ledger| == 2 && s2.ledger[1] == ItemTimeData(300, 0, 0, false)
  {
    TwoItemsStarted();
    var s0 := Start(Initial(TwoItems(), 0), 0);
    var s1 := EditAgendaAsWritten(s0, SecondLengthened());
    assert s1 == s0.(agenda := SecondLengthened());
    assert !PlannedAgrees(s1);
  }

  /**
   * Editing a future item mid-meeting as written leaves that item's ledger
   * entry planning the old five minutes; once the meeting reaches it the timer
   * counts down the new ten minutes but declares overtime after five, while
   * 299 seconds are still shown as left.
   */
  lemma StalePlanShowsFalseOvertime()
    ensures var s0 := Start(Initial(TwoItems(), 0), 0);
      var s1 := EditAgendaAsWritten(s0, SecondLengthened());
      var s2 := SkipToNext(s1, 0);
      && !Valid(s1) && s2.running && s2.currentIndex.Some?
      && var s3 := Tick(s2, 301000);
         s3.isOvertime && s3.timeLeft == 299 && s3.overtimeSeconds == 1
  {
    StaleEditThenNext();
    var s2 := SkipToNext(EditAgendaAsWritten(Start(Initial(TwoItems(), 0), 0), SecondLengthened()), 0);
    assert ElapsedSeconds(s2.lastTickMs, 301000) == 301;
  }

  /**
   * After the corrected edit and a skip, the second item counts down its new
   * ten minutes and its record plans them.
   */
  lemma ReplannedEditThenNext()
    ensures var s1 := EditAgenda(Start(Initial(TwoItems(), 0), 0), SecondLengthened());
      var s2 := SkipToNext(s1, 0);
      && Valid(s1)
      && s2.running && s2.currentIndex == Some(1) && s2.lastTickMs == 0
      && s2.timeLeft == 600 && !s2.isOvertime
      && |s2.ledger| == 2 && s2.ledger[1] == ItemTimeData(600, 0, 0, false)
  {
    TwoItemsStarted();
    var s0 := Start(Initial(TwoItems(), 0), 0);
    EditAgendaPreservesValid(s0, SecondLengthened());
    var s1 := EditAgenda(s0, SecondLengthened());
    assert s1.ledger[1] == ItemTimeData(600, 0, 0, false);
  }

  /**
   * The same run with the edit re-planning every ledger entry: the second item
   * has 299 seconds left and is not in overtime.
   */
  lemma ReplannedEditNoFalseOvertime()
    ensures var s0 := Start(Initial(TwoItems(), 0), 0);
      var s1 := EditAgenda(s0, SecondLengthened());
      var s2 := SkipToNext(s1, 0);
      && Valid(s1) && s2.running && s2.currentIndex.Some?
      && var s3 := Tick(s2, 301000);
         !s3.isOvertime && s3.timeLeft == 299 && s3.overtimeSeconds == 0
  {
    ReplannedEditThenNext();
    var s2 := SkipToNext(EditAgenda(Start(Initial(TwoItems(), 0), 0), SecondLengthened()), 0);
    assert ElapsedSeconds(s2.lastTickMs, 301000) == 301;
  }

  /**
   * With the corrected edit, a timer in step with its ledger stays in step
   * through the skip to a later item and every tick after it: overtime is
   * shown exactly when no time is left.
   */
  lemma EditThenNextKeepsOvertimeHonest(s: TimerState, newAgenda: seq<AgendaItem>, now: int, later: int)
    requires Valid(s) && ValidAgenda(newAgenda)
    requires s.running && s.currentIndex.Some? && s.currentIndex.value + 1 < |newAgenda|
    ensures var t := SkipToNext(EditAgenda(s, newAgenda), now);
      && Synced(t) && t.running
      && Synced(Tick(t, later))
      && (Tick(t, later).isOvertime <==> Tick(t, later).timeLeft == 0)
  {
    EditAgendaPreservesValid(s, newAgenda);
    var e := EditAgenda(s, newAgenda);
    SkipToNextPreservesValid(e, now);
    var t := SkipToNext(e, now);
    TickPreservesValid(t, later);
    TickPreservesSynced(t, later);
  }

  /** One item, started at time 0. */
  function OneItemStarted(): TimerState {
    Start(Initial([AgendaItem("Segue", 5, Some(""))], 0), 0)
  }

  /**
   * A pop-out pause at 0.5 s and resume at 60 s, then a tick at 61 s: as
   * written the primary counts the whole minute it was paused.
   */
  lemma PopoutResumeCountsPausedTime()
    ensures var s1 := ReceiveCommandAsWritten(OneItemStarted(), SendCommand("pause", 500), 500);
      var s2 := ReceiveCommandAsWritten(s1, SendCommand("resume", 60000), 60000);
      s2.running && s2.currentIndex.Some? && Tick(s2, 61000).totalElapsed == 61
  {
    var s0 := OneItemStarted();
    assert s0.lastCommand.None? && s0.lastTickMs == 0 && s0.currentIndex == Some(0) && s0.totalElapsed == 0;
    var s1 := ReceiveCommandAsWritten(s0, SendCommand("pause", 500), 500);
    var id2 := CommandId("resume", IntToString(60000));
    assert s1.lastCommand == Some(CommandId("pause", IntToString(500)));
    assert CommandId("pause", IntToString(500))[0] != id2[0];
    assert s1.lastTickMs == 0 && !s1.running && s1.currentIndex == Some(0);
    var s2 := ReceiveCommandAsWritten(s1, SendCommand("resume", 60000), 60000);
    assert s2 == s1.(lastCommand := Some(id2), running := true);
    assert ElapsedSeconds(s2.lastTickMs, 61000) == 61;
  }

  /** The same run with the corrected resume counts one second. */
  lemma CorrectedResumeCountsOneSecond()
    ensures var s1 := ReceiveCommand(OneItemStarted(), SendCommand("pause", 500), 500);
      var s2 := ReceiveCommand(s1, SendCommand("resume", 60000), 60000);
      s2.running && s2.currentIndex.Some? && Tick(s2, 61000).totalElapsed == 1
  {
    var s0 := OneItemStarted();
    assert s0.lastCommand.None? && s0.lastTickMs == 0 && s0.currentIndex == Some(0) && s0.totalElapsed == 0;
    var s1 := ReceiveCommand(s0, SendCommand("pause", 500), 500);
    var id2 := CommandId("resume", IntToString(60000));
    assert s1.lastCommand == Some(CommandId("pause", IntToString(500)));
    assert CommandId("pause", IntToString(500))[0] != id2[0];
    assert s1.lastTickMs == 0 && !s1.running && s1.currentIndex == Some(0);
    var s2 := ReceiveCommand(s1, SendCommand("resume", 60000), 60000);
    assert s2 == s1.(lastCommand := Some(id2), running := true, lastTickMs := 60000);
    assert ElapsedSeconds(s2.lastTickMs, 61000) == 1;
  }

  /**
   * In general, a resume command that wakes a paused meeting makes the next
   * tick count only the whole seconds since the resume, whatever the timer's
   * clock said before the pause.
   */
  lemma ResumeCountsFromResume(s: TimerState, ts: string, at: int, now: int)
    requires Valid(s) && Active(s) && !s.running
    requires s.lastCommand != Some(CommandId("resume", ts))
    ensures var r := ReceiveCommand(s, StorageEvent(CommandKey, Command("resume", ts)), at);
      && r.running && r.currentIndex.Some?
      && Tick(r, now).totalElapsed == s.totalElapsed + Max(0, ElapsedSeconds(at, now))
  {
  }
}
