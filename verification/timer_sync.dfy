/**
 * Synchronisation between the primary timer view and a pop-out view through
 * shared storage (components/countdown-agenda.tsx): the state snapshot the
 * primary writes after every change, its loading in the pop-out, the command a
 * pop-out writes for each of its buttons, and the primary's handling of a
 * command it observes. JSON text is abstracted: a payload is either one that
 * `JSON.parse` and the destructuring reject, or the command and timestamp it
 * carries, each as its `${}` rendering.
 */
module TimerSync {
  import opened Wrappers
  import opened Strings
  import opened AgendaTypes
  import opened TimerModel
  import opened TimerEngine
  import opened TimerInvariants

  const TimerStateKey: string := "countdown-agenda-timer-state"
  const CommandKey: string := "countdown-agenda-command"

  /** The persisted timer snapshot: the timer fields plus the time of writing. */
  datatype Snapshot = Snapshot(
    currentIndex: Option<nat>,
    timeLeft: int,
    running: bool,
    totalElapsed: int,
    isOvertime: bool,
    overtimeSeconds: int,
    itemTimeData: seq<ItemTimeData>,
    meetingCompleted: bool,
    showEndMeetingDialog: bool,
    showManualEndButton: bool,
    lastUpdated: int)

  /** The snapshot the primary writes under TimerStateKey after a change. */
  function ToSnapshot(s: TimerState, now: int): Snapshot {
    Snapshot(s.currentIndex, s.timeLeft, s.running, s.totalElapsed, s.isOvertime, s.overtimeSeconds,
             s.ledger, s.meetingCompleted, s.showEndMeetingDialog, s.showManualEndButton, now)
  }

  /** The pop-out's load at mount: every persisted field replaced from the snapshot. */
  function LoadSnapshot(s: TimerState, snap: Snapshot): TimerState {
    s.(currentIndex := snap.currentIndex, timeLeft := snap.timeLeft, running := snap.running,
       totalElapsed := snap.totalElapsed, isOvertime := snap.isOvertime,
       overtimeSeconds := snap.overtimeSeconds, ledger := snap.itemTimeData,
       meetingCompleted := snap.meetingCompleted, showEndMeetingDialog := snap.showEndMeetingDialog,
       showManualEndButton := snap.showManualEndButton)
  }

  /** The two states agree on every field the snapshot carries. */
  predicate SamePersisted(a: TimerState, b: TimerState) {
    && a.currentIndex == b.currentIndex && a.timeLeft == b.timeLeft && a.running == b.running
    && a.totalElapsed == b.totalElapsed && a.isOvertime == b.isOvertime
    && a.overtimeSeconds == b.overtimeSeconds && a.ledger == b.ledger
    && a.meetingCompleted == b.meetingCompleted && a.showEndMeetingDialog == b.showEndMeetingDialog
    && a.showManualEndButton == b.showManualEndButton
  }

  /**
   * Writing a snapshot and loading it back yields the same timer: a pop-out
   * that loads the primary's snapshot mirrors every persisted field, and the
   * primary loading its own snapshot is unchanged.
   */
  lemma SnapshotRoundTrip(s: TimerState, popout: TimerState, now: int)
    ensures SamePersisted(LoadSnapshot(popout, ToSnapshot(s, now)), s)
    ensures LoadSnapshot(s, ToSnapshot(s, now)) == s
    ensures ToSnapshot(s, now).lastUpdated == now
  {
  }

  /** A command payload as the storage listener sees it after `JSON.parse`. */
  datatype Payload = Unparsable | Command(command: string, timestamp: string)

  /** A storage change notification: the key written and its new value. */
  datatype StorageEvent = StorageEvent(key: string, newValue: Payload)

  /** The dedupe key `${command}-${timestamp}`. */
  function CommandId(command: string, timestamp: string): string {
    command + "-" + timestamp
  }

  /** The command switch as written: pause and resume set `running`; next and reset run the engine. */
  function DispatchAsWritten(s: TimerState, command: string, now: int): (r: TimerState)
    requires IndexInRange(s)
    ensures IndexInRange(r)
    ensures command == "pause" ==> r == s.(running := false)
    ensures command == "resume" ==> r == s.(running := true)
    ensures command == "next" ==> r == SkipToNext(s, now)
    ensures command == "reset" ==> r == Reset(s)
    ensures command !in {"pause", "resume", "next", "reset"} ==> r == s
  {
    if command == "pause" then s.(running := false)
    else if command == "resume" then s.(running := true)
    else if command == "next" then SkipToNext(s, now)
    else if command == "reset" then Reset(s)
    else s
  }

  /**
   * The primary's storage listener as written: other keys and unparsable
   * payloads are ignored; a payload whose dedupe key equals the last one handled
   * is ignored; otherwise the key is remembered and the command dispatched.
   * "start" and "previous" fall through the switch.
   */
  function ReceiveCommandAsWritten(s: TimerState, e: StorageEvent, now: int): (r: TimerState)
    requires IndexInRange(s)
    ensures IndexInRange(r)
    ensures e.key != CommandKey || e.newValue.Unparsable? ==> r == s
    ensures e.key == CommandKey && e.newValue.Command? ==>
      var id := CommandId(e.newValue.command, e.newValue.timestamp);
      && r.lastCommand == Some(id)
      && (s.lastCommand == Some(id) ==> r == s)
      && (s.lastCommand != Some(id) ==> r == DispatchAsWritten(s.(lastCommand := Some(id)), e.newValue.command, now))
  {
    if e.key != CommandKey || e.newValue.Unparsable? then s
    else
      var id := CommandId(e.newValue.command, e.newValue.timestamp);
      if s.lastCommand == Some(id) then s
      else DispatchAsWritten(s.(lastCommand := Some(id)), e.newValue.command, now)
  }

  /**
   * At-most-once delivery holds for the listener as written too: the same
   * notification handled a second time, at any later moment, changes nothing.
   */
  lemma ReceiveCommandAsWrittenIdempotent(s: TimerState, e: StorageEvent, now: int, later: int)
    requires IndexInRange(s)
    ensures var r := ReceiveCommandAsWritten(s, e, now);
      ReceiveCommandAsWritten(r, e, later) == r
  {
  }

  /**
   * The command switch with "resume" restarting the tick clock when it wakes a
   * paused timer, as the primary's own resume button does.
   */
  function Dispatch(s: TimerState, command: string, now: int): (r: TimerState)
    requires IndexInRange(s)
    ensures command == "pause" ==> r == s.(running := false)
    ensures command == "resume" ==>
      r == s.(running := true, lastTickMs := if s.running then s.lastTickMs else now)
    ensures command == "next" ==> r == SkipToNext(s, now)
    ensures command == "reset" ==> r == Reset(s)
    ensures command !in {"pause", "resume", "next", "reset"} ==> r == s
    ensures r.lastCommand == s.lastCommand
  {
    if command == "pause" then s.(running := false)
    else if command == "resume" then
      if !s.running then s.(running := true, lastTickMs := now) else s
    else if command == "next" then SkipToNext(s, now)
    else if command == "reset" then Reset(s)
    else s
  }

  /**
   * The primary's storage listener: a command is applied at most once per
   * dedupe key, only for the command key and a parsable payload; "start",
   * "previous" and unknown commands change nothing but the remembered key.
   */
  function ReceiveCommand(s: TimerState, e: StorageEvent, now: int): (r: TimerState)
    requires IndexInRange(s)
    ensures e.key != CommandKey || e.newValue.Unparsable? ==> r == s
    ensures e.key == CommandKey && e.newValue.Command? ==>
      var id := CommandId(e.newValue.command, e.newValue.timestamp);
      && r.lastCommand == Some(id)
      && (s.lastCommand == Some(id) ==> r == s)
      && (s.lastCommand != Some(id) ==> r == Dispatch(s.(lastCommand := Some(id)), e.newValue.command, now))
  {
    if e.key != CommandKey || e.newValue.Unparsable? then s
    else
      var id := CommandId(e.newValue.command, e.newValue.timestamp);
      if s.lastCommand == Some(id) then s
      else Dispatch(s.(lastCommand := Some(id)), e.newValue.command, now)
  }

  /** Handling a command keeps the state invariant. */
  lemma ReceiveCommandPreservesValid(s: TimerState, e: StorageEvent, now: int)
    requires Valid(s)
    ensures Valid(ReceiveCommand(s, e, now))
  {
    if e.key == CommandKey && e.newValue.Command? {
      var id := CommandId(e.newValue.command, e.newValue.timestamp);
      if s.lastCommand != Some(id) {
        var t := s.(lastCommand := Some(id));
        ClockFieldsKeepValid(s, t);
        var c := e.newValue.command;
        if c == "pause" {
          ClockFieldsKeepValid(t, t.(running := false));
        } else if c == "resume" {
          ClockFieldsKeepValid(t, Dispatch(t, c, now));
        } else if c == "next" {
          SkipToNextPreservesValid(t, now);
        }
      }
    }
  }

  /** The running flag, the tick clock and the dedupe key play no part in the invariant. */
  lemma ClockFieldsKeepValid(s: TimerState, t: TimerState)
    requires Valid(s)
    requires t == s.(running := t.running, lastTickMs := t.lastTickMs, lastCommand := t.lastCommand)
    ensures Valid(t)
  {
    assert t.agenda == s.agenda && t.ledger == s.ledger && t.currentIndex == s.currentIndex;
  }

  /**
   * At-most-once delivery: the same notification handled a second time, at
   * any later moment, changes nothing.
   */
  lemma ReceiveCommandIdempotent(s: TimerState, e: StorageEvent, now: int, later: int)
    requires Valid(s)
    ensures var r := ReceiveCommand(s, e, now);
      IndexInRange(r) && ReceiveCommand(r, e, later) == r
  {
    ReceiveCommandPreservesValid(s, e, now);
  }

  /** A button pressed in the pop-out. */
  datatype PopoutAction = PopoutStart | PopoutToggle | PopoutNext | PopoutPrevious | PopoutReset

  /** The command the pop-out writes for a button, given whether it was running before the press. */
  function PopoutCommand(a: PopoutAction, running: bool): (c: string)
    ensures a == PopoutToggle ==> (c == "pause" <==> running) && (c == "resume" <==> !running)
    ensures a == PopoutStart ==> c == "start"
    ensures a == PopoutPrevious ==> c == "previous"
  {
    match a
    case PopoutStart => "start"
    case PopoutToggle => if running then "pause" else "resume"
    case PopoutNext => "next"
    case PopoutPrevious => "previous"
    case PopoutReset => "reset"
  }

  /** `sendCommand`: the payload written under the command key at `now`. */
  function SendCommand(command: string, now: int): StorageEvent {
    StorageEvent(CommandKey, Command(command, IntToString(now)))
  }

  /**
   * A pop-out pause/resume keeps the two views in agreement: when the primary
   * was running exactly when the pop-out was, the primary's `running` after the
   * command is the pop-out's after its own toggle.
   */
  lemma PopoutToggleMirrored(primary: TimerState, popout: TimerState, now: int)
    requires Valid(primary) && primary.running == popout.running
    requires primary.lastCommand != Some(CommandId(PopoutCommand(PopoutToggle, popout.running), IntToString(now)))
    ensures ReceiveCommand(primary, SendCommand(PopoutCommand(PopoutToggle, popout.running), now), now).running
            == TogglePauseResume(popout, now).running
  {
  }

  /**
   * The pop-out's start and previous buttons move only the pop-out: the primary
   * records the command and otherwise stays as it was.
   */
  lemma PopoutStartPreviousIgnored(primary: TimerState, a: PopoutAction, running: bool, now: int)
    requires IndexInRange(primary)
    requires a == PopoutStart || a == PopoutPrevious
    ensures var e := SendCommand(PopoutCommand(a, running), now);
      var r := ReceiveCommand(primary, e, now);
      r.(lastCommand := primary.lastCommand) == primary
  {
  }
}
