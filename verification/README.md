# L10 Meeting Countdown — a Dafny model of its core

L10 Meeting Countdown is a browser meeting timer. An agenda is a list of items,
each with a title, a length in minutes and an optional colour. The timer counts
down the current item second by second. Once an item's time is used up it
counts overtime, and it keeps a per-item ledger of planned time, actual time,
overtime and completion. At the end it shows a summary of the meeting.

A pop-out window mirrors the timer and sends commands back through shared
storage. Templates and settings persist in local storage. Meetings are
isolated into sessions, keyed by a session id that is read from the URL or the
tab's session storage.

This project models that core as immutable data and pure functions:

- `AgendaTypes` holds the records of `types/agenda-types.ts`.
- `TimerModel` holds the timer state and its invariant `Valid`. The invariant
  says: a non-empty agenda of items of at least one minute; a ledger aligned
  with the agenda; no negative time left or overtime; during a meeting, records
  that plan the agenda's minutes; and untouched records for the items still to
  come. `Synced` states that the countdown agrees with the current record.
- `TimerEngine` holds the transitions: start, tick, pause/resume, next,
  previous, reset, the end-of-meeting gate, scrubbing and agenda edits.
- `TimerInvariants` proves that every transition keeps `Valid`, with agenda
  edits going through the corrected edit `EditAgenda`, and that ticks keep
  `Synced`. The edit as written does not keep `Valid`; `TimerFindings` shows
  how it fails.
- `TimerSync` holds the pop-out snapshot and command protocol.
- `TimerQueries` holds the read-only views: remaining time, next item, time
  colour and colour classes.
- `TimeFormat` holds `m:ss` formatting and its inverse.
- `MeetingSummary` holds the summary totals, variance and text.
- `TemplateStorage` holds the template list and settings store.
- `SessionStore` holds the session-keyed storage.
- `SessionStatus` holds the session list's status labels and delete guard.
- `SettingsDialog` holds agenda editing and save validation.
- `ColorUtils` and `ColorPicker` hold colour class building and the palette.
- `TimerFindings` shows the two source defects listed under Findings.
- `Strings` and `Wrappers` are helpers.

Time is a parameter: every operation that reads `Date.now()` takes `now`, in
milliseconds. JSON text is abstracted. A stored value is a structured
document, or a marker for a value that fails to parse.

Where the code's behaviour is surprising, the model follows the code:

- Scrubbing exactly to the end of an item raises the overtime indicator with a
  zero counter.
- Answering "end" to the end-of-meeting question, and the manual end button,
  both reset the elapsed total to zero.
- Pop-out `pause` and `resume` commands set the running flag rather than
  toggling it. `start` and `previous` commands reach the primary view but change
  nothing there.
- Going back to a previous item clears the record of the item being left. The
  record of the item returned to keeps its completion mark and its old actual
  time.

## Model

| member | source | states |
|---|---|---|
| AgendaTypes.FreshLedger | components/countdown-agenda.tsx:466-471 | one untouched record per agenda item, planning its minutes times sixty |
| TimerModel.InitialValid | components/countdown-agenda.tsx:173-184 | the mounted, not-started timer with its aligned ledger satisfies the state invariant |
| TimerEngine.Start | components/countdown-agenda.tsx:455-486 | the first item is current with its full time and running; every record is untouched and plans its item; the total and all three end flags are cleared; for a valid agenda the result is valid and in step |
| TimerEngine.ElapsedSeconds | components/countdown-agenda.tsx:247-249 | the elapsed count is the whole number of seconds in the time since the last tick, rounded down |
| TimerEngine.CountDown | components/countdown-agenda.tsx:286-297 | the countdown drops by the elapsed seconds, floored at zero, only while above zero; reaching zero raises the indicator with a zero counter unless it was already up; nothing else changes |
| TimerEngine.AccrueCurrent | components/countdown-agenda.tsx:257-284 | only the current record changes; it gains the elapsed seconds; past its plan it sets the indicator and the counter to the excess; otherwise both stay as they were |
| TimerEngine.Tick | components/countdown-agenda.tsx:245-297 | less than a second changes only the tick reference; otherwise the total and the current record's actual time each grow by exactly the elapsed seconds and every other record is unchanged; the countdown drops and stays non-negative; reaching zero raises the indicator, and a tick never clears it |
| TimerEngine.TogglePauseResume | components/countdown-agenda.tsx:489-501 | flips running; only a resume moves the tick reference to now; nothing else changes; the invariant is kept |
| TimerEngine.SkipToNext | components/countdown-agenda.tsx:505-541 | no change without a current item; otherwise the current record is marked completed; on the last item the timer stops with no item current and the end question raised; before it the next item gets its full time and overtime is cleared; the total is untouched |
| TimerEngine.SkipToPrevious | components/countdown-agenda.tsx:545-573 | no change at no item or the first item; otherwise the record being left is zeroed and every other record kept; the previous item gets its full time and overtime is cleared |
| TimerEngine.Reset | components/countdown-agenda.tsx:576-599 | no item current, no time left, stopped, total zero, overtime and end flags cleared, fresh ledger; a valid agenda gives a valid state |
| TimerEngine.Decide | components/countdown-agenda.tsx:603-616 | the question is dismissed; "end" completes the meeting, shows the summary and zeroes the total; "not yet" shows the manual end button; the ledger is untouched |
| TimerEngine.ManualEnd | components/countdown-agenda.tsx:619-625 | completes the meeting, shows the summary, hides the button and zeroes the total; the ledger is untouched |
| TimerEngine.Scrub | components/countdown-agenda.tsx:1050-1111 | the countdown becomes the target; the record's actual time becomes the plan minus the target, with no overtime; the indicator is up exactly at zero with a zero counter; the total less the item's elapsed time is unchanged |
| TimerEngine.MarkCompleted | components/countdown-agenda.tsx:513-519 | only the given record changes: it is marked completed and keeps its times, plan and consistency |
| TimerEngine.RoundDiv | components/countdown-agenda.tsx:873 | rounding a quotient to the nearest integer, with halves rounded up |
| TimerEngine.RescaledTimeLeft | components/countdown-agenda.tsx:866-874 | the rescaled countdown is at least one second; above one it is the new length times the old time left over the old length, within half a second |
| TimerEngine.RescaleCurrent | components/countdown-agenda.tsx:876-895 | only the countdown, the current record and the indicator change; the record plans the new length; the indicator is up exactly when the actual time exceeds it, with the counter at the excess |
| TimerEngine.AlignLedger | components/countdown-agenda.tsx:173-184 | the ledger is re-created exactly when its length differs from the agenda's |
| TimerEngine.HandleSettingsChange | components/countdown-agenda.tsx:851-899 | the new agenda is taken and the ledger keeps its length; an index past the new agenda stops the timer with no item current; a changed current length rescales the countdown (at least one second) and re-plans the current record, with overtime and the indicator recomputed; otherwise only the agenda changes |
| TimerEngine.EditAgendaAsWritten | components/countdown-agenda.tsx:851-899 | the edit as written: the handler followed by the ledger-alignment effect; when the item count changes, the ledger is replaced by a fresh one with every record untouched |
| TimerEngine.EditAgenda | components/countdown-agenda.tsx:851-899 | the corrected edit agrees with the handler on index, countdown and indicator, and re-plans every record |
| TimerInvariants.TickPreservesValid | components/countdown-agenda.tsx:245-297 | a tick keeps the state invariant |
| TimerInvariants.TickPreservesSynced | components/countdown-agenda.tsx:245-297 | a tick keeps the countdown at the plan minus the actual time (floored at zero), the indicator up exactly at zero, and the counter at the actual time beyond the plan |
| TimerInvariants.CurrentRecordUpdateKeepsValid | components/countdown-agenda.tsx:257-284 | changing only the current record, to a consistent one with the same plan, keeps the invariant |
| TimerInvariants.SkipToNextPreservesValid | components/countdown-agenda.tsx:505-541 | moving on keeps the invariant, and the next item's countdown starts in step with its untouched record |
| TimerInvariants.ScrubPreservesValid | components/countdown-agenda.tsx:1050-1111 | scrubbing to a target within the item keeps the invariant and leaves the countdown in step with the record |
| TimerInvariants.EditAgendaPreservesValid | components/countdown-agenda.tsx:851-899 | the corrected agenda edit keeps the state invariant |
| TimerInvariants.Apply | components/countdown-agenda.tsx:455-625 | with the corrected agenda edit (`TimerEngine.EditAgenda`), every user action on a valid state yields a valid state |
| TimerInvariants.RunPreservesValid | components/countdown-agenda.tsx:455-625 | with the corrected agenda edit, any sequence of user actions from a valid state ends in a valid state |
| TimerInvariants.OneSecondOnFirstItem | components/countdown-agenda.tsx:245-297 | one more second on an in-step first item adds one second to its actual time and to the total, and keeps the state valid and in step |
| TimerInvariants.FirstItemAtStart | components/countdown-agenda.tsx:455-486 | right after start the state is valid, in step and running on the first item, with nothing accrued |
| TimerInvariants.FirstItemOneMore | components/countdown-agenda.tsx:245-297 | one more firing a second later on the first item adds one second to its actual time and to the total, keeping the state valid and in step |
| TimerInvariants.TicksFromStartAccrue | components/countdown-agenda.tsx:245-297 | after start and n one-second ticks, the state is valid, in step and running on the first item, with n seconds accrued to the item and to the total |
| TimerInvariants.TicksFromStart | components/countdown-agenda.tsx:455-486 | n one-second ticks after start leave actual and total at n, the countdown at the plan minus n (floored at zero), the indicator up exactly when n reaches the plan, and the counter at the excess |
| TimerInvariants.PauseResumeKeepsTotal | components/countdown-agenda.tsx:489-501 | pausing then resuming keeps the total, the ledger and the countdown, and restarts the tick clock at the resume |
| TimerSync.SnapshotRoundTrip | components/countdown-agenda.tsx:146-158 | a pop-out loading the primary's snapshot agrees with it on every persisted field; loading one's own snapshot changes nothing |
| TimerSync.DispatchAsWritten | components/countdown-agenda.tsx:123-136 | as written: pause and resume only set the running flag; next and reset run the transitions; any other command changes nothing |
| TimerSync.ReceiveCommandAsWritten | components/countdown-agenda.tsx:112-139 | as written: another key or an unparsable payload changes nothing; a repeated command-timestamp key is ignored; otherwise the key is remembered and the as-written switch applied; the index stays in range |
| TimerSync.ReceiveCommandAsWrittenIdempotent | components/countdown-agenda.tsx:119-120 | as written, the same notification handled again, at any later time, changes nothing |
| TimerSync.Dispatch | components/countdown-agenda.tsx:123-136 | corrected (resume restarts the tick clock): pause stops; resume runs, and restarts the tick clock when it wakes a paused timer; next and reset run the transitions; any other command changes nothing |
| TimerSync.ReceiveCommand | components/countdown-agenda.tsx:112-139 | corrected (resume restarts the tick clock): another key or an unparsable payload changes nothing; a repeated command-timestamp key is ignored; otherwise the key is remembered and the command dispatched |
| TimerSync.ReceiveCommandPreservesValid | components/countdown-agenda.tsx:112-139 | handling a command keeps the state invariant |
| TimerSync.ReceiveCommandIdempotent | components/countdown-agenda.tsx:119-120 | the same notification handled again, at any later time, changes nothing |
| TimerSync.PopoutCommand | components/countdown-agenda.tsx:444-452 | the pop-out's toggle sends pause exactly when running and resume exactly when paused; start and previous send their own names |
| TimerSync.PopoutToggleMirrored | components/countdown-agenda.tsx:489-501 | a pop-out toggle leaves the primary's running flag equal to the pop-out's own |
| TimerSync.PopoutStartPreviousIgnored | components/countdown-agenda.tsx:123-136 | a pop-out start or previous command changes nothing in the primary except the remembered key |
| TimerQueries.TotalMeetingMinutes | components/countdown-agenda.tsx:655-657 | a valid agenda totals at least one minute per item |
| TimerQueries.SecondsAreSixtyMinutes | components/countdown-agenda.tsx:660-667 | the planned seconds of a list of items are sixty times its minutes |
| TimerQueries.RemainingMeetingTime | components/countdown-agenda.tsx:660-667 | before the meeting, the sum of every item's planned seconds; on the last item, the positive time left; before it, the positive time left, the next item's full plan and the plans of the items after it |
| TimerQueries.RemainingAtStart | components/countdown-agenda.tsx:660-667 | right after start, the remaining meeting time is the whole agenda's minutes times sixty |
| TimerQueries.RemainingAfterNext | components/countdown-agenda.tsx:660-667 | moving to the next item lowers the remaining time by exactly the time that was left on the current one |
| TimerQueries.RemainingAfterTick | components/countdown-agenda.tsx:660-667 | a tick lowers the remaining time by the elapsed seconds, at most by the time left |
| TimerQueries.NextUpItem | components/countdown-agenda.tsx:670-673 | an item is up next exactly when the current item is not the last one, and it is the following item |
| TimerQueries.NextUpBecomesCurrent | components/countdown-agenda.tsx:505-541 | the item shown as next is the one that becomes current after next |
| TimerQueries.TimeColor | components/countdown-agenda.tsx:676-680 | red, yellow or green; green exactly when not in overtime with over a minute left |
| TimerQueries.TimeColorRedIffOvertime | components/countdown-agenda.tsx:676-680 | in step with the ledger, red exactly in overtime, yellow exactly with between one second and a minute left |
| TimerQueries.SwitchClasses | components/countdown-agenda.tsx:699-818 | the colour switch recognises exactly its seventeen named colours |
| TimerQueries.SwitchMatchesColorUtils | components/countdown-agenda.tsx:699-818 | each named case yields the same classes as the shared colour helper |
| TimerQueries.PaletteRecognised | components/color-picker.tsx:11-27 | every non-empty palette colour has its own case in the switch |
| TimerQueries.TimeColorClassesMatch | components/countdown-agenda.tsx:820-847 | the time-based fallback classes are the shared helper's for red, yellow and green |
| TimerQueries.EngineColorClasses | components/countdown-agenda.tsx:683-848 | overtime shows red; otherwise a recognised item colour shows its own classes; anything else falls back to the time colour; each case equals the shared colour helper's classes |
| TimeFormat.JsRem | components/meeting-summary-dialog.tsx:41 | the remainder of JavaScript's `%`: Euclidean for non-negative operands, non-positive for negative ones |
| TimeFormat.Pad2 | components/meeting-summary-dialog.tsx:42 | seconds below sixty as exactly two digits that read back as the number |
| TimeFormat.FormatTimeShape | components/meeting-summary-dialog.tsx:39-43 | for n at least zero, the decimal minutes, a colon, and the seconds padded to two digits |
| TimeFormat.ParseFormatTime | components/meeting-summary-dialog.tsx:39-43 | reading "m:ss" back as m times sixty plus ss recovers n |
| TimeFormat.FormatTimeInjective | components/meeting-summary-dialog.tsx:39-43 | distinct non-negative second counts format differently |
| TimeFormat.FormatTimeLeadsWithDigit | components/meeting-summary-dialog.tsx:39-43 | a formatted non-negative time has at least four characters and starts with a digit |
| MeetingSummary.TotalPlannedTime | components/meeting-summary-dialog.tsx:160-162 | the planned total is sixty times the agenda's minutes |
| MeetingSummary.TotalOvertime | components/meeting-summary-dialog.tsx:164-166 | the overtime total is non-negative and zero exactly when no record has positive overtime |
| MeetingSummary.TotalOvertimeOfConsistent | components/meeting-summary-dialog.tsx:164-166 | for consistent records, the overtime total equals the sum over the records of the actual time beyond the plan |
| MeetingSummary.OvertimeLabel | components/meeting-summary-dialog.tsx:190-191 | "On Time" exactly when no record has positive overtime; otherwise a plus sign and the formatted total |
| MeetingSummary.VarianceText | components/meeting-summary-dialog.tsx:200-229 | a dash exactly at zero variance; over plan, a plus followed by the formatted variance; under plan, the unsigned formatted variance; the plus appears exactly when over |
| MeetingSummary.VarianceMarksOvertime | components/meeting-summary-dialog.tsx:204-229 | for a consistent record, the plus mark appears exactly when the record has overtime |
| MeetingSummary.DetailMentionsOvertime | components/meeting-summary-dialog.tsx:59-62 | an item's detail line ends with the overtime note exactly when the item has overtime |
| MeetingSummary.HeadingMarksCompletion | components/meeting-summary-dialog.tsx:57-61 | an item's heading starts with the check mark exactly when its record is completed |
| MeetingSummary.SummaryHeader | components/meeting-summary-dialog.tsx:47-51 | five lines: the title, the date, the formatted total duration, a blank line and the items heading |
| MeetingSummary.ItemRows | components/meeting-summary-dialog.tsx:53-64 | two lines per agenda index that has a record: the completion mark, the number and the title, then planned, actual and any overtime; indices with no record are skipped |
| MeetingSummary.SummaryLines | components/meeting-summary-dialog.tsx:45-66 | five header lines (title, date, total duration, blank, heading), then the item rows |
| MeetingSummary.SummaryReportsEachItem | components/meeting-summary-dialog.tsx:53-64 | each recorded item's heading carries a check mark exactly when completed, and its detail carries the overtime note exactly when over |
| MeetingSummary.JoinLinesBreaks | components/meeting-summary-dialog.tsx:66 | joining n lines puts exactly n-1 line breaks between them, for lines without breaks |
| MeetingSummary.SplitJoinLines | components/meeting-summary-dialog.tsx:66 | splitting joined lines at the breaks gives the lines back, when no line has a break of its own |
| MeetingSummary.SummaryLinesBreakFree | components/meeting-summary-dialog.tsx:45-64 | every summary line is a single line when the title, the date and the item titles are |
| MeetingSummary.SummaryText | components/meeting-summary-dialog.tsx:45-67 | for single-line title, date and item titles, the text splits back into exactly the summary lines and holds four plus twice the recorded items line breaks |
| TemplateStorage.GetTemplates | utils/template-storage.ts:34-42 | the stored list, or the empty list when it is missing or unparsable |
| TemplateStorage.SaveTemplate | utils/template-storage.ts:12-31 | an existing id is replaced in place with its stamp updated, keeping length and every other entry; a new id is appended; settings are untouched |
| TemplateStorage.GetTemplateById | utils/template-storage.ts:45-48 | found exactly when some stored template has the id, and then it is the first stored template with that id |
| TemplateStorage.DeleteTemplate | utils/template-storage.ts:51-69 | every entry with the id is removed; the active template id is cleared exactly when it is the deleted one |
| TemplateStorage.GetSettings | utils/template-storage.ts:77-85 | settings are present exactly when stored and parsable |
| TemplateStorage.SettingsRoundTrip | utils/template-storage.ts:72-85 | settings read back after saving are the ones saved |
| TemplateStorage.SavedTemplateFound | utils/template-storage.ts:12-48 | after a save, looking up its id finds the saved template, differing at most in the stamps the save sets |
| TemplateStorage.SavePreservesDistinctIds | utils/template-storage.ts:12-31 | saving keeps template ids pairwise distinct |
| TemplateStorage.SaveKeepsOthers | utils/template-storage.ts:12-31 | saving leaves every template with another id in place |
| TemplateStorage.DeletedNotFound | utils/template-storage.ts:51-54 | after deleting an id it is no longer found |
| TemplateStorage.SaveNewThenDelete | utils/template-storage.ts:12-54 | saving a new template and deleting it restores the list |
| TemplateStorage.DeleteAbsentKeepsList | utils/template-storage.ts:51-54 | deleting an absent id leaves the list unchanged |
| SessionStore.FreshSessionIdInjective | utils/session-manager.ts:13-15 | different generator draws give different session ids |
| SessionStore.GetCurrentSessionId | utils/session-manager.ts:18-44 | the URL parameter if set, else the tab's stored id; only when both are absent a fresh id, stored in the tab and the URL; without a window always a fresh id |
| SessionStore.CurrentSessionIdStable | utils/session-manager.ts:18-44 | asking again after the first call returns the same id and changes nothing |
| SessionStore.GetSessionKey | utils/session-manager.ts:47-50 | the base key, an underscore and the given or current session id |
| SessionStore.LoadSessionData | utils/session-manager.ts:66-75 | the stored value under the session key, or the default when it is absent, empty or unparsable |
| SessionStore.UpdateSessionMetadata | utils/session-manager.ts:78-92 | writes the session's metadata record with both stamps at now and the session's settings, timer state and summary |
| SessionStore.SaveSessionData | utils/session-manager.ts:53-92 | writes only the session key and the metadata key resolved after it; the document stays under its key unless that is the metadata key; the metadata record carries the id and is stamped with now; every other key keeps its value |
| SessionStore.SaveThenLoad | utils/session-manager.ts:53-75 | loading a key saved for a session returns the saved value |
| SessionStore.LoadDefault | utils/session-manager.ts:66-75 | an absent key loads the default |
| SessionStore.SaveKeepsOtherKeys | utils/session-manager.ts:53-63 | saving touches only the session key and the session's metadata key |
| SessionStore.DeleteSession | utils/session-manager.ts:137-155 | removes exactly the keys containing an underscore and the id; every other key keeps its value |
| SessionStore.DeletedSessionLoadsDefault | utils/session-manager.ts:137-155 | after deleting a session, its data loads as the default |
| SessionStore.SortByRecency | utils/session-manager.ts:111-112 | a permutation of the sessions, most recently updated first |
| SessionStore.ScanSessions | utils/session-manager.ts:95-110 | collects only sessions stored under metadata keys; every session stored before the first unparsable metadata value is collected; the scan completes when no metadata value is unparsable |
| SessionStore.GetActiveSessions | utils/session-manager.ts:95-118 | only values stored under metadata keys; every session stored under a metadata key that comes before any unparsable metadata value is listed; when every metadata value parses, exactly the scanned sessions, most recently updated first |
| SessionStore.CleanupOldSessions | utils/session-manager.ts:121-134 | removes exactly the keys naming a listed session last updated more than a day before now; every other key keeps its value |
| SessionStore.StaleMemberDoomed | utils/session-manager.ts:121-134 | a key naming any listed session older than the cutoff is marked for removal |
| SessionStore.StaleSessionCleanedUp | utils/session-manager.ts:95-134 | every key naming a session stored before any unparsable metadata value and last updated more than a day ago is removed |
| SessionStore.DoomedMeansStale | utils/session-manager.ts:121-134 | a key is removed only because it belongs to a stale session |
| SessionStore.CreateNewSession | utils/session-manager.ts:158-175 | a fresh id, stored in the tab and the URL |
| SessionStore.NewSessionIsCurrent | utils/session-manager.ts:158-175 | right after creating a session, the current session id is the new one |
| SessionStatus.GetSessionStatus | components/session-manager.tsx:76-82 | "Not Started" exactly without a truthy timer state; completion wins over running, running over a current item, otherwise "Ready" |
| SessionStatus.StatusColorsDistinct | components/session-manager.tsx:84-97 | grey exactly for "Not Started"; distinct statuses get distinct colours |
| SessionStatus.KeysStill | components/session-manager.tsx:35-40 | exactly the listed keys that are still present in storage |
| SessionStatus.RefreshSessions | components/session-manager.tsx:35-40 | a key survives exactly when it does not belong to a stale listed session, keeping its value; every listed session is stored under a surviving metadata key; when no surviving metadata value fails to parse, every surviving session is listed |
| SessionStatus.HandleDeleteSession | components/session-manager.tsx:53-70 | a request for the current session leaves storage and the list unchanged; otherwise a key survives exactly when it neither names the deleted session nor belongs to a stale listed session, every survivor keeps its value, and the list is the refreshed list of the store after deletion |
| SessionStatus.CurrentSessionNotDeleted | components/session-manager.tsx:53-61 | asking to delete the current session leaves storage unchanged |
| SettingsDialog.HandleSave | components/agenda-settings-dialog.tsx:35-53 | the settings are passed on exactly when no item title is blank after trimming, and unchanged |
| SettingsDialog.AddAgendaItem | components/agenda-settings-dialog.tsx:55-60 | appends "New Item", five minutes, no colour; nothing else changes |
| SettingsDialog.RemoveAgendaItem | components/agenda-settings-dialog.tsx:62-69 | deletes exactly the given index, keeping the order of the rest |
| SettingsDialog.RemoveButtonKeepsAnItem | components/agenda-settings-dialog.tsx:157 | the disabled remove button never empties a non-empty agenda |
| SettingsDialog.RemoveThenReinsert | components/agenda-settings-dialog.tsx:62-69 | putting the removed item back at its index restores the agenda |
| SettingsDialog.UpdateAgendaItem | components/agenda-settings-dialog.tsx:71-78 | changes only the given field of the given item |
| SettingsDialog.UpdateSoundSelection | components/agenda-settings-dialog.tsx:80-88 | changes only the given sound type's entry |
| SettingsDialog.ParseMinutes | components/agenda-settings-dialog.tsx:148 | a non-numeric or zero entry becomes one; any other parsed value is kept |
| SettingsDialog.MinutesRoundTrip | components/agenda-settings-dialog.tsx:148 | typing a positive number of minutes yields that number |
| SettingsDialog.MinutesPositiveWithoutMinus | components/agenda-settings-dialog.tsx:148 | an entry with no minus sign always gives at least one minute |
| SettingsDialog.ApplyEditKeepsValidAgenda | components/agenda-settings-dialog.tsx:55-157 | every edit the dialog offers keeps the agenda non-empty with positive minutes, as long as no minus sign is typed |
| ColorUtils.Wrap | utils/color-utils.ts:4-19 | empty for a missing or empty colour; otherwise the prefix, the colour and the suffix |
| ColorUtils.GetColorClasses | utils/color-utils.ts:22-37 | background from the light helper, progress and dot from the background helper, text from the text helper; four empty strings exactly for a missing or empty colour |
| ColorUtils.ClassesNameTheirColor | utils/color-utils.ts:4-37 | for a non-empty colour, each helper's class reads back as the colour between its prefix and suffix; for a missing or empty colour nothing reads back |
| ColorUtils.ClassesInjective | utils/color-utils.ts:22-37 | different non-empty colours give different classes |
| ColorPicker.FindByValue | components/color-picker.tsx:46-49 | the first option with the value, or none exactly when no option has it |
| ColorPicker.PreviewClass | components/color-picker.tsx:32-35 | grey for the empty colour, the background class otherwise |
| ColorPicker.OptionValuesDistinct | components/color-picker.tsx:9-28 | palette values are pairwise distinct |
| ColorPicker.ColorNameOfValue | components/color-picker.tsx:46-49 | the name of the option with the value, or "Default" when none has it |
| ColorPicker.Checked | components/color-picker.tsx:72 | the check mark shows on exactly the options with the value: one if it is in the palette, none otherwise |
| TimerFindings.StalePlanShowsFalseOvertime | components/countdown-agenda.tsx:876-895 | as written, lengthening a future item mid-meeting breaks the invariant and later shows overtime with 299 seconds still left |
| TimerFindings.StaleEditThenNext | components/countdown-agenda.tsx:876-895 | as written, lengthening the second item breaks the invariant; after the skip its countdown shows ten minutes while its record still plans five |
| TimerFindings.ReplannedEditThenNext | components/countdown-agenda.tsx:851-899 | with the corrected edit the edited state is valid, and after the skip the countdown and the record both plan ten minutes |
| TimerFindings.ReplannedEditNoFalseOvertime | components/countdown-agenda.tsx:851-899 | with the corrected edit the same run stays valid and shows no overtime |
| TimerFindings.EditThenNextKeepsOvertimeHonest | components/countdown-agenda.tsx:505-541 | after a corrected edit and a skip, overtime is shown exactly when no time is left, before and after a tick |
| TimerFindings.PopoutResumeCountsPausedTime | components/countdown-agenda.tsx:127-129 | as written, a minute paused from the pop-out is counted as meeting time on the next tick |
| TimerFindings.CorrectedResumeCountsOneSecond | components/countdown-agenda.tsx:489-497 | with the corrected resume the same run counts one second |
| TimerFindings.ResumeCountsFromResume | components/countdown-agenda.tsx:489-497 | after a corrected resume, the next tick counts only the whole seconds since the resume |
| Strings.ParseNatToString | components/meeting-summary-dialog.tsx:42 | decimal rendering of a natural number reads back as the number |
| Strings.TrimEmptyIffBlank | components/agenda-settings-dialog.tsx:37-46 | a title trims to empty exactly when it is all whitespace |

## Left out

- The timer's React plumbing is left out: effect scheduling, the one-second interval, stale closures and in-place record mutation. `Tick` and `ReceiveCommand` are atomic functions over the current state, and `Date.now()` is a parameter.
- The snapshot write to storage is modelled as `TimerSync.ToSnapshot`. The storage call itself and its quota errors are left out.
- Scrubbing is left out up to the target countdown. The mouse or touch position becomes a fraction in floating point, which is clamped and rounded. `TimerEngine.Scrub` takes the rounded target countdown `t`, with `0 <= t <= planned`.
- The drag lifecycle is left out: pausing while dragging and resuming after.
- The float progress percentage is left out.
- Audio is left out: `initializeAudio`, `playSound`, test sounds and the sound library.
- Email, clipboard, PDF generation and the network routes are left out; they are I/O.
- Opening and closing windows is left out: the pop-out, user guide and video pages.
- The template manager dialog, font settings, persisted-state hook, loading a template and saving as a template are left out. They are dialog wrappers over the modelled template store.
- JSON text is abstracted. Stores hold structured values, with `Corrupt`/`Garbage`/`Unparsable` for text that fails to parse. A metadata value that parses to something other than a session record is skipped in the session list.
- Random suffixes and the clock in generated session ids are left out. Generated ids are `session_` followed by a counter value in `Env`, which keeps them distinct as the random suffix intends.
- Locale date formatting is left out. The summary takes the date text as a parameter.
- `hasSessionData` is left out. No core operation uses it.
- SettingsDialog.ParseInt: hexadecimal prefixes and exponent forms accepted by JavaScript's `parseInt` are not modelled. Only optional leading whitespace, a sign and a decimal digit prefix are.
- SessionStore.UpdateSessionMetadata: rewrites `createdAt` with the current time on every save, as the code does. It does not keep the first creation time the field's name suggests.
- SessionStore.CreateNewSession: requires a window. The code's unconditional `sessionStorage` calls would throw without one.
- AgendaTypes.ValidAgenda: negative minutes are excluded by this precondition. The minutes input maps only a non-numeric entry or zero to one, so a typed minus sign could otherwise reach the timer.
- TimerQueries.SwitchClasses: the seventeen-case switch is written as one membership test that substitutes the name into the class strings. It yields the same strings as the seventeen literal cases. `TimerQueries.TimeColorClasses` writes the red, yellow and green fallback the same way.
- TimerInvariants.Apply: an agenda edit is applied through the corrected `TimerEngine.EditAgenda`, and only an edit delivering a valid agenda is an action. The edit as written, `TimerEngine.EditAgendaAsWritten`, does not keep the invariant; `TimerFindings.StalePlanShowsFalseOvertime` and `TimerFindings.StaleEditThenNext` show how it fails. Pop-out commands are not actions here; `TimerSync.ReceiveCommandPreservesValid` covers them.
- TimerInvariants.RunPreservesValid: inherits the restrictions of `TimerInvariants.Apply`. It is a statement about runs whose edits use the corrected agenda edit.
- TimerEngine.Tick: the overtime sound cue is not recorded.
- TimerEngine.HandleSettingsChange: the rescaled countdown is computed exactly, as the new length times the time left divided by the old length, rounded half up. The source goes through a floating-point fraction, which can round differently at exact halves.

## Findings

| source | as written | input that shows it | evidently intended | confidence | as-written member | corrected member |
|---|---|---|---|---|---|---|
| components/countdown-agenda.tsx:876-895 | an agenda edit during a meeting re-plans only the current item's ledger record; a later item whose minutes changed keeps its old plan | two 5-minute items, started at 0; lengthen the second to 10 minutes; skip to it; tick at 301 s | the ledger plans every item's current minutes, so overtime starts when the countdown reaches zero | not executed | TimerFindings.StalePlanShowsFalseOvertime | TimerEngine.EditAgenda, TimerInvariants.EditAgendaPreservesValid, TimerInvariants.Apply, TimerInvariants.RunPreservesValid, TimerFindings.ReplannedEditNoFalseOvertime |
| components/countdown-agenda.tsx:127-129 | a "resume" command from the pop-out sets running without moving the tick reference, so the first tick counts the whole pause | one 5-minute item started at 0; pop-out pause at 0.5 s, resume at 60 s; tick at 61 s; the total becomes 61 | resuming restarts the tick clock, as the primary's own resume button does at lines 492-494 | not executed | TimerFindings.PopoutResumeCountsPausedTime | TimerSync.Dispatch, TimerSync.ReceiveCommand, TimerFindings.ResumeCountsFromResume |
