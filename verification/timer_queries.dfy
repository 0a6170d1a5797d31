/**
 * What the timer view derives from its state (components/countdown-agenda.tsx):
 * the meeting's total and remaining time, the item up next, and the colour of
 * the countdown.
 */
module TimerQueries {
  import opened Wrappers
  import opened AgendaTypes
  import opened TimerModel
  import opened TimerEngine
  import opened ColorUtils
  import opened ColorPicker

  /** Sum of the items' minutes, as `reduce((total, item) => total + item.time, 0)`. */
  function SumMinutes(items: seq<AgendaItem>): int {
    if |items| == 0 then 0 else items[0].time + SumMinutes(items[1..])
  }

  /** Sum of the items' planned seconds, as `reduce((total, item) => total + item.time * 60, 0)`. */
  function SumPlannedSeconds(items: seq<AgendaItem>): int {
    if |items| == 0 then 0 else PlannedSeconds(items[0]) + SumPlannedSeconds(items[1..])
  }

  /** Summing seconds is summing minutes, times sixty. */
  lemma {:induction false} SecondsAreSixtyMinutes(items: seq<AgendaItem>)
    ensures SumPlannedSeconds(items) == 60 * SumMinutes(items)
  {
    if |items| > 0 {
      SecondsAreSixtyMinutes(items[1..]);
    }
  }

  /** Every item of a valid agenda lasts at least a minute, so the sum is at least the count. */
  lemma {:induction false} SumMinutesAtLeastCount(items: seq<AgendaItem>)
    requires forall i :: 0 <= i < |items| ==> items[i].time >= 1
    ensures SumMinutes(items) >= |items|
  {
    if |items| > 0 {
      SumMinutesAtLeastCount(items[1..]);
    }
  }

  /** `getTotalMeetingTime`: the agenda's length in minutes; a valid agenda's is positive. */
  function TotalMeetingMinutes(agenda: seq<AgendaItem>): (r: int)
    ensures ValidAgenda(agenda) ==> r >= |agenda| >= 1
  {
    assert ValidAgenda(agenda) ==> SumMinutes(agenda) >= |agenda| by {
      if ValidAgenda(agenda) { SumMinutesAtLeastCount(agenda); }
    }
    SumMinutes(agenda)
  }

  /** `agenda.slice(k)`: empty once `k` is past the end. */
  function From(agenda: seq<AgendaItem>, k: nat): seq<AgendaItem> {
    if k <= |agenda| then agenda[k..] else []
  }

  /**
   * `getRemainingMeetingTime`: before the meeting, the whole agenda in seconds;
   * during it, the current item's positive time left plus the full plans of the
   * items after it.
   */
  function RemainingMeetingTime(s: TimerState): (r: int)
    ensures s.currentIndex.None? ==> r == SumPlannedSeconds(s.agenda)
    ensures s.currentIndex.Some? && s.currentIndex.value == |s.agenda| - 1 ==> r == Max(0, s.timeLeft)
    ensures s.currentIndex.Some? && s.currentIndex.value < |s.agenda| - 1 ==>
      r == Max(0, s.timeLeft) + PlannedSeconds(s.agenda[s.currentIndex.value + 1])
                              + SumPlannedSeconds(From(s.agenda, s.currentIndex.value + 2))
  {
    SecondsAreSixtyMinutes(s.agenda);
    if s.currentIndex.None? then TotalMeetingMinutes(s.agenda) * 60
    else
      var k := s.currentIndex.value + 1;
      assert k < |s.agenda| ==>
        SumPlannedSeconds(From(s.agenda, k)) == PlannedSeconds(s.agenda[k]) + SumPlannedSeconds(From(s.agenda, k + 1)) by {
        if k < |s.agenda| { SumFromSplit(s.agenda, k); }
      }
      Max(0, s.timeLeft) + SumPlannedSeconds(From(s.agenda, k))
  }

  /** The sum over a suffix splits off its first item. */
  lemma SumFromSplit(agenda: seq<AgendaItem>, k: nat)
    requires k < |agenda|
    ensures SumPlannedSeconds(From(agenda, k)) == PlannedSeconds(agenda[k]) + SumPlannedSeconds(From(agenda, k + 1))
  {
    assert agenda[k..][1..] == agenda[k + 1..];
  }

  /** Starting the meeting leaves exactly the whole agenda's time remaining, as before it. */
  lemma RemainingAtStart(s: TimerState, now: int)
    requires ValidAgenda(s.agenda)
    ensures RemainingMeetingTime(Start(s, now)) == 60 * TotalMeetingMinutes(s.agenda)
    ensures s.currentIndex.None? ==> RemainingMeetingTime(Start(s, now)) == RemainingMeetingTime(s)
  {
    SumFromSplit(s.agenda, 0);
    assert From(s.agenda, 0) == s.agenda;
    SecondsAreSixtyMinutes(s.agenda);
  }

  /**
   * Moving on to a next item drops the remaining time by exactly what was left
   * on the item being left: the next item's plan was already counted.
   */
  lemma RemainingAfterNext(s: TimerState, now: int)
    requires Valid(s) && s.currentIndex.Some? && s.currentIndex.value < |s.agenda| - 1
    ensures RemainingMeetingTime(SkipToNext(s, now)) == RemainingMeetingTime(s) - Max(0, s.timeLeft)
  {
    SumFromSplit(s.agenda, s.currentIndex.value + 1);
  }

  /**
   * A tick drops the remaining time by the seconds it takes off the countdown:
   * never more than elapsed, never below the items still to come.
   */
  lemma RemainingAfterTick(s: TimerState, now: int)
    requires s.running && s.currentIndex.Some? && s.timeLeft >= 0
    ensures var e := ElapsedSeconds(s.lastTickMs, now);
      var d := RemainingMeetingTime(s) - RemainingMeetingTime(Tick(s, now));
      && 0 <= d <= s.timeLeft
      && (e > 0 ==> d == Min(e, s.timeLeft))
      && (e <= 0 ==> d == 0)
  {
  }

  function Min(a: int, b: int): int {
    if a <= b then a else b
  }

  /** `getNextUpItem`: the item after the current one, when there is one. */
  function NextUpItem(s: TimerState): (r: Option<AgendaItem>)
    requires IndexInRange(s)
    ensures r.Some? <==> s.currentIndex.Some? && s.currentIndex.value < |s.agenda| - 1
  {
    if s.currentIndex.None? || s.currentIndex.value >= |s.agenda| - 1 then None
    else Some(s.agenda[s.currentIndex.value + 1])
  }

  /** The item announced as next up is the one a skip makes current, with its full time. */
  lemma NextUpBecomesCurrent(s: TimerState, now: int)
    requires IndexInRange(s) && NextUpItem(s).Some?
    ensures var t := SkipToNext(s, now);
      && t.currentIndex.Some? && t.currentIndex.value < |t.agenda|
      && t.agenda[t.currentIndex.value] == NextUpItem(s).value
      && t.timeLeft == PlannedSeconds(NextUpItem(s).value)
  {
  }

  /** `getTimeColor`: red when in overtime or out of time, yellow in the last minute, green before. */
  function TimeColor(s: TimerState): (r: string)
    ensures r == "red" || r == "yellow" || r == "green"
    ensures r == "green" <==> !s.isOvertime && s.timeLeft > 60
  {
    if s.isOvertime || s.timeLeft <= 0 then "red"
    else if s.timeLeft <= 60 then "yellow"
    else "green"
  }

  /** While the countdown agrees with the ledger, red means overtime and nothing else. */
  lemma TimeColorRedIffOvertime(s: TimerState)
    requires Synced(s)
    ensures TimeColor(s) == "red" <==> s.isOvertime
    ensures TimeColor(s) == "yellow" <==> 0 < s.timeLeft <= 60
  {
  }

  /** The seventeen colour names the view's switch recognises. */
  const EngineNamedColors: set<string> := {
    "red", "orange", "amber", "yellow", "lime", "green", "emerald", "teal", "cyan",
    "sky", "blue", "indigo", "violet", "purple", "fuchsia", "pink", "rose"
  }

  /**
   * The view's own `switch (color)` over the custom colours. Each of its
   * seventeen cases returns the light background, the saturated background for
   * progress bar and dot, and the text shade of its own name; any other name
   * falls out of the switch.
   */
  function SwitchClasses(color: string): (r: Option<ColorClasses>)
    ensures r.Some? <==> color in EngineNamedColors
  {
    if color in EngineNamedColors then
      Some(ColorClasses("bg-" + color + "-100", "bg-" + color + "-500", "bg-" + color + "-500", "text-" + color + "-600"))
    else None
  }

  /**
   * For each name it recognises, the view's switch gives the shared colour
   * helper's classes, so the two class tables cannot drift apart.
   */
  lemma SwitchMatchesColorUtils(color: string)
    requires color in EngineNamedColors
    ensures SwitchClasses(color) == Some(GetColorClasses(Some(color)))
  {
  }

  /** Every non-default colour the picker offers is one the view's switch recognises. */
  lemma PaletteRecognised()
    ensures forall i :: 0 <= i < |ColorOptions| && ColorOptions[i].value != "" ==>
              ColorOptions[i].value in EngineNamedColors
  {
  }

  /**
   * The view's `switch (timeColor)` fallback: red and yellow get their own
   * classes, anything else the green ones. Each case spells out the classes of
   * its colour's name.
   */
  function TimeColorClasses(tc: string): ColorClasses {
    var c := if tc == "red" || tc == "yellow" then tc else "green";
    ColorClasses("bg-" + c + "-100", "bg-" + c + "-500", "bg-" + c + "-500", "text-" + c + "-600")
  }

  /** The fallback classes are the shared helper's classes for the time colour. */
  lemma TimeColorClassesMatch(tc: string)
    requires tc == "red" || tc == "yellow" || tc == "green"
    ensures TimeColorClasses(tc) == GetColorClasses(Some(tc))
  {
    assert tc != "";
  }

  /** The current item's colour when it is truthy; `agenda[currentIndex]?.color`. */
  function CurrentColor(s: TimerState): Option<string> {
    if s.currentIndex.Some? && s.currentIndex.value < |s.agenda| && Truthy(s.agenda[s.currentIndex.value].color)
    then s.agenda[s.currentIndex.value].color
    else None
  }

  /**
   * `getColorClasses` of the view, stated in terms of the shared helper:
   * overtime is red whatever the item's colour; a palette colour is that
   * colour's classes; with no colour, or one outside the palette, the time
   * colour decides.
   */
  function EngineColorClasses(s: TimerState): (r: ColorClasses)
    ensures s.isOvertime ==> r == GetColorClasses(Some("red"))
    ensures !s.isOvertime && CurrentColor(s).Some? && CurrentColor(s).value in EngineNamedColors ==>
      r == GetColorClasses(CurrentColor(s))
    ensures !s.isOvertime && (CurrentColor(s).None? || CurrentColor(s).value !in EngineNamedColors) ==>
      r == GetColorClasses(Some(TimeColor(s)))
  {
    TimeColorClassesMatch("red");
    TimeColorClassesMatch(TimeColor(s));
    if s.isOvertime then TimeColorClasses("red")
    else
      var custom := if CurrentColor(s).Some? then SwitchClasses(CurrentColor(s).value) else None;
      if custom.Some? then
        SwitchMatchesColorUtils(CurrentColor(s).value);
        custom.value
      else TimeColorClasses(TimeColor(s))
  }
}
