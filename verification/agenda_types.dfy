/**
 * The records shared by the timer, the settings dialog, the template store and
 * the meeting summary: agenda items, settings, templates and the per-item time
 * ledger entry. Durations in the ledger are whole seconds; an item's `time` is
 * whole minutes.
 */
module AgendaTypes {
  import opened Wrappers

  /** One timed segment of a meeting; `color` is absent or a colour name ("" for the default). */
  datatype AgendaItem = AgendaItem(title: string, time: int, color: Option<string>)

  datatype SoundType = StartSound | EndSound | WarningSound | TransitionSound

  /** The sound chosen for each notification kind (a record keyed by SoundType). */
  datatype SoundSelections = SoundSelections(start: string, end: string, warning: string, transition: string)
  {
    function Get(t: SoundType): string {
      match t
      case StartSound => start
      case EndSound => end
      case WarningSound => warning
      case TransitionSound => transition
    }

    /** The selections with the entry for `t` replaced by `id`. */
    function With(t: SoundType, id: string): (r: SoundSelections)
      ensures r.Get(t) == id
      ensures forall u :: u != t ==> r.Get(u) == Get(u)
    {
      match t
      case StartSound => this.(start := id)
      case EndSound => this.(end := id)
      case WarningSound => this.(warning := id)
      case TransitionSound => this.(transition := id)
    }
  }

  datatype FontSettings = FontSettings(family: string, titleSize: int, itemSize: int, timeSize: int)

  datatype AgendaSettings = AgendaSettings(
    title: string,
    agenda: seq<AgendaItem>,
    soundSelections: SoundSelections,
    activeTemplateId: Option<string>,
    fontSettings: FontSettings)

  datatype AgendaTemplate = AgendaTemplate(
    id: string,
    name: string,
    title: string,
    agenda: seq<AgendaItem>,
    soundSelections: SoundSelections,
    createdAt: int,
    updatedAt: int,
    fontSettings: Option<FontSettings>)

  /**
   * The ledger entry for one agenda item: planned and actual seconds, the
   * seconds over plan, and whether the meeting has moved past the item.
   */
  datatype ItemTimeData = ItemTimeData(plannedDuration: int, actualDuration: int, overTime: int, completed: bool)

  /** Planned length of an item in seconds. */
  function PlannedSeconds(item: AgendaItem): int {
    item.time * 60
  }

  /** The agenda the timer accepts: at least one item, every item at least one minute long. */
  predicate ValidAgenda(agenda: seq<AgendaItem>) {
    |agenda| >= 1 && forall i :: 0 <= i < |agenda| ==> agenda[i].time >= 1
  }

  /** The untouched ledger entry for an item. */
  function FreshRecord(item: AgendaItem): ItemTimeData {
    ItemTimeData(PlannedSeconds(item), 0, 0, false)
  }

  /** `agenda.map(item => fresh record)`: the ledger at meeting start and reset. */
  function FreshLedger(agenda: seq<AgendaItem>): (r: seq<ItemTimeData>)
    ensures |r| == |agenda|
    ensures forall i :: 0 <= i < |agenda| ==> r[i] == FreshRecord(agenda[i])
  {
    if |agenda| == 0 then [] else FreshLedger(agenda[..|agenda| - 1]) + [FreshRecord(agenda[|agenda| - 1])]
  }

  function Max(a: int, b: int): int {
    if a >= b then a else b
  }

  /**
   * The ledger discipline for one entry: actual time is never negative and the
   * overtime is exactly the part of the actual time beyond the plan.
   */
  predicate ConsistentRecord(r: ItemTimeData) {
    r.actualDuration >= 0 && r.overTime == Max(0, r.actualDuration - r.plannedDuration)
  }
}
