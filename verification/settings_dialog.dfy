/**
 * The agenda settings dialog (components/agenda-settings-dialog.tsx): the
 * edits it makes to its local copy of the settings, the minutes field's
 * parse, and the validation that gates saving.
 */
module SettingsDialog {
  import opened Wrappers
  import opened Strings
  import opened AgendaTypes

  /**
   * `handleSave`: the settings are handed on only when every item's title has
   * something besides white space; otherwise nothing is saved.
   */
  function HandleSave(local: AgendaSettings): (r: Option<AgendaSettings>)
    ensures r.Some? <==> forall i :: 0 <= i < |local.agenda| ==> !Blank(local.agenda[i].title)
    ensures r.Some? ==> r.value == local
  {
    if exists i :: 0 <= i < |local.agenda| && Trim(local.agenda[i].title) == "" then
      assert exists i :: 0 <= i < |local.agenda| && Blank(local.agenda[i].title) by {
        var i :| 0 <= i < |local.agenda| && Trim(local.agenda[i].title) == "";
        TrimEmptyIffBlank(local.agenda[i].title);
      }
      None
    else
      assert forall i :: 0 <= i < |local.agenda| ==> !Blank(local.agenda[i].title) by {
        forall i | 0 <= i < |local.agenda|
          ensures !Blank(local.agenda[i].title)
        {
          TrimEmptyIffBlank(local.agenda[i].title);
        }
      }
      Some(local)
  }

  /** The item `addAgendaItem` appends. */
  const NewItem: AgendaItem := AgendaItem("New Item", 5, Some(""))

  /** `addAgendaItem`: the new item goes last; the others stay as they were. */
  function AddAgendaItem(local: AgendaSettings): (r: AgendaSettings)
    ensures |r.agenda| == |local.agenda| + 1
    ensures r.agenda[..|local.agenda|] == local.agenda && r.agenda[|local.agenda|] == NewItem
    ensures r.(agenda := local.agenda) == local
  {
    local.(agenda := local.agenda + [NewItem])
  }

  /**
   * `removeAgendaItem`: `splice(index, 1)`, which removes the item at the index
   * and does nothing for an index past the end.
   */
  function RemoveAgendaItem(local: AgendaSettings, index: nat): (r: AgendaSettings)
    ensures index < |local.agenda| ==>
      && |r.agenda| == |local.agenda| - 1
      && r.agenda[..index] == local.agenda[..index]
      && r.agenda[index..] == local.agenda[index + 1..]
    ensures index >= |local.agenda| ==> r == local
    ensures r.(agenda := local.agenda) == local
  {
    if index < |local.agenda| then local.(agenda := local.agenda[..index] + local.agenda[index + 1..])
    else local
  }

  /** The remove button: disabled while only one item is left. */
  function RemoveButton(local: AgendaSettings, index: nat): (r: AgendaSettings)
    ensures |local.agenda| <= 1 ==> r == local
    ensures |local.agenda| > 1 ==> r == RemoveAgendaItem(local, index)
  {
    if |local.agenda| <= 1 then local else RemoveAgendaItem(local, index)
  }

  /** The dialog never empties a non-empty agenda. */
  lemma RemoveButtonKeepsAnItem(local: AgendaSettings, index: nat)
    requires |local.agenda| >= 1
    ensures |RemoveButton(local, index).agenda| >= 1
  {
  }

  /** Removing by index and re-inserting the removed item at the same index restores the agenda. */
  lemma RemoveThenReinsert(local: AgendaSettings, index: nat)
    requires index < |local.agenda|
    ensures var r := RemoveAgendaItem(local, index).agenda;
      r[..index] + [local.agenda[index]] + r[index..] == local.agenda
  {
    var r := RemoveAgendaItem(local, index).agenda;
    assert local.agenda == local.agenda[..index] + [local.agenda[index]] + local.agenda[index + 1..];
  }

  /** One field of an agenda item with its new value. */
  datatype ItemField = TitleField(title: string) | TimeField(time: int) | ColorField(color: string)

  /** The item with one field replaced. */
  function WithField(item: AgendaItem, f: ItemField): (r: AgendaItem)
    ensures f.TitleField? ==> r == item.(title := f.title)
    ensures f.TimeField? ==> r == item.(time := f.time)
    ensures f.ColorField? ==> r == item.(color := Some(f.color))
  {
    match f
    case TitleField(t) => item.(title := t)
    case TimeField(m) => item.(time := m)
    case ColorField(c) => item.(color := Some(c))
  }

  /** `updateAgendaItem`: one field of one item changes; everything else stays. */
  function UpdateAgendaItem(local: AgendaSettings, index: nat, f: ItemField): (r: AgendaSettings)
    requires index < |local.agenda|
    ensures |r.agenda| == |local.agenda|
    ensures r.agenda[index] == WithField(local.agenda[index], f)
    ensures forall j :: 0 <= j < |local.agenda| && j != index ==> r.agenda[j] == local.agenda[j]
    ensures r.(agenda := local.agenda) == local
  {
    local.(agenda := local.agenda[index := WithField(local.agenda[index], f)])
  }

  /** `updateSoundSelection`: one sound type's entry changes; the others and the rest of the settings stay. */
  function UpdateSoundSelection(local: AgendaSettings, t: SoundType, soundId: string): (r: AgendaSettings)
    ensures r.soundSelections.Get(t) == soundId
    ensures forall u :: u != t ==> r.soundSelections.Get(u) == local.soundSelections.Get(u)
    ensures r.(soundSelections := local.soundSelections) == local
  {
    local.(soundSelections := local.soundSelections.With(t, soundId))
  }

  /** How many leading characters are decimal digits. */
  function DigitPrefixLength(s: string): (n: nat)
    ensures n <= |s| && AllDigits(s[..n])
    ensures n < |s| ==> !IsDigit(s[n])
  {
    if |s| > 0 && IsDigit(s[0]) then
      var n := 1 + DigitPrefixLength(s[1..]);
      assert s[..n] == [s[0]] + s[1..][..n - 1];
      n
    else 0
  }

  /**
   * `Number.parseInt` in base ten: leading white space skipped, an optional
   * sign, then the longest run of digits; no digits is `NaN`, here `None`.
   */
  function ParseInt(text: string): Option<int> {
    var t := TrimStart(text);
    var signed := |t| > 0 && (t[0] == '-' || t[0] == '+');
    var body := if signed then t[1..] else t;
    var n := DigitPrefixLength(body);
    var magnitude: int := if n == 0 then 0 else ParseNat(body[..n]);
    if n == 0 then None
    else if signed && t[0] == '-' then Some(-magnitude)
    else Some(magnitude)
  }

  /** The minutes field: `parseInt(value) || 1`, so unparsable text and zero both become one. */
  function ParseMinutes(text: string): (r: int)
    ensures r != 0
    ensures ParseInt(text).None? || ParseInt(text) == Some(0) ==> r == 1
    ensures ParseInt(text).Some? && ParseInt(text) != Some(0) ==> r == ParseInt(text).value
  {
    match ParseInt(text)
    case None => 1
    case Some(n) => if n == 0 then 1 else n
  }

  /** A run of digits is its own longest digit prefix. */
  lemma {:induction false} DigitPrefixOfDigits(s: string)
    requires AllDigits(s)
    ensures DigitPrefixLength(s) == |s|
  {
    if |s| > 0 {
      DigitPrefixOfDigits(s[1..]);
    }
  }

  /** A decimal rendering parses back to its number. */
  lemma ParseIntOfDecimal(n: nat)
    ensures ParseInt(NatToString(n)) == Some(n)
  {
    var s := NatToString(n);
    assert !IsWhitespace(s[0]);
    assert TrimStart(s) == s;
    assert s[0] != '-' && s[0] != '+';
    DigitPrefixOfDigits(s);
    assert s[..|s|] == s;
    ParseNatToString(n);
  }

  /** The minutes field shows an item's minutes; reading them back keeps any positive value. */
  lemma MinutesRoundTrip(minutes: nat)
    requires minutes >= 1
    ensures ParseMinutes(NatToString(minutes)) == minutes
  {
    ParseIntOfDecimal(minutes);
  }

  /**
   * Only a minus sign yields a negative number of minutes: text without one
   * (after leading white space) always gives at least one minute.
   */
  lemma MinutesPositiveWithoutMinus(text: string)
    requires var t := TrimStart(text); |t| == 0 || t[0] != '-'
    ensures ParseMinutes(text) >= 1
  {
  }

  /** An edit the items tab can make. */
  datatype ItemsEdit = AddItem | RemoveItem(index: nat) | SetTitle(index: nat, title: string)
                     | SetMinutes(index: nat, text: string) | SetColor(index: nat, color: string)

  /** The edits a rendered row can issue: indices of existing rows only. */
  predicate Issuable(local: AgendaSettings, e: ItemsEdit) {
    match e
    case AddItem => true
    case RemoveItem(i) => i < |local.agenda|
    case SetTitle(i, _) => i < |local.agenda|
    case SetMinutes(i, _) => i < |local.agenda|
    case SetColor(i, _) => i < |local.agenda|
  }

  /** The items tab's edit applied to the local settings. */
  function ApplyEdit(local: AgendaSettings, e: ItemsEdit): (r: AgendaSettings)
    requires Issuable(local, e)
    ensures r.title == local.title && r.soundSelections == local.soundSelections
  {
    match e
    case AddItem => AddAgendaItem(local)
    case RemoveItem(i) => RemoveButton(local, i)
    case SetTitle(i, t) => UpdateAgendaItem(local, i, TitleField(t))
    case SetMinutes(i, text) => UpdateAgendaItem(local, i, TimeField(ParseMinutes(text)))
    case SetColor(i, c) => UpdateAgendaItem(local, i, ColorField(c))
  }

  /** The minutes text carries no minus sign. */
  predicate Unsigned(e: ItemsEdit) {
    e.SetMinutes? ==> var t := TrimStart(e.text); |t| == 0 || t[0] != '-'
  }

  /**
   * Edits keep the agenda timer-ready (non-empty, every item at least a
   * minute), as long as no minus sign is typed into a minutes field.
   */
  lemma ApplyEditKeepsValidAgenda(local: AgendaSettings, e: ItemsEdit)
    requires ValidAgenda(local.agenda) && Issuable(local, e) && Unsigned(e)
    ensures ValidAgenda(ApplyEdit(local, e).agenda)
  {
    match e
    case AddItem =>
    case RemoveItem(i) =>
      var r := ApplyEdit(local, e).agenda;
      if |local.agenda| > 1 {
        forall j | 0 <= j < |r|
          ensures r[j].time >= 1
        {
          if j < i { assert r[j] == r[..i][j]; } else { assert r[j] == r[i..][j - i]; }
        }
      }
    case SetTitle(i, t) =>
    case SetMinutes(i, text) => MinutesPositiveWithoutMinus(text);
    case SetColor(i, c) =>
  }
}
