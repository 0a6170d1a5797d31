/**
 * Saved agenda templates and the current settings in browser storage
 * (utils/template-storage.ts). Storage is an explicit value passed in and
 * returned; the clock reading `Date.now()` is the parameter `now`. A stored
 * document is either missing (no entry, or the empty string), text that does
 * not parse, or the value it encodes.
 */
module TemplateStorage {
  import opened Wrappers
  import opened AgendaTypes

  const TemplatesKey: string := "countdown-agenda-templates"
  const SettingsKey: string := "countdown-agenda-settings"

  /** The content of one storage entry as the loader sees it. */
  datatype Slot<T> = Missing | Corrupt | Stored(value: T)

  /** The two entries this module reads and writes. */
  datatype Store = Store(templates: Slot<seq<AgendaTemplate>>, settings: Slot<AgendaSettings>)

  /** `getTemplates`: the stored list, or the empty list when it is missing or does not parse. */
  function GetTemplates(store: Store): (r: seq<AgendaTemplate>)
    ensures store.templates.Stored? ==> r == store.templates.value
    ensures !store.templates.Stored? ==> r == []
  {
    match store.templates
    case Stored(ts) => ts
    case _ => []
  }

  /** `findIndex` by id: the first position holding a template with this id. */
  function FindIndex(ts: seq<AgendaTemplate>, id: string): (r: Option<nat>)
    ensures r.None? <==> forall i :: 0 <= i < |ts| ==> ts[i].id != id
    ensures r.Some? ==>
      && r.value < |ts| && ts[r.value].id == id
      && forall j :: 0 <= j < r.value ==> ts[j].id != id
  {
    if |ts| == 0 then None
    else if ts[0].id == id then Some(0)
    else
      match FindIndex(ts[1..], id)
      case None => None
      case Some(k) => Some(k + 1)
  }

  /** No two templates share an id. */
  predicate DistinctIds(ts: seq<AgendaTemplate>) {
    forall i, j :: 0 <= i < j < |ts| ==> ts[i].id != ts[j].id
  }

  /**
   * `saveTemplate`: a template whose id is already stored replaces the first
   * one with that id, stamped with a new update time; a new id is appended
   * with both creation and update time set to `now`.
   */
  function SaveTemplate(store: Store, t: AgendaTemplate, now: int): (r: Store)
    ensures r.settings == store.settings && r.templates.Stored?
    ensures var before := GetTemplates(store);
      var after := GetTemplates(r);
      match FindIndex(before, t.id)
      case Some(i) => after == before[i := t.(updatedAt := now)]
      case None => after == before + [t.(createdAt := now, updatedAt := now)]
  {
    var ts := GetTemplates(store);
    match FindIndex(ts, t.id)
    case Some(i) => store.(templates := Stored(ts[i := t.(updatedAt := now)]))
    case None => store.(templates := Stored(ts + [t.(createdAt := now, updatedAt := now)]))
  }

  /** `getTemplateById`: the first stored template with this id, if any. */
  function GetTemplateById(store: Store, id: string): (r: Option<AgendaTemplate>)
    ensures r.None? <==> forall i :: 0 <= i < |GetTemplates(store)| ==> GetTemplates(store)[i].id != id
    ensures r.Some? ==> r.value.id == id && r.value in GetTemplates(store)
    ensures r.Some? ==> exists i :: 0 <= i < |GetTemplates(store)| && GetTemplates(store)[i] == r.value
                          && forall j :: 0 <= j < i ==> GetTemplates(store)[j].id != id
  {
    var ts := GetTemplates(store);
    match FindIndex(ts, id)
    case Some(i) => Some(ts[i])
    case None => None
  }

  /** `filter` keeping the templates whose id differs. */
  function Without(ts: seq<AgendaTemplate>, id: string): (r: seq<AgendaTemplate>)
    ensures forall i :: 0 <= i < |r| ==> r[i].id != id && r[i] in ts
    ensures forall i :: 0 <= i < |ts| && ts[i].id != id ==> ts[i] in r
    ensures |r| <= |ts|
  {
    if |ts| == 0 then []
    else if ts[0].id == id then Without(ts[1..], id)
    else [ts[0]] + Without(ts[1..], id)
  }

  /**
   * `deleteTemplate`: every template with this id is removed; the settings
   * forget the active template when it was this one, and are left alone when
   * missing or unparsable.
   */
  function DeleteTemplate(store: Store, id: string): (r: Store)
    ensures r.templates == Stored(Without(GetTemplates(store), id))
    ensures store.settings.Stored? && store.settings.value.activeTemplateId == Some(id) ==>
      r.settings == Stored(store.settings.value.(activeTemplateId := None))
    ensures !(store.settings.Stored? && store.settings.value.activeTemplateId == Some(id)) ==>
      r.settings == store.settings
  {
    var settings := match store.settings
      case Stored(s) => if s.activeTemplateId == Some(id) then Stored(s.(activeTemplateId := None)) else store.settings
      case _ => store.settings;
    Store(Stored(Without(GetTemplates(store), id)), settings)
  }

  /** `saveSettings`: the settings entry now holds these settings. */
  function SaveSettings(store: Store, s: AgendaSettings): (r: Store)
    ensures r.templates == store.templates
  {
    store.(settings := Stored(s))
  }

  /** `getSettings`: the stored settings, or nothing when missing or unparsable. */
  function GetSettings(store: Store): (r: Option<AgendaSettings>)
    ensures r.Some? <==> store.settings.Stored?
  {
    match store.settings
    case Stored(s) => Some(s)
    case _ => None
  }

  /** Settings read back after a save are the settings saved. */
  lemma SettingsRoundTrip(store: Store, s: AgendaSettings)
    ensures GetSettings(SaveSettings(store, s)) == Some(s)
  {
  }

  /** A saved template is found by its id, with the update time of the save. */
  lemma SavedTemplateFound(store: Store, t: AgendaTemplate, now: int)
    ensures var found := GetTemplateById(SaveTemplate(store, t, now), t.id);
      && found.Some?
      && found.value.(createdAt := t.createdAt) == t.(updatedAt := now)
  {
    var ts := GetTemplates(store);
    var after := GetTemplates(SaveTemplate(store, t, now));
    match FindIndex(ts, t.id)
    case Some(i) =>
      assert after[i].id == t.id;
      assert FindIndex(after, t.id) == Some(i);
    case None =>
      assert after[|ts|].id == t.id;
      assert FindIndex(after, t.id) == Some(|ts|);
  }

  /** Saving keeps the ids distinct: a known id is replaced in place, never duplicated. */
  lemma SavePreservesDistinctIds(store: Store, t: AgendaTemplate, now: int)
    requires DistinctIds(GetTemplates(store))
    ensures DistinctIds(GetTemplates(SaveTemplate(store, t, now)))
  {
  }

  /** Saving leaves every template of another id where it was. */
  lemma SaveKeepsOthers(store: Store, t: AgendaTemplate, now: int)
    ensures var before := GetTemplates(store);
      var after := GetTemplates(SaveTemplate(store, t, now));
      && |before| <= |after| <= |before| + 1
      && forall i :: 0 <= i < |before| && before[i].id != t.id ==> after[i] == before[i]
  {
  }

  /** After a delete no template with that id is found. */
  lemma DeletedNotFound(store: Store, id: string)
    ensures GetTemplateById(DeleteTemplate(store, id), id).None?
  {
  }

  /** Removing an id no template carries keeps the list as it was. */
  lemma {:induction false} WithoutAbsent(ts: seq<AgendaTemplate>, id: string)
    requires forall i :: 0 <= i < |ts| ==> ts[i].id != id
    ensures Without(ts, id) == ts
  {
    if |ts| > 0 {
      WithoutAbsent(ts[1..], id);
    }
  }

  /** Removing an id drops an appended template carrying it and nothing else. */
  lemma {:induction false} WithoutAppended(ts: seq<AgendaTemplate>, t: AgendaTemplate)
    ensures Without(ts + [t], t.id) == Without(ts, t.id)
  {
    if |ts| == 0 {
      assert [] + [t] == [t];
      assert [t][1..] == [];
    } else {
      assert (ts + [t])[1..] == ts[1..] + [t];
      WithoutAppended(ts[1..], t);
    }
  }

  /**
   * Saving a template under a new id and deleting it again restores the stored
   * list (a missing or unparsable list comes back as the empty list).
   */
  lemma SaveNewThenDelete(store: Store, t: AgendaTemplate, now: int)
    requires forall i :: 0 <= i < |GetTemplates(store)| ==> GetTemplates(store)[i].id != t.id
    ensures GetTemplates(DeleteTemplate(SaveTemplate(store, t, now), t.id)) == GetTemplates(store)
  {
    var ts := GetTemplates(store);
    WithoutAppended(ts, t.(createdAt := now, updatedAt := now));
    WithoutAbsent(ts, t.id);
  }

  /** Deleting an id no template carries leaves the stored list as it was. */
  lemma DeleteAbsentKeepsList(store: Store, id: string)
    requires forall i :: 0 <= i < |GetTemplates(store)| ==> GetTemplates(store)[i].id != id
    ensures GetTemplates(DeleteTemplate(store, id)) == GetTemplates(store)
  {
    WithoutAbsent(GetTemplates(store), id);
  }
}
