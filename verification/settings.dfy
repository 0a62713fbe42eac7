/**
  The settings store of src/Config/Settings.ts. The source keeps one module-level `settings`
  object; here each operation takes the current settings and returns the new ones (and, where
  the source returns a value, that value as well).
*/
module Settings {
  import opened Wrappers
  import Features

  /** A general-settings value: the source's `string | boolean`, or `undefined` for a missing key. */
  datatype SettingValue = Text(text: string) | Flag(flag: bool) | Undefined

  /** JavaScript truthiness of a setting value: `true` and every non-empty string. */
  predicate Truthy(v: SettingValue) {
    (v.Flag? && v.flag) || (v.Text? && v.text != "")
  }

  datatype Settings = Settings(
    globalFilter: SettingValue,
    removeGlobalFilter: SettingValue,
    setDoneDate: SettingValue,
    statusTypes: seq<(string, string, string)>,
    features: map<string, bool>,
    generalSettings: map<string, SettingValue>,
    headingOpened: map<string, bool>)

  /** `defaultSettings`. */
  function Defaults(): (s: Settings)
    ensures s.globalFilter == Text("") && s.setDoneDate == Flag(true) && s.removeGlobalFilter == Flag(false)
    ensures s.features == Features.SettingsFlags()
    ensures Lookup(s.generalSettings, "globalFilter") == s.globalFilter
    ensures Lookup(s.generalSettings, "removeGlobalFilter") == s.removeGlobalFilter
    ensures Lookup(s.generalSettings, "setDoneDate") == s.setDoneDate
  {
    Settings(
      Text(""), Flag(false), Flag(true),
      [("", "", "")],
      Features.SettingsFlags(),
      map["globalFilter" := Text(""), "removeGlobalFilter" := Flag(false), "setDoneDate" := Flag(true)],
      map[])
  }

  /**
    `getSettings`: first adds every feature flag missing from the stored flags, with its default,
    then returns a copy. The stored settings change too, so the new store is returned as well.
  */
  function GetSettings(s: Settings): (r: Settings)
    ensures forall name :: name in Features.SettingsFlags() ==> name in r.features
    ensures forall name :: name in s.features ==> name in r.features && r.features[name] == s.features[name]
    ensures forall name :: name in r.features && name !in s.features ==>
      name in Features.SettingsFlags() && r.features[name] == Features.SettingsFlags()[name]
    ensures r == s.(features := r.features)
  {
    var defaults := Features.SettingsFlags();
    s.(features := map name | name in s.features.Keys + defaults.Keys ::
      if name in s.features then s.features[name] else defaults[name])
  }

  /** `Partial<Settings>`: a field that is `None` is not supplied. */
  datatype PartialSettings = PartialSettings(
    globalFilter: Option<SettingValue>,
    removeGlobalFilter: Option<SettingValue>,
    setDoneDate: Option<SettingValue>,
    statusTypes: Option<seq<(string, string, string)>>,
    features: Option<map<string, bool>>,
    generalSettings: Option<map<string, SettingValue>>,
    headingOpened: Option<map<string, bool>>)

  const NoChange := PartialSettings(None, None, None, None, None, None, None)

  /** `{ ...settings, ...newSettings }`: supplied fields replace, the rest are kept. */
  function Merge(s: Settings, p: PartialSettings): (r: Settings)
    ensures p.globalFilter.Some? ==> r.globalFilter == p.globalFilter.value
    ensures p.globalFilter.None? ==> r.globalFilter == s.globalFilter
    ensures p.removeGlobalFilter.Some? ==> r.removeGlobalFilter == p.removeGlobalFilter.value
    ensures p.removeGlobalFilter.None? ==> r.removeGlobalFilter == s.removeGlobalFilter
    ensures p.setDoneDate.Some? ==> r.setDoneDate == p.setDoneDate.value
    ensures p.setDoneDate.None? ==> r.setDoneDate == s.setDoneDate
    ensures p.statusTypes.Some? ==> r.statusTypes == p.statusTypes.value
    ensures p.statusTypes.None? ==> r.statusTypes == s.statusTypes
    ensures p.features.Some? ==> r.features == p.features.value
    ensures p.features.None? ==> r.features == s.features
    ensures p.generalSettings.Some? ==> r.generalSettings == p.generalSettings.value
    ensures p.generalSettings.None? ==> r.generalSettings == s.generalSettings
    ensures p.headingOpened.Some? ==> r.headingOpened == p.headingOpened.value
    ensures p.headingOpened.None? ==> r.headingOpened == s.headingOpened
  {
    Settings(
      p.globalFilter.GetOr(s.globalFilter),
      p.removeGlobalFilter.GetOr(s.removeGlobalFilter),
      p.setDoneDate.GetOr(s.setDoneDate),
      p.statusTypes.GetOr(s.statusTypes),
      p.features.GetOr(s.features),
      p.generalSettings.GetOr(s.generalSettings),
      p.headingOpened.GetOr(s.headingOpened))
  }

  /** `updateSettings`: the shallow merge, then `getSettings` (which also fills in missing flags). */
  function UpdateSettings(s: Settings, p: PartialSettings): (r: Settings)
  {
    GetSettings(Merge(s, p))
  }

  /** Supplied fields win, unsupplied ones are kept, and flags are only ever added. */
  lemma UpdateSettingsShallow(s: Settings, p: PartialSettings)
    ensures var r := UpdateSettings(s, p);
      && r.globalFilter == p.globalFilter.GetOr(s.globalFilter)
      && r.setDoneDate == p.setDoneDate.GetOr(s.setDoneDate)
      && r.removeGlobalFilter == p.removeGlobalFilter.GetOr(s.removeGlobalFilter)
      && r.generalSettings == p.generalSettings.GetOr(s.generalSettings)
      && r.headingOpened == p.headingOpened.GetOr(s.headingOpened)
      && r.statusTypes == p.statusTypes.GetOr(s.statusTypes)
      && (forall name :: name in p.features.GetOr(s.features) ==>
            name in r.features && r.features[name] == p.features.GetOr(s.features)[name])
  {
  }

  function Lookup(m: map<string, SettingValue>, key: string): SettingValue
  {
    if key in m then m[key] else Undefined
  }

  /**
    `updateGeneralSetting`: stores the value, then copies `globalFilter`, `removeGlobalFilter`
    and `setDoneDate` from the general settings to the top-level fields.
  */
  function UpdateGeneralSetting(s: Settings, name: string, value: SettingValue): (r: Settings)
  {
    var s1 := s.(generalSettings := s.generalSettings[name := value]);
    var s2 := UpdateSettings(s1, NoChange.(globalFilter := Some(Lookup(s1.generalSettings, "globalFilter"))));
    var s3 := UpdateSettings(s2, NoChange.(removeGlobalFilter := Some(Lookup(s2.generalSettings, "removeGlobalFilter"))));
    var s4 := UpdateSettings(s3, NoChange.(setDoneDate := Some(Lookup(s3.generalSettings, "setDoneDate"))));
    GetSettings(s4)
  }

  /** The general settings hold the new value under its name, and every other entry is kept. */
  lemma UpdateGeneralSettingStores(s: Settings, name: string, value: SettingValue)
    ensures var r := UpdateGeneralSetting(s, name, value);
      && name in r.generalSettings && r.generalSettings[name] == value
      && forall k :: k in s.generalSettings && k != name ==>
           k in r.generalSettings && r.generalSettings[k] == s.generalSettings[k]
  {
    UpdateGeneralSettingFields(s, name, value);
    StoredIn(UpdateGeneralSetting(s, name, value).generalSettings, s.generalSettings, name, value);
  }

  lemma StoredIn(r: map<string, SettingValue>, m: map<string, SettingValue>, name: string, value: SettingValue)
    requires r == m[name := value]
    ensures name in r && r[name] == value
    ensures forall k :: k in m && k != name ==> k in r && r[k] == m[k]
  {
  }

  /** The three mirrored fields equal their general-settings entries afterwards. */
  lemma UpdateGeneralSettingSyncs(s: Settings, name: string, value: SettingValue)
    ensures var r := UpdateGeneralSetting(s, name, value);
      && r.globalFilter == Lookup(r.generalSettings, "globalFilter")
      && r.removeGlobalFilter == Lookup(r.generalSettings, "removeGlobalFilter")
      && r.setDoneDate == Lookup(r.generalSettings, "setDoneDate")
      && r.statusTypes == s.statusTypes && r.headingOpened == s.headingOpened
  {
    UpdateGeneralSettingFields(s, name, value);
  }

  lemma UpdateGeneralSettingFields(s: Settings, name: string, value: SettingValue)
    ensures var g := s.generalSettings[name := value];
      UpdateGeneralSetting(s, name, value)
      == s.(generalSettings := g, globalFilter := Lookup(g, "globalFilter"),
            removeGlobalFilter := Lookup(g, "removeGlobalFilter"), setDoneDate := Lookup(g, "setDoneDate"),
            features := UpdateGeneralSetting(s, name, value).features)
  {
  }


  /** `isFeatureEnabled`: the stored flag, and false for a flag the store does not have. */
  predicate IsFeatureEnabled(s: Settings, internalName: string)
  {
    internalName in s.features && s.features[internalName]
  }

  /** `toggleFeature`: sets one flag; the returned flags are the new store's flags. */
  function ToggleFeature(s: Settings, internalName: string, enabled: bool): (r: Settings)
    ensures IsFeatureEnabled(r, internalName) == enabled
    ensures forall other :: other != internalName ==> IsFeatureEnabled(r, other) == IsFeatureEnabled(s, other)
    ensures r.features.Keys == s.features.Keys + {internalName}
    ensures r == s.(features := r.features)
  {
    s.(features := s.features[internalName := enabled])
  }

  /** Without the flag in the store a feature reads as disabled. */
  lemma MissingFlagDisabled(s: Settings, internalName: string)
    requires internalName !in s.features
    ensures !IsFeatureEnabled(s, internalName)
  {
  }
}
