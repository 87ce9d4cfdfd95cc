/**
  The zone registry (timezone/timezones.go): zone kinds, the ordered zone
  catalog, the built-in presets, the rendering rule StringTime and the preset
  serialisation shape. The root package's timezones.go holds the same catalog
  and preset table entry for entry; module RootTimezones adds what it does
  differently.
*/
module Timezone {
  import opened Results
  import Decimal

  datatype TimezoneType = LocalTimezoneType | WithLocationTimezoneType | UnixTimezoneType

  datatype TimezoneDefinition = TimezoneDefinition(id: int, locationAsString: string, name: string, kind: TimezoneType)

  /**
    t.In(time.LoadLocation(location)).Format(layout) for the instant with the
    given epoch seconds: the Go time package's calendar and zone rules.
  */
  type Formatter = (int, string, string) -> string

  /** The text a zone's field shows for instant `t` under layout `format`. */
  function StringTime(td: TimezoneDefinition, t: int, format: string, formatIn: Formatter): (r: string)
    ensures td.kind == UnixTimezoneType ==> |r| > 0 && (r[0] == '-' <==> t < 0)
  {
    if td.kind == UnixTimezoneType then Decimal.FormatInt(t) else formatIn(t, td.locationAsString, format)
  }

  /** The Unix pseudo-zone prints decimal epoch seconds whatever the format is. */
  lemma UnixIgnoresFormat(td: TimezoneDefinition, t: int, f: string, g: string, formatIn: Formatter, formatIn': Formatter)
    requires td.kind == UnixTimezoneType
    ensures StringTime(td, t, f, formatIn) == StringTime(td, t, g, formatIn') == Decimal.FormatInt(t)
  {
  }

  /** Any other zone's text depends only on the instant, the zone's location and the format. */
  lemma LocationZonesDependOnLocation(td: TimezoneDefinition, td': TimezoneDefinition, t: int, f: string, formatIn: Formatter)
    requires td.kind != UnixTimezoneType && td'.kind != UnixTimezoneType
    requires td.locationAsString == td'.locationAsString
    ensures StringTime(td, t, f, formatIn) == StringTime(td', t, f, formatIn)
  {
  }

  /** The Unix field's text parses back to its instant: the render-then-parse round trip. */
  lemma UnixRenderParseRoundTrip(td: TimezoneDefinition, t: int, f: string, formatIn: Formatter)
    requires td.kind == UnixTimezoneType && Decimal.IsInt64(t)
    ensures Decimal.ParseInt(StringTime(td, t, f, formatIn)) == Ok(t)
  {
    Decimal.FormatParseRoundTrip(t);
  }

  /**
    For the Unix field, equal texts mean equal instants, so comparing rendered
    text before SetText can never hide a change of the timestamp.
  */
  lemma UnixTextComparisonExact(td: TimezoneDefinition, t: int, t': int, f: string, formatIn: Formatter)
    requires td.kind == UnixTimezoneType && Decimal.IsInt64(t) && Decimal.IsInt64(t')
    ensures StringTime(td, t, f, formatIn) == StringTime(td, t', f, formatIn) <==> t == t'
  {
    Decimal.FormatIntInjective(t, t');
  }

  datatype Preset = Preset(id: int, name: string, timezones: seq<int>)

  // Preset ids; id 0 is reserved for the None preset.
  const DeveloperPreset := 1
  const USPreset := 2
  const EuropePreset := 3
  const USEuropePreset := 4
  const LastInternalId := 5

  // Zone ids.
  const Local := 0
  const Unix := 1
  const HST_Pacific_Honolulu_US := 2
  const AKST_AKDT_Alaska_US := 3
  const PST_PDT_Pacific_US := 4
  const MST_Mountain_US := 5
  const CST_CDT_Central_US := 6
  const EST_EDT_Eastern_US := 7
  const AST_Atlantic_GD := 8
  const GMT_BST_Greenwich_UK := 9
  const CET_CEST_Central_Europe_France := 10
  const EET_EEST_Eastern_Europe_Finland := 11
  const MSK_Moscow_Russia := 12
  const IST_India_India := 13
  const CST_China_China := 14
  const AEST_AEDT_Australia_Australia := 15
  const UTC := 16

  const DefaultPresets: seq<Preset> := [
    Preset(DeveloperPreset, "Developer",
      [Local, Unix, UTC, PST_PDT_Pacific_US, CST_CDT_Central_US, CET_CEST_Central_Europe_France]),
    Preset(USPreset, "US",
      [Local, HST_Pacific_Honolulu_US, AKST_AKDT_Alaska_US, PST_PDT_Pacific_US, MST_Mountain_US,
       CST_CDT_Central_US, EST_EDT_Eastern_US, AST_Atlantic_GD]),
    Preset(EuropePreset, "Europe",
      [Local, GMT_BST_Greenwich_UK, CET_CEST_Central_Europe_France, EET_EEST_Eastern_Europe_Finland, MSK_Moscow_Russia]),
    Preset(USEuropePreset, "US & Europe",
      [Local, HST_Pacific_Honolulu_US, AKST_AKDT_Alaska_US, PST_PDT_Pacific_US, MST_Mountain_US,
       CST_CDT_Central_US, EST_EDT_Eastern_US, GMT_BST_Greenwich_UK, CET_CEST_Central_Europe_France,
       EET_EEST_Eastern_Europe_Finland, MSK_Moscow_Russia])
  ]

  const Timezones: seq<TimezoneDefinition> := [
    TimezoneDefinition(Local, "Local", "Local", LocalTimezoneType),
    TimezoneDefinition(Unix, "UTC", "Unix", UnixTimezoneType),
    TimezoneDefinition(HST_Pacific_Honolulu_US, "Pacific/Honolulu", "HST (Hawaii), US", WithLocationTimezoneType),
    TimezoneDefinition(AKST_AKDT_Alaska_US, "America/Anchorage", "AKST/AKDT (Alaska), US", WithLocationTimezoneType),
    TimezoneDefinition(PST_PDT_Pacific_US, "America/Los_Angeles", "PST/PDT (Pacific), US", WithLocationTimezoneType),
    TimezoneDefinition(MST_Mountain_US, "America/Phoenix", "MST (Mountain), US", WithLocationTimezoneType),
    TimezoneDefinition(CST_CDT_Central_US, "America/Chicago", "CST/CDT (Central), US", WithLocationTimezoneType),
    TimezoneDefinition(EST_EDT_Eastern_US, "America/New_York", "EST/EDT (Eastern), US", WithLocationTimezoneType),
    TimezoneDefinition(AST_Atlantic_GD, "America/Grenada", "AST (Atlantic), GD", WithLocationTimezoneType),
    TimezoneDefinition(GMT_BST_Greenwich_UK, "Europe/London", "GMT/BST (Greenwich), UK", WithLocationTimezoneType),
    TimezoneDefinition(CET_CEST_Central_Europe_France, "Europe/Paris", "CET/CEST (Central Europe), France", WithLocationTimezoneType),
    TimezoneDefinition(EET_EEST_Eastern_Europe_Finland, "Europe/Helsinki", "EET/EEST (Eastern Europe), Finland", WithLocationTimezoneType),
    TimezoneDefinition(MSK_Moscow_Russia, "Europe/Moscow", "MSK (Moscow), Russia", WithLocationTimezoneType),
    TimezoneDefinition(IST_India_India, "Asia/Kolkata", "IST (India), India", WithLocationTimezoneType),
    TimezoneDefinition(CST_China_China, "Asia/Chongqing", "CST (China), China", WithLocationTimezoneType),
    TimezoneDefinition(AEST_AEDT_Australia_Australia, "Australia/Sydney", "AEST/AEDT (Australia), Australia", WithLocationTimezoneType),
    TimezoneDefinition(UTC, "UTC", "UTC", WithLocationTimezoneType)
  ]

  /** The catalog's size (IdsAreIndices: the catalog has exactly this many entries). */
  const ZoneCount := 17

  /** A valid zone id: one that some catalog entry carries. */
  predicate IsZoneId(id: int) {
    0 <= id < ZoneCount
  }

  /** A map with exactly one entry per zone id. */
  ghost predicate ByZone<V>(m: map<int, V>) {
    forall id :: id in m <==> IsZoneId(id)
  }

  /**
    The text zone `i`'s field shows for instant `t` under layout `f`: the Unix
    field prints decimal epoch seconds, every other field its location's time.
  */
  function Render(i: int, t: int, f: string, formatIn: Formatter): (r: string)
    requires 0 <= i < ZoneCount
    ensures i == Unix ==> r == Decimal.FormatInt(t)
    ensures i != Unix ==> r == formatIn(t, Timezones[i].locationAsString, f)
  {
    SingleLocalAndUnix();
    StringTime(Timezones[i], t, f, formatIn)
  }

  /** The catalog's renderer: Render for every catalog index, the empty text elsewhere. */
  function Renderer(formatIn: Formatter): (r: (int, int, string) -> string)
    ensures forall i, t, f | 0 <= i < ZoneCount :: r(i, t, f) == Render(i, t, f, formatIn)
  {
    (i, t, f) => if 0 <= i < ZoneCount then Render(i, t, f, formatIn) else ""
  }

  /** Every field showing instant `t` under layout `f`. */
  function Rendered(t: int, f: string, formatIn: Formatter): (m: map<int, string>)
    ensures ByZone(m)
  {
    map i | 0 <= i < ZoneCount :: Render(i, t, f, formatIn)
  }

  /** Zone ids are the iota values 0..16, and each entry's id is its catalog index. */
  lemma IdsAreIndices()
    ensures |Timezones| == ZoneCount
    ensures forall i :: 0 <= i < |Timezones| ==> Timezones[i].id == i
  {
  }

  /** Exactly one entry is of the Local kind (id 0) and exactly one of the Unix kind (id 1). */
  lemma SingleLocalAndUnix()
    ensures Timezones[Local].kind == LocalTimezoneType && Timezones[Unix].kind == UnixTimezoneType
    ensures forall i :: 0 <= i < |Timezones| && Timezones[i].kind == LocalTimezoneType ==> i == Local
    ensures forall i :: 0 <= i < |Timezones| && Timezones[i].kind == UnixTimezoneType ==> i == Unix
  {
  }

  /**
    A short key per label (first character and length); distinct keys give
    distinct labels without comparing the labels letter by letter.
  */
  function LabelKey(s: string): int {
    if s == [] then 0 else (s[0] as int) * 100 + |s|
  }

  /** The label keys of the catalog, entry by entry. */
  lemma KeysMatch(keys: seq<int>)
    requires keys == [7605, 8504, 7216, 6522, 8021, 7718, 6721, 6921, 6518, 7123, 6733, 6934, 7720, 7318, 6718, 6532, 8503]
    ensures |keys| == |Timezones| && forall i :: 0 <= i < |Timezones| ==> LabelKey(Timezones[i].name) == keys[i]
  {
  }

  /** Catalog labels are pairwise distinct, which lookup by label relies on. */
  lemma LabelsDistinct()
    ensures forall i, j :: 0 <= i < j < |Timezones| ==> Timezones[i].name != Timezones[j].name
  {
    var keys: seq<int> := [7605, 8504, 7216, 6522, 8021, 7718, 6721, 6921, 6518, 7123, 6733, 6934, 7720, 7318, 6718, 6532, 8503];
    KeysMatch(keys);
    forall i, j | 0 <= i < j < |Timezones| ensures Timezones[i].name != Timezones[j].name {
      assert keys[i] != keys[j];
    }
  }

  /** Every preset member is a catalog id, and every built-in preset shows the Local zone. */
  lemma PresetMembersAreZones()
    ensures forall p, id :: p in DefaultPresets && id in p.timezones ==> IsZoneId(id)
    ensures forall p :: p in DefaultPresets ==> Local in p.timezones
  {
  }

  /** Built-in preset ids are 1..4 in order, distinct, and below LastInternalId; 0 is reserved. */
  lemma PresetIds()
    ensures |DefaultPresets| == 4
    ensures forall i :: 0 <= i < |DefaultPresets| ==> DefaultPresets[i].id == i + 1
    ensures forall i :: 0 <= i < |DefaultPresets| ==> 0 < DefaultPresets[i].id < LastInternalId
    ensures forall i, j :: 0 <= i < j < |DefaultPresets| ==> DefaultPresets[i].id != DefaultPresets[j].id
  {
  }

  /** Built-in preset labels are distinct, so the Presets menu check-by-label marks exactly one item. */
  lemma PresetLabelsDistinct()
    ensures forall i, j :: 0 <= i < j < |DefaultPresets| ==> DefaultPresets[i].name != DefaultPresets[j].name
  {
    var p := DefaultPresets;
    assert |p[0].name| == 9 && |p[1].name| == 2 && |p[2].name| == 6 && |p[3].name| == 11;
  }

  /** A preset as encoding/json writes it: `json:"-"` keeps the id out. */
  datatype PresetJson = PresetJson(name: string, timezones: seq<int>)

  function SerializePreset(p: Preset): PresetJson {
    PresetJson(p.name, p.timezones)
  }

  /** Reading a preset back leaves the id at Go's zero value. */
  function DeserializePreset(j: PresetJson): Preset {
    Preset(0, j.name, j.timezones)
  }

  /** SerializePresets: the list with every element encoded. */
  function SerializePresets(ps: seq<Preset>): (js: seq<PresetJson>)
    ensures |js| == |ps|
    ensures forall i :: 0 <= i < |ps| ==> js[i] == SerializePreset(ps[i])
  {
    if ps == [] then [] else [SerializePreset(ps[0])] + SerializePresets(ps[1..])
  }

  /** DeserializePresets: the list with every element decoded. */
  function DeserializePresets(js: seq<PresetJson>): (ps: seq<Preset>)
    ensures |ps| == |js|
    ensures forall i :: 0 <= i < |js| ==> ps[i] == DeserializePreset(js[i])
  {
    if js == [] then [] else [DeserializePreset(js[0])] + DeserializePresets(js[1..])
  }

  /** A serialised list reads back with its labels and member lists, but every id becomes 0. */
  lemma SerializeDropsIds(ps: seq<Preset>)
    ensures var back := DeserializePresets(SerializePresets(ps));
      && |back| == |ps|
      && forall i :: 0 <= i < |ps| ==>
           back[i].name == ps[i].name && back[i].timezones == ps[i].timezones && back[i].id == 0
  {
  }
}
