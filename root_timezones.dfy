/**
  The root package's zone registry (timezones.go). Its TimezoneDefinition,
  StringTime, Timezones catalog and TimezonePresets table are the same as those
  of module Timezone; its preset type differs in serialising the id
  (`json:"id"`), which is what this module adds.
*/
module RootTimezones {
  import Timezone

  /** The number of Presets menu items (PresetTableWellFormed: the table has exactly this many). */
  const PresetCount := 4

  const TimezonePresets: seq<Timezone.Preset> := Timezone.DefaultPresets

  /** A preset as encoding/json writes it here: id, label and members. */
  datatype TimezonePresetJson = TimezonePresetJson(id: int, name: string, timezones: seq<int>)

  function SerializePreset(p: Timezone.Preset): TimezonePresetJson {
    TimezonePresetJson(p.id, p.name, p.timezones)
  }

  function DeserializePreset(j: TimezonePresetJson): Timezone.Preset {
    Timezone.Preset(j.id, j.name, j.timezones)
  }

  /** With the id serialised, a preset survives the round trip whole. */
  lemma SerializeKeepsIds(p: Timezone.Preset)
    ensures DeserializePreset(SerializePreset(p)) == p
  {
  }

  /**
    Preset ids are distinct and lie in [1, LastInternalId); every member is a
    valid catalog id and every preset includes Local.
  */
  lemma PresetTableWellFormed()
    ensures |TimezonePresets| == PresetCount
    ensures forall i, j :: 0 <= i < j < |TimezonePresets| ==> TimezonePresets[i].id != TimezonePresets[j].id
    ensures forall i :: 0 <= i < |TimezonePresets| ==> 1 <= TimezonePresets[i].id < Timezone.LastInternalId
    ensures forall p, id :: p in TimezonePresets && id in p.timezones ==> Timezone.IsZoneId(id)
    ensures forall p :: p in TimezonePresets ==> Timezone.Local in p.timezones
  {
    Timezone.PresetIds();
    Timezone.PresetMembersAreZones();
  }
}
