/**
  The Presets and Format menus of menu_maker.go. A preset item is checked
  exactly when the current-preset cell holds its id; a format item exactly when
  the layout cell holds its layout. "Add current as preset" appends a user
  preset made of the zones now shown and selects it. The menus are kept as the
  list of items they show; the listeners each item registers on the cells are
  written out as the loops that flip the items' check marks.
*/
module MenuMaker {
  import opened Results
  import Formats
  import Timezone
  import Collections

  /** One entry of a menu: a separator, or an item with its title, the preset it selects (if any) and its marks. */
  datatype MenuItem = Separator | Item(title: string, presetId: Option<int>, checked: bool, disabled: bool)

  const NoneItem := Item("(None)", None, false, true)
  const AddPresetItem := Item("Add current as preset", None, false, false)
  const RemovePresetItem := Item("Remove current preset", None, false, true)
  const EmptyPresetName := "Preset name cannot be empty"

  /** makePresetMenuItem once its listener has run: checked exactly when `current` is the preset's id. */
  function PresetItem(p: Timezone.Preset, current: int): (r: MenuItem)
    ensures r.Item? && r.title == p.name && r.presetId == Some(p.id) && !r.disabled
    ensures r.checked <==> current == p.id
  {
    Item(p.name, Some(p.id), p.id == current, false)
  }

  function PresetItems(ps: seq<Timezone.Preset>, current: int): (r: seq<MenuItem>)
    ensures |r| == |ps|
    ensures forall i :: 0 <= i < |ps| ==> r[i] == PresetItem(ps[i], current)
  {
    if ps == [] then [] else [PresetItem(ps[0], current)] + PresetItems(ps[1..], current)
  }

  /** The user part of the Presets menu: a disabled "(None)" item when there are no user presets. */
  function UserSection(userPresets: seq<Timezone.Preset>, current: int): seq<MenuItem> {
    if userPresets == [] then [NoneItem] else PresetItems(userPresets, current)
  }

  /**
    The Presets menu over a list of built-in presets: the built-ins, a
    separator, the user presets (or "(None)"), then "Add current as preset"
    and the disabled "Remove current preset".
  */
  function Menu(builtins: seq<Timezone.Preset>, userPresets: seq<Timezone.Preset>, current: int): seq<MenuItem> {
    PresetItems(builtins, current) + [Separator] + UserSection(userPresets, current) + [AddPresetItem, RemovePresetItem]
  }

  /** MakePresetMenu, over the built-in DefaultPresets. */
  function PresetMenuItems(userPresets: seq<Timezone.Preset>, current: int): seq<MenuItem> {
    Menu(Timezone.DefaultPresets, userPresets, current)
  }

  /** The position of user preset `i` in the Presets menu. */
  function UserItemIndex(i: int): int {
    |Timezone.DefaultPresets| + 1 + i
  }

  /** What a menu shows, position by position. */
  lemma MenuLayoutOf(builtins: seq<Timezone.Preset>, userPresets: seq<Timezone.Preset>, current: int)
    ensures var m := Menu(builtins, userPresets, current);
      && |m| == |builtins| + 1 + (if userPresets == [] then 1 else |userPresets|) + 2
      && (forall i :: 0 <= i < |builtins| ==> m[i] == PresetItem(builtins[i], current))
      && m[|builtins|] == Separator
      && (userPresets == [] ==> m[|builtins| + 1] == NoneItem)
      && (forall i :: 0 <= i < |userPresets| ==> m[|builtins| + 1 + i] == PresetItem(userPresets[i], current))
      && m[|m| - 2] == AddPresetItem && m[|m| - 1] == RemovePresetItem
  {
    var m := Menu(builtins, userPresets, current);
    var d := PresetItems(builtins, current);
    var u := UserSection(userPresets, current);
    assert m == d + [Separator] + u + [AddPresetItem, RemovePresetItem];
    forall i | 0 <= i < |userPresets| ensures m[|builtins| + 1 + i] == PresetItem(userPresets[i], current) {
      assert m[|builtins| + 1 + i] == u[i];
    }
    if userPresets == [] {
      assert m[|builtins| + 1] == u[0];
    }
  }

  /** What the Presets menu shows, position by position. */
  lemma MenuLayout(userPresets: seq<Timezone.Preset>, current: int)
    ensures var m := PresetMenuItems(userPresets, current);
      && |m| == |Timezone.DefaultPresets| + 1 + (if userPresets == [] then 1 else |userPresets|) + 2
      && (forall i :: 0 <= i < |Timezone.DefaultPresets| ==> m[i] == PresetItem(Timezone.DefaultPresets[i], current))
      && m[|Timezone.DefaultPresets|] == Separator
      && (userPresets == [] ==> m[UserItemIndex(0)] == NoneItem)
      && (forall i :: 0 <= i < |userPresets| ==> m[UserItemIndex(i)] == PresetItem(userPresets[i], current))
      && m[|m| - 2] == AddPresetItem && m[|m| - 1] == RemovePresetItem
  {
    MenuLayoutOf(Timezone.DefaultPresets, userPresets, current);
  }

  /** An item is checked exactly when it selects the current preset; separators and command items never are. */
  lemma CheckedIffCurrentOf(builtins: seq<Timezone.Preset>, userPresets: seq<Timezone.Preset>, current: int)
    ensures var m := Menu(builtins, userPresets, current);
      forall k :: 0 <= k < |m| ==> (m[k].Item? && m[k].checked <==> m[k].Item? && m[k].presetId == Some(current))
  {
    var m := Menu(builtins, userPresets, current);
    MenuLayoutOf(builtins, userPresets, current);
    forall k | 0 <= k < |m| ensures m[k].Item? && m[k].checked <==> m[k].Item? && m[k].presetId == Some(current) {
      if k < |builtins| {
        assert m[k] == PresetItem(builtins[k], current);
      } else if k > |builtins| && k < |m| - 2 && userPresets != [] {
        assert m[k] == PresetItem(userPresets[k - |builtins| - 1], current);
      }
    }
  }

  lemma CheckedIffCurrent(userPresets: seq<Timezone.Preset>, current: int)
    ensures var m := PresetMenuItems(userPresets, current);
      forall k :: 0 <= k < |m| ==> (m[k].Item? && m[k].checked <==> m[k].Item? && m[k].presetId == Some(current))
  {
    CheckedIffCurrentOf(Timezone.DefaultPresets, userPresets, current);
  }

  /**
    User preset `i` carries the id the OK button gives it: the one after the
    built-in range, counted by position.
  */
  ghost predicate PositionalIds(userPresets: seq<Timezone.Preset>) {
    forall i :: 0 <= i < |userPresets| ==> userPresets[i].id == Timezone.LastInternalId + i + 1
  }

  /** The preset item at position `k` selects built-in `k`, or user preset `k - |builtins| - 1`. */
  lemma ItemIdAt(builtins: seq<Timezone.Preset>, userPresets: seq<Timezone.Preset>, current: int, k: int)
    requires 0 <= k < |Menu(builtins, userPresets, current)|
    requires Menu(builtins, userPresets, current)[k].Item? && Menu(builtins, userPresets, current)[k].presetId.Some?
    ensures var id := Menu(builtins, userPresets, current)[k].presetId.value;
      || (k < |builtins| && id == builtins[k].id)
      || (|builtins| < k < |builtins| + 1 + |userPresets| && id == userPresets[k - |builtins| - 1].id)
  {
    var m := Menu(builtins, userPresets, current);
    MenuLayoutOf(builtins, userPresets, current);
    if k < |builtins| {
      assert m[k] == PresetItem(builtins[k], current);
    } else if k > |builtins| && k < |m| - 2 && userPresets != [] {
      assert m[k] == PresetItem(userPresets[k - |builtins| - 1], current);
    }
  }

  /** Built-in ids that are distinct and below LastInternalId, with positional user ids, leave at most one item checked. */
  lemma AtMostOneCheckedOf(builtins: seq<Timezone.Preset>, userPresets: seq<Timezone.Preset>, current: int)
    requires forall i, j :: 0 <= i < j < |builtins| ==> builtins[i].id != builtins[j].id
    requires forall i :: 0 <= i < |builtins| ==> builtins[i].id < Timezone.LastInternalId
    requires PositionalIds(userPresets)
    ensures var m := Menu(builtins, userPresets, current);
      forall j, k :: 0 <= j < k < |m| && m[j].Item? && m[k].Item? && m[j].checked ==> !m[k].checked
  {
    var m := Menu(builtins, userPresets, current);
    CheckedIffCurrentOf(builtins, userPresets, current);
    forall j, k | 0 <= j < k < |m| && m[j].Item? && m[k].Item? && m[j].checked
      ensures !m[k].checked
    {
      if m[k].checked {
        ItemIdAt(builtins, userPresets, current, j);
        ItemIdAt(builtins, userPresets, current, k);
      }
    }
  }

  /** The built-in ids are distinct and below LastInternalId, so with positional user ids at most one item is checked. */
  lemma AtMostOneChecked(userPresets: seq<Timezone.Preset>, current: int)
    requires PositionalIds(userPresets)
    ensures var m := PresetMenuItems(userPresets, current);
      forall j, k :: 0 <= j < k < |m| && m[j].Item? && m[k].Item? && m[j].checked ==> !m[k].checked
  {
    Timezone.PresetIds();
    AtMostOneCheckedOf(Timezone.DefaultPresets, userPresets, current);
  }

  /** The Presets menu's check rule applied to one item for cell value `current`. */
  function Recheck(item: MenuItem, current: int): (r: MenuItem)
    ensures r.Item? <==> item.Item?
    ensures r.Item? ==> r.title == item.title && r.presetId == item.presetId && r.disabled == item.disabled
    ensures r.Item? && item.presetId.Some? ==> (r.checked <==> item.presetId.value == current)
    ensures r.Item? && item.presetId.None? ==> r.checked == item.checked
  {
    match item
    case Separator => Separator
    case Item(_, id, _, _) => if id.Some? then item.(checked := id.value == current) else item
  }

  /** Running every item's listener for a new cell value gives the menu built for that value. */
  lemma RecheckedMenuOf(builtins: seq<Timezone.Preset>, userPresets: seq<Timezone.Preset>, current: int, next: int)
    ensures var m := Menu(builtins, userPresets, current);
      var m' := Menu(builtins, userPresets, next);
      |m| == |m'| && forall k :: 0 <= k < |m| ==> Recheck(m[k], next) == m'[k]
  {
    var m := Menu(builtins, userPresets, current);
    var m' := Menu(builtins, userPresets, next);
    MenuLayoutOf(builtins, userPresets, current);
    MenuLayoutOf(builtins, userPresets, next);
    forall k | 0 <= k < |m| ensures Recheck(m[k], next) == m'[k] {
      var d := |builtins|;
      if k < d {
        assert m[k] == PresetItem(builtins[k], current) && m'[k] == PresetItem(builtins[k], next);
      } else if k > d && k < |m| - 2 && userPresets != [] {
        var i := k - d - 1;
        assert m[k] == PresetItem(userPresets[i], current) && m'[k] == PresetItem(userPresets[i], next);
      }
    }
  }

  lemma RecheckedMenu(userPresets: seq<Timezone.Preset>, current: int, next: int)
    ensures var m := PresetMenuItems(userPresets, current);
      var m' := PresetMenuItems(userPresets, next);
      |m| == |m'| && forall k :: 0 <= k < |m| ==> Recheck(m[k], next) == m'[k]
  {
    RecheckedMenuOf(Timezone.DefaultPresets, userPresets, current, next);
  }

  /** The preset-name entry's validator: only the empty name is refused. */
  function ValidatePresetName(s: string): (r: Option<string>)
    ensures r.Some? <==> s == ""
    ensures r.Some? ==> r.value == EmptyPresetName
  {
    if |s| == 0 then Some(EmptyPresetName) else None
  }

  /**
    User presets read back from the store: encoding/json leaves out the id
    (`json:"-"`), so each comes back with id 0, the id reserved for no preset.
    Whenever the cell holds 0, every such item is checked at once.
  */
  lemma ReloadedPresetsAllChecked(userPresets: seq<Timezone.Preset>)
    requires userPresets != []
    ensures var back := Timezone.DeserializePresets(Timezone.SerializePresets(userPresets));
      var m := PresetMenuItems(back, 0);
      forall i :: 0 <= i < |userPresets| ==> m[UserItemIndex(i)].checked
  {
    var back := Timezone.DeserializePresets(Timezone.SerializePresets(userPresets));
    Timezone.SerializeDropsIds(userPresets);
    MenuLayout(back, 0);
  }

  /** Reloaded user presets, all with id 0, are a state the window's menus are proved for. */
  lemma ReloadedPresetsAdmitted(js: seq<Timezone.PresetJson>)
    ensures var back := Timezone.DeserializePresets(js);
      IdsBelow(back, Timezone.LastInternalId + |back| + 1)
  {
    var back := Timezone.DeserializePresets(js);
    forall i | 0 <= i < |back| ensures back[i].id < Timezone.LastInternalId + |back| + 1 {
      assert back[i] == Timezone.DeserializePreset(js[i]);
    }
  }

  /** Two saved presets, reloaded, give two checked items while no preset is selected. */
  lemma TwoReloadedPresetsBothChecked()
    ensures var saved := [Timezone.Preset(6, "Work", [0]), Timezone.Preset(7, "Home", [0, 1])];
      var m := PresetMenuItems(Timezone.DeserializePresets(Timezone.SerializePresets(saved)), 0);
      m[UserItemIndex(0)].checked && m[UserItemIndex(1)].checked
  {
    var saved := [Timezone.Preset(6, "Work", [0]), Timezone.Preset(7, "Home", [0, 1])];
    ReloadedPresetsAllChecked(saved);
  }

  /**
    Reading user presets back with their positional ids restored: preset `i`
    gets the id the OK button gave it.
  */
  function ReloadUserPresets(js: seq<Timezone.PresetJson>): (ps: seq<Timezone.Preset>)
    ensures |ps| == |js| && PositionalIds(ps)
    ensures forall i :: 0 <= i < |js| ==> ps[i].name == js[i].name && ps[i].timezones == js[i].timezones
  {
    seq(|js|, i requires 0 <= i < |js| => Timezone.Preset(Timezone.LastInternalId + i + 1, js[i].name, js[i].timezones))
  }

  /** Presets made by the OK button survive the store's round trip whole. */
  lemma ReloadRestoresPresets(ps: seq<Timezone.Preset>)
    requires PositionalIds(ps)
    ensures ReloadUserPresets(Timezone.SerializePresets(ps)) == ps
  {
    var back := ReloadUserPresets(Timezone.SerializePresets(ps));
    forall i | 0 <= i < |ps| ensures back[i] == ps[i] {
      assert Timezone.SerializePresets(ps)[i] == Timezone.SerializePreset(ps[i]);
    }
  }

  /** Appending one item per preset, in order. */
  method AppendPresetItems(items: seq<MenuItem>, ps: seq<Timezone.Preset>, current: int) returns (r: seq<MenuItem>)
    ensures r == items + PresetItems(ps, current)
  {
    r := items;
    for i := 0 to |ps|
      invariant r == items + PresetItems(ps[..i], current)
    {
      assert ps[..i + 1] == ps[..i] + [ps[i]];
      PresetItemsAppend(ps[..i], ps[i], current);
      r := r + [PresetItem(ps[i], current)];
    }
    assert ps[..|ps|] == ps;
  }

  lemma PresetItemsAppend(ps: seq<Timezone.Preset>, p: Timezone.Preset, current: int)
    ensures PresetItems(ps + [p], current) == PresetItems(ps, current) + [PresetItem(p, current)]
  {
    var a := PresetItems(ps + [p], current);
    var b := PresetItems(ps, current) + [PresetItem(p, current)];
    assert |a| == |b|;
    forall i | 0 <= i < |a| ensures a[i] == b[i] {
      assert (ps + [p])[i] == if i < |ps| then ps[i] else p;
    }
  }

  /** Every preset of `ps` has an id below `bound`. */
  ghost predicate IdsBelow(ps: seq<Timezone.Preset>, bound: int) {
    forall i :: 0 <= i < |ps| ==> ps[i].id < bound
  }

  /**
    The id the OK button gives the next user preset is above every built-in
    id, and above every user id as long as user ids stay below it, as both
    positional ids and the zero ids of reloaded presets do.
  */
  lemma NextIdIsFresh(userPresets: seq<Timezone.Preset>)
    requires IdsBelow(userPresets, Timezone.LastInternalId + |userPresets| + 1)
    ensures var next := Timezone.LastInternalId + |userPresets| + 1;
      IdsBelow(Timezone.DefaultPresets, next) && IdsBelow(userPresets, next)
  {
    Timezone.PresetIds();
  }

  /** The item list MakePresetMenu appends, over any list of built-in presets. */
  method BuildMenu(builtins: seq<Timezone.Preset>, userPresets: seq<Timezone.Preset>, current: int) returns (items: seq<MenuItem>)
    ensures items == Menu(builtins, userPresets, current)
  {
    items := AppendPresetItems([], builtins, current);
    items := items + [Separator];
    if |userPresets| == 0 {
      items := items + [NoneItem];
    } else {
      items := AppendPresetItems(items, userPresets, current);
    }
    items := items + [AddPresetItem, RemovePresetItem];
  }

  /** The format menu's check marks for layout `format`: item `k` is checked when it is item `k`'s layout. */
  ghost predicate FormatMarks(checked: seq<bool>, format: string) {
    && |checked| == Formats.FormatCount
    && forall k :: 0 <= k < |checked| ==> checked[k] == (format == Formats.SupportedFormats[k].format)
  }

  class TimestampConverter {
    /** The current-preset cell: 0 is no preset. */
    var preset: int
    /** The user-presets cell. */
    var userPresets: seq<Timezone.Preset>
    /** The layout cell. */
    var format: string
    /** timezonesVisibleState: each zone's visibility flag, by zone id. */
    var visibleState: map<int, bool>
    /** The Presets menu as it is shown. */
    var presetItems: seq<MenuItem>
    /** The Format menu's check marks, one per supported format. */
    var formatChecked: seq<bool>
    /** The built-in presets the menu lists first, timezone.DefaultPresets. */
    const builtins: seq<Timezone.Preset>

    /**
      The menus show the cells' values; user ids stay below the next id the
      OK button gives, which holds for presets it made and for reloaded ones.
    */
    ghost predicate Valid()
      reads this
    {
      && IdsBelow(builtins, Timezone.LastInternalId + 1)
      && IdsBelow(userPresets, Timezone.LastInternalId + |userPresets| + 1)
      && presetItems == Menu(builtins, userPresets, preset)
      && FormatMarks(formatChecked, format)
    }

    /** The menus built over the window's cells (MakeMenu). */
    constructor (preset: int, userPresets: seq<Timezone.Preset>, format: string, visibleState: map<int, bool>)
      requires IdsBelow(userPresets, Timezone.LastInternalId + |userPresets| + 1)
      ensures Valid() && builtins == Timezone.DefaultPresets
      ensures this.preset == preset && this.userPresets == userPresets
      ensures this.format == format && this.visibleState == visibleState
    {
      this.preset := preset;
      this.userPresets := userPresets;
      this.format := format;
      this.visibleState := visibleState;
      presetItems := [];
      formatChecked := [];
      builtins := Timezone.DefaultPresets;
      Timezone.PresetIds();
      new;
      MakePresetMenu();
      MakeFormatMenu();
    }

    /** MakePresetMenu: built-ins, separator, user presets or "(None)", add and remove; each item's listener runs once. */
    method MakePresetMenu()
      modifies this`presetItems
      ensures presetItems == Menu(builtins, userPresets, preset)
    {
      presetItems := BuildMenu(builtins, userPresets, preset);
    }

    /** MakeFormatMenu: one item per supported format, its listener's first run sets its check mark. */
    method MakeFormatMenu()
      modifies this`formatChecked
      ensures FormatMarks(formatChecked, format)
    {
      var formats := Formats.SupportedFormats;
      var marks: seq<bool> := [];
      for k := 0 to |formats|
        invariant |marks| == k
        invariant forall q :: 0 <= q < k ==> marks[q] == (format == formats[q].format)
      {
        marks := marks + [format == formats[k].format];
      }
      formatChecked := marks;
    }

    /** A preset item's action, currentPresetBound.Set(id): a new value reruns every item's listener. */
    method SelectPreset(id: int)
      requires Valid()
      modifies this`preset, this`presetItems
      ensures Valid()
      ensures preset == id
    {
      if id != preset {
        ghost var before := presetItems;
        RecheckedMenuOf(builtins, userPresets, preset, id);
        preset := id;
        var i := 0;
        while i < |presetItems|
          invariant 0 <= i <= |presetItems| == |before|
          invariant forall j :: 0 <= j < i ==> presetItems[j] == Recheck(before[j], id)
          invariant forall j :: i <= j < |presetItems| ==> presetItems[j] == before[j]
          invariant preset == id
        {
          presetItems := presetItems[i := Recheck(presetItems[i], id)];
          i := i + 1;
        }
      }
    }

    /**
      Format item `k`'s action, format.Set: a new layout reruns every format
      item's listener; the chosen item alone ends up checked.
    */
    method SelectFormat(k: int)
      requires Valid() && 0 <= k < Formats.FormatCount
      modifies this`format, this`formatChecked
      ensures Valid()
      ensures format == Formats.SupportedFormats[k].format
      ensures forall j :: 0 <= j < |formatChecked| ==> formatChecked[j] == (j == k)
    {
      var formats := Formats.SupportedFormats;
      var chosen := formats[k].format;
      Formats.CatalogDistinct();
      if chosen != format {
        format := chosen;
        var j := 0;
        while j < |formatChecked|
          invariant 0 <= j <= |formatChecked| == |formats|
          invariant format == chosen
          invariant forall q :: 0 <= q < j ==> formatChecked[q] == (format == formats[q].format)
        {
          formatChecked := formatChecked[j := format == formats[j].format];
          j := j + 1;
        }
      }
      assert forall j :: 0 <= j < |formats| ==> (formats[j].format == chosen <==> j == k) by {
        assert Collections.Distinct(Formats.Layouts());
      }
    }

    /**
      The OK button of the add-preset window: a preset named `name` holding
      the ids whose flag is true is appended with id LastInternalId +
      len(userPresets) + 1, the menus are rebuilt and the new preset becomes
      current. The button does not consult the name validator.
    */
    method AddPreset(name: string)
      requires Valid()
      modifies this`userPresets, this`presetItems, this`formatChecked, this`preset
      ensures Valid()
      ensures |userPresets| == |old(userPresets)| + 1 && userPresets[..|old(userPresets)|] == old(userPresets)
      ensures var p := userPresets[|old(userPresets)|];
        && p.id == Timezone.LastInternalId + |old(userPresets)| + 1 && p.name == name
        && (forall id :: id in p.timezones <==> id in visibleState && visibleState[id])
        && Collections.Distinct(p.timezones)
      ensures preset == userPresets[|old(userPresets)|].id
      ensures IdsBelow(builtins, preset) && IdsBelow(old(userPresets), preset)
    {
      var p := NewPreset(name);
      AppendUserPreset(p);
      SelectPreset(p.id);
    }

    /** The preset the OK button appends: the next id, the name typed, the zones whose flag is true. */
    method NewPreset(name: string) returns (p: Timezone.Preset)
      ensures p.id == Timezone.LastInternalId + |userPresets| + 1 && p.name == name
      ensures forall id :: id in p.timezones <==> id in visibleState && visibleState[id]
      ensures Collections.Distinct(p.timezones)
    {
      var active := Collections.TrueKeys(visibleState);
      p := Timezone.Preset(Timezone.LastInternalId + |userPresets| + 1, name, active);
    }

    /** The append and the two menu rebuilds of the OK button, before the new preset is selected. */
    method AppendUserPreset(p: Timezone.Preset)
      requires Valid() && p.id == Timezone.LastInternalId + |userPresets| + 1
      modifies this`userPresets, this`presetItems, this`formatChecked
      ensures Valid() && userPresets == old(userPresets) + [p]
    {
      userPresets := userPresets + [p];
      assert IdsBelow(userPresets, Timezone.LastInternalId + |userPresets| + 1) by {
        assert forall i :: 0 <= i < |old(userPresets)| ==> userPresets[i] == old(userPresets)[i];
      }
      MakePresetMenu();
      MakeFormatMenu();
    }
  }
}
