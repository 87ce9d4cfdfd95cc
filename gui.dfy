/**
  The converter window of the gui and timestamp_converter packages
  (gui/gui_maker.go with timestamp_converter/lifecycle.go). One timestamp
  cell and one layout cell drive a text field per catalog zone through a
  single listener per field; a visibility flag per zone says which rows are
  shown; an "Add" completion entry offers the hidden zones whose label
  contains the typed text; three preferences (format, theme, visible zones)
  are registered with a Preferences.PreferencesSynchronizer and written back on
  every change.

  A fyne binding's Set notifies only when the value changes and a listener
  runs once when it is registered; listeners run synchronously here. The
  package's praseStringToTime is not part of this model: it is the parameter
  `parseText`.
*/
module Gui {
  import opened Results
  import opened PrefStore
  import Formats
  import Timezone
  import Poller
  import Collections
  import Preferences
  import XBinding
  import Cascade

  /** strings.ToLower on one character, for ASCII text: upper-case letters move down by 32. */
  function LowerChar(c: char): (r: char)
    ensures !('A' <= r <= 'Z')
    ensures 'A' <= c <= 'Z' ==> r as int == c as int + 32
    ensures !('A' <= c <= 'Z') ==> r == c
  {
    if 'A' <= c <= 'Z' then (c as int + 32) as char else c
  }

  /** strings.ToLower, character by character. */
  function ToLower(s: string): (r: string)
    ensures |r| == |s|
    ensures forall i :: 0 <= i < |s| ==> r[i] == LowerChar(s[i])
  {
    if s == [] then [] else [LowerChar(s[0])] + ToLower(s[1..])
  }

  /** Lower-casing twice is lower-casing once. */
  lemma ToLowerIdempotent(s: string)
    ensures ToLower(ToLower(s)) == ToLower(s)
  {
    var once := ToLower(s);
    var twice := ToLower(once);
    forall i | 0 <= i < |s| ensures twice[i] == once[i] {
      assert twice[i] == LowerChar(once[i]);
    }
  }

  /** `sub` occurs in `s` starting at position `k`. */
  predicate OccursAt(s: string, sub: string, k: int) {
    0 <= k <= |s| - |sub| && s[k..k + |sub|] == sub
  }

  /** strings.Contains: `sub` occurs in `s` at some position (the empty text occurs everywhere). */
  function ContainsSubstring(s: string, sub: string): (r: bool)
    ensures r <==> exists k :: OccursAt(s, sub, k)
    decreases |s|
  {
    if |sub| > |s| then false
    else if s[..|sub|] == sub then
      assert OccursAt(s, sub, 0);
      true
    else
      var tail := ContainsSubstring(s[1..], sub);
      assert tail ==> exists k :: OccursAt(s, sub, k) by {
        if tail {
          var k :| OccursAt(s[1..], sub, k);
          assert s[k + 1..k + 1 + |sub|] == s[1..][k..k + |sub|];
          assert OccursAt(s, sub, k + 1);
        }
      }
      assert (exists k :: OccursAt(s, sub, k)) ==> tail by {
        if exists k :: OccursAt(s, sub, k) {
          var k :| OccursAt(s, sub, k);
          assert k != 0;
          assert s[1..][k - 1..k - 1 + |sub|] == s[k..k + |sub|];
          assert OccursAt(s[1..], sub, k - 1);
        }
      }
      tail
  }

  /** The zone's flag is in the map and true. */
  predicate IsShown(visible: map<int, bool>, id: int) {
    id in visible && visible[id]
  }

  /** getOptions offers zone `z` for `text`: its label contains the text, ignoring case, and the zone is not shown. */
  predicate Offered(text: string, visible: map<int, bool>, z: Timezone.TimezoneDefinition) {
    ContainsSubstring(ToLower(z.name), ToLower(text)) && !IsShown(visible, z.id)
  }

  /** The labels of the offered zones among `zones`, in their order. */
  function OptionsOf(text: string, visible: map<int, bool>, zones: seq<Timezone.TimezoneDefinition>): (r: seq<string>)
    ensures |r| <= |zones|
    ensures forall s :: s in r <==> exists z :: z in zones && Offered(text, visible, z) && z.name == s
  {
    if zones == [] then []
    else
      var rest := OptionsOf(text, visible, zones[1..]);
      assert forall z :: z in zones <==> z == zones[0] || z in zones[1..];
      if Offered(text, visible, zones[0]) then [zones[0].name] + rest else rest
  }

  /** The options keep the zones' order: the first one is the label of the first offered zone. */
  lemma {:induction false} FirstOptionIsFirstOffered(text: string, visible: map<int, bool>, zones: seq<Timezone.TimezoneDefinition>, k: int)
    requires 0 <= k < |zones| && Offered(text, visible, zones[k])
    requires forall j :: 0 <= j < k ==> !Offered(text, visible, zones[j])
    ensures OptionsOf(text, visible, zones) != [] && OptionsOf(text, visible, zones)[0] == zones[k].name
    decreases k
  {
    if k > 0 {
      FirstOptionIsFirstOffered(text, visible, zones[1..], k - 1);
    }
  }

  /**
    getOptions: the catalog scanned in order; the ids whose flag is true are
    collected first, and a zone is offered when its id is not among them.
  */
  function GetOptions(text: string, visible: map<int, bool>): (r: seq<string>)
    ensures |r| <= Timezone.ZoneCount
  {
    OptionsOf(text, visible, Timezone.Timezones)
  }

  /** A zone's label is offered exactly when the zone is hidden and its label contains the text, ignoring case. */
  lemma OptionsAreHiddenMatches(text: string, visible: map<int, bool>, id: int)
    requires Timezone.IsZoneId(id)
    ensures Timezone.Timezones[id].name in GetOptions(text, visible) <==>
      ContainsSubstring(ToLower(Timezone.Timezones[id].name), ToLower(text)) && !IsShown(visible, id)
  {
    Timezone.IdsAreIndices();
    Timezone.LabelsDistinct();
    ListedIffOffered(text, visible, Timezone.Timezones, id);
  }

  /** Among zones with distinct labels, a zone's label is listed exactly when the zone is offered. */
  lemma ListedIffOffered(text: string, visible: map<int, bool>, zones: seq<Timezone.TimezoneDefinition>, i: int)
    requires 0 <= i < |zones|
    requires forall a, b :: 0 <= a < b < |zones| ==> zones[a].name != zones[b].name
    ensures zones[i].name in OptionsOf(text, visible, zones) <==> Offered(text, visible, zones[i])
  {
    if zones[i].name in OptionsOf(text, visible, zones) {
      var z :| z in zones && Offered(text, visible, z) && z.name == zones[i].name;
      var j :| 0 <= j < |zones| && zones[j] == z;
      assert j == i;
    }
  }

  /** With nothing typed, every hidden zone is offered and no shown one. */
  lemma EmptyTextOffersHidden(visible: map<int, bool>, id: int)
    requires Timezone.IsZoneId(id)
    ensures Timezone.Timezones[id].name in GetOptions("", visible) <==> !IsShown(visible, id)
  {
    OptionsAreHiddenMatches("", visible, id);
    assert OccursAt(ToLower(Timezone.Timezones[id].name), ToLower(""), 0);
  }

  /** Only the letter case of the typed text is ignored: lower-casing it first offers the same list. */
  lemma OptionsIgnoreCase(text: string, visible: map<int, bool>)
    ensures GetOptions(ToLower(text), visible) == GetOptions(text, visible)
  {
    ToLowerIdempotent(text);
    OptionsOfIgnoreCase(text, visible, Timezone.Timezones);
  }

  lemma {:induction false} OptionsOfIgnoreCase(text: string, visible: map<int, bool>, zones: seq<Timezone.TimezoneDefinition>)
    requires ToLower(ToLower(text)) == ToLower(text)
    ensures OptionsOf(ToLower(text), visible, zones) == OptionsOf(text, visible, zones)
  {
    if zones != [] {
      OptionsOfIgnoreCase(text, visible, zones[1..]);
    }
  }

  /**
    What the delete button as written leaves in the persisted list after
    visiting the zones in `order`: the id of the last zone visited when that
    zone is shown, and nothing otherwise.
  */
  function PersistedAfterDelete(visible: map<int, bool>, order: seq<int>): (r: seq<int>)
    requires |order| > 0
    ensures |r| <= 1
    ensures forall k :: k in r <==> k == order[|order| - 1] && IsShown(visible, k)
  {
    var last := order[|order| - 1];
    if IsShown(visible, last) then [last] else []
  }

  /**
    With zones 0 and 1 shown and 16 just deleted, visiting 16 last leaves the
    persisted list empty although two zones are shown.
  */
  lemma DeleteForgetsShownZones()
    ensures var visible := map[0 := true, 1 := true, 16 := false];
      && PersistedAfterDelete(visible, [0, 1, 16]) == []
      && IsShown(visible, 0) && IsShown(visible, 1)
  {
  }

  /** entry.Validator: the text's parse error, or none when it parses. */
  function Validate(parseText: string -> Result<int>, text: string): (r: Option<string>)
    ensures r.None? <==> parseText(text).Ok?
    ensures r.Some? ==> r.value == parseText(text).error
  {
    match parseText(text)
    case Ok(_) => None
    case Err(e) => Some(e)
  }

  /**
    An entry's OnChanged decision: text that does not parse is refused, text
    holding the current instant changes nothing, any other instant is stored.
  */
  function EntryEdit(parseText: string -> Result<int>, text: string, current: int): (r: Cascade.Edit)
    ensures r.Rejected? <==> parseText(text).Err?
    ensures r.Unchanged? <==> parseText(text) == Ok(current)
    ensures r.Store? ==> parseText(text) == Ok(r.epoch) && r.epoch != current
  {
    match parseText(text)
    case Err(_) => Cascade.Rejected
    case Ok(e) => if e == current then Cascade.Unchanged else Cascade.Store(e)
  }

  /**
    This window's fields: OnChanged decides by EntryEdit and sets no status,
    and one listener per zone, the Unix one included, runs on both cells.
  */
  function Wiring(parseText: string -> Result<int>, formatIn: Timezone.Formatter): (w: Cascade.Wiring)
    ensures !w.formatSkipsUnix && w.render == Timezone.Renderer(formatIn)
    ensures forall text, current :: w.decide(text, current) == EntryEdit(parseText, text, current)
  {
    Cascade.Wiring(Timezone.Renderer(formatIn), (text, current) => EntryEdit(parseText, text, current), false, None, None)
  }

  /**
    The fixed parts of this window's wiring that its handlers rely on: every
    zone, the Unix one included, listens to the layout cell, a store always
    moves the epoch, and OnChanged sets no status.
  */
  lemma WiringFits(parseText: string -> Result<int>, formatIn: Timezone.Formatter)
    ensures var w := Wiring(parseText, formatIn);
      && !w.formatSkipsUnix && Cascade.StoresMove(w) && w.refusedStatus == None && w.storedStatus == None
  {
  }

  /** Text the validator refuses never moves the timestamp. */
  lemma RefusedTextIsInert(parseText: string -> Result<int>, text: string, current: int)
    requires Validate(parseText, text).Some?
    ensures EntryEdit(parseText, text, current) == Cascade.Rejected
  {
  }

  /**
    One echo stops: when the parser reads zone `i`'s rendering of `e` back as
    `e` (or refuses it), its OnChanged stores nothing.
  */
  lemma EchoStoresNothing(parseText: string -> Result<int>, i: int, e: int, f: string, formatIn: Timezone.Formatter)
    requires Timezone.IsZoneId(i)
    requires parseText(Timezone.Render(i, e, f, formatIn)).Ok? ==> parseText(Timezone.Render(i, e, f, formatIn)).value == e
    ensures !EntryEdit(parseText, Timezone.Render(i, e, f, formatIn), e).Store?
  {
  }

  /**
    When every zone's rendering of `t` under `f` reads back as `t` (or not at
    all), the whole cascade of echoes is inert at `t`.
  */
  lemma ReadBackSettles(parseText: string -> Result<int>, formatIn: Timezone.Formatter, t: int, f: string)
    requires forall i | 0 <= i < Timezone.ZoneCount ::
      var read := parseText(Timezone.Render(i, t, f, formatIn)); read.Ok? ==> read.value == t
    ensures Cascade.Settles(Wiring(parseText, formatIn), t, f)
  {
    forall i | 0 <= i < Timezone.ZoneCount
      ensures !Wiring(parseText, formatIn).decide(Timezone.Render(i, t, f, formatIn), t).Store?
    {
      EchoStoresNothing(parseText, i, t, f, formatIn);
    }
  }

  class TimestampConverter {
    /** The timestamp cell, in epoch seconds. */
    var timestamp: int
    /** The layout cell. */
    var format: string
    /** The theme cell. */
    var theme: string
    /** timezonesVisibleState: each zone's visibility flag, by zone id. */
    var visibleState: map<int, bool>
    /** Each zone's entry text, by zone id. */
    var texts: map<int, string>
    /**
      How many zones' listeners the timestamp and layout cells hold: none
      until makeContent adds them, zone by zone in catalog order.
    */
    var registered: nat
    /** The text of the "Add" completion entry and the options it shows. */
    var addText: string
    var options: seq<string>
    var watchClipboard: bool
    /** The persisted list of shown zone ids. */
    const visibleTimezones: XBinding.IntArray
    const preferences: Preferences.PreferencesSynchronizer
    const parseText: string -> Result<int>
    const formatIn: Timezone.Formatter
    /** How the entries are wired: Wiring(parseText, formatIn), as Wired() states. */
    const wires: Cascade.Wiring

    /**
      The synchronizer holds only this window's three keys, and each registered
      key's stored value is the current value of its cell.
    */
    ghost predicate Valid()
      reads this`format, this`theme, preferences, visibleTimezones
    {
      && preferences.Valid()
      && visibleTimezones.Valid()
      && (forall k :: k in preferences.stringKeys ==> k == "format" || k == "theme")
      && preferences.intKeys == [] && preferences.boolKeys == []
      && (forall k :: k in preferences.intArrayKeys ==> k == "visibleTimezones")
      && ("format" in preferences.stringKeys ==> "format" in preferences.store && preferences.store["format"] == StoredString(format))
      && ("theme" in preferences.stringKeys ==> "theme" in preferences.store && preferences.store["theme"] == StoredString(theme))
      && ("visibleTimezones" in preferences.intArrayKeys ==>
            "visibleTimezones" in preferences.store && preferences.store["visibleTimezones"] == StoredString(preferences.encodeInts(visibleTimezones.Contents())))
    }

    /**
      There is an entry per catalog zone, the listeners of the first
      `registered` zones are on the cells, and the entries' handlers have the
      fixed parts WiringFits states.
    */
    ghost predicate Entries()
      reads this`texts, this`registered
    {
      Timezone.ByZone(texts) && registered <= Timezone.ZoneCount && HandlersFit()
    }

    /** The entries' handlers have the fixed parts WiringFits states. */
    ghost predicate HandlersFit() {
      !wires.formatSkipsUnix && Cascade.StoresMove(wires) && wires.refusedStatus == None && wires.storedStatus == None
    }

    /** makeContent has run: every zone has its entry, its listeners and its flag. */
    ghost predicate ContentMade()
      reads this`visibleState, this`texts, this`registered
    {
      Entries() && registered == Timezone.ZoneCount && Timezone.ByZone(visibleState)
    }

    /** The entries' handlers are this window's: they parse with `parseText` and render with `formatIn`. */
    ghost predicate Wired() {
      wires == Wiring(parseText, formatIn)
    }

    /** Every entry shows the timestamp in its zone under the current layout. */
    ghost predicate Synced()
      reads this`texts, this`timestamp, this`format
    {
      texts == Cascade.Shown(wires, timestamp, format)
    }

    /** The state a cascade works on; this window has no status line in it. */
    ghost function Snapshot(): Cascade.Cells
      reads this`timestamp, this`format, this`texts
    {
      Cascade.Cells(timestamp, format, texts, "")
    }

    /**
      NewTimestampConverter and initialize: an empty visibility map, an empty
      persisted list, the timestamp seeded with `now`, empty layout and theme
      cells and a synchronizer over the application's store.
    */
    constructor (now: int, store: Store, decodeInts: string -> Result<seq<int>>, encodeInts: seq<int> -> string,
                 parseText: string -> Result<int>, formatIn: Timezone.Formatter)
      ensures Valid()
      ensures visibleState == map[] && texts == map[] && registered == 0
      ensures timestamp == now && format == "" && theme == ""
      ensures fresh(preferences) && preferences.Keys() == [] && preferences.store == store
      ensures preferences.decodeInts == decodeInts && preferences.encodeInts == encodeInts
      ensures fresh(visibleTimezones) && visibleTimezones.Contents() == []
      ensures addText == "" && options == [] && !watchClipboard
      ensures this.parseText == parseText && this.formatIn == formatIn && Wired() && HandlersFit()
    {
      visibleState := map[];
      texts := map[];
      registered := 0;
      visibleTimezones := new XBinding.IntArray();
      timestamp := now;
      format := "";
      theme := "";
      preferences := new Preferences.PreferencesSynchronizer(store, decodeInts, encodeInts);
      addText := "";
      options := [];
      watchClipboard := false;
      this.parseText := parseText;
      this.formatIn := formatIn;
      this.wires := Wiring(parseText, formatIn);
      WiringFits(parseText, formatIn);
    }

    /**
      makeContent, on the empty map initialize made. For each zone in catalog
      order an entry is created with empty text, and its listener is added to
      the timestamp cell and then to the layout cell; each addition runs the
      listener once. The entry's OnChanged is already assigned, so the SetText
      of those runs echoes, and a Set it nests reaches the zones added so far.
      Every zone's flag is set as well, true for the Local zone only. The window
      ends with every field in sync; Cascade.Built adds that it ends at the
      instant it started from when that instant's renderings read back without
      a store, and Cascade.RegisterEchoMovesTimestamp that it may end elsewhere.
    */
    method MakeContent()
      requires Valid() && HandlersFit() && visibleState == map[] && registered == 0
      modifies this`visibleState, this`texts, this`timestamp, this`registered
      ensures Valid() && ContentMade() && Synced()
      ensures Snapshot() ==
        Cascade.Register(wires, Cascade.Cells(old(timestamp), old(format), Cascade.Blank(), ""), 0, Cascade.MaxEchoDepth)
      ensures forall id | id in visibleState :: visibleState[id] == (id == Timezone.Local)
    {
      ShowLocalOnly();
      texts := Cascade.Blank();
      assert Snapshot() == Cascade.Cells(old(timestamp), old(format), Cascade.Blank(), "");
      AddZones();
    }

    /** Valid() reads only the layout and theme cells, the synchronizer and the persisted list. */
    twostate lemma ValidKept()
      requires old(Valid()) && unchanged(this`format, this`theme, preferences, visibleTimezones)
      ensures Valid()
    {
    }

    /**
      The flags makeContent sets, one per zone: true for the zone of the Local
      kind, which is zone Timezone.Local, and false for every other. The
      flags are set in the same loop as the listeners are added, but no
      listener reads them.
    */
    method ShowLocalOnly()
      modifies this`visibleState
      ensures Timezone.ByZone(visibleState)
      ensures forall id | id in visibleState :: visibleState[id] == (id == Timezone.Local)
    {
      Timezone.SingleLocalAndUnix();
      visibleState := map id | 0 <= id < Timezone.ZoneCount :: Timezone.Timezones[id].kind == Timezone.LocalTimezoneType;
    }

    /**
      makeContent's loop over the catalog, adding every zone's listeners in
      turn to entries that start empty. It leaves the flags and the
      synchronizer alone.
    */
    method AddZones()
      requires Valid() && Entries() && registered == 0 && texts == Cascade.Blank()
      modifies this`texts, this`timestamp, this`registered
      ensures Valid() && Entries() && registered == Timezone.ZoneCount && format == old(format)
      ensures unchanged(this`visibleState)
      ensures Snapshot() == Cascade.Register(wires, old(Snapshot()), 0, Cascade.MaxEchoDepth)
      ensures Synced()
    {
      RegisterZones();
      ValidKept();
    }

    /** The loop itself: zone after zone, each zone's listeners are added and run. */
    method RegisterZones()
      requires Entries() && registered == 0 && texts == Cascade.Blank()
      modifies this`texts, this`timestamp, this`registered
      ensures Entries() && registered == Timezone.ZoneCount && format == old(format)
      ensures Snapshot() == Cascade.Register(wires, old(Snapshot()), 0, Cascade.MaxEchoDepth)
      ensures Synced()
    {
      ghost var start := Snapshot();
      var k := 0;
      while k < Timezone.ZoneCount
        invariant 0 <= k <= Timezone.ZoneCount && registered == k
        invariant Entries() && format == old(format)
        invariant Cascade.Register(wires, Snapshot(), k, Cascade.MaxEchoDepth) ==
          Cascade.Register(wires, old(Snapshot()), 0, Cascade.MaxEchoDepth)
      {
        AddZone(k);
        k := k + 1;
      }
      Cascade.Built(wires, start, Cascade.MaxEchoDepth);
    }

    /**
      One turn of makeContent's loop: zone `k`'s listener is added to the
      timestamp cell and runs, then to the layout cell and runs again.
    */
    method AddZone(k: int)
      requires Entries() && registered == k && 0 <= k < Timezone.ZoneCount
      modifies this`texts, this`timestamp, this`registered
      ensures Entries() && registered == k + 1 && format == old(format)
      ensures Snapshot() == Cascade.Listeners(wires,
        Cascade.Listeners(wires, old(Snapshot()), k, Cascade.MaxEchoDepth, false, k + 1), k, Cascade.MaxEchoDepth, true, k + 1)
    {
      registered := k + 1;
      Listener(k, Cascade.MaxEchoDepth, false);
      Listener(k, Cascade.MaxEchoDepth, true);
    }

    /** A cell's Set runs the onFormatOrTimestampChange listener of every registered zone, in catalog order. */
    method NotifyListeners(fuel: nat, onFormat: bool)
      requires Entries()
      modifies this`timestamp, this`texts
      ensures Entries()
      ensures Snapshot() == Cascade.Listeners(wires, old(Snapshot()), 0, fuel, onFormat, registered)
      decreases fuel, 2
    {
      var i := 0;
      while i < registered
        invariant 0 <= i <= registered
        invariant Entries() && format == old(format)
        invariant Cascade.Listeners(wires, Snapshot(), i, fuel, onFormat, registered) ==
          Cascade.Listeners(wires, old(Snapshot()), 0, fuel, onFormat, registered)
      {
        Listener(i, fuel, onFormat);
        i := i + 1;
      }
    }

    /**
      Zone `i`'s onFormatOrTimestampChange listener: the zone is rendered from
      the cells as they are now, and SetText, which runs the entry's OnChanged,
      is called only when the text differs.
    */
    method Listener(i: int, fuel: nat, onFormat: bool)
      requires Entries() && 0 <= i < registered
      modifies this`timestamp, this`texts
      ensures Entries() && format == old(format)
      ensures Snapshot() ==
        if wires.render(i, old(timestamp), old(format)) == old(texts)[i]
        then old(Snapshot())
        else Cascade.Changed(wires, old(Snapshot()), i, wires.render(i, old(timestamp), old(format)), fuel, registered)
      ensures Cascade.Listeners(wires, Snapshot(), i + 1, fuel, onFormat, registered) ==
        Cascade.Listeners(wires, old(Snapshot()), i, fuel, onFormat, registered)
      decreases fuel, 1
    {
      Cascade.ListenersStep(wires, Snapshot(), i, fuel, onFormat, registered);
      var newText := wires.render(i, timestamp, format);
      if newText != texts[i] {
        OnEntryChanged(i, newText, fuel);
      }
    }

    /**
      timestamp.Set(v): an equal value notifies nobody; a new one runs every
      registered listener, with the echoes that follow, at most `fuel` Sets
      deep. A new value ends with every registered field in sync, and at `v`
      itself when the renderings of `v` read back as `v`.
    */
    method SetTimestamp(v: int, fuel: nat)
      requires Entries()
      modifies this`timestamp, this`texts
      ensures Entries()
      ensures Snapshot() == Cascade.Set(wires, old(Snapshot()), v, fuel, registered)
      ensures v != old(timestamp) ==> Cascade.Agree(wires, Snapshot(), registered)
      ensures v != old(timestamp) && registered == Timezone.ZoneCount ==> Synced()
      ensures Cascade.Settles(wires, v, format) ==> timestamp == v
      decreases fuel, 3
    {
      ghost var before := Snapshot();
      if v != timestamp {
        timestamp := v;
        NotifyListeners(fuel, false);
        Cascade.SetSyncs(wires, before, v, fuel, registered);
      }
      if Cascade.Settles(wires, v, format) {
        Cascade.SetSettles(wires, before, v, fuel, registered);
      }
    }

    /**
      format.Set(f): a new layout runs every listener, with the echoes that
      follow, and, once "format" is registered, is written to the store.
    */
    method SetFormat(f: string)
      requires Valid() && ContentMade()
      modifies this`format, this`timestamp, this`texts, preferences`store
      ensures Valid() && ContentMade()
      ensures Snapshot() == Cascade.FormatSet(wires, old(Snapshot()), f, Cascade.MaxEchoDepth)
      ensures f != old(format) ==> Synced()
      ensures Cascade.Settles(wires, old(timestamp), f) ==> timestamp == old(timestamp)
      ensures preferences.store ==
        if f != old(format) && "format" in preferences.stringKeys
        then old(preferences.store)["format" := StoredString(f)]
        else old(preferences.store)
    {
      ghost var before := Snapshot();
      if f != format {
        format := f;
        NotifyListeners(Cascade.MaxEchoDepth, true);
        Cascade.FormatSetSyncs(wires, before, f, Cascade.MaxEchoDepth);
        if "format" in preferences.stringKeys {
          preferences.OnStringChanged("format", f);
        }
      }
      if Cascade.Settles(wires, before.timestamp, f) {
        Cascade.FormatSetSettles(wires, before, f, Cascade.MaxEchoDepth);
      }
    }

    /** visibleTimezones.Set(ids): the list is replaced and, once registered, written to the store. */
    method SetVisibleTimezones(ids: seq<int>)
      requires Valid()
      modifies visibleTimezones, preferences`store
      ensures Valid()
      ensures visibleTimezones.Contents() == ids
      ensures preferences.store ==
        if "visibleTimezones" in preferences.intArrayKeys
        then old(preferences.store)["visibleTimezones" := StoredString(preferences.encodeInts(ids))]
        else old(preferences.store)
    {
      visibleTimezones.Set(ids);
      if "visibleTimezones" in preferences.intArrayKeys {
        preferences.OnIntArrayChanged("visibleTimezones", visibleTimezones);
      }
    }

    /**
      Zone `i`'s entry now holds `text` (typed by the user, or pushed by
      SetText) and its OnChanged runs: text that does not parse, or parses to
      the current instant, changes nothing else; a new instant is set, with the
      listeners and echoes that follow. A user's edit runs with `fuel`
      MaxEchoDepth.
    */
    method OnEntryChanged(i: int, text: string, fuel: nat)
      requires Entries() && Timezone.IsZoneId(i)
      modifies this`timestamp, this`texts
      ensures Entries()
      ensures Snapshot() == Cascade.Changed(wires, old(Snapshot()), i, text, fuel, registered)
      ensures var d := wires.decide(text, old(timestamp));
        && (!d.Store? ==> timestamp == old(timestamp) && texts == old(texts)[i := text])
        && (d.Store? && fuel > 0 ==>
              && Cascade.Agree(wires, Snapshot(), registered)
              && (registered == Timezone.ZoneCount ==> Synced())
              && (Cascade.Settles(wires, d.epoch, format) ==> timestamp == d.epoch))
      decreases fuel, 0
    {
      texts := texts[i := text];
      match wires.decide(text, timestamp)
      case Rejected =>
      case Unchanged =>
      case Store(e) =>
        if fuel > 0 {
          SetTimestamp(e, fuel - 1);
        }
    }

    /**
      The zone's delete button as it is evidently meant to work: the flag is
      cleared and the ids of all shown zones become the persisted list. The
      button is disabled for the Local zone, so pressing it there does nothing.
    */
    method Delete(id: int)
      requires Valid() && ContentMade() && Timezone.IsZoneId(id)
      modifies this`visibleState, visibleTimezones, preferences`store
      ensures Valid() && ContentMade()
      ensures Timezone.Timezones[id].kind == Timezone.LocalTimezoneType ==>
        && visibleState == old(visibleState)
        && unchanged(visibleTimezones) && preferences.store == old(preferences.store)
      ensures Timezone.Timezones[id].kind != Timezone.LocalTimezoneType ==>
        && visibleState == old(visibleState)[id := false]
        && (forall k :: k in visibleTimezones.Contents() <==> IsShown(visibleState, k))
        && preferences.store ==
             if "visibleTimezones" in preferences.intArrayKeys
             then old(preferences.store)["visibleTimezones" := StoredString(preferences.encodeInts(visibleTimezones.Contents()))]
             else old(preferences.store)
    {
      if Timezone.Timezones[id].kind != Timezone.LocalTimezoneType {
        visibleState := visibleState[id := false];
        PersistShown();
      }
    }

    /**
      The delete button as written: the flag is cleared, then for every zone,
      in the map's iteration order `order` (each key exactly once), a fresh
      list holding that zone's id when it is shown replaces the persisted
      list. Only the last zone visited decides what is persisted. The button
      is disabled for the Local zone, so pressing it there does nothing.
    */
    method DeleteAsWritten(id: int, order: seq<int>)
      requires Valid() && ContentMade() && Timezone.IsZoneId(id)
      requires (forall k :: k in order <==> k in visibleState) && Collections.Distinct(order)
      modifies this`visibleState, visibleTimezones, preferences`store
      ensures Valid() && ContentMade()
      ensures Timezone.Timezones[id].kind == Timezone.LocalTimezoneType ==>
        && visibleState == old(visibleState)
        && unchanged(visibleTimezones) && preferences.store == old(preferences.store)
      ensures Timezone.Timezones[id].kind != Timezone.LocalTimezoneType ==>
        && visibleState == old(visibleState)[id := false]
        && visibleTimezones.Contents() == PersistedAfterDelete(visibleState, order)
        && preferences.store ==
             if "visibleTimezones" in preferences.intArrayKeys
             then old(preferences.store)["visibleTimezones" := StoredString(preferences.encodeInts(visibleTimezones.Contents()))]
             else old(preferences.store)
    {
      if Timezone.Timezones[id].kind == Timezone.LocalTimezoneType {
        return;
      }
      visibleState := visibleState[id := false];
      assert 0 in visibleState;
      PersistEachAsWritten(order);
    }

    /**
      The delete button's loop as written: for every zone in `order`, a fresh
      list holding that zone's id when it is shown replaces the persisted list,
      and the stored value of the list follows each replacement.
    */
    method PersistEachAsWritten(order: seq<int>)
      requires Valid()
      modifies visibleTimezones, preferences`store
      ensures Valid()
      ensures order == [] ==> unchanged(visibleTimezones) && preferences.store == old(preferences.store)
      ensures order != [] ==>
        && visibleTimezones.Contents() == PersistedAfterDelete(visibleState, order)
        && preferences.store ==
             if "visibleTimezones" in preferences.intArrayKeys
             then old(preferences.store)["visibleTimezones" := StoredString(preferences.encodeInts(visibleTimezones.Contents()))]
             else old(preferences.store)
    {
      var i := 0;
      while i < |order|
        invariant 0 <= i <= |order|
        invariant Valid()
        invariant i == 0 ==> unchanged(visibleTimezones) && preferences.store == old(preferences.store)
        invariant i > 0 ==> visibleTimezones.Contents() == PersistedAfterDelete(visibleState, order[..i])
        invariant i > 0 ==>
          preferences.store ==
            if "visibleTimezones" in preferences.intArrayKeys
            then old(preferences.store)["visibleTimezones" := StoredString(preferences.encodeInts(visibleTimezones.Contents()))]
            else old(preferences.store)
      {
        var visibleIds: seq<int> := [];
        if IsShown(visibleState, order[i]) {
          visibleIds := visibleIds + [order[i]];
        }
        SetVisibleTimezones(visibleIds);
        i := i + 1;
      }
      assert order[..i] == order;
    }

    /** The "Add" entry's OnChanged: its options become getOptions of the new text. */
    method OnAddEntryChanged(text: string)
      requires Valid() && ContentMade()
      modifies this`addText, this`options
      ensures Valid() && ContentMade()
      ensures addText == text
      ensures options == GetOptions(text, visibleState)
    {
      addText := text;
      options := GetOptions(text, visibleState);
    }

    /**
      The "Add" entry's OnSubmitted. With options shown, the zone labelled by
      the first one is shown, the ids of all shown zones become the persisted
      list, and the entry is cleared. Clearing runs the entry's OnChanged, which
      recomputes the options, only when the text was not already empty.
      Without options nothing happens.
    */
    method OnSubmitted()
      requires Valid() && ContentMade()
      modifies this`visibleState, this`addText, this`options, visibleTimezones, preferences`store
      ensures Valid() && ContentMade()
      ensures old(options) == [] ==>
        && visibleState == old(visibleState) && addText == old(addText) && options == old(options)
        && unchanged(visibleTimezones) && preferences.store == old(preferences.store)
      ensures old(options) != [] ==>
        && (forall id :: Timezone.IsZoneId(id) ==>
              visibleState[id] == (old(visibleState[id]) || Timezone.Timezones[id].name == old(options[0])))
        && (forall id :: id in visibleTimezones.Contents() <==> IsShown(visibleState, id))
        && Collections.Distinct(visibleTimezones.Contents())
        && preferences.store ==
             (if "visibleTimezones" in preferences.intArrayKeys
              then old(preferences.store)["visibleTimezones" := StoredString(preferences.encodeInts(visibleTimezones.Contents()))]
              else old(preferences.store))
        && addText == ""
        && options == if old(addText) == "" then old(options) else GetOptions("", visibleState)
    {
      if |options| != 0 {
        ShowLabelled(options[0]);
        PersistShown();
        if addText != "" {
          OnAddEntryChanged("");
        }
      }
    }

    /** The ids of the shown zones, in any order, become the persisted list. */
    method PersistShown()
      requires Valid()
      modifies visibleTimezones, preferences`store
      ensures Valid()
      ensures forall id :: id in visibleTimezones.Contents() <==> IsShown(visibleState, id)
      ensures Collections.Distinct(visibleTimezones.Contents())
      ensures preferences.store ==
        if "visibleTimezones" in preferences.intArrayKeys
        then old(preferences.store)["visibleTimezones" := StoredString(preferences.encodeInts(visibleTimezones.Contents()))]
        else old(preferences.store)
    {
      var shown := Collections.TrueKeys(visibleState);
      SetVisibleTimezones(shown);
    }

    /** The search loop of OnSubmitted: the first catalog zone labelled `wanted` is shown (labels are distinct). */
    method ShowLabelled(wanted: string)
      requires ContentMade()
      modifies this`visibleState
      ensures ContentMade()
      ensures forall id :: Timezone.IsZoneId(id) ==>
        visibleState[id] == (old(visibleState[id]) || Timezone.Timezones[id].name == wanted)
    {
      Timezone.IdsAreIndices();
      Timezone.LabelsDistinct();
      var i := 0;
      while i < Timezone.ZoneCount
        invariant 0 <= i <= Timezone.ZoneCount
        invariant forall j :: 0 <= j < i ==> Timezone.Timezones[j].name != wanted
        invariant visibleState == old(visibleState)
      {
        if Timezone.Timezones[i].name == wanted {
          visibleState := visibleState[Timezone.Timezones[i].id := true];
          break;
        }
        i := i + 1;
      }
    }

    /** The Now button: the timestamp is set to `now`. */
    method Now(now: int)
      requires ContentMade()
      modifies this`timestamp, this`texts
      ensures ContentMade()
      ensures Snapshot() == Cascade.Set(wires, old(Snapshot()), now, Cascade.MaxEchoDepth)
      ensures now != old(timestamp) ==> Synced()
      ensures Cascade.Settles(wires, now, format) ==> timestamp == now
    {
      SetTimestamp(now, Cascade.MaxEchoDepth);
    }

    /** The "Watch clipboard" check box. */
    method SetWatchClipboard(checked: bool)
      modifies this`watchClipboard
      ensures watchClipboard == checked
    {
      watchClipboard := checked;
    }

    /**
      The paste button: no clipboard, empty content or text that does not
      parse change nothing; otherwise the timestamp is set to the parsed instant.
    */
    method Paste(clipboard: Option<string>)
      requires ContentMade()
      modifies this`timestamp, this`texts
      ensures ContentMade()
      ensures clipboard.None? || clipboard.value == "" || parseText(clipboard.value).Err? ==>
        timestamp == old(timestamp) && texts == old(texts)
      ensures clipboard.Some? && clipboard.value != "" && parseText(clipboard.value).Ok? ==>
        var e := parseText(clipboard.value).value;
        && Snapshot() == Cascade.Set(wires, old(Snapshot()), e, Cascade.MaxEchoDepth)
        && (e != old(timestamp) ==> Synced())
        && (Cascade.Settles(wires, e, format) ==> timestamp == e)
    {
      if clipboard.None? || clipboard.value == "" {
        return;
      }
      match parseText(clipboard.value)
      case Err(_) =>
      case Ok(e) =>
        SetTimestamp(e, Cascade.MaxEchoDepth);
    }

    /** One wake-up of the clipboard watcher started by setupAndLoadPreferences. */
    method ClipboardTick(clipboard: Option<string>)
      requires ContentMade()
      modifies this`timestamp, this`texts
      ensures ContentMade()
      ensures var tick := Poller.PollTick(old(watchClipboard), clipboard, old(timestamp), parseText);
        && (tick.None? ==> timestamp == old(timestamp) && texts == old(texts))
        && (tick.Some? ==>
              && Snapshot() == Cascade.Set(wires, old(Snapshot()), tick.value, Cascade.MaxEchoDepth)
              && Synced()
              && (Cascade.Settles(wires, tick.value, format) ==> timestamp == tick.value))
    {
      match Poller.PollTick(watchClipboard, clipboard, timestamp, parseText)
      case None =>
      case Some(e) =>
        SetTimestamp(e, Cascade.MaxEchoDepth);
    }

    /**
      setupAndLoadPreferences, on the fresh synchronizer initialize made:
      "format" (fallback RFC3339) and "theme" (fallback `systemTheme`) are
      registered and loaded into their cells, then "visibleTimezones"
      (fallback [0]). A stored list that does not decode panics (the returned
      reason); otherwise every saved id with a flag is shown, other ids are
      ignored and the other flags keep their value.
    */
    method SetupAndLoadPreferences(systemTheme: string) returns (panicked: Option<string>)
      requires Valid() && ContentMade() && preferences.Keys() == []
      modifies this`format, this`timestamp, this`texts, this`theme, this`visibleState, visibleTimezones
      modifies preferences`stringKeys, preferences`intArrayKeys, preferences`store
      ensures Valid() && ContentMade()
      ensures preferences.stringKeys == ["format", "theme"]
      ensures format == StringWithFallback(old(preferences.store), "format", Formats.RFC3339)
      ensures theme == StringWithFallback(old(preferences.store), "theme", systemTheme)
      ensures Snapshot() == Cascade.FormatSet(wires, old(Snapshot()), format, Cascade.MaxEchoDepth)
      ensures format != old(format) ==> Synced()
      ensures var loaded := Preferences.LoadIntArray(old(preferences.store), "visibleTimezones", [0], preferences.decodeInts);
        var strings := old(preferences.store)["format" := StoredString(format)]["theme" := StoredString(theme)];
        && (loaded.Err? ==>
              && panicked == Some(loaded.error) && preferences.intArrayKeys == [] && visibleState == old(visibleState)
              && preferences.store == strings)
        && (loaded.Ok? ==>
              && panicked == None && preferences.intArrayKeys == ["visibleTimezones"]
              && visibleTimezones.Contents() == loaded.value
              && (forall id :: Timezone.IsZoneId(id) ==> visibleState[id] == (old(visibleState[id]) || id in loaded.value))
              && preferences.store == strings["visibleTimezones" := StoredString(preferences.encodeInts(loaded.value))])
    {
      RegisterStrings(systemTheme);
      panicked := preferences.AddIntArray("visibleTimezones", visibleTimezones, [0]);
      if panicked.Some? {
        return;
      }
      var saved := visibleTimezones.Get();
      ShowSaved(saved);
    }

    /** The first two registrations of setupAndLoadPreferences; on a fresh synchronizer neither key is in use. */
    method RegisterStrings(systemTheme: string)
      requires Valid() && ContentMade() && preferences.Keys() == []
      modifies this`format, this`timestamp, this`texts, this`theme, preferences`stringKeys, preferences`store
      ensures Valid() && ContentMade()
      ensures preferences.stringKeys == ["format", "theme"]
      ensures format == StringWithFallback(old(preferences.store), "format", Formats.RFC3339)
      ensures theme == StringWithFallback(old(preferences.store), "theme", systemTheme)
      ensures Snapshot() == Cascade.FormatSet(wires, old(Snapshot()), format, Cascade.MaxEchoDepth)
      ensures format != old(format) ==> Synced()
      ensures preferences.store == old(preferences.store)["format" := StoredString(format)]["theme" := StoredString(theme)]
    {
      RegisterFormat();
      var loadedTheme := preferences.AddString("theme", systemTheme);
      theme := loadedTheme.value;
    }

    /**
      The "format" registration: the stored layout (fallback RFC3339) is loaded
      into the cell, whose change runs the listeners and their echoes.
    */
    method RegisterFormat()
      requires Valid() && ContentMade() && preferences.Keys() == []
      modifies this`format, this`timestamp, this`texts, preferences`stringKeys, preferences`store
      ensures Valid() && ContentMade()
      ensures preferences.stringKeys == ["format"]
      ensures format == StringWithFallback(old(preferences.store), "format", Formats.RFC3339)
      ensures Snapshot() == Cascade.FormatSet(wires, old(Snapshot()), format, Cascade.MaxEchoDepth)
      ensures format != old(format) ==> Synced()
      ensures preferences.store == old(preferences.store)["format" := StoredString(format)]
    {
      ghost var before := Snapshot();
      var loadedFormat := preferences.AddString("format", Formats.RFC3339);
      if loadedFormat.value != format {
        format := loadedFormat.value;
        NotifyListeners(Cascade.MaxEchoDepth, true);
        Cascade.FormatSetSyncs(wires, before, format, Cascade.MaxEchoDepth);
      }
    }

    /** The restore loop: each saved id that has a flag is shown; the other ids are ignored. */
    method ShowSaved(saved: seq<int>)
      requires ContentMade()
      modifies this`visibleState
      ensures ContentMade()
      ensures forall id :: Timezone.IsZoneId(id) ==> visibleState[id] == (old(visibleState[id]) || id in saved)
    {
      for n := 0 to |saved|
        invariant visibleState.Keys == old(visibleState).Keys
        invariant forall id :: Timezone.IsZoneId(id) ==> visibleState[id] == (old(visibleState[id]) || id in saved[..n])
      {
        if saved[n] in visibleState {
          visibleState := visibleState[saved[n] := true];
        }
      }
      assert saved[..|saved|] == saved;
    }
  }
}
