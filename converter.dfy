/**
  The converter window of timestamp_converter.go. One shared timestamp (epoch
  seconds) and one shared layout drive a text field per catalog zone; typing a
  recognisable instant into any field moves the shared timestamp, which every
  field then re-renders. A fyne binding's Set notifies its listeners only when
  the value changes, and a listener runs once when it is registered; both rules
  are written out in the methods below. Each field's text, visibility flag and
  the two menus' check marks are fields of one class, keyed by zone id (which
  is the catalog index).
*/
module Converter {
  import opened Results
  import Decimal
  import Formats
  import Parsing
  import Timezone
  import RootTimezones
  import Poller
  import Collections
  import Cascade

  /** Fifty years of 31556926 seconds before the epoch: typed instants at or before it are refused. */
  const MinAllowedEpoch: int := 0 - 50 * 31556926

  const InvalidTimestamp := "Invalid timestamp"
  const TimestampUpdated := "Timestamp updated"

  /**
    A field's OnChanged decision: text that does not parse, or parses to an
    instant at or before MinAllowedEpoch, is refused; an instant equal to the
    current one changes nothing; any other is stored.
  */
  function EditDecision(parse: Parsing.LayoutParser, text: string, current: int): (r: Cascade.Edit)
    ensures r.Rejected? <==>
      Parsing.ParseUnbounded(parse, text).Err? || Parsing.ParseUnbounded(parse, text).value <= MinAllowedEpoch
    ensures r.Unchanged? <==> Parsing.ParseUnbounded(parse, text) == Ok(current) && current > MinAllowedEpoch
    ensures r.Store? ==>
      Parsing.ParseUnbounded(parse, text) == Ok(r.epoch) && r.epoch > MinAllowedEpoch && r.epoch != current
  {
    match Parsing.ParseUnbounded(parse, text)
    case Err(_) => Cascade.Rejected
    case Ok(e) =>
      if e <= MinAllowedEpoch then Cascade.Rejected
      else if e == current then Cascade.Unchanged
      else Cascade.Store(e)
  }

  /**
    This window's fields: OnChanged decides by EditDecision, sets "Invalid
    timestamp" on refusal and "Timestamp updated" after a store, and the Unix
    field has no format listener.
  */
  function Wiring(parse: Parsing.LayoutParser, formatIn: Timezone.Formatter): (w: Cascade.Wiring)
    ensures w.formatSkipsUnix && w.render == Timezone.Renderer(formatIn)
    ensures forall text, current :: w.decide(text, current) == EditDecision(parse, text, current)
  {
    Cascade.Wiring(Timezone.Renderer(formatIn), (text, current) => EditDecision(parse, text, current), true, Some(InvalidTimestamp), Some(TimestampUpdated))
  }

  /**
    The fixed parts of this window's wiring that its handlers rely on: the Unix
    field has no format listener and shows the same text under every layout, a
    store always moves the epoch, and the two status messages.
  */
  lemma WiringFits(parse: Parsing.LayoutParser, formatIn: Timezone.Formatter)
    ensures var w := Wiring(parse, formatIn);
      && w.formatSkipsUnix && Cascade.UnixLayoutFree(w) && Cascade.StoresMove(w)
      && w.refusedStatus == Some(InvalidTimestamp) && w.storedStatus == Some(TimestampUpdated)
  {
    Cascade.CatalogUnixLayoutFree(Wiring(parse, formatIn), formatIn);
  }

  /**
    The echo of one SetText: text that parses to the instant already stored,
    or does not parse at all, never writes the timestamp.
  */
  lemma EchoNeverWrites(parse: Parsing.LayoutParser, text: string, t: int)
    requires Parsing.ParseUnbounded(parse, text).Ok? ==> Parsing.ParseUnbounded(parse, text).value == t
    ensures !EditDecision(parse, text, t).Store?
  {
  }

  /**
    The Unix field's echo in particular: its text is the decimal instant, which
    (when no layout accepts digits) parses back to the stored instant.
  */
  lemma UnixEchoNeverWrites(parse: Parsing.LayoutParser, t: int, f: string, formatIn: Timezone.Formatter)
    requires Decimal.IsInt64(t)
    requires Parsing.NoLayoutMatches(parse, Formats.Layouts(), Decimal.FormatInt(t))
    ensures !EditDecision(parse, Timezone.Render(Timezone.Unix, t, f, formatIn), t).Store?
    ensures t > MinAllowedEpoch ==> EditDecision(parse, Timezone.Render(Timezone.Unix, t, f, formatIn), t) == Cascade.Unchanged
  {
    Parsing.UnboundedIntegerFallback(parse, t);
  }

  /** A stored edit is one the same handler would not store again: a second identical echo is inert. */
  lemma StoreSettles(parse: Parsing.LayoutParser, text: string, current: int)
    requires EditDecision(parse, text, current).Store?
    ensures EditDecision(parse, text, EditDecision(parse, text, current).epoch) == Cascade.Unchanged
  {
  }

  /**
    When every zone's rendering of `t` under `f` parses back to `t` (or not at
    all), the whole cascade of echoes is inert at `t`.
  */
  lemma ReadBackSettles(parse: Parsing.LayoutParser, formatIn: Timezone.Formatter, t: int, f: string)
    requires forall i | 0 <= i < Timezone.ZoneCount ::
      var read := Parsing.ParseUnbounded(parse, Timezone.Render(i, t, f, formatIn)); read.Ok? ==> read.value == t
    ensures Cascade.Settles(Wiring(parse, formatIn), t, f)
  {
    forall i | 0 <= i < Timezone.ZoneCount
      ensures !Wiring(parse, formatIn).decide(Timezone.Render(i, t, f, formatIn), t).Store?
    {
      EchoNeverWrites(parse, Timezone.Render(i, t, f, formatIn), t);
    }
  }

  /**
    A layout that reads back coarser than it renders moves the timestamp: when
    the Local field's rendering of `v` parses as another admissible instant `e`
    whose renderings settle, Timestamp.Set(v) ends at `e`. RFC822Z, which keeps
    minutes and a two-digit year, is such a layout.
  */
  lemma TruncatingEchoMovesTimestamp(parse: Parsing.LayoutParser, formatIn: Timezone.Formatter, s: Cascade.Cells, v: int, e: int)
    requires Timezone.ByZone(s.texts) && v != s.timestamp
    requires Timezone.Render(0, v, s.format, formatIn) != s.texts[0]
    requires Parsing.ParseUnbounded(parse, Timezone.Render(0, v, s.format, formatIn)) == Ok(e)
    requires e > MinAllowedEpoch && e != v
    requires Cascade.Settles(Wiring(parse, formatIn), e, s.format)
    ensures Cascade.Set(Wiring(parse, formatIn), s, v, Cascade.MaxEchoDepth).timestamp == e
  {
    Cascade.EchoMovesTimestamp(Wiring(parse, formatIn), s, v, e, Cascade.MaxEchoDepth);
  }

  class TimestampConverter {
    var timestamp: int
    var format: string
    /** The VisibleChanger bindings, by zone id. */
    var visible: map<int, bool>
    /** The text of each zone's entry, by zone id. */
    var texts: map<int, string>
    /** The status line's message (the clock prefix is not modelled). */
    var status: string
    var watchClipboard: bool
    /** Check marks of the Format menu's items, in catalog order. */
    var formatChecked: seq<bool>
    /** Check marks of the Presets menu's items, in preset-table order. */
    var presetChecked: seq<bool>
    /** time.Parse followed by Unix(), for each layout. */
    const parse: Parsing.LayoutParser
    /** time.Time In(location) followed by Format(layout). */
    const formatIn: Timezone.Formatter
    /** How the entries are wired: Wiring(parse, formatIn), as Wired() states. */
    const wires: Cascade.Wiring

    ghost predicate Valid()
      reads this`visible, this`texts, this`formatChecked, this`presetChecked
    {
      && Timezone.ByZone(visible)
      && Timezone.ByZone(texts)
      && |formatChecked| == Formats.FormatCount
      && |presetChecked| == RootTimezones.PresetCount
      && wires.formatSkipsUnix && Cascade.UnixLayoutFree(wires) && Cascade.StoresMove(wires)
      && wires.refusedStatus == Some(InvalidTimestamp) && wires.storedStatus == Some(TimestampUpdated)
    }

    /** The entries' handlers are this window's: they parse with `parse` and render with `formatIn`. */
    ghost predicate Wired() {
      wires == Wiring(parse, formatIn)
    }

    /** Every field shows the stored instant under the stored layout. */
    ghost predicate Synced()
      reads this`texts, this`timestamp, this`format
    {
      texts == Cascade.Shown(wires, timestamp, format)
    }

    /** The state a cascade works on. */
    ghost function Snapshot(): Cascade.Cells
      reads this`timestamp, this`format, this`texts, this`status
    {
      Cascade.Cells(timestamp, format, texts, status)
    }

    /**
      SetupAndRun's state part: status "Ready", the timestamp at `now`, layout
      RFC3339; each zone's entry is created with both listeners (their first run
      renders it) and made visible; the Format menu checks its first item; the
      Presets menu checks its first item and runs it.
    */
    constructor (now: int, parse: Parsing.LayoutParser, formatIn: Timezone.Formatter)
      ensures Valid() && Synced() && Wired()
      ensures this.parse == parse && this.formatIn == formatIn
      ensures timestamp == now && format == Formats.RFC3339 && !watchClipboard
      ensures forall id :: id in visible ==> visible[id] == (id in RootTimezones.TimezonePresets[0].timezones)
      ensures forall j :: 0 <= j < |formatChecked| ==> formatChecked[j] == (j == 0)
      ensures forall j :: 0 <= j < |presetChecked| ==> presetChecked[j] == (j == 0)
      ensures status == "Preset " + RootTimezones.TimezonePresets[0].name
    {
      this.parse := parse;
      this.formatIn := formatIn;
      var w := Wiring(parse, formatIn);
      WiringFits(parse, formatIn);
      this.wires := w;
      status := "Ready";
      timestamp := now;
      format := Formats.RFC3339;
      // Each zone's entry: the first run of its listeners renders it, and its flag is set.
      texts := Cascade.Shown(w, now, Formats.RFC3339);
      visible := map id | 0 <= id < Timezone.ZoneCount :: Timezone.IsZoneId(id);  // true for every catalog id
      watchClipboard := false;
      formatChecked := seq(Formats.FormatCount, _ => false);
      presetChecked := seq(RootTimezones.PresetCount, _ => false);
      new;
      FinishFormatsMenu();
      FinishPresetsMenu();
    }

    /** The end of GetFormatsMenu: the first item is checked and its layout set. */
    method FinishFormatsMenu()
      requires Valid()
      modifies this`formatChecked, this`format, this`timestamp, this`texts, this`status
      ensures Valid()
      ensures forall j :: 0 <= j < |formatChecked| ==> formatChecked[j] == (j == 0)
      ensures Snapshot() == Cascade.FormatSet(wires, old(Snapshot()), Formats.SupportedFormats[0].format, Cascade.MaxEchoDepth)
      ensures old(format) == Formats.SupportedFormats[0].format ==> Snapshot() == old(Snapshot())
      ensures old(Synced()) ==> Synced()
    {
      formatChecked := seq(Formats.FormatCount, j => j == 0);
      SetFormat(Formats.SupportedFormats[0].format);
    }

    /** The end of GetPresetsMenu: the first item is checked and its action run. */
    method FinishPresetsMenu()
      requires Valid()
      modifies this`visible, this`presetChecked, this`status
      ensures Valid()
      ensures forall id :: id in visible ==> visible[id] == (id in RootTimezones.TimezonePresets[0].timezones)
      ensures forall j :: 0 <= j < |presetChecked| ==> presetChecked[j] == (j == 0)
      ensures status == "Preset " + RootTimezones.TimezonePresets[0].name
    {
      presetChecked := seq(RootTimezones.PresetCount, j => j == 0);
      ApplyPreset(0);
    }

    /**
      Timestamp.Set(v): when `v` differs from the stored value it is stored and
      every zone's entry listener runs. Each echo may nest further Sets, at
      most `fuel` deep. A new value always ends with every field in sync, and
      ends at `v` itself when the renderings of `v` read back as `v`.
    */
    method SetTimestamp(v: int, fuel: nat)
      requires Valid()
      modifies this`timestamp, this`texts, this`status
      ensures Valid()
      ensures Snapshot() == Cascade.Set(wires, old(Snapshot()), v, fuel)
      ensures v != old(timestamp) ==> Synced()
      ensures Cascade.Settles(wires, v, format) ==> timestamp == v
      decreases fuel, 3
    {
      ghost var before := Snapshot();
      if v != timestamp {
        timestamp := v;
        NotifyListeners(fuel, false);
        Cascade.SetSyncs(wires, before, v, fuel);
      }
      if Cascade.Settles(wires, v, format) {
        Cascade.SetSettles(wires, before, v, fuel);
      }
    }

    /** A cell's Set notifies the listeners of every zone, in catalog order. */
    method NotifyListeners(fuel: nat, onFormat: bool)
      requires Valid()
      modifies this`timestamp, this`texts, this`status
      ensures Valid()
      ensures Snapshot() == Cascade.Listeners(wires, old(Snapshot()), 0, fuel, onFormat)
      decreases fuel, 2
    {
      var i := 0;
      while i < Timezone.ZoneCount
        invariant 0 <= i <= Timezone.ZoneCount
        invariant Valid() && format == old(format)
        invariant Cascade.Listeners(wires, Snapshot(), i, fuel, onFormat) ==
          Cascade.Listeners(wires, old(Snapshot()), 0, fuel, onFormat)
      {
        Listener(i, fuel, onFormat);
        i := i + 1;
      }
    }

    /**
      Zone `i`'s listener on the timestamp cell (`onFormat` false) or on the
      layout cell (`onFormat` true; the Unix field has none): the zone is
      rendered from the cells as they are now, and SetText, which runs the
      entry's OnChanged, is called only when the text differs.
    */
    method Listener(i: int, fuel: nat, onFormat: bool)
      requires Valid() && 0 <= i < Timezone.ZoneCount
      modifies this`timestamp, this`texts, this`status
      ensures Valid() && format == old(format)
      ensures Snapshot() ==
        if Cascade.Skips(wires, onFormat, i) || wires.render(i, old(timestamp), old(format)) == old(texts)[i]
        then old(Snapshot())
        else Cascade.Changed(wires, old(Snapshot()), i, wires.render(i, old(timestamp), old(format)), fuel)
      ensures Cascade.Listeners(wires, Snapshot(), i + 1, fuel, onFormat) ==
        Cascade.Listeners(wires, old(Snapshot()), i, fuel, onFormat)
      decreases fuel, 1
    {
      Cascade.ListenersStep(wires, Snapshot(), i, fuel, onFormat);
      if !(onFormat && i == Timezone.Unix) {
        var newText := wires.render(i, timestamp, format);
        if newText != texts[i] {
          OnEntryChanged(i, newText, fuel);
        }
      }
    }

    /**
      Format.Set(f): when `f` differs from the stored layout it is stored and
      the format listener of every zone but the Unix one runs, with the echoes
      that may follow. Fields in sync stay in sync.
    */
    method SetFormat(f: string)
      requires Valid()
      modifies this`format, this`timestamp, this`texts, this`status
      ensures Valid()
      ensures Snapshot() == Cascade.FormatSet(wires, old(Snapshot()), f, Cascade.MaxEchoDepth)
      ensures old(Synced()) ==> Synced()
      ensures Cascade.Settles(wires, old(timestamp), f) ==> timestamp == old(timestamp)
    {
      ghost var before := Snapshot();
      if f != format {
        format := f;
        NotifyListeners(Cascade.MaxEchoDepth, true);
        if old(Synced()) {
          assert wires.render(Timezone.Unix, before.timestamp, f) == wires.render(Timezone.Unix, before.timestamp, "");
          Cascade.FormatSetSyncs(wires, before, f, Cascade.MaxEchoDepth);
        }
      }
      if Cascade.Settles(wires, before.timestamp, f) {
        Cascade.FormatSetSettles(wires, before, f, Cascade.MaxEchoDepth);
      }
    }

    /**
      Zone `i`'s entry now holds `text` (typed by the user, or pushed by SetText)
      and its OnChanged handler runs: a refused text sets the status "Invalid
      timestamp"; a new instant is set, with the listeners and echoes that
      follow, and the status becomes "Timestamp updated". A user's edit runs
      with `fuel` MaxEchoDepth.
    */
    method OnEntryChanged(i: int, text: string, fuel: nat)
      requires Valid() && 0 <= i < Timezone.ZoneCount
      modifies this`timestamp, this`texts, this`status
      ensures Valid()
      ensures Snapshot() == Cascade.Changed(wires, old(Snapshot()), i, text, fuel)
      ensures var d := wires.decide(text, old(timestamp));
        && (d.Rejected? ==> timestamp == old(timestamp) && texts == old(texts)[i := text] && status == InvalidTimestamp)
        && (d.Unchanged? ==> timestamp == old(timestamp) && texts == old(texts)[i := text] && status == old(status))
        && (d.Store? && fuel > 0 ==>
              && Synced() && status == TimestampUpdated
              && (Cascade.Settles(wires, d.epoch, format) ==> timestamp == d.epoch))
      decreases fuel, 0
    {
      texts := texts[i := text];
      match wires.decide(text, timestamp)
      case Rejected =>
        status := InvalidTimestamp;
      case Unchanged =>
      case Store(e) =>
        if fuel > 0 {
          SetTimestamp(e, fuel - 1);
          status := TimestampUpdated;
        }
    }

    /** The zone's check box sets its visibility flag. */
    method SetVisible(id: int, b: bool)
      requires Valid() && id in visible
      modifies this`visible
      ensures Valid()
      ensures visible == old(visible)[id := b]
    {
      visible := visible[id := b];
    }

    /** The zone's delete button hides it; the button is disabled for the Local zone. */
    method Delete(id: int)
      requires Valid() && id in visible
      modifies this`visible
      ensures Valid()
      ensures visible == if Timezone.Timezones[id].kind == Timezone.LocalTimezoneType then old(visible) else old(visible)[id := false]
    {
      if Timezone.Timezones[id].kind != Timezone.LocalTimezoneType {
        visible := visible[id := false];
      }
    }

    /** The copy button: the field's text goes to the clipboard. */
    method Copy(id: int) returns (clipboard: string)
      requires Valid() && id in texts
      modifies this`status
      ensures clipboard == texts[id]
      ensures status == "Copied to clipboard"
    {
      clipboard := texts[id];
      status := "Copied to clipboard";
    }

    /** The Now button, with the wall clock's epoch seconds as `now`. */
    method Now(now: int)
      requires Valid()
      modifies this`timestamp, this`texts, this`status
      ensures Valid()
      ensures Snapshot() == Cascade.Set(wires, old(Snapshot()), now, Cascade.MaxEchoDepth).(status := "Updated to now")
      ensures now != old(timestamp) ==> Synced()
      ensures Cascade.Settles(wires, now, format) ==> timestamp == now
    {
      SetTimestamp(now, Cascade.MaxEchoDepth);
      status := "Updated to now";
    }

    /**
      The paste button: empty clipboard text does nothing; text that does not
      parse sets "Invalid timestamp"; anything else is set, with no lower
      bound, and reported even when it equals the stored instant.
    */
    method Paste(clipboard: string)
      requires Valid()
      modifies this`timestamp, this`texts, this`status
      ensures Valid()
      ensures clipboard == "" ==> timestamp == old(timestamp) && texts == old(texts) && status == old(status)
      ensures clipboard != "" && Parsing.ParseUnbounded(parse, clipboard).Err? ==>
        timestamp == old(timestamp) && texts == old(texts) && status == InvalidTimestamp
      ensures clipboard != "" && Parsing.ParseUnbounded(parse, clipboard).Ok? ==>
        var e := Parsing.ParseUnbounded(parse, clipboard).value;
        && Snapshot() == Cascade.Set(wires, old(Snapshot()), e, Cascade.MaxEchoDepth).(status := "Updated to clipboard content")
        && (e != old(timestamp) ==> Synced())
        && (Cascade.Settles(wires, e, format) ==> timestamp == e)
    {
      if clipboard == "" {
        return;
      }
      match Parsing.ParseUnbounded(parse, clipboard)
      case Err(_) =>
        status := InvalidTimestamp;
      case Ok(e) =>
        SetTimestamp(e, Cascade.MaxEchoDepth);
        status := "Updated to clipboard content";
    }

    /** The "Watch clipboard" check box. */
    method SetWatchClipboard(checked: bool)
      modifies this`watchClipboard
      ensures watchClipboard == checked
    {
      watchClipboard := checked;
    }

    /** One wake-up of the clipboard watcher, with the clipboard's current text. */
    method ClipboardTick(clipboard: string)
      requires Valid()
      modifies this`timestamp, this`texts, this`status
      ensures Valid()
      ensures var tick := Poller.PollTick(watchClipboard, Some(clipboard), old(timestamp), s => Parsing.ParseUnbounded(parse, s));
        && (tick.None? ==> timestamp == old(timestamp) && texts == old(texts) && status == old(status))
        && (tick.Some? ==>
              && Snapshot() == Cascade.Set(wires, old(Snapshot()), tick.value, Cascade.MaxEchoDepth).(status := "Updated from clipboard")
              && Synced()
              && (Cascade.Settles(wires, tick.value, format) ==> timestamp == tick.value))
    {
      var tick := Poller.PollTick(watchClipboard, Some(clipboard), timestamp, s => Parsing.ParseUnbounded(parse, s));
      if tick.Some? {
        SetTimestamp(tick.value, Cascade.MaxEchoDepth);
        status := "Updated from clipboard";
      }
    }

    /**
      Format menu item `k`: the layout is set (with the format listeners and
      their echoes when it changes), then every item is checked exactly when
      its label is item `k`'s.
    */
    method SelectFormat(k: int)
      requires Valid() && 0 <= k < Formats.FormatCount
      modifies this`format, this`timestamp, this`texts, this`status, this`formatChecked
      ensures Valid()
      ensures Snapshot() == Cascade.FormatSet(wires, old(Snapshot()), Formats.SupportedFormats[k].format, Cascade.MaxEchoDepth)
      ensures format == Formats.SupportedFormats[k].format
      ensures forall j :: 0 <= j < |formatChecked| ==> formatChecked[j] == (j == k)
      ensures old(Synced()) ==> Synced()
      ensures Cascade.Settles(wires, old(timestamp), format) ==> timestamp == old(timestamp)
    {
      var formats := Formats.SupportedFormats;
      var chosen := formats[k];
      SetFormat(chosen.format);
      Formats.CatalogDistinct();
      ghost var shown := Snapshot();
      var j := 0;
      while j < |formatChecked|
        invariant 0 <= j <= |formatChecked| == |formats|
        invariant Snapshot() == shown
        invariant forall q :: 0 <= q < j ==> formatChecked[q] == (q == k)
      {
        var checked := formats[j].name == chosen.name;
        assert checked == (j == k);
        formatChecked := formatChecked[j := checked];
        j := j + 1;
      }
    }

    /** The first step of a preset: every VisibleChanger binding is set to false, in map order. */
    method HideAll()
      requires Valid()
      modifies this`visible
      ensures Valid()
      ensures forall id :: id in visible ==> !visible[id]
    {
      var keys := visible.Keys;
      while keys != {}
        invariant keys <= visible.Keys == old(visible).Keys
        invariant forall id :: id in visible && id !in keys ==> !visible[id]
        decreases keys
      {
        var id := Collections.Pick(keys);
        visible := visible[id := false];
        keys := keys - {id};
      }
    }

    /**
      Presets menu item `k`: every zone is hidden; every item is checked exactly
      when its label is item `k`'s; then the members of the preset with item
      `k`'s id that are in the map are shown; the status names the preset.
    */
    method ApplyPreset(k: int)
      requires Valid() && 0 <= k < RootTimezones.PresetCount
      modifies this`visible, this`presetChecked, this`status
      ensures Valid()
      ensures forall id :: id in visible ==> visible[id] == (id in RootTimezones.TimezonePresets[k].timezones)
      ensures forall j :: 0 <= j < |presetChecked| ==> presetChecked[j] == (j == k)
      ensures status == "Preset " + RootTimezones.TimezonePresets[k].name
    {
      HideAll();
      CheckPresetItem(k);
      RootTimezones.PresetTableWellFormed();
      ShowPreset(RootTimezones.TimezonePresets, k);
      status := "Preset " + RootTimezones.TimezonePresets[k].name;
    }

    /** The check-mark loop of a preset item: an item is checked exactly when its label is item `k`'s. */
    method CheckPresetItem(k: int)
      requires Valid() && 0 <= k < RootTimezones.PresetCount
      modifies this`presetChecked
      ensures Valid()
      ensures forall j :: 0 <= j < |presetChecked| ==> presetChecked[j] == (j == k)
    {
      var presets := RootTimezones.TimezonePresets;
      var chosen := presets[k].name;
      Timezone.PresetLabelsDistinct();
      var j := 0;
      while j < |presetChecked|
        invariant 0 <= j <= |presetChecked| == |presets|
        invariant forall q :: 0 <= q < j ==> presetChecked[q] == (q == k)
      {
        var checked := presets[j].name == chosen;
        assert checked == (j == k);
        presetChecked := presetChecked[j := checked];
        j := j + 1;
      }
    }

    /**
      The last loop of a preset item: every preset of `presets` whose id is
      `presetId` shows those of its members that have a VisibleChanger entry.
      The menu passes the preset table and its item's id.
    */
    method ShowPreset(presets: seq<Timezone.Preset>, k: int)
      requires Valid() && 0 <= k < |presets|
      requires forall p :: 0 <= p < |presets| && presets[p].id == presets[k].id ==> p == k
      modifies this`visible
      ensures Valid()
      ensures forall id :: id in visible ==> visible[id] == (old(visible[id]) || id in presets[k].timezones)
    {
      var presetId := presets[k].id;
      var p := 0;
      while p < |presets|
        invariant 0 <= p <= |presets|
        invariant Timezone.ByZone(visible)
        invariant forall id :: id in visible ==> visible[id] == (old(visible[id]) || (k < p && id in presets[k].timezones))
      {
        if presets[p].id == presetId {
          var members := presets[p].timezones;
          var m := 0;
          while m < |members|
            invariant 0 <= m <= |members|
            invariant Timezone.ByZone(visible)
            invariant forall id :: id in visible ==> visible[id] == (old(visible[id]) || id in members[..m])
          {
            var id := members[m];
            if id in visible {
              visible := visible[id := true];
            }
            m := m + 1;
          }
          assert members[..m] == members;
        }
        p := p + 1;
      }
    }
  }
}
