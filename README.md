# timestamp-converter: a verified model of the synchronisation core

timestamp-converter is a Fyne desktop tool. It shows one instant in a row of
time zones and keeps every row in step when any of them is edited. This
project models in Dafny the logic behind the widgets and proves properties of
that model.

**Text to instant.** `PraseStringToTime` exists in three revisions:

| revision | module member | order of attempts | range |
|---|---|---|---|
| timestamp_converter.go | `Parsing.ParseUnbounded` | the supported layouts in catalog order, then a base-10 int64 | none |
| helpers.go | `Parsing.ParseBounded` | the same | the result must lie in [0, 253374914595]; a layout that parses out of range is an error at once |
| time_helpers.go | `Parsing.ParseRfc` | RFC3339, then RFC3339Nano, then a base-10 int64 | none |

- An instant is its epoch seconds (an `int`).
- Go's `time.Parse` for one layout is a parameter `LayoutParser` that returns `Some(epoch)` or `None`.
- `strconv.ParseInt` and `strconv.FormatInt` are written out digit by digit in module `Decimal`. This makes the Unix field's render-then-parse round trip provable.

**Registries.** The zone catalog, the built-in presets, the format catalog and
the rendering rule `StringTime` are modelled in modules `Timezone`, `Formats`
and `RootTimezones`. Their data invariants are proved: ids equal catalog
indices, labels are distinct, and preset members are catalog ids.

- The root package's timezones.go has the same catalog and preset table, entry for entry, as timezone/timezones.go. `RootTimezones` adds only the one difference: the preset id is serialised.
- Zone formatting, `t.In(loc).Format(layout)`, is a parameter `Formatter`.

**Synchronisation.** A timestamp cell and a layout cell drive one text field per zone. A fyne binding's `Set` notifies its listeners only when the value changes, and a listener runs once when it is registered. An entry's `SetText` runs its `OnChanged` only when the text changes. These rules are written out in the methods.

| window | module | class |
|---|---|---|
| root package, timestamp_converter.go | `Converter` | `TimestampConverter` |
| gui package, gui/gui_maker.go with timestamp_converter/lifecycle.go | `Gui` | `TimestampConverter` |
| root package menus, menu_maker.go | `MenuMaker` | `TimestampConverter` |
| early per-row window, timestamp_items_set.go | `ItemsSet` | `TimestampItemsSet` |

- Each class holds the cells, the per-zone visibility map, each field's text and the menus' check marks as fields. Its methods modify these fields in place.
- A listener that calls `SetText` runs the field's `OnChanged` at once, and that handler may set the timestamp again, nested inside the round of listeners that caused it. Module `Cascade` states this cascade as functions (`Set`, `FormatSet`, `Listeners`, `Changed`) over a window's `Wiring`: its renderer, its OnChanged decision, whether the Unix field listens to the layout, and its status messages. The windows' methods run the listeners and handlers re-entrantly and are proved to end in the state those functions give.
- Echoes are not inert in general. A layout that reads back coarser than it renders (RFC822Z keeps minutes and a two-digit year) makes the Local field's echo store another instant (`Cascade.EchoMovesTimestamp`, `Converter.TruncatingEchoMovesTimestamp`). Every cascade of the model ends with all fields in sync (`Cascade.SetSyncs`); the model bounds the nesting depth, as the `Cascade.Changed` line under "Left out" says, and it ends at the instant set whenever every field's rendering reads back as that instant (`Cascade.SetSettles`, `Converter.ReadBackSettles`).
- Building the window differs between the two windows. The root window assigns an entry's OnChanged (timestamp_converter.go:115) after registering its listeners (timestamp_converter.go:89, :113), so their first runs only render. The gui window assigns OnChanged first (gui/gui_maker.go:37) and registers afterwards (gui/gui_maker.go:80-81). Each first run there sets the entry from the empty text, which echoes, and a Set that the echo nests reaches only the zones registered so far. `Cascade.Register` states this loop, and `Gui.TimestampConverter.MakeContent` is proved to end as it gives. The window still ends with every field in sync (`Cascade.RegisterSyncs`). It ends at the starting instant when that instant's renderings read back (`Cascade.RegisterSettles`), and elsewhere when the Local field's first echo stores another instant (`Cascade.RegisterEchoMovesTimestamp`).

**Preferences.** Each synchronizer is a class:

- `Preferences.PreferencesSynchronizer` models preferences/preferences.go.
- `RootPreferences.PreferencesSynchronizer` models preferences.go.

Each keeps the typed key lists and the preference store, which is a map from key to a typed value (module `PrefStore`). Registering a key loads the stored value or the fallback, and from then on, each change is written back. `XBinding.IntArray` (xbinding/int_array.go) is the list binding whose `Set` and `Get` copy element by element.

The clipboard watcher's loop body is the step function `Poller.PollTick`.

## Model

| member | source | states |
|---|---|---|
| Decimal.NatDigits | timestamp_converter.go:82 | the printed magnitude is a non-empty run of digits with no leading zero |
| Decimal.FormatInt | timestamp_converter.go:82 | strconv.FormatInt(n, 10): non-empty, with a leading '-' iff n is negative; FormatParseRoundTrip and FormatIntInjective are its partners |
| Decimal.ParseInt | timestamp_converter.go:42-45 | every accepted text yields a value within int64 |
| Decimal.NatDigitsRoundTrip | timestamp_converter.go:82 | the digit run printed for n denotes n |
| Decimal.FormatParseRoundTrip | timestamp_converter.go:42-45 | ParseInt reads back exactly the int64 that FormatInt printed |
| Decimal.FormatIntInjective | timestamp_converter.go:82-85 | two int64 values print the same text iff they are equal, so comparing texts before SetText is exact |
| Decimal.ParseIntAcceptsOnlyDigits | helpers.go:21-22 | accepted text is non-empty: an optional sign, then digits only |
| Decimal.ParseIntExamples | helpers.go:21-22 | "0" is 0, "-1" is -1, "+007" is 7; "" and "-" are syntax errors |
| Decimal.FormatOutOfRangeRefused | helpers.go:21-22 | well-formed digits outside int64 give a range error, not a value |
| Formats.Layouts | formats.go:10-27 | the layouts, one per catalog entry, in catalog order |
| Formats.DefaultFormat | timestamp_converter.go:246-247 | the default format is RFC3339, the first layout |
| Formats.CatalogOrder | formats.go:10-27 | exactly four entries: RFC3339, RubyDate, RFC822Z, RFC1123Z; so the "no format found" panic cannot happen |
| Formats.CatalogDistinct | formats.go:10-27 | formats are pairwise distinct, and so are labels |
| Formats.NanoNotInCatalog | time_helpers.go:15 | RFC3339Nano, the second layout time_helpers.go tries, is not a menu format |
| Parsing.FirstMatchFrom | helpers.go:10-18 | the result is the first layout at or after k that parses, or None when none from k on parses |
| Parsing.FirstMatch | timestamp_converter.go:35-40 | Some exactly at the first layout that parses; None iff no layout parses |
| Parsing.FirstMatchUnique | timestamp_converter.go:35-40 | a text has one first match at most: index and epoch are determined |
| Parsing.ParseUnbounded | timestamp_converter.go:34-48 | the first matching layout decides; with no match, a base-10 int64 is the instant, and anything else is "invalid time format" |
| Parsing.ParseRfc | time_helpers.go:9-26 | accepted iff RFC3339 or RFC3339Nano parses the text or it is a base-10 int64; every failure is "invalid time format" |
| Parsing.ParseBounded | helpers.go:9-27 | every success lies in [0, MaxEpoch]; a first match out of range is an error with no fallback; with no match, the int64 is accepted iff in range |
| Parsing.ParseRfcIsFirstMatch | time_helpers.go:9-26 | RFC3339 first, then RFC3339Nano; the first success wins; with neither, the text is accepted iff it is an int64, negatives included |
| Parsing.BoundedIsUnboundedRestricted | helpers.go:13-22 | the bounded revision is the unbounded one restricted to [0, MaxEpoch] |
| Parsing.UnboundedIntegerFallback | timestamp_converter.go:42-45 | integer text that no layout reads gives its own value as epoch seconds |
| Parsing.BoundedIntegerFallback | helpers.go:21-24 | the bounded fallback gives n exactly when 0 <= n <= MaxEpoch, else an error |
| Parsing.ZeroAndMinusOne | helpers.go:22 | "0" is the epoch in both revisions; "-1" is refused only by the bounded one |
| Parsing.NothingMatchesIsError | helpers.go:26 | text no layout reads that is not an integer is an error in all three revisions |
| Parsing.Contains | helpers.go:29-36 | true iff some element equals e |
| Poller.PollTick | timestamp_converter/lifecycle.go:57-89 | a tick stores iff watching, a clipboard exists, its text is non-empty, parses and differs from the current instant; it stores the parsed instant |
| Poller.TickSettles | timestamp_converter/lifecycle.go:82-86 | after a tick stores, a second tick on the same clipboard does nothing |
| Collections.Pick | gui/gui_maker.go:167 | ranging over a map visits some key still to be visited |
| Collections.TrueKeys | gui/gui_maker.go:165-172 | the collected ids are exactly the keys whose flag is true, each once |
| Timezone.UnixIgnoresFormat | timezone/timezones.go:24-26 | a Unix zone prints the decimal epoch seconds under every layout |
| Timezone.LocationZonesDependOnLocation | timezone/timezones.go:27-28 | any other zone's text depends only on the instant, its location and the layout |
| Timezone.StringTime | timezone/timezones.go:24-29 | a Unix zone's text is non-empty and starts with '-' iff the instant is before the epoch; UnixIgnoresFormat and UnixRenderParseRoundTrip are its partners |
| Timezone.Render | timestamp_converter.go:79-83 | catalog zone 1, the Unix zone, prints decimal epoch seconds; every other zone prints the formatter's text for its own location |
| Timezone.UnixRenderParseRoundTrip | timezone/timezones.go:24-26 | the Unix field's text parses back to its instant |
| Timezone.UnixTextComparisonExact | gui/gui_maker.go:73-77 | for the Unix field, equal texts mean equal instants |
| Timezone.Rendered | gui/gui_maker.go:62-81 | every catalog zone, and nothing else, has a rendered text |
| Timezone.IdsAreIndices | timezone/timezones.go:78-96 | 17 zones; zone i has id i |
| Timezone.SingleLocalAndUnix | timezone/timezones.go:121-133 | exactly one Local-type entry (id 0) and exactly one Unix-type entry (id 1) |
| Timezone.LabelsDistinct | timezone/timezones.go:121-223 | catalog labels are pairwise distinct |
| Timezone.PresetMembersAreZones | timezone/timezones.go:98-119 | every built-in preset member is a catalog id, and every built-in preset includes Local |
| Timezone.PresetIds | timezone/timezones.go:66-74 | built-in ids are 1..4 in order, distinct, and below LastInternalId = 5; 0 is reserved |
| Timezone.PresetLabelsDistinct | timezone/timezones.go:98-119 | built-in preset labels are pairwise distinct |
| Timezone.SerializePresets | timezone/timezones.go:47-54 | the JSON list has one encoded element per preset, in order |
| Timezone.DeserializePresets | timezone/timezones.go:56-64 | the preset list has one decoded element per JSON element, in order |
| Timezone.SerializeDropsIds | timezone/timezones.go:41-45 | a list read back keeps labels and members, but every id becomes 0 |
| RootTimezones.SerializeKeepsIds | timezones.go:40-44 | with `json:"id"`, a preset survives the round trip whole |
| RootTimezones.PresetTableWellFormed | timezones.go:78-99 | ids distinct and in [1, LastInternalId); members are catalog ids; every preset includes Local |
| ItemsSet.Accepts | timestamp_items_set.go:40-54 | an RFC row accepts iff its layout parses; a Unix row accepts iff the text is a base-10 int64 |
| ItemsSet.UpdateText | timestamp_items_set.go:85-94 | RFC rows format the instant in their location; Unix rows print decimal seconds |
| ItemsSet.UnixIgnoresLocation | timestamp_items_set.go:91-92 | a Unix row's text does not depend on its location |
| ItemsSet.AcceptedTextUpdates | timestamp_items_set.go:40-63 | text a row's validator accepts is always accepted by the global parse |
| ItemsSet.UnixAcceptsOwnText | timestamp_items_set.go:48-50 | a Unix row's validator accepts what its Update wrote, for every int64 |
| ItemsSet.UnixEchoReturnsInstant | timestamp_items_set.go:56-63 | the echo of a Unix row's Update hands back the instant written |
| ItemsSet.RfcEchoReturnsInstant | timestamp_items_set.go:56-63 | when the layout reads its own output back, an RFC3339 row's echo hands back the instant written |
| ItemsSet.TimestampItemsSet.constructor | timestamp_items_set.go:31-34 | a row needs a location (nil panics); it starts empty with its title, kind and location |
| ItemsSet.TimestampItemsSet.OnChanged | timestamp_items_set.go:56-63 | the update is handed on iff the global parse accepts the text, with its instant; text the row accepts is always handed on |
| ItemsSet.TimestampItemsSet.Update | timestamp_items_set.go:85-94 | the entry shows the instant as the row's kind prescribes; a Unix row then validates |
| ItemsSet.TimestampItemsSet.Copy | timestamp_items_set.go:67-70 | the clipboard gets the entry's text; the status says so |
| Cascade.ShownIsRendered | timezone/timezones.go:24-29 | with the catalog's renderer, every field shows StringTime of its zone |
| Cascade.CatalogUnixLayoutFree | timestamp_converter.go:79-83 | the catalog's Unix field shows the same text under every layout |
| Cascade.Set | timestamp_converter.go:64-89 | Timestamp.Set keeps a text per zone and leaves the layout alone; its meaning is stated by SetSyncs and SetSettles |
| Cascade.FormatSet | timestamp_converter.go:91-113 | Format.Set makes f the layout and keeps a text per zone; its meaning is stated by FormatSetSyncs and FormatSetSettles |
| Cascade.Listeners | timestamp_converter.go:64-113 | the listeners keep a text per zone and leave the layout alone |
| Cascade.Changed | timestamp_converter.go:115-141 | an OnChanged keeps a text per zone and leaves the layout alone |
| Cascade.ListenersSync | timestamp_converter.go:64-113 | the listeners of zones i to n leave the fields of the first n zones showing the cells, and so every field once all zones are registered, provided the fields before i and the skipped ones already did |
| Cascade.ChangedSyncsOrKeeps | timestamp_converter.go:115-141 | an OnChanged either ends with every registered zone's field showing the cells or changes nothing but its own field's text (and the status) |
| Cascade.SetSyncs | timestamp_converter.go:64-89 | after Set of a new value, with its nested echoes, every registered zone's field shows the final instant under the layout, so every field once all zones are registered |
| Cascade.FormatSetSyncs | timestamp_converter.go:91-113 | after Set of a new layout every field shows the final instant under it; a window that skips the Unix field needs that field in sync and layout-free |
| Cascade.ListenersIdle | timestamp_converter.go:84 | listeners over fields already in sync change nothing |
| Cascade.ListenersKeepTimestamp | timestamp_converter.go:115-141 | when every field's rendering reads back without a store, the listeners never move the timestamp |
| Cascade.SetSettles | timestamp_converter.go:64-89 | Set(v) ends at v when every rendering of v reads back without a store |
| Cascade.FormatSetSettles | timestamp_converter.go:91-113 | Format.Set(f) keeps the timestamp when every rendering under f reads back without a store |
| Cascade.FirstEchoDecides | timestamp_converter.go:84-86 | when the first field's new text reads back as another instant e whose renderings settle, the listeners end at e |
| Cascade.EchoMovesTimestamp | timestamp_converter.go:64-89 | Timestamp.Set(v) can end away from v: at the instant the Local field's echo stores |
| Cascade.FormatEchoMovesTimestamp | timestamp_converter.go:91-113 | Format.Set can move the timestamp the same way, through the Local field's format listener |
| Cascade.Register | gui/gui_maker.go:231-249 | makeContent's loop from zone k on: each zone's listener is added to the timestamp cell and then to the layout cell, and each first run echoes over the zones added so far; it keeps a text per zone and the layout; its meaning is stated by RegisterSyncs, RegisterSettles and RegisterEchoMovesTimestamp |
| Cascade.RegisterSyncs | gui/gui_maker.go:231-249 | once the fields of the zones added before k show the cells, the rest of the loop ends with every field in sync, whatever the first runs' echoes stored |
| Cascade.RegisterSettles | gui/gui_maker.go:231-249 | the loop keeps the timestamp when every rendering of it reads back without a store |
| Cascade.RegisterEchoMovesTimestamp | gui/gui_maker.go:37-81 | when the Local field's first rendering reads back as another instant e whose renderings settle, the window is built at e, not at the instant it started from |
| Cascade.Built | gui/gui_maker.go:231-249 | from empty entries the loop ends with every field in sync, and at the starting instant when its renderings read back |
| Converter.EditDecision | timestamp_converter.go:115-141 | refused iff the text does not parse or parses at or before -50*31556926; unchanged iff it parses to the current instant; otherwise that instant is stored |
| Converter.Wiring | timestamp_converter.go:64-141 | the fields render by the catalog's rule and decide by EditDecision; refusal sets "Invalid timestamp", a store "Timestamp updated"; the Unix field has no format listener |
| Converter.WiringFits | timestamp_converter.go:79-92 | the Unix field has no format listener and shows one text under every layout; a store always moves the instant |
| Converter.EchoNeverWrites | timestamp_converter.go:84-86 | text that parses to the stored instant, or not at all, never writes the timestamp |
| Converter.UnixEchoNeverWrites | timestamp_converter.go:79-86 | the Unix field's echo never writes, and leaves the timestamp unchanged once past the lower bound |
| Converter.StoreSettles | timestamp_converter.go:137-140 | an edit that stored is a no-op when repeated |
| Converter.ReadBackSettles | timestamp_converter.go:115-141 | when every field's rendering of t parses back as t, or not at all, no echo stores anything |
| Converter.TruncatingEchoMovesTimestamp | timestamp_converter.go:84-86 | when the Local field's rendering of v parses as another admissible instant e whose renderings settle, Timestamp.Set(v) ends at e, not at v |
| Converter.TimestampConverter.constructor | timestamp_converter.go:307-381 | timestamp now and layout RFC3339 with every field showing it; only the first format item and first preset item are checked; visibility is the first preset's members; the status names that preset |
| Converter.TimestampConverter.FinishFormatsMenu | timestamp_converter.go:246-247 | only the first format item is checked; the layout becomes RFC3339 through Format.Set and its cascade; fields in sync stay in sync |
| Converter.TimestampConverter.FinishPresetsMenu | timestamp_converter.go:301-302 | only the first preset item is checked and its action runs: visibility is its members, the status names it |
| Converter.TimestampConverter.SetTimestamp | timestamp_converter.go:64-89 | the cells, fields and status end as Cascade.Set gives: an equal value changes nothing; a new one ends with every field in sync, and at v when v's renderings read back |
| Converter.TimestampConverter.NotifyListeners | timestamp_converter.go:64-113 | running every zone's listener in catalog order ends as Cascade.Listeners gives |
| Converter.TimestampConverter.Listener | timestamp_converter.go:64-111 | one zone's listener: skipped for the Unix field on a layout change, idle on equal text, otherwise SetText and the OnChanged that follows, as Cascade.Changed gives |
| Converter.TimestampConverter.SetFormat | timestamp_converter.go:91-113 | ends as Cascade.FormatSet gives: an equal layout changes nothing; a new one re-renders every field but Unix with their echoes; fields in sync stay in sync; the timestamp is kept when the new renderings read back |
| Converter.TimestampConverter.OnEntryChanged | timestamp_converter.go:115-141 | ends as Cascade.Changed gives: the field holds the text; refused text sets "Invalid timestamp"; an equal instant changes nothing more; a new instant is Set with its nested echoes, every field ends in sync and the status is "Timestamp updated" |
| Converter.TimestampConverter.SetVisible | timestamp_converter.go:173 | the check box sets exactly that zone's flag |
| Converter.TimestampConverter.Delete | timestamp_converter.go:151-171 | the flag is cleared except for the Local zone, whose button is disabled |
| Converter.TimestampConverter.Copy | timestamp_converter.go:144-147 | the clipboard gets the field's text; the status says so |
| Converter.TimestampConverter.Now | timestamp_converter.go:338-341 | ends as Cascade.Set gives for now, with status "Updated to now"; fields in sync after a change; at now when its renderings read back |
| Converter.TimestampConverter.Paste | timestamp_converter.go:350-364 | empty text changes nothing; unparsable text sets "Invalid timestamp"; otherwise the instant is Set with no lower bound, as Cascade.Set gives |
| Converter.TimestampConverter.SetWatchClipboard | timestamp_converter.go:349 | the watch flag follows the check box |
| Converter.TimestampConverter.ClipboardTick | timestamp_converter.go:388-415 | acts as PollTick decides: nothing, or Set the parsed instant as Cascade.Set gives, every field in sync, status "Updated from clipboard" |
| Converter.TimestampConverter.SelectFormat | timestamp_converter.go:227-239 | ends as Cascade.FormatSet gives for item k's layout; exactly item k is checked; fields in sync stay in sync |
| Converter.TimestampConverter.HideAll | timestamp_converter.go:268-270 | every flag in the map becomes false |
| Converter.TimestampConverter.ApplyPreset | timestamp_converter.go:264-294 | a zone is visible iff it is a member of preset k; exactly item k is checked; the status names the preset |
| Converter.TimestampConverter.CheckPresetItem | timestamp_converter.go:272-278 | exactly item k is checked |
| Converter.TimestampConverter.ShowPreset | timestamp_converter.go:280-291 | members of the preset with that id that have a flag are shown; other flags keep their value |
| Gui.LowerChar | gui/gui_maker.go:139 | upper-case ASCII letters move down by 32, all else is unchanged |
| Gui.ToLower | gui/gui_maker.go:139 | same length, every character lowered |
| Gui.ToLowerIdempotent | gui/gui_maker.go:139 | lowering twice is lowering once |
| Gui.ContainsSubstring | gui/gui_maker.go:139 | true iff the text occurs at some position |
| Gui.OptionsOf | gui/gui_maker.go:138-142 | the list holds exactly the labels of offered zones; it is no longer than the zone list |
| Gui.GetOptions | gui/gui_maker.go:126-145 | at most one option per catalog zone |
| Gui.OptionsAreHiddenMatches | gui/gui_maker.go:126-145 | a zone's label is offered iff the zone is hidden and its label contains the text, ignoring case |
| Gui.ListedIffOffered | gui/gui_maker.go:138-142 | with distinct labels, a label is listed iff its zone is offered |
| Gui.FirstOptionIsFirstOffered | gui/gui_maker.go:138-142 | the options keep the zones' order: the first option is the label of the first offered zone |
| Gui.EmptyTextOffersHidden | gui/gui_maker.go:139 | with nothing typed, exactly the hidden zones are offered |
| Gui.OptionsIgnoreCase | gui/gui_maker.go:139 | lower-casing the typed text first gives the same options |
| Gui.OptionsOfIgnoreCase | gui/gui_maker.go:138-142 | the same over any zone list |
| Gui.PersistedAfterDelete | gui/gui_maker.go:88-97 | the delete loop as written persists at most one id: the last visited, if shown |
| Gui.DeleteForgetsShownZones | gui/gui_maker.go:88-97 | zones 0 and 1 shown, 16 visited last: nothing is persisted |
| Gui.Validate | gui/gui_maker.go:53-60 | an error iff the text does not parse, and it is the parser's error |
| Gui.EntryEdit | gui/gui_maker.go:37-51 | refused iff the text does not parse; unchanged iff it parses to the current instant; otherwise that instant is stored |
| Gui.Wiring | gui/gui_maker.go:37-81 | the fields render by the catalog's rule and decide by EntryEdit with no status; every field, Unix included, listens to both cells |
| Gui.WiringFits | gui/gui_maker.go:37-81 | the Unix field listens to the layout too, a store always moves the instant, and OnChanged sets no status |
| Gui.RefusedTextIsInert | gui/gui_maker.go:37-60 | text the validator refuses never moves the timestamp |
| Gui.EchoStoresNothing | gui/gui_maker.go:37-51 | a field's rendering that parses back to the instant stores nothing when echoed |
| Gui.ReadBackSettles | gui/gui_maker.go:37-51 | when every field's rendering of t reads back as t, or not at all, no echo stores anything |
| Gui.TimestampConverter.constructor | timestamp_converter/lifecycle.go:92-100 | empty visibility map and persisted list, timestamp seeded with now, empty layout and theme, a synchronizer with no keys |
| Gui.TimestampConverter.MakeContent | gui/gui_maker.go:231-249 | every zone gets an entry starting empty and its listeners, and the cells and entries end as Cascade.Register gives from the starting cells, with the first runs' echoes; every field ends in sync; one flag per zone, true only for the Local zone; the synchronizer's invariant holds |
| Gui.TimestampConverter.AddZones | gui/gui_maker.go:235-249 | the loop over the catalog ends as Cascade.Register gives, with every zone registered and every field in sync; the flags and the synchronizer are untouched |
| Gui.TimestampConverter.RegisterZones | gui/gui_maker.go:235-249 | zone after zone the listeners are added, ending as Cascade.Register gives with every field in sync |
| Gui.TimestampConverter.AddZone | gui/gui_maker.go:80-81 | zone k's listener is added to the timestamp cell and runs, then to the layout cell and runs, each as Cascade.Listeners gives over the zones added so far |
| Gui.TimestampConverter.ShowLocalOnly | gui/gui_maker.go:241-248 | one flag per zone, true only for the Local zone |
| Gui.TimestampConverter.SetTimestamp | gui/gui_maker.go:62-81 | ends as Cascade.Set gives over the registered zones: an equal value changes nothing; a new one ends with every registered zone's field showing the cells (every field, once all are registered), and at v when v's renderings read back |
| Gui.TimestampConverter.NotifyListeners | gui/gui_maker.go:62-81 | running the registered zones' listeners in catalog order ends as Cascade.Listeners gives |
| Gui.TimestampConverter.Listener | gui/gui_maker.go:62-78 | one registered zone's listener: idle on equal text, otherwise SetText and the OnChanged that follows, as Cascade.Changed gives |
| Gui.TimestampConverter.SetFormat | gui/gui_maker.go:62-81 | ends as Cascade.FormatSet gives, every field re-rendered with its echoes and in sync; the layout is written to the store once "format" is registered |
| Gui.TimestampConverter.SetVisibleTimezones | preferences/preferences.go:183-195 | the persisted list is replaced and, once registered, written back encoded |
| Gui.TimestampConverter.OnEntryChanged | gui/gui_maker.go:37-51 | ends as Cascade.Changed gives: text that does not parse, or parses to the current instant, changes nothing else; a new instant is Set with its nested echoes and every registered zone's field ends in sync (every field, once all are registered) |
| Gui.TimestampConverter.Delete | gui/gui_maker.go:85-102 | the flag is cleared, the persisted list becomes exactly the shown zones, and the store changes only at "visibleTimezones", once registered, to the list's encoding; for the Local zone, whose button is disabled, nothing changes |
| Gui.TimestampConverter.DeleteAsWritten | gui/gui_maker.go:85-102 | the flag is cleared, the persisted list is what the loop as written leaves, and the store changes only at "visibleTimezones", once registered, to that list's encoding; for the Local zone, whose button is disabled, nothing changes |
| Gui.TimestampConverter.PersistEachAsWritten | gui/gui_maker.go:88-97 | the loop as written: the persisted list ends as the last zone visited if shown, and nothing else; the store follows it at "visibleTimezones" once registered; an empty visit order changes nothing |
| Gui.TimestampConverter.OnAddEntryChanged | gui/gui_maker.go:151-154 | the options become getOptions of the new text |
| Gui.TimestampConverter.OnSubmitted | gui/gui_maker.go:156-179 | with options: the first option's zone is shown, the shown zones are persisted and the store changes only at "visibleTimezones", once registered, to their encoding; the text is cleared, and the options are recomputed only if the text was not already empty (clearing then runs OnChanged); without options nothing changes |
| Gui.TimestampConverter.PersistShown | gui/gui_maker.go:165-174 | the persisted list is exactly the shown zones, each once, and is written back |
| Gui.TimestampConverter.ShowLabelled | gui/gui_maker.go:158-163 | the zone labelled with the wanted text is shown; no other flag changes |
| Gui.TimestampConverter.Now | gui/gui_maker.go:196-198 | ends as Cascade.Set gives for now |
| Gui.TimestampConverter.SetWatchClipboard | gui/gui_maker.go:206 | the watch flag follows the check box |
| Gui.TimestampConverter.Paste | gui/gui_maker.go:207-225 | no clipboard, empty or unparsable text changes nothing; otherwise the parsed instant is Set as Cascade.Set gives |
| Gui.TimestampConverter.ClipboardTick | timestamp_converter/lifecycle.go:57-89 | acts as PollTick decides: nothing, or Set the parsed instant as Cascade.Set gives |
| Gui.TimestampConverter.SetupAndLoadPreferences | timestamp_converter/lifecycle.go:14-54 | "format", "theme" and "visibleTimezones" are registered with fallbacks RFC3339, the system theme and [0], and the store ends holding the loaded layout and theme and, when the list decodes, its encoding; a stored list that does not decode panics and leaves the list key unregistered; saved ids with a flag are shown |
| Gui.TimestampConverter.RegisterStrings | timestamp_converter/lifecycle.go:15-33 | format and theme are loaded from the store or their fallbacks and written back |
| Gui.TimestampConverter.RegisterFormat | timestamp_converter/lifecycle.go:15-23 | "format" is registered with fallback RFC3339; the loaded layout is Set, with its cascade, and written back |
| Gui.TimestampConverter.ShowSaved | timestamp_converter/lifecycle.go:45-50 | each saved id that has a flag is shown; unknown ids are ignored; other flags keep their value |
| XBinding.IntArray.constructor | xbinding/int_array.go:9-13 | a new binding holds the empty list |
| XBinding.IntArray.Set | xbinding/int_array.go:15-22 | the list holds one int element per value, in order |
| XBinding.IntArray.Get | xbinding/int_array.go:24-37 | the result has one int per stored element, in order |
| XBinding.SetThenGet | xbinding/int_array.go:15-37 | Get after Set(v) returns v |
| Preferences.IsKeyExistInCollection | preferences/preferences.go:200-208 | true iff the key is in the list |
| Preferences.LoadIntArray | preferences/preferences.go:168-177 | an absent key or stored "[]" gives the fallback; other stored text is decoded |
| Preferences.PreferencesSynchronizer.constructor | preferences/preferences.go:75-86 | four empty key lists over the application's store |
| Preferences.PreferencesSynchronizer.IsKeyExisting | preferences/preferences.go:210-228 | true iff the key is in any of the four lists |
| Preferences.PreferencesSynchronizer.AddString | preferences/preferences.go:91-110 | a key in use is refused and nothing changes; otherwise the stored or fallback string is loaded, the key registered and written back; keys stay unique |
| Preferences.PreferencesSynchronizer.AddInt | preferences/preferences.go:115-134 | as AddString, over ints |
| Preferences.PreferencesSynchronizer.AddBool | preferences/preferences.go:139-158 | as AddString, over bools |
| Preferences.PreferencesSynchronizer.AddIntArray | preferences/preferences.go:163-198 | a key in use is refused; a decode error is returned with the key left free; otherwise the binding holds the loaded list, the key is registered and the list written back |
| Preferences.PreferencesSynchronizer.OnStringChanged | preferences/preferences.go:100-107 | the new string is stored under the key |
| Preferences.PreferencesSynchronizer.OnIntChanged | preferences/preferences.go:124-131 | the new int is stored under the key |
| Preferences.PreferencesSynchronizer.OnBoolChanged | preferences/preferences.go:148-155 | the new bool is stored under the key |
| Preferences.PreferencesSynchronizer.OnIntArrayChanged | preferences/preferences.go:183-195 | the encoded list is stored under the key |
| Preferences.NewKeyKeepsDistinct | preferences/preferences.go:92-98 | registering a key absent from all lists keeps the registry duplicate-free |
| Preferences.BoolScenario | preferences/preferences_test.go:65-137 | a bool loads from store or false, a change is written back, a second registration is refused |
| Preferences.IntScenario | preferences/preferences_test.go:139-210 | an int loads 20 from the fallback or the stored value; a change to 1 is written back; a second registration is refused |
| Preferences.IntArrayEmptyScenario | preferences/preferences_test.go:212-240 | nothing stored gives [1, 2, 3]; a later Set reads back [4, 5, 6] |
| Preferences.IntArrayNonEmptyScenario | preferences/preferences_test.go:242-271 | stored "[3, 5, 8]" is decoded in place of the fallback |
| RootPreferences.LoadPresets | preferences.go:150-161 | an absent key or stored "[]" gives the fallback; other text is decoded, ids coming back as 0 |
| RootPreferences.PreferencesSynchronizer.constructor | preferences.go:58-68 | empty key lists; the userPresets key is "" |
| RootPreferences.PreferencesSynchronizer.IsKeyExisting | preferences.go:180-204 | true iff the key is in a list or is the userPresets key |
| RootPreferences.PreferencesSynchronizer.AddString | preferences.go:73-92 | a key in use (the empty key included) is refused and nothing changes; otherwise load, register, write back |
| RootPreferences.PreferencesSynchronizer.AddInt | preferences.go:97-116 | as AddString, over ints |
| RootPreferences.PreferencesSynchronizer.AddBool | preferences.go:121-140 | as AddString, over bools |
| RootPreferences.PreferencesSynchronizer.AddPresets | preferences.go:145-178 | as written: refused for a key in use; otherwise the presets are loaded (a decode error panics) and a listener is installed, while the key stays unrecorded |
| RootPreferences.PreferencesSynchronizer.AddPresetsCorrected | preferences.go:145-178 | the same steps with the key recorded: after success the key is in use |
| RootPreferences.PreferencesSynchronizer.OnPresetsChanged | preferences.go:163-175 | the encoded preset list is stored under the key |
| RootPreferences.EmptyKeyRefused | preferences.go:199-201 | because the userPresets key is "", every Add* with key "" is refused |
| RootPreferences.SharedKeyAccepted | preferences.go:145-178 | as written, "presets" is registered by AddPresets twice and then as a string |
| RootPreferences.SharedKeyRefused | preferences.go:199-201 | with the key recorded, the second and third registrations are refused |
| MenuMaker.PresetItem | menu_maker.go:135-154 | an item titled with the preset's label, selecting its id, checked iff the current preset is that id |
| MenuMaker.PresetItems | menu_maker.go:159-162 | one item per preset, in order |
| MenuMaker.MenuLayoutOf | menu_maker.go:156-190 | position by position: built-ins, separator, user presets or a disabled "(None)", then "Add current as preset" and a disabled "Remove current preset" |
| MenuMaker.MenuLayout | menu_maker.go:156-190 | the same over DefaultPresets |
| MenuMaker.CheckedIffCurrentOf | menu_maker.go:140-151 | an item is checked iff it selects the current preset; separators and commands never are |
| MenuMaker.CheckedIffCurrent | menu_maker.go:140-151 | the same over DefaultPresets |
| MenuMaker.ItemIdAt | menu_maker.go:156-177 | the preset item at a position selects the built-in or user preset there |
| MenuMaker.AtMostOneCheckedOf | menu_maker.go:140-151 | with distinct built-in ids below LastInternalId and positional user ids, at most one item is checked |
| MenuMaker.AtMostOneChecked | menu_maker.go:140-151 | the same over DefaultPresets |
| MenuMaker.Recheck | menu_maker.go:140-151 | one item's listener: a preset item is checked iff it selects the value; others are unchanged |
| MenuMaker.RecheckedMenuOf | menu_maker.go:136-151 | running every listener for a new value gives the menu built for that value |
| MenuMaker.RecheckedMenu | menu_maker.go:136-151 | the same over DefaultPresets |
| MenuMaker.ValidatePresetName | menu_maker.go:197-203 | only the empty name is refused |
| MenuMaker.ReloadedPresetsAllChecked | timezone/timezones.go:41-45 | user presets read back all carry id 0, so every one is checked when no preset is selected |
| MenuMaker.TwoReloadedPresetsBothChecked | timezone/timezones.go:41-45 | two saved presets, reloaded, give two checked items |
| MenuMaker.ReloadUserPresets | menu_maker.go:227-231 | the list read back with positional ids; labels and members are kept |
| MenuMaker.ReloadRestoresPresets | menu_maker.go:227-231 | presets made by the OK button survive the store round trip whole |
| MenuMaker.ReloadedPresetsAdmitted | timezone/timezones.go:41-45 | presets read back with id 0 meet the id bound the window's menus are proved under |
| MenuMaker.AppendPresetItems | menu_maker.go:159-162 | the items gain one preset item per preset, in order |
| MenuMaker.PresetItemsAppend | menu_maker.go:173-176 | the items of a list with one more preset end with that preset's item |
| MenuMaker.NextIdIsFresh | menu_maker.go:228 | the next user id is above every built-in and user id |
| MenuMaker.BuildMenu | menu_maker.go:156-190 | the item list MakePresetMenu appends is the menu for the cells' values |
| MenuMaker.TimestampConverter.constructor | menu_maker.go:18-39 | both menus are built from the cells' values over timezone.DefaultPresets |
| MenuMaker.TimestampConverter.MakePresetMenu | menu_maker.go:156-190 | the Presets menu shows the current cells |
| MenuMaker.TimestampConverter.MakeFormatMenu | menu_maker.go:106-133 | a format item is checked iff its layout is the current one |
| MenuMaker.TimestampConverter.SelectPreset | menu_maker.go:136-151 | the current preset becomes the id and every item is rechecked for it |
| MenuMaker.TimestampConverter.SelectFormat | menu_maker.go:112-127 | the layout becomes item k's and exactly item k is checked |
| MenuMaker.TimestampConverter.AddPreset | menu_maker.go:215-239 | one user preset is appended with the next id, the typed name and exactly the shown zones; it becomes current, and its id exceeds every built-in and earlier user id |
| MenuMaker.TimestampConverter.NewPreset | menu_maker.go:216-231 | the next id, the typed name, exactly the shown zones, each once |
| MenuMaker.TimestampConverter.AppendUserPreset | menu_maker.go:233-236 | the preset list gains p at its end; both menus are rebuilt for it |

## Left out

- The calendar and zone rules of Go's `time` package (Parse, Format, LoadLocation, In, tzdata, DST) are the parameters `LayoutParser` and `Formatter`. No property of a layout round trip is assumed.
- `Location()` panicking on an unknown name: the `Formatter` is total, and every catalog location is taken to resolve.
- `time.Time` equality: gui/gui_maker.go:48 and timestamp_converter/lifecycle.go:82 compare whole `time.Time` values. The model compares epoch seconds.
- Sub-second precision: an instant is whole seconds, so RFC3339Nano fractions are not represented.
- encoding/json: the int-list and preset-list codecs are parameters (`decodeInts`, `encodeInts`, `decodePresets`, `encodePresets`). presets.go, a JSON wrapper over the store, is not part of this model.
- The fyne binding machinery: xbinding/time.go, xbinding/custom_types.go, bound_time.go and their tests. Cells are plain fields with synchronous listeners. fyne's asynchronous listener queue is not modelled.
- Cascade.Changed: a cascade of Sets nested more than `Cascade.MaxEchoDepth` (8) deep is cut off; the handler at that depth updates its field but does not set the timestamp. Go sets no such bound.
- Goroutines and clipboard access: the watcher loop and its one-second sleep are left out, and only one tick is modelled. The clipboard is an argument, `None` when the window has none.
- Widget layout, windows, the settings screen, the Help menu and Quit are left out. So is row hiding by visibility (gui/gui_maker.go:108-117); a row's flag is the model.
- The status clock prefix `[15:04:05]:` is left out; the status is the message alone.
- The theme menu and the colour palettes: timestamp_converter/theme.go and timestamp_converter/menu_maker.go are not part of this model.
- time_converter.go, main.go, gui/timestamp_converter.go's window set-up and timestamp_converter/timestamp_converter.go are not part of this model.
- Gui.TimestampConverter.constructor: follows `initialize` (timestamp_converter/lifecycle.go:92-100). The gui package's own `initialize` is not shown.
- The gui package's `praseStringToTime` is not shown. It is the parameter `parseText`.
- Gui.LowerChar: lowers ASCII letters only; Go's strings.ToLower maps every Unicode upper-case letter (the Kelvin sign U+212A becomes 'k'), which is not modelled.
- Gui.ToLower: built on Gui.LowerChar, so ASCII-only in the same way.
- Gui.OptionsOf: matches labels and text through Gui.ToLower, so a typed non-ASCII capital does not match as it would in Go.
- Gui.GetOptions: the same ASCII-only case folding as Gui.OptionsOf.
- Gui.GetOptions: its own contract states only the length bound. Membership is stated by Gui.OptionsAreHiddenMatches and Gui.EmptyTextOffersHidden, order by Gui.FirstOptionIsFirstOffered.
- Gui.TimestampConverter.DeleteAsWritten: Go's map iteration order is the parameter `order`.
- Gui.TimestampConverter.SetupAndLoadPreferences: the two AddString failures cannot happen on the fresh synchronizer it requires, so their panics are not modelled.
- XBinding.IntArray.Get: the error path of the underlying untyped list's Get is not modelled, because the list is a plain field that cannot fail. A non-int element is excluded by `Valid`.
- MenuMaker.TimestampConverter.AddPreset: the OK button does not consult the name validator, and neither does the model. Closing the add-preset window is left out.
- MenuMaker.TimestampConverter.SelectPreset: listeners of menus replaced by a rebuild stay registered on the cells in Go; the model keeps only the shown menu.
- MenuMaker.TimestampConverter: the field `builtins` always equals `timezone.DefaultPresets`. It is a field so that the menu functions are stated over any built-in list.
- ItemsSet.TimestampItemsSet.Update: the entry's `SetText` also runs its OnChanged, whose `globalUpdate` is not stated here; that echo is `OnChanged` applied to the new text (`ItemsSet.UnixEchoReturnsInstant`, `ItemsSet.RfcEchoReturnsInstant`), and time_converter.go, which receives it, is not part of this model.
- ItemsSet.TimestampItemsSet.OnChanged: the `globalUpdate` call is represented by the returned value.
- Converter.TimestampConverter.SetVisible: the check box's binding also drives row hiding, which is left out as above.

## Findings

| source | as written | input that shows it | evidently intended | confidence | as-written member | corrected member |
|---|---|---|---|---|---|---|
| preferences.go:145-178 | AddPresets never stores its key in `userPresets`, so `isKeyExisting` (preferences.go:199-201) keeps checking the empty key | AddPresets("presets") twice, then AddString("presets") | a second registration of the same key is refused, as for the other three kinds | not executed | RootPreferences.SharedKeyAccepted | RootPreferences.SharedKeyRefused |
| timezone/timezones.go:41-45 | `Preset.Id` is tagged `json:"-"`, so user presets read back from the store all have id 0, the id reserved for no preset | two saved user presets with ids 6 and 7, reloaded, while the current preset is 0 | each preset keeps the id it was given (LastInternalId + index + 1), and at most one menu item is checked | not executed | MenuMaker.TwoReloadedPresetsBothChecked | MenuMaker.ReloadRestoresPresets |
| gui/gui_maker.go:88-97 | the delete button makes a new `visibleIds` on every iteration of the map loop and persists it, so only the last zone visited counts | zones 0 and 1 shown, zone 16 deleted and visited last: the persisted list is [] | the persisted list holds every shown zone, as OnSubmitted does at gui/gui_maker.go:165-174 | not executed | Gui.TimestampConverter.DeleteAsWritten | Gui.TimestampConverter.Delete |
