/**
  The store-to-field cascade shared by both converter windows. Setting the
  timestamp or the layout runs every field's listener in registration order
  (catalog order); a listener renders its zone and calls SetText only when the
  rendering differs from the field's text, and SetText runs the field's
  OnChanged handler on the new text. That handler may set the timestamp again,
  which runs every listener again, nested inside the first round. Comparing
  rendered text is the only thing that stops the recursion.

  The functions below are the specification the windows' methods are proved
  against. `fuel` bounds how deeply a Set may nest inside an OnChanged, and
  `n` is how many zones' listeners the cells hold: all of them once the window
  is built, the first `n` while it is being built.
*/
module Cascade {
  import opened Results
  import Timezone

  /** A window's renderer: the text zone `i`'s field shows for instant `t` under layout `f`. */
  type Renderer = (int, int, string) -> string

  /** What a field's OnChanged handler does with the text it now holds. */
  datatype Edit = Rejected | Unchanged | Store(epoch: int)

  /**
    How one window wires its fields: the renderer, the OnChanged decision for a
    text given the current epoch, whether the format listener skips the Unix
    field, and the status messages (if any) OnChanged sets on refusal and after
    a store.
  */
  datatype Wiring = Wiring(
    render: Renderer,
    decide: (string, int) -> Edit,
    formatSkipsUnix: bool,
    refusedStatus: Option<string>,
    storedStatus: Option<string>)

  /** The cells and widgets a cascade touches: the two cells, each field's text by zone id, and the status line. */
  datatype Cells = Cells(timestamp: int, format: string, texts: map<int, string>, status: string)

  /** The nesting depth the windows' entry points allow a cascade. */
  const MaxEchoDepth: nat := 8

  /** Every field's text for instant `t` under layout `f`, by zone id. */
  function Shown(w: Wiring, t: int, f: string): (m: map<int, string>)
    ensures Timezone.ByZone(m)
  {
    map i | 0 <= i < Timezone.ZoneCount :: w.render(i, t, f)
  }

  /** Every field empty, as a new entry is. */
  function Blank(): map<int, string> {
    map i | 0 <= i < Timezone.ZoneCount && Timezone.IsZoneId(i) :: ""
  }

  /** With the zone catalog's renderer, the fields show exactly what Timezone.Rendered gives. */
  lemma ShownIsRendered(w: Wiring, formatIn: Timezone.Formatter, t: int, f: string)
    requires w.render == Timezone.Renderer(formatIn)
    ensures Shown(w, t, f) == Timezone.Rendered(t, f, formatIn)
  {
  }

  /** Every field shows the stored instant under the stored layout. */
  predicate Synced(w: Wiring, s: Cells) {
    s.texts == Shown(w, s.timestamp, s.format)
  }

  /** The fields of the first `n` zones show the stored instant under the stored layout. */
  predicate Agree(w: Wiring, s: Cells, n: nat)
    requires Timezone.ByZone(s.texts) && n <= Timezone.ZoneCount
  {
    forall j | 0 <= j < n :: s.texts[j] == w.render(j, s.timestamp, s.format)
  }

  /**
    The listener of zone `i` does nothing: a format listener of the Unix field,
    where the window skips it. The Unix field is the one catalog entry of the
    Unix kind (Timezone.SingleLocalAndUnix).
  */
  predicate Skips(w: Wiring, onFormat: bool, i: int) {
    onFormat && w.formatSkipsUnix && i == Timezone.Unix
  }

  /** The Unix field's text does not depend on the layout. */
  ghost predicate UnixLayoutFree(w: Wiring) {
    forall t, f :: w.render(Timezone.Unix, t, f) == w.render(Timezone.Unix, t, "")
  }

  /** The catalog's Unix entry renders the decimal instant whatever the layout. */
  lemma CatalogUnixLayoutFree(w: Wiring, formatIn: Timezone.Formatter)
    requires w.render == Timezone.Renderer(formatIn)
    ensures UnixLayoutFree(w)
  {
    Timezone.SingleLocalAndUnix();
    forall t, f ensures w.render(Timezone.Unix, t, f) == w.render(Timezone.Unix, t, "") {
      Timezone.UnixIgnoresFormat(Timezone.Timezones[Timezone.Unix], t, f, "", formatIn, formatIn);
    }
  }

  /** A decision stores only an epoch other than the current one. */
  ghost predicate StoresMove(w: Wiring) {
    forall text, t :: w.decide(text, t).Store? ==> w.decide(text, t).epoch != t
  }

  /** Fields showing instant `t` under layout `f` are read back without a store: every echo is inert. */
  predicate Settles(w: Wiring, t: int, f: string) {
    forall i | 0 <= i < Timezone.ZoneCount :: !w.decide(w.render(i, t, f), t).Store?
  }

  function WithStatus(s: Cells, message: Option<string>): (r: Cells)
    ensures r.timestamp == s.timestamp && r.format == s.format && r.texts == s.texts
  {
    if message.Some? then s.(status := message.value) else s
  }

  /** Timestamp.Set(v): an unchanged value notifies nobody; a new one runs the listeners of the first `n` fields. */
  function Set(w: Wiring, s: Cells, v: int, fuel: nat, n: nat := Timezone.ZoneCount): (r: Cells)
    requires Timezone.ByZone(s.texts) && n <= Timezone.ZoneCount
    ensures Timezone.ByZone(r.texts) && r.format == s.format
    decreases fuel, 2, 0
  {
    if v == s.timestamp then s else Listeners(w, s.(timestamp := v), 0, fuel, false, n)
  }

  /** Format.Set(f): an unchanged layout notifies nobody; a new one runs every field's format listener. */
  function FormatSet(w: Wiring, s: Cells, f: string, fuel: nat): (r: Cells)
    requires Timezone.ByZone(s.texts)
    ensures Timezone.ByZone(r.texts) && r.format == f
  {
    if f == s.format then s else Listeners(w, s.(format := f), 0, fuel, true)
  }

  /**
    The listeners of zones `i` up to `n`, in catalog order. Each one reads both
    cells afresh, so a listener after a nested Set renders the newer instant.
  */
  function Listeners(w: Wiring, s: Cells, i: int, fuel: nat, onFormat: bool, n: nat := Timezone.ZoneCount): (r: Cells)
    requires Timezone.ByZone(s.texts) && 0 <= i <= n <= Timezone.ZoneCount
    ensures Timezone.ByZone(r.texts) && r.format == s.format
    decreases fuel, 1, n - i
  {
    if i == n then s
    else if Skips(w, onFormat, i) then Listeners(w, s, i + 1, fuel, onFormat, n)
    else
      var text := w.render(i, s.timestamp, s.format);
      if text == s.texts[i] then Listeners(w, s, i + 1, fuel, onFormat, n)
      else Listeners(w, Changed(w, s, i, text, fuel, n), i + 1, fuel, onFormat, n)
  }

  /** One listener of Listeners: skipped, idle on equal text, or a SetText whose OnChanged runs. */
  lemma ListenersStep(w: Wiring, s: Cells, i: int, fuel: nat, onFormat: bool, n: nat := Timezone.ZoneCount)
    requires Timezone.ByZone(s.texts) && 0 <= i < n <= Timezone.ZoneCount
    ensures Listeners(w, s, i, fuel, onFormat, n) ==
      if Skips(w, onFormat, i) || w.render(i, s.timestamp, s.format) == s.texts[i]
      then Listeners(w, s, i + 1, fuel, onFormat, n)
      else Listeners(w, Changed(w, s, i, w.render(i, s.timestamp, s.format), fuel, n), i + 1, fuel, onFormat, n)
  {
  }

  /**
    Zone `i`'s field now holds `text` and its OnChanged runs. A store nests a
    Set one level deeper; at depth zero the cascade is cut off there.
  */
  function Changed(w: Wiring, s: Cells, i: int, text: string, fuel: nat, n: nat := Timezone.ZoneCount): (r: Cells)
    requires Timezone.ByZone(s.texts) && Timezone.IsZoneId(i) && n <= Timezone.ZoneCount
    ensures Timezone.ByZone(r.texts) && r.format == s.format
    decreases fuel, 0, 0
  {
    var s' := s.(texts := s.texts[i := text]);
    match w.decide(text, s.timestamp)
    case Rejected => WithStatus(s', w.refusedStatus)
    case Unchanged => s'
    case Store(e) => if fuel == 0 then s' else WithStatus(Set(w, s', e, fuel - 1, n), w.storedStatus)
  }

  /** Changed by the decision on the new text, for the windows' handlers. */
  lemma ChangedStep(w: Wiring, s: Cells, i: int, text: string, fuel: nat, n: nat := Timezone.ZoneCount)
    requires Timezone.ByZone(s.texts) && Timezone.IsZoneId(i) && n <= Timezone.ZoneCount
    ensures var s' := s.(texts := s.texts[i := text]);
      && (w.decide(text, s.timestamp).Rejected? ==> Changed(w, s, i, text, fuel, n) == WithStatus(s', w.refusedStatus))
      && (w.decide(text, s.timestamp).Unchanged? ==> Changed(w, s, i, text, fuel, n) == s')
      && (w.decide(text, s.timestamp).Store? && fuel == 0 ==> Changed(w, s, i, text, fuel, n) == s')
      && (w.decide(text, s.timestamp).Store? && fuel > 0 ==>
            Changed(w, s, i, text, fuel, n) == WithStatus(Set(w, s', w.decide(text, s.timestamp).epoch, fuel - 1, n), w.storedStatus))
  {
  }

  /**
    makeContent's loop from zone `k` on. Each zone's listener is added to the
    timestamp cell and runs at once, then to the layout cell and runs again;
    the entry's OnChanged is already assigned, so a SetText in either run
    echoes, and a Set it nests reaches the listeners added so far, zones 0
    to `k`.
  */
  function Register(w: Wiring, s: Cells, k: int, fuel: nat): (r: Cells)
    requires Timezone.ByZone(s.texts) && 0 <= k <= Timezone.ZoneCount
    ensures Timezone.ByZone(r.texts) && r.format == s.format
    decreases Timezone.ZoneCount - k
  {
    if k == Timezone.ZoneCount then s
    else
      var s1 := Listeners(w, s, k, fuel, false, k + 1);
      Register(w, Listeners(w, s1, k, fuel, true, k + 1), k + 1, fuel)
  }

  /**
    The listeners from `i` up to `n` leave the first `n` fields in sync, and
    so every field once all listeners are registered, provided the fields
    before `i`, and the skipped ones, already are.
  */
  lemma {:induction false} ListenersSync(w: Wiring, s: Cells, i: int, fuel: nat, onFormat: bool, n: nat := Timezone.ZoneCount)
    requires Timezone.ByZone(s.texts) && 0 <= i <= n <= Timezone.ZoneCount
    requires forall j | 0 <= j < n && (j < i || Skips(w, onFormat, j)) ::
      s.texts[j] == w.render(j, s.timestamp, s.format)
    ensures Agree(w, Listeners(w, s, i, fuel, onFormat, n), n)
    ensures n == Timezone.ZoneCount ==> Synced(w, Listeners(w, s, i, fuel, onFormat, n))
    decreases fuel, 1, n - i
  {
    if i == n {
      if n == Timezone.ZoneCount {
        AgreementSyncs(w, s);
      }
    } else if Skips(w, onFormat, i) {
      ListenersSync(w, s, i + 1, fuel, onFormat, n);
    } else {
      var text := w.render(i, s.timestamp, s.format);
      if text == s.texts[i] {
        ListenersSync(w, s, i + 1, fuel, onFormat, n);
      } else {
        var s2 := Changed(w, s, i, text, fuel, n);
        ChangedSyncsOrKeeps(w, s, i, text, fuel, n);
        AgreementGrows(w, s, s2, i, text, onFormat, n);
        ListenersSync(w, s2, i + 1, fuel, onFormat, n);
      }
    }
  }

  /** Fields that each show their zone's rendering are in sync. */
  lemma AgreementSyncs(w: Wiring, s: Cells)
    requires Timezone.ByZone(s.texts) && Agree(w, s, Timezone.ZoneCount)
    ensures Synced(w, s)
  {
    assert s.texts.Keys == Shown(w, s.timestamp, s.format).Keys;
  }

  /** The step of ListenersSync: after zone `i`'s listener the fields up to `i` agree with the cells. */
  lemma AgreementGrows(w: Wiring, s: Cells, s2: Cells, i: int, text: string, onFormat: bool, n: nat)
    requires Timezone.ByZone(s.texts) && 0 <= i < n <= Timezone.ZoneCount && Timezone.ByZone(s2.texts)
    requires text == w.render(i, s.timestamp, s.format) && s2.format == s.format
    requires forall j | 0 <= j < n && (j < i || Skips(w, onFormat, j)) ::
      s.texts[j] == w.render(j, s.timestamp, s.format)
    requires Agree(w, s2, n) || (s2.timestamp == s.timestamp && s2.texts == s.texts[i := text])
    ensures forall j | 0 <= j < n && (j < i + 1 || Skips(w, onFormat, j)) ::
      s2.texts[j] == w.render(j, s2.timestamp, s2.format)
  {
  }

  /** An OnChanged either leaves the cells as they were (but for the field's text) or ends with the first `n` fields in sync. */
  lemma {:induction false} ChangedSyncsOrKeeps(w: Wiring, s: Cells, i: int, text: string, fuel: nat, n: nat := Timezone.ZoneCount)
    requires Timezone.ByZone(s.texts) && Timezone.IsZoneId(i) && n <= Timezone.ZoneCount
    ensures var r := Changed(w, s, i, text, fuel, n);
      Agree(w, r, n) || (r.timestamp == s.timestamp && r.texts == s.texts[i := text])
    decreases fuel, 0, 0
  {
    var s' := s.(texts := s.texts[i := text]);
    match w.decide(text, s.timestamp)
    case Rejected =>
    case Unchanged =>
    case Store(e) =>
      if fuel > 0 && e != s.timestamp {
        SetSyncs(w, s', e, fuel - 1, n);
      }
  }

  /**
    After Timestamp.Set of a new value the first `n` fields show the final
    instant, and so every field once all listeners are registered.
  */
  lemma {:induction false} SetSyncs(w: Wiring, s: Cells, v: int, fuel: nat, n: nat := Timezone.ZoneCount)
    requires Timezone.ByZone(s.texts) && v != s.timestamp && n <= Timezone.ZoneCount
    ensures Agree(w, Set(w, s, v, fuel, n), n)
    ensures n == Timezone.ZoneCount ==> Synced(w, Set(w, s, v, fuel, n))
    decreases fuel, 2, 0
  {
    ListenersSync(w, s.(timestamp := v), 0, fuel, false, n);
  }

  /**
    After Format.Set of a new layout every field shows the final instant under
    it. A window whose format listener skips the Unix field relies on that
    field having been in sync and rendering the same text under both layouts.
  */
  lemma FormatSetSyncs(w: Wiring, s: Cells, f: string, fuel: nat)
    requires Timezone.ByZone(s.texts) && f != s.format
    requires w.formatSkipsUnix ==>
      Synced(w, s) && w.render(Timezone.Unix, s.timestamp, s.format) == w.render(Timezone.Unix, s.timestamp, f)
    ensures Synced(w, FormatSet(w, s, f, fuel))
  {
    ListenersSync(w, s.(format := f), 0, fuel, true);
  }

  /** Listeners over fields already in sync change nothing. */
  lemma {:induction false} ListenersIdle(w: Wiring, s: Cells, i: int, fuel: nat, onFormat: bool)
    requires Timezone.ByZone(s.texts) && 0 <= i <= Timezone.ZoneCount && Synced(w, s)
    ensures Listeners(w, s, i, fuel, onFormat) == s
    decreases Timezone.ZoneCount - i
  {
    if i < Timezone.ZoneCount {
      ListenersIdle(w, s, i + 1, fuel, onFormat);
    }
  }

  /** When every field's rendering reads back without a store, the listeners never move the timestamp. */
  lemma {:induction false} ListenersKeepTimestamp(w: Wiring, s: Cells, i: int, fuel: nat, onFormat: bool, n: nat := Timezone.ZoneCount)
    requires Timezone.ByZone(s.texts) && 0 <= i <= n <= Timezone.ZoneCount
    requires Settles(w, s.timestamp, s.format)
    ensures Listeners(w, s, i, fuel, onFormat, n).timestamp == s.timestamp
    decreases n - i
  {
    if i < n && !Skips(w, onFormat, i) {
      var text := w.render(i, s.timestamp, s.format);
      if text != s.texts[i] {
        assert !w.decide(text, s.timestamp).Store?;
        ListenersKeepTimestamp(w, Changed(w, s, i, text, fuel, n), i + 1, fuel, onFormat, n);
        return;
      }
    }
    if i < n {
      ListenersKeepTimestamp(w, s, i + 1, fuel, onFormat, n);
    }
  }

  /** Timestamp.Set(v) ends at `v` when the renderings of `v` all read back without a store. */
  lemma SetSettles(w: Wiring, s: Cells, v: int, fuel: nat, n: nat := Timezone.ZoneCount)
    requires Timezone.ByZone(s.texts) && Settles(w, v, s.format) && n <= Timezone.ZoneCount
    ensures Set(w, s, v, fuel, n).timestamp == v
  {
    if v != s.timestamp {
      ListenersKeepTimestamp(w, s.(timestamp := v), 0, fuel, false, n);
    }
  }

  /** Format.Set(f) keeps the timestamp when its renderings under `f` all read back without a store. */
  lemma FormatSetSettles(w: Wiring, s: Cells, f: string, fuel: nat)
    requires Timezone.ByZone(s.texts) && Settles(w, s.timestamp, f)
    ensures FormatSet(w, s, f, fuel).timestamp == s.timestamp
  {
    if f != s.format {
      ListenersKeepTimestamp(w, s.(format := f), 0, fuel, true);
    }
  }

  /**
    Echoes move the timestamp: when the first field's new text reads back as
    another instant `e` whose own renderings settle, the listeners end at `e`,
    not at the instant they started from.
  */
  lemma FirstEchoDecides(w: Wiring, s: Cells, e: int, fuel: nat, onFormat: bool)
    requires Timezone.ByZone(s.texts) && fuel >= 1 && !Skips(w, onFormat, 0)
    requires w.render(0, s.timestamp, s.format) != s.texts[0]
    requires w.decide(w.render(0, s.timestamp, s.format), s.timestamp) == Store(e)
    requires e != s.timestamp && Settles(w, e, s.format)
    ensures Listeners(w, s, 0, fuel, onFormat).timestamp == e
  {
    var text := w.render(0, s.timestamp, s.format);
    var s' := s.(texts := s.texts[0 := text]);
    var s2 := Changed(w, s, 0, text, fuel);
    assert s2 == WithStatus(Set(w, s', e, fuel - 1), w.storedStatus);
    SetSettles(w, s', e, fuel - 1);
    SetSyncs(w, s', e, fuel - 1);
    assert Synced(w, s2) && s2.timestamp == e;
    assert Listeners(w, s, 0, fuel, onFormat) == Listeners(w, s2, 1, fuel, onFormat);
    ListenersIdle(w, s2, 1, fuel, onFormat);
  }

  /** Timestamp.Set(v) can end away from `v`: the Local field's echo re-stores the instant its text reads back as. */
  lemma EchoMovesTimestamp(w: Wiring, s: Cells, v: int, e: int, fuel: nat)
    requires Timezone.ByZone(s.texts) && v != s.timestamp && fuel >= 1
    requires w.render(0, v, s.format) != s.texts[0]
    requires w.decide(w.render(0, v, s.format), v) == Store(e)
    requires e != v && Settles(w, e, s.format)
    ensures Set(w, s, v, fuel).timestamp == e
  {
    FirstEchoDecides(w, s.(timestamp := v), e, fuel, false);
  }

  /** Format.Set(f) can move the timestamp the same way, through the Local field's format listener. */
  lemma FormatEchoMovesTimestamp(w: Wiring, s: Cells, f: string, e: int, fuel: nat)
    requires Timezone.ByZone(s.texts) && f != s.format && fuel >= 1
    requires w.render(0, s.timestamp, f) != s.texts[0]
    requires w.decide(w.render(0, s.timestamp, f), s.timestamp) == Store(e)
    requires e != s.timestamp && Settles(w, e, f)
    ensures FormatSet(w, s, f, fuel).timestamp == e
  {
    FirstEchoDecides(w, s.(format := f), e, fuel, true);
  }

  /**
    Building the window ends with every field in sync, whatever the echoes of
    the first runs did, provided the fields registered before `k` already are.
  */
  lemma {:induction false} RegisterSyncs(w: Wiring, s: Cells, k: int, fuel: nat)
    requires Timezone.ByZone(s.texts) && 0 <= k <= Timezone.ZoneCount && Agree(w, s, k)
    ensures Synced(w, Register(w, s, k, fuel))
    decreases Timezone.ZoneCount - k
  {
    if k == Timezone.ZoneCount {
      AgreementSyncs(w, s);
    } else {
      var s1 := Listeners(w, s, k, fuel, false, k + 1);
      ListenersSync(w, s, k, fuel, false, k + 1);
      ListenersSync(w, s1, k, fuel, true, k + 1);
      RegisterSyncs(w, Listeners(w, s1, k, fuel, true, k + 1), k + 1, fuel);
    }
  }

  /** Building the window keeps the timestamp when its renderings read back without a store. */
  lemma {:induction false} RegisterSettles(w: Wiring, s: Cells, k: int, fuel: nat)
    requires Timezone.ByZone(s.texts) && 0 <= k <= Timezone.ZoneCount && Settles(w, s.timestamp, s.format)
    ensures Register(w, s, k, fuel).timestamp == s.timestamp
    decreases Timezone.ZoneCount - k
  {
    if k < Timezone.ZoneCount {
      var s1 := Listeners(w, s, k, fuel, false, k + 1);
      ListenersKeepTimestamp(w, s, k, fuel, false, k + 1);
      ListenersKeepTimestamp(w, s1, k, fuel, true, k + 1);
      RegisterSettles(w, Listeners(w, s1, k, fuel, true, k + 1), k + 1, fuel);
    }
  }

  /**
    Building the window can move the timestamp: when the first field's first
    rendering reads back as another instant `e` whose renderings settle, the
    window ends at `e`.
  */
  lemma RegisterEchoMovesTimestamp(w: Wiring, s: Cells, e: int, fuel: nat)
    requires Timezone.ByZone(s.texts) && fuel >= 1
    requires w.render(0, s.timestamp, s.format) != s.texts[0]
    requires w.decide(w.render(0, s.timestamp, s.format), s.timestamp) == Store(e)
    requires e != s.timestamp && Settles(w, e, s.format)
    ensures Register(w, s, 0, fuel).timestamp == e
  {
    var text := w.render(0, s.timestamp, s.format);
    var s' := s.(texts := s.texts[0 := text]);
    SetSettles(w, s', e, fuel - 1, 1);
    var s1 := Listeners(w, s, 0, fuel, false, 1);
    ListenersStep(w, s, 0, fuel, false, 1);
    assert s1 == Changed(w, s, 0, text, fuel, 1);
    assert s1.timestamp == e;
    ListenersKeepTimestamp(w, s1, 0, fuel, true, 1);
    RegisterSettles(w, Listeners(w, s1, 0, fuel, true, 1), 1, fuel);
  }

  /**
    Building a window from empty fields ends with every field in sync, and
    at the instant it started from when that instant's renderings settle.
  */
  lemma Built(w: Wiring, s: Cells, fuel: nat)
    requires s.texts == Blank()
    ensures Synced(w, Register(w, s, 0, fuel))
    ensures Settles(w, s.timestamp, s.format) ==> Register(w, s, 0, fuel).timestamp == s.timestamp
  {
    RegisterSyncs(w, s, 0, fuel);
    if Settles(w, s.timestamp, s.format) {
      RegisterSettles(w, s, 0, fuel);
    }
  }
}
