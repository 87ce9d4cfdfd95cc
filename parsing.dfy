/**
  Text to instant: the three revisions of PraseStringToTime and the generic
  `contains` helper. An instant is its epoch seconds. A call of Go's
  time.Parse(layout, text) followed by .Unix() is a LayoutParser: Some(epoch)
  when the text matches the layout, None when time.Parse returns an error.
*/
module Parsing {
  import opened Results
  import Decimal
  import Formats

  type LayoutParser = (string, string) -> Option<int>

  const InvalidTimeFormat := "invalid time format"

  /** Largest epoch accepted by the bounded revision (helpers.go). */
  const MaxEpoch: int := 253374914595

  predicate InRange(e: int) {
    0 <= e <= MaxEpoch
  }

  /** Layout `i` is the first of `layouts` that accepts `text`, and yields epoch `e`. */
  ghost predicate IsFirstMatch(parse: LayoutParser, layouts: seq<string>, text: string, i: int, e: int) {
    && 0 <= i < |layouts|
    && parse(layouts[i], text) == Some(e)
    && forall j :: 0 <= j < i ==> parse(layouts[j], text).None?
  }

  ghost predicate NoLayoutMatches(parse: LayoutParser, layouts: seq<string>, text: string) {
    forall j :: 0 <= j < |layouts| ==> parse(layouts[j], text).None?
  }

  datatype Match = Match(index: nat, epoch: int)

  /** The first layout at position `k` or later that accepts `text`. */
  function FirstMatchFrom(parse: LayoutParser, layouts: seq<string>, text: string, k: nat): (r: Option<Match>)
    requires k <= |layouts|
    ensures r.Some? ==> k <= r.value.index < |layouts| && parse(layouts[r.value.index], text) == Some(r.value.epoch)
    ensures r.Some? ==> forall j :: k <= j < r.value.index ==> parse(layouts[j], text).None?
    ensures r.None? ==> forall j :: k <= j < |layouts| ==> parse(layouts[j], text).None?
    decreases |layouts| - k
  {
    if k == |layouts| then None
    else
      match parse(layouts[k], text)
      case Some(e) => Some(Match(k, e))
      case None => FirstMatchFrom(parse, layouts, text, k + 1)
  }

  /** The loop over the layouts with its early return on the first success. */
  function FirstMatch(parse: LayoutParser, layouts: seq<string>, text: string): (r: Option<Match>)
    ensures r.Some? ==> IsFirstMatch(parse, layouts, text, r.value.index, r.value.epoch)
    ensures r.None? <==> NoLayoutMatches(parse, layouts, text)
  {
    FirstMatchFrom(parse, layouts, text, 0)
  }

  /** A text has at most one first match. */
  lemma FirstMatchUnique(parse: LayoutParser, layouts: seq<string>, text: string, i: int, e: int, i': int, e': int)
    requires IsFirstMatch(parse, layouts, text, i, e) && IsFirstMatch(parse, layouts, text, i', e')
    ensures i == i' && e == e'
  {
  }

  /**
    PraseStringToTime of timestamp_converter.go: the supported formats in order,
    then any base-10 int64 as epoch seconds; no range restriction.
  */
  function ParseUnbounded(parse: LayoutParser, text: string): (r: Result<int>)
    ensures forall i, e :: IsFirstMatch(parse, Formats.Layouts(), text, i, e) ==> r == Ok(e)
    ensures NoLayoutMatches(parse, Formats.Layouts(), text) ==>
      r == (if Decimal.ParseInt(text).Ok? then Ok(Decimal.ParseInt(text).value) else Err(InvalidTimeFormat))
  {
    match FirstMatch(parse, Formats.Layouts(), text)
    case Some(m) => Ok(m.epoch)
    case None =>
      match Decimal.ParseInt(text)
      case Ok(n) => Ok(n)
      case Err(_) => Err(InvalidTimeFormat)
  }

  /**
    PraseStringToTime of helpers.go: the first layout that parses decides; an
    out-of-range epoch from it is an error at once. Otherwise an int64 in
    [0, MaxEpoch] is accepted.
  */
  function ParseBounded(parse: LayoutParser, text: string): (r: Result<int>)
    ensures r.Ok? ==> InRange(r.value)
    ensures forall i, e :: IsFirstMatch(parse, Formats.Layouts(), text, i, e) ==>
      r == (if InRange(e) then Ok(e) else Err(InvalidTimeFormat))
    ensures NoLayoutMatches(parse, Formats.Layouts(), text) ==>
      (r.Ok? <==> Decimal.ParseInt(text).Ok? && InRange(Decimal.ParseInt(text).value))
    ensures NoLayoutMatches(parse, Formats.Layouts(), text) && r.Ok? ==> Decimal.ParseInt(text) == r
  {
    match FirstMatch(parse, Formats.Layouts(), text)
    case Some(m) => if InRange(m.epoch) then Ok(m.epoch) else Err(InvalidTimeFormat)
    case None =>
      var n := Decimal.ParseInt(text);
      if n.Ok? && InRange(n.value) then Ok(n.value) else Err(InvalidTimeFormat)
  }

  /**
    PraseStringToTime of time_helpers.go: RFC3339, then RFC3339Nano, then any
    base-10 int64, negative values included.
  */
  function ParseRfc(parse: LayoutParser, text: string): (r: Result<int>)
    ensures r.Ok? <==> parse(Formats.RFC3339, text).Some? || parse(Formats.RFC3339Nano, text).Some? || Decimal.ParseInt(text).Ok?
    ensures r.Err? ==> r.error == InvalidTimeFormat
  {
    match parse(Formats.RFC3339, text)
    case Some(e) => Ok(e)
    case None =>
      match parse(Formats.RFC3339Nano, text)
      case Some(e) => Ok(e)
      case None =>
        match Decimal.ParseInt(text)
        case Ok(n) => Ok(n)
        case Err(_) => Err(InvalidTimeFormat)
  }

  /** time_helpers.go tries exactly the two RFC layouts in order, then the integer fallback. */
  lemma ParseRfcIsFirstMatch(parse: LayoutParser, text: string)
    ensures forall i, e :: IsFirstMatch(parse, [Formats.RFC3339, Formats.RFC3339Nano], text, i, e) ==>
      ParseRfc(parse, text) == Ok(e)
    ensures NoLayoutMatches(parse, [Formats.RFC3339, Formats.RFC3339Nano], text) ==>
      (ParseRfc(parse, text).Ok? <==> Decimal.ParseInt(text).Ok?)
    ensures NoLayoutMatches(parse, [Formats.RFC3339, Formats.RFC3339Nano], text) && Decimal.ParseInt(text).Ok? ==>
      ParseRfc(parse, text) == Decimal.ParseInt(text)
  {
    var ls := [Formats.RFC3339, Formats.RFC3339Nano];
    forall i, e | IsFirstMatch(parse, ls, text, i, e) ensures ParseRfc(parse, text) == Ok(e) {
      if i == 1 {
        assert parse(ls[0], text).None?;
      }
    }
    if NoLayoutMatches(parse, ls, text) {
      assert parse(ls[0], text).None? && parse(ls[1], text).None?;
    }
  }

  /**
    The bounded revision accepts exactly what the unbounded one accepts inside
    [0, MaxEpoch], with the same instant, and refuses everything else.
  */
  lemma BoundedIsUnboundedRestricted(parse: LayoutParser, text: string)
    ensures ParseBounded(parse, text) ==
      (var u := ParseUnbounded(parse, text);
       if u.Ok? && InRange(u.value) then u else Err(InvalidTimeFormat))
  {
  }

  /** Integer text is read as epoch seconds when no layout accepts it: "-1" is one second before the epoch. */
  lemma UnboundedIntegerFallback(parse: LayoutParser, n: int)
    requires Decimal.IsInt64(n)
    requires NoLayoutMatches(parse, Formats.Layouts(), Decimal.FormatInt(n))
    ensures ParseUnbounded(parse, Decimal.FormatInt(n)) == Ok(n)
  {
    Decimal.FormatParseRoundTrip(n);
  }

  /** The bounded revision reads the integer fallback only inside [0, MaxEpoch]. */
  lemma BoundedIntegerFallback(parse: LayoutParser, n: int)
    requires Decimal.IsInt64(n)
    requires NoLayoutMatches(parse, Formats.Layouts(), Decimal.FormatInt(n))
    ensures ParseBounded(parse, Decimal.FormatInt(n)) == if InRange(n) then Ok(n) else Err(InvalidTimeFormat)
  {
    Decimal.FormatParseRoundTrip(n);
  }

  /** "0" is the epoch in both revisions, and "-1" is refused by the bounded one only. */
  lemma ZeroAndMinusOne(parse: LayoutParser)
    requires NoLayoutMatches(parse, Formats.Layouts(), "0")
    requires NoLayoutMatches(parse, Formats.Layouts(), "-1")
    ensures ParseBounded(parse, "0") == Ok(0) && ParseUnbounded(parse, "0") == Ok(0)
    ensures ParseBounded(parse, "-1").Err? && ParseUnbounded(parse, "-1") == Ok(-1)
  {
    Decimal.ParseIntExamples();
  }

  /** Text accepted by no layout and not an integer is an error in every revision. */
  lemma NothingMatchesIsError(parse: LayoutParser, text: string)
    requires NoLayoutMatches(parse, Formats.Layouts(), text)
    requires parse(Formats.RFC3339Nano, text).None?
    requires Decimal.ParseInt(text).Err?
    ensures ParseUnbounded(parse, text) == Err(InvalidTimeFormat)
    ensures ParseBounded(parse, text) == Err(InvalidTimeFormat)
    ensures ParseRfc(parse, text) == Err(InvalidTimeFormat)
  {
    Formats.CatalogOrder();
    assert parse(Formats.Layouts()[0], text).None?;
  }

  /** contains(s, e) of helpers.go and timestamp_converter.go: a scan for an equal element. */
  function Contains<K(==)>(s: seq<K>, e: K): (r: bool)
    ensures r <==> exists i :: 0 <= i < |s| && s[i] == e
  {
    if s == [] then false
    else if s[0] == e then true
    else
      var r := Contains(s[1..], e);
      assert r ==> exists i :: 0 <= i < |s| && s[i] == e by {
        if r {
          var i :| 0 <= i < |s[1..]| && s[1..][i] == e;
          assert s[i + 1] == e;
        }
      }
      r
  }
}
