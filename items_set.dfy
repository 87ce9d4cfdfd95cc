/**
  One row of the early converter window (timestamp_items_set.go): a label, an
  entry and a copy button for one location and one kind of text. An RFC3339 or
  RFC3339Nano row shows the instant in its location under that layout; a Unix
  row shows decimal epoch seconds. Each row's validator checks the text against
  the row's own kind, while its OnChanged hands any text PraseStringToTime
  (the time_helpers.go revision) accepts to the window's global update.
*/
module ItemsSet {
  import opened Results
  import Decimal
  import Formats
  import Parsing
  import Timezone

  datatype SetType = RFC3339 | RFC3339Nano | Unix

  const CopiedToClipboard := "Copied to clipboard"

  /** The entry's Validator: the row's own parse of the text succeeds. */
  function Accepts(parse: Parsing.LayoutParser, setType: SetType, s: string): (r: bool)
    ensures setType == RFC3339 ==> (r <==> parse(Formats.RFC3339, s).Some?)
    ensures setType == RFC3339Nano ==> (r <==> parse(Formats.RFC3339Nano, s).Some?)
    ensures setType == Unix ==> (r <==> Decimal.ParseInt(s).Ok?)
  {
    match setType
    case RFC3339 => parse(Formats.RFC3339, s).Some?
    case RFC3339Nano => parse(Formats.RFC3339Nano, s).Some?
    case Unix => Decimal.ParseInt(s).Ok?
  }

  /** What Update writes for instant `e`: the layout in the row's location, or the decimal seconds. */
  function UpdateText(setType: SetType, location: string, e: int, formatIn: Timezone.Formatter): (r: string)
    ensures setType == RFC3339 ==> r == formatIn(e, location, Formats.RFC3339)
    ensures setType == RFC3339Nano ==> r == formatIn(e, location, Formats.RFC3339Nano)
    ensures setType == Unix ==> r == Decimal.FormatInt(e)
  {
    match setType
    case RFC3339 => formatIn(e, location, Formats.RFC3339)
    case RFC3339Nano => formatIn(e, location, Formats.RFC3339Nano)
    case Unix => Decimal.FormatInt(e)
  }

  /** A Unix row ignores its location. */
  lemma UnixIgnoresLocation(location: string, location': string, e: int, formatIn: Timezone.Formatter)
    ensures UpdateText(Unix, location, e, formatIn) == UpdateText(Unix, location', e, formatIn) == Decimal.FormatInt(e)
  {
  }

  /** Text a row's validator accepts always reaches the global update. */
  lemma AcceptedTextUpdates(parse: Parsing.LayoutParser, setType: SetType, s: string)
    requires Accepts(parse, setType, s)
    ensures Parsing.ParseRfc(parse, s).Ok?
  {
  }

  /** A Unix row's validator accepts what its Update writes, for every int64 instant. */
  lemma UnixAcceptsOwnText(parse: Parsing.LayoutParser, location: string, e: int, formatIn: Timezone.Formatter)
    requires Decimal.IsInt64(e)
    ensures Accepts(parse, Unix, UpdateText(Unix, location, e, formatIn))
  {
    Decimal.FormatParseRoundTrip(e);
  }

  /**
    The echo of a Unix row's Update: when neither RFC layout reads the decimal
    text, OnChanged hands back exactly the instant that was written.
  */
  lemma UnixEchoReturnsInstant(parse: Parsing.LayoutParser, location: string, e: int, formatIn: Timezone.Formatter)
    requires Decimal.IsInt64(e)
    requires parse(Formats.RFC3339, Decimal.FormatInt(e)).None? && parse(Formats.RFC3339Nano, Decimal.FormatInt(e)).None?
    ensures Parsing.ParseRfc(parse, UpdateText(Unix, location, e, formatIn)) == Ok(e)
  {
    Decimal.FormatParseRoundTrip(e);
  }

  /**
    The echo of an RFC3339 row's Update: when the layout reads its own output
    back, the validator accepts it and OnChanged hands back the same instant.
  */
  lemma RfcEchoReturnsInstant(parse: Parsing.LayoutParser, location: string, e: int, formatIn: Timezone.Formatter)
    requires parse(Formats.RFC3339, formatIn(e, location, Formats.RFC3339)) == Some(e)
    ensures Accepts(parse, RFC3339, UpdateText(RFC3339, location, e, formatIn))
    ensures Parsing.ParseRfc(parse, UpdateText(RFC3339, location, e, formatIn)) == Ok(e)
  {
  }

  class TimestampItemsSet {
    /** The entry's text. */
    var text: string
    /** The row's label text. */
    const title: string
    const setType: SetType
    /** The row's location, by name. */
    const location: string
    const parse: Parsing.LayoutParser
    const formatIn: Timezone.Formatter

    /** MakeTimestampItemsSet: a nil location panics, so one must be given. */
    constructor (title: string, setType: SetType, location: Option<string>, parse: Parsing.LayoutParser, formatIn: Timezone.Formatter)
      requires location.Some?
      ensures this.title == title && this.setType == setType && this.location == location.value
      ensures this.parse == parse && this.formatIn == formatIn
      ensures text == ""
    {
      this.title := title;
      this.setType := setType;
      this.location := location.value;
      this.parse := parse;
      this.formatIn := formatIn;
      text := "";
    }

    /**
      The entry now holds `s` and its OnChanged runs: the instant handed to the
      global update, None when PraseStringToTime refuses the text.
    */
    method OnChanged(s: string) returns (update: Option<int>)
      modifies this`text
      ensures text == s
      ensures update.Some? <==> Parsing.ParseRfc(parse, s).Ok?
      ensures update.Some? ==> update.value == Parsing.ParseRfc(parse, s).value
      ensures Accepts(parse, setType, s) ==> update.Some?
    {
      text := s;
      if Accepts(parse, setType, s) {
        AcceptedTextUpdates(parse, setType, s);
      }
      match Parsing.ParseRfc(parse, s)
      case Ok(t) => update := Some(t);
      case Err(_) => update := None;
    }

    /** Update: the entry shows instant `e` as the row's kind prescribes. */
    method Update(e: int)
      modifies this`text
      ensures text == UpdateText(setType, location, e, formatIn)
      ensures setType == Unix && Decimal.IsInt64(e) ==> Accepts(parse, setType, text)
    {
      match setType
      case RFC3339 => text := formatIn(e, location, Formats.RFC3339);
      case RFC3339Nano => text := formatIn(e, location, Formats.RFC3339Nano);
      case Unix =>
        text := Decimal.FormatInt(e);
        if Decimal.IsInt64(e) {
          UnixAcceptsOwnText(parse, location, e, formatIn);
        }
    }

    /** The copy button: the entry's text goes to the clipboard and the status says so. */
    method Copy() returns (clipboard: string, status: string)
      ensures clipboard == text && status == CopiedToClipboard
    {
      clipboard := text;
      status := CopiedToClipboard;
    }
  }
}
