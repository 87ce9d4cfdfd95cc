/**
  The supported-format catalog (formats.go): the layouts the text parser tries,
  in order, and the entries of the Format menu. Layout strings are the values of
  the Go time package's named layout constants.
*/
module Formats {
  import Collections

  datatype FormatDefinition = FormatDefinition(format: string, name: string)

  const RFC3339 := "2006-01-02T15:04:05Z07:00"
  const RFC3339Nano := "2006-01-02T15:04:05.999999999Z07:00"
  const RubyDate := "Mon Jan 02 15:04:05 -0700 2006"
  const RFC822Z := "02 Jan 06 15:04 -0700"
  const RFC1123Z := "Mon, 02 Jan 2006 15:04:05 -0700"

  /** The number of Format menu items (CatalogOrder: the catalog has exactly this many). */
  const FormatCount := 4

  const SupportedFormats: seq<FormatDefinition> := [
    FormatDefinition(RFC3339, "RFC3339 (2006-01-02T15:04:05Z07:00)"),
    FormatDefinition(RubyDate, "Ruby Date (Mon Jan 2 15:04:05 -0700 2006)"),
    FormatDefinition(RFC822Z, "RFC822Z (02 Jan 06 15:04 -0700)"),
    FormatDefinition(RFC1123Z, "RFC1123Z (Mon, 02 Jan 2006 15:04:05 -0700)")
  ]

  /** The layouts in catalog order: the order in which the parser tries them. */
  function Layouts(): (ls: seq<string>)
    ensures |ls| == |SupportedFormats|
    ensures forall i :: 0 <= i < |ls| ==> ls[i] == SupportedFormats[i].format
  {
    seq(|SupportedFormats|, i requires 0 <= i < |SupportedFormats| => SupportedFormats[i].format)
  }

  /** The default format: the first catalog entry, chosen when the Format menu is built. */
  function DefaultFormat(): (f: string)
    ensures f == RFC3339
    ensures f == Layouts()[0]
  {
    SupportedFormats[0].format
  }

  /** The catalog holds four entries, in the order RFC3339, RubyDate, RFC822Z, RFC1123Z. */
  lemma CatalogOrder()
    ensures |SupportedFormats| == FormatCount
    ensures Layouts() == [RFC3339, RubyDate, RFC822Z, RFC1123Z]
  {
  }

  /**
    Formats and labels are pairwise distinct, so at most one Format menu item
    matches a format string or a label. Each pair differs at the position named.
  */
  lemma CatalogDistinct()
    ensures Collections.Distinct(Layouts())
    ensures forall i, j :: 0 <= i < j < |SupportedFormats| ==> SupportedFormats[i].name != SupportedFormats[j].name
  {
    var f := SupportedFormats;
    DiffersAt(f[0].format, f[1].format, 0);
    DiffersAt(f[0].format, f[2].format, 0);
    DiffersAt(f[0].format, f[3].format, 0);
    DiffersAt(f[1].format, f[2].format, 0);
    DiffersAt(f[1].format, f[3].format, 3);
    DiffersAt(f[2].format, f[3].format, 0);
    DiffersAt(f[0].name, f[1].name, 1);
    DiffersAt(f[0].name, f[2].name, 4);
    DiffersAt(f[0].name, f[3].name, 4);
    DiffersAt(f[1].name, f[2].name, 1);
    DiffersAt(f[1].name, f[3].name, 1);
    DiffersAt(f[2].name, f[3].name, 4);
  }

  lemma DiffersAt(a: string, b: string, k: nat)
    requires k < |a| && k < |b| && a[k] != b[k]
    ensures a != b
  {
  }

  /** RFC3339Nano, the second layout time_helpers.go tries, is not one of the menu formats. */
  lemma NanoNotInCatalog()
    ensures RFC3339Nano !in Layouts()
  {
    CatalogOrder();
    assert RFC3339Nano[19] != RFC3339[19];
    assert RFC3339Nano[0] != RubyDate[0] && RFC3339Nano[0] != RFC822Z[0] && RFC3339Nano[0] != RFC1123Z[0];
  }
}
