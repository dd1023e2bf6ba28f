/**
 * The `data-da` directive: `selector[, breakpoint[, place]]`. The whole
 * value is trimmed and split on commas; each field is trimmed; a breakpoint
 * or place that is missing, or whose field is the empty string, takes its
 * default ("767" and "last").
 */
module Directive {
  import opened Wrappers
  import opened Text

  /** Where a relocated element goes among its destination's element children. */
  datatype Place = First | Last | Index(n: nat)

  /** The three fields of a directive, after trimming and defaults. */
  datatype Directive = Directive(selector: string, breakpoint: string, place: string)

  const DefaultBreakpoint: string := "767"
  const DefaultPlace: string := "last"

  /** Read a `data-da` attribute value. */
  function ParseDirective(da: string): (d: Directive)
    ensures Trimmed(d.selector) && Trimmed(d.breakpoint) && Trimmed(d.place)
    ensures ',' !in d.selector && ',' !in d.breakpoint && ',' !in d.place
  {
    var fields := Split(Trim(da), ',');
    assert ',' !in fields[0];
    Directive(Trim(fields[0]), FieldOr(fields, 1, DefaultBreakpoint), FieldOr(fields, 2, DefaultPlace))
  }

  /**
   * `fields[i] ? fields[i].trim() : default`: a missing field and an empty
   * field (the falsy string) both give the default.
   */
  function FieldOr(fields: seq<string>, i: nat, default: string): (r: string)
    requires forall k :: 0 <= k < |fields| ==> ',' !in fields[k]
    requires Trimmed(default) && ',' !in default
    ensures Trimmed(r) && ',' !in r
  {
    if i < |fields| && fields[i] != [] then
      assert ',' !in fields[i];
      Trim(fields[i])
    else default
  }

  /**
   * The place field as the engine uses it: "last" and "first" by name, a
   * canonical decimal numeral as a child index (`children["2"]` is the third
   * child; `children["02"]` is no child at all). Any other text is outside
   * the model (`None`).
   */
  function ParsePlace(s: string): (p: Option<Place>)
    ensures p == Some(First) <==> s == "first"
    ensures p == Some(Last) <==> s == "last"
    ensures (p.Some? && p.value.Index?) <==> Canonical(s)
    ensures p.Some? && p.value.Index? ==> p.value.n == DecimalValue(s)
  {
    assert s == "first" || s == "last" ==> !IsDigit(s[0]);
    if s == "first" then Some(First)
    else if s == "last" then Some(Last)
    else if Canonical(s) then Some(Index(DecimalValue(s)))
    else None
  }

  /** How an author writes a place in a directive. */
  function FormatPlace(p: Place): string
  {
    match p
    case First => "first"
    case Last => "last"
    case Index(n) => DecimalString(n)
  }

  /** Every place survives being written into a directive and read back. */
  lemma PlaceRoundTrip(p: Place)
    ensures ParsePlace(FormatPlace(p)) == Some(p)
  {
    if p.Index? {
      var s := DecimalString(p.n);
      assert s != "first" by { assert !IsDigit('f'); assert !IsDigit(s[0]) || s[0] != 'f'; }
      assert s != "last" by { assert !IsDigit('l'); }
    }
  }

  /**
   * A three-field directive whose outer ends carry no white space: each field
   * is trimmed, and an empty breakpoint or place field falls back to its
   * default. A field of blanks is not empty before trimming, so it yields "".
   */
  lemma ParseThreeFields(f0: string, f1: string, f2: string)
    requires ',' !in f0 && ',' !in f1 && ',' !in f2
    requires Trimmed(Join([f0, f1, f2], ','))
    ensures ParseDirective(Join([f0, f1, f2], ',')) == Directive(
      Trim(f0),
      if f1 == [] then DefaultBreakpoint else Trim(f1),
      if f2 == [] then DefaultPlace else Trim(f2))
  {
    var da := Join([f0, f1, f2], ',');
    TrimKeepsTrimmed(da);
    SplitJoin([f0, f1, f2], ',');
    var fields := Split(Trim(da), ',');
    assert fields == [f0, f1, f2];
    assert FieldOr(fields, 1, DefaultBreakpoint) == if f1 == [] then DefaultBreakpoint else Trim(f1);
    assert FieldOr(fields, 2, DefaultPlace) == if f2 == [] then DefaultPlace else Trim(f2);
  }

  /** A directive without commas is a bare selector: breakpoint 767, place "last". */
  lemma ParseSelectorOnly(da: string)
    requires ',' !in da
    ensures ParseDirective(da) == Directive(Trim(da), DefaultBreakpoint, DefaultPlace)
  {
    SplitPlain(Trim(da), ',');
    TrimKeepsTrimmed(Trim(da));
  }

  /** A two-field directive takes the default place. */
  lemma ParseTwoFields(f0: string, f1: string)
    requires ',' !in f0 && ',' !in f1
    requires Trimmed(Join([f0, f1], ','))
    ensures ParseDirective(Join([f0, f1], ',')) == Directive(
      Trim(f0), if f1 == [] then DefaultBreakpoint else Trim(f1), DefaultPlace)
  {
    var da := Join([f0, f1], ',');
    TrimKeepsTrimmed(da);
    SplitJoin([f0, f1], ',');
    var fields := Split(Trim(da), ',');
    assert fields == [f0, f1];
    assert FieldOr(fields, 1, DefaultBreakpoint) == if f1 == [] then DefaultBreakpoint else Trim(f1);
    assert FieldOr(fields, 2, DefaultPlace) == DefaultPlace;
  }

  /** Writing trimmed fields with plain commas and parsing gives them back. */
  lemma ParseFormatted(selector: string, breakpoint: string, place: Place)
    requires ',' !in selector && ',' !in breakpoint
    requires Trimmed(selector) && Trimmed(breakpoint) && breakpoint != []
    ensures ParseDirective(Join([selector, breakpoint, FormatPlace(place)], ',')) == Directive(selector, breakpoint, FormatPlace(place))
  {
    var pl := FormatPlace(place);
    assert pl != [] && ',' !in pl && !IsSpace(pl[0]) && !IsSpace(pl[|pl| - 1]) by {
      if place.Index? {
        assert IsDigit(pl[0]) && IsDigit(pl[|pl| - 1]);
      }
    }
    var da := Join([selector, breakpoint, pl], ',');
    assert [selector, breakpoint, pl][1..] == [breakpoint, pl] && [breakpoint, pl][1..] == [pl];
    assert Join([breakpoint, pl], ',') == breakpoint + [','] + pl;
    assert da == selector + [','] + (breakpoint + [','] + pl);
    assert da[|da| - 1] == pl[|pl| - 1];
    assert da[0] == if selector == [] then ',' else selector[0];
    ParseThreeFields(selector, breakpoint, pl);
    TrimKeepsTrimmed(selector);
    TrimKeepsTrimmed(breakpoint);
    TrimKeepsTrimmed(pl);
  }
}
