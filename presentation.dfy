/**
 * What both orchestrators share: `clean_station_name`, the list of display
 * names, `list.index`, and the mapping of a failed workflow to the header
 * `run` shows.
 */
module Presentation {
  import opened Wrappers
  import opened Text
  import opened Tables

  /** Ids containing this are the catalogue's own information entry. */
  const InfoMarker: string := "stations-meteo-en-place"
  const InfoLabel: string := "Catalogue général des stations (info)"

  /**
   * `clean_station_name`: the fixed label for the information entry;
   * otherwise the id without its `<digits>-` prefix, dashes turned into
   * spaces, first character upper-case and the rest lower-case.
   */
  function CleanStationName(id: string): string
  {
    if Contains(id, InfoMarker) then InfoLabel
    else Capitalize(ReplaceDashes(StripNumericPrefix(id)))
  }

  /**
   * The shape of a display name: the fixed label for the information entry;
   * otherwise as long as the id without its prefix, not starting with a
   * lower-case letter, with no upper-case letter after the first. No display
   * name contains a dash.
   */
  lemma CleanStationNameShape(id: string)
    ensures Contains(id, InfoMarker) ==> CleanStationName(id) == InfoLabel
    ensures !Contains(id, InfoMarker) ==> |CleanStationName(id)| == |StripNumericPrefix(id)|
    ensures !Contains(id, InfoMarker) && |CleanStationName(id)| > 0 ==> !IsLower(CleanStationName(id)[0])
    ensures !Contains(id, InfoMarker) ==> forall i :: 0 < i < |CleanStationName(id)| ==> !IsUpper(CleanStationName(id)[i])
    ensures forall i :: 0 <= i < |CleanStationName(id)| ==> CleanStationName(id)[i] != '-'
  {
    if !Contains(id, InfoMarker) {
      var dashless := ReplaceDashes(StripNumericPrefix(id));
      assert CleanStationName(id) == Capitalize(dashless);
      assert forall i :: 0 <= i < |dashless| ==> dashless[i] != '-';
    }
  }

  /** An id `<digits>-<rest>` is shown as `rest` with spaces for dashes, capitalized. */
  lemma CleanStationNameOfPrefixed(digits: string, rest: string)
    requires |digits| > 0 && AllDigits(digits)
    requires !Contains(digits + "-" + rest, InfoMarker)
    ensures CleanStationName(digits + "-" + rest) == Capitalize(ReplaceDashes(rest))
  {
    StripNumericPrefixRemoves(digits, rest);
  }

  /** `[clean_station_name(s_id) for s_id in ids]`: one name per id, at the same index. */
  function DisplayNames(ids: seq<string>): (r: seq<string>)
    ensures |r| == |ids|
    ensures forall i :: 0 <= i < |ids| ==> r[i] == CleanStationName(ids[i])
  {
    seq(|ids|, i requires 0 <= i < |ids| => CleanStationName(ids[i]))
  }

  /** `s.index(x)`: the first index holding `x`; `None` where Python raises `ValueError`. */
  function FirstIndexOf<T(==)>(s: seq<T>, x: T): (r: Option<nat>)
    ensures r.None? <==> x !in s
    ensures r.Some? ==> r.value < |s| && s[r.value] == x
    ensures r.Some? ==> forall j :: 0 <= j < r.value ==> s[j] != x
  {
    if s == [] then None
    else if s[0] == x then Some(0)
    else
      match FirstIndexOf(s[1..], x)
      case None => None
      case Some(k) => Some(k + 1)
  }

  /** Python's truth test on an optional string answer: `None` and `""` are false. */
  predicate Chosen(answer: Option<string>)
  {
    answer.Some? && answer.value != ""
  }

  /** The exceptions `run` tells apart. */
  datatype Failure =
    | ConnectionFailure          // requests.exceptions.RequestException
    | MissingColumnFailure(column: string)  // KeyError
    | OtherFailure               // any other exception, e.g. ValueError from list.index

  function FailureOf(e: TableError): Failure
  {
    MissingColumnFailure(e.column)
  }

  predicate SameKind(f: Failure, g: Failure)
  {
    (f.ConnectionFailure? && g.ConnectionFailure?) || (f.MissingColumnFailure? && g.MissingColumnFailure?)
    || (f.OtherFailure? && g.OtherFailure?)
  }

  /** The header `run` displays for a failure; each kind of failure has a header of its own. */
  function ErrorHeader(f: Failure): (r: string)
    ensures f.MissingColumnFailure? ==> r == "ERREUR DE CONFIGURATION"
  {
    match f
    case ConnectionFailure => "ERREUR CRITIQUE DE CONNEXION"
    case MissingColumnFailure(_) => "ERREUR DE CONFIGURATION"
    case OtherFailure => "ERREUR INCONNUE"
  }

  /** Two failures get the same header only when they are of the same kind. */
  lemma ErrorHeadersDistinct(f: Failure, g: Failure)
    ensures ErrorHeader(f) == ErrorHeader(g) <==> SameKind(f, g)
  {
  }
}
