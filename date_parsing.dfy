/**
 * The date-format loops `for fmt in formats: try: return
 * datetime.strptime(text, fmt).strftime("%Y-%m-%d") except ValueError: ...`.
 * The library's format matching is not modelled: it is a parameter.
 */
module DateParsing {
  import opened Wrappers

  /**
   * `datetime.strptime(text, fmt).strftime("%Y-%m-%d")`, or None where
   * `strptime` raises ValueError.
   */
  type Strptime = (string, string) -> Option<string>

  /** The rendering under the first format in `formats` that accepts `text`. */
  function FirstParse(text: string, formats: seq<string>, strptime: Strptime): (r: Option<string>)
    ensures r.None? <==> forall k :: 0 <= k < |formats| ==> strptime(text, formats[k]).None?
    ensures r.Some? ==> exists k :: 0 <= k < |formats| && strptime(text, formats[k]) == r
                          && forall j :: 0 <= j < k ==> strptime(text, formats[j]).None?
  {
    if formats == [] then None
    else
      match strptime(text, formats[0])
      case Some(d) => Some(d)
      case None =>
        var r := FirstParse(text, formats[1..], strptime);
        assert forall k :: 1 <= k < |formats| ==> formats[1..][k - 1] == formats[k];
        r
  }
}
