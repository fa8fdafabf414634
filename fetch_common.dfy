/**
 * Shared helpers of the raw fetch scripts (scripts/fetch_common.py):
 * reading an appid list, selecting an index range of it, collecting the
 * appids an earlier JSONL run already wrote, and normalising release dates.
 */
module FetchCommon {
  import opened Wrappers
  import opened Json
  import Text
  import Seqs
  import opened DateParsing

  const FORMAT_ERROR := "appid list file must be {'appids': [...]} or a plain list"
  const START_ERROR := "start-index must be >= 0"
  const END_ERROR := "end-index must be -1 or >= start-index"
  const TOP_N_ERROR := "top-n must be >= 0"

  /**
   * `load_local_appids` on the decoded file: the `int()` of every item that
   * converts, in file order; an unexpected top-level shape raises.
   */
  method LoadLocalAppids(data: Json) returns (r: Result<seq<int>>)
    ensures AppidList(data).None? ==> r == Err(FORMAT_ERROR)
    ensures AppidList(data).Some? ==> r == Ok(Seqs.FilterMap(AppidList(data).value, PyInt))
  {
    var source := AppidList(data);
    if source.None? {
      return Err(FORMAT_ERROR);
    }
    var items := source.value;
    var appids: seq<int> := [];
    for i := 0 to |items|
      invariant appids == Seqs.FilterMap(items[..i], PyInt)
    {
      assert items[..i + 1][..i] == items[..i];
      match PyInt(items[i]) {
        case Some(n) => appids := appids + [n];
        case None =>
      }
    }
    assert items[..|items|] == items;
    return Ok(appids);
  }

  /**
   * `apply_index_range`: validates the arguments, then takes
   * `appids[start:end]` (`end == -1` meaning "to the end") and caps it at
   * `topN` elements when `topN > 0`.
   */
  function ApplyIndexRange(appids: seq<int>, start: int, end: int, topN: int): (r: Result<seq<int>>)
    ensures start < 0 ==> r == Err(START_ERROR)
    ensures start >= 0 && end != -1 && end < start ==> r == Err(END_ERROR)
    ensures start >= 0 && (end == -1 || end >= start) && topN < 0 ==> r == Err(TOP_N_ERROR)
    ensures r.Ok? <==> start >= 0 && (end == -1 || end >= start) && topN >= 0
    ensures r.Ok? ==> forall i :: 0 <= i < |r.value| ==> start + i < |appids| && r.value[i] == appids[start + i]
    ensures r.Ok? ==>
      var stop := if end == -1 || end > |appids| then |appids| else end;
      var avail := if stop > start then stop - start else 0;
      |r.value| == if 0 < topN < avail then topN else avail
  {
    if start < 0 then Err(START_ERROR)
    else if end != -1 && end < start then Err(END_ERROR)
    else if topN < 0 then Err(TOP_N_ERROR)
    else
      var lo := if start < |appids| then start else |appids|;
      var hi := if end == -1 || end > |appids| then |appids| else end;
      var sliced := appids[lo..hi];
      var out := if topN > 0 then Seqs.Take(sliced, topN) else sliced;
      assert |sliced| > 0 ==> lo == start;
      assert forall i :: 0 <= i < |out| ==> out[i] == sliced[i];
      Ok(out)
  }

  /**
   * The appid one line of a JSONL output file records: a non-blank line
   * that decodes to a one-key object whose key `int()` accepts.
   */
  function DoneKey(line: string, decode: string -> Option<Json>): Option<int> {
    var raw := Text.Strip(line);
    if raw == "" then None
    else
      match decode(raw)
      case Some(JObj(ms)) => if |ms| == 1 then Text.ParseInt(ms[0].key) else None
      case _ => None
  }

  /** The appids recorded by the lines, in file order (repeats kept). */
  function DoneKeys(lines: seq<string>, decode: string -> Option<Json>): (r: seq<int>)
    ensures forall x :: x in r <==> exists i :: 0 <= i < |lines| && DoneKey(lines[i], decode) == Some(x)
  {
    Seqs.FilterMapMembers(lines, line => DoneKey(line, decode));
    Seqs.FilterMap(lines, line => DoneKey(line, decode))
  }

  /**
   * `load_done_appids_from_jsonl` over the file's lines (a missing file has
   * none): exactly the appids some line records.
   */
  method LoadDoneAppids(lines: seq<string>, decode: string -> Option<Json>) returns (done: set<int>)
    ensures forall x :: x in done <==> x in DoneKeys(lines, decode)
  {
    done := {};
    for i := 0 to |lines|
      invariant forall x :: x in done <==> x in DoneKeys(lines[..i], decode)
    {
      assert lines[..i + 1][..i] == lines[..i];
      var raw := Text.Strip(lines[i]);
      if raw == "" {
        continue;
      }
      var obj := decode(raw);
      if obj.Some? && obj.value.JObj? && |obj.value.members| == 1 {
        var key := Text.ParseInt(obj.value.members[0].key);
        if key.Some? {
          done := done + {key.value};
        }
      }
    }
    assert lines[..|lines|] == lines;
  }

  const DATE_FORMATS: seq<string> := ["%Y-%m-%d", "%d %b, %Y", "%b %d, %Y", "%d %B, %Y", "%B %d, %Y", "%Y/%m/%d", "%m/%d/%Y"]
  const UNANNOUNCED: set<string> := {"coming soon", "to be announced", "tba", "soon"}

  /**
   * The text branch of `normalize_date`, on the already stripped text: blank
   * and "not announced yet" texts become "", otherwise the rendering under
   * the first format that parses, otherwise the text itself.
   */
  function DateText(raw: string, strptime: Strptime): (r: string)
    ensures raw == "" || Text.Lower(raw) in UNANNOUNCED ==> r == ""
    ensures (raw != "" && Text.Lower(raw) !in UNANNOUNCED &&
             exists k :: 0 <= k < |DATE_FORMATS| && strptime(raw, DATE_FORMATS[k]).Some?) ==>
        exists k :: 0 <= k < |DATE_FORMATS| && strptime(raw, DATE_FORMATS[k]) == Some(r) &&
          forall j :: 0 <= j < k ==> strptime(raw, DATE_FORMATS[j]).None?
    ensures (raw != "" && Text.Lower(raw) !in UNANNOUNCED &&
      (forall k :: 0 <= k < |DATE_FORMATS| ==> strptime(raw, DATE_FORMATS[k]).None?)) ==> r == raw
  {
    if raw == "" then ""
    else if Text.Lower(raw) in UNANNOUNCED then ""
    else
      match FirstParse(raw, DATE_FORMATS, strptime)
      case Some(d) => d
      case None => raw
  }

  /**
   * `normalize_date`: None is "", a number is a Unix timestamp (none when
   * not positive), anything else goes through `str()` and `strip()`.
   * `fromTimestamp(n)` stands for
   * `datetime.fromtimestamp(n, tz=utc).strftime("%Y-%m-%d")`.
   */
  function NormalizeDate(v: Json, strptime: Strptime, fromTimestamp: int -> string): (r: string)
    ensures v.JNull? ==> r == ""
    ensures (v.JInt? || v.JBool?) && PyInt(v).value <= 0 ==> r == ""
    ensures (v.JInt? || v.JBool?) && PyInt(v).value > 0 ==> r == fromTimestamp(PyInt(v).value)
    ensures !(v.JNull? || v.JInt? || v.JBool?) ==> r == DateText(Text.Strip(PyStr(v)), strptime)
  {
    match v
    case JNull => ""
    case JInt(_) | JBool(_) =>
      var n := PyInt(v).value;
      if n <= 0 then "" else fromTimestamp(n)
    case _ => DateText(Text.Strip(PyStr(v)), strptime)
  }

  /**
   * A date text that no format accepts comes back stripped (or blanked),
   * and normalising that result again changes nothing.
   */
  lemma NormalizeDateUnparsedStable(s: string, strptime: Strptime, fromTimestamp: int -> string)
    requires forall k :: 0 <= k < |DATE_FORMATS| ==> strptime(Text.Strip(s), DATE_FORMATS[k]).None?
    ensures NormalizeDate(JStr(s), strptime, fromTimestamp) in {"", Text.Strip(s)}
    ensures var once := NormalizeDate(JStr(s), strptime, fromTimestamp);
            NormalizeDate(JStr(once), strptime, fromTimestamp) == once
  {
    var raw := Text.Strip(s);
    var once := DateText(raw, strptime);
    assert NormalizeDate(JStr(s), strptime, fromTimestamp) == once;
    assert PyStr(JStr(once)) == once;
    if once == "" {
      Text.StripTrimmed(once);
    } else {
      assert once == raw;
      Text.StripIdempotent(s);
    }
    assert Text.Strip(once) == once;
  }
}
