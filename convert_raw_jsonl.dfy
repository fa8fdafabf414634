/**
 * The converter from raw JSONL rows to the game table
 * (scripts/convert_raw_jsonl.py): the field conversions, the game record
 * built from a row's store and SteamSpy parts, and the row loop that
 * collects the records by appid.
 */
module ConvertRawJsonl {
  import opened Wrappers
  import opened Json
  import Text
  import Seqs
  import opened DateParsing

  const EPOCH_DATE := "1970-01-01"
  const RELEASE_FORMATS: seq<string> := ["%d %b, %Y", "%b %d, %Y", "%Y-%m-%d"]

  /** `release_date` is truthy but not a dict, so `.get` raises AttributeError. */
  const RELEASE_NOT_OBJECT_ERROR := "release_date has no attribute 'get'"
  /** The `date` text is truthy but not a string, so `.strip()` raises AttributeError. */
  const DATE_NOT_STRING_ERROR := "release date has no attribute 'strip'"

  /**
   * `parse_release_date` on a string: the first of three formats that
   * parses the stripped text, with 1970-01-01 for a blank text and for a
   * text no format accepts.
   */
  function ParseReleaseDate(raw: string, strptime: Strptime): (r: string)
    ensures Text.Strip(raw) == "" ==> r == EPOCH_DATE
    ensures (forall k :: 0 <= k < |RELEASE_FORMATS| ==> strptime(Text.Strip(raw), RELEASE_FORMATS[k]).None?) ==> r == EPOCH_DATE
    ensures r != EPOCH_DATE ==> exists k :: 0 <= k < |RELEASE_FORMATS| && strptime(Text.Strip(raw), RELEASE_FORMATS[k]) == Some(r)
    ensures Text.Strip(raw) != "" && (exists k :: 0 <= k < |RELEASE_FORMATS| && strptime(Text.Strip(raw), RELEASE_FORMATS[k]).Some?) ==>
      exists k :: 0 <= k < |RELEASE_FORMATS| && strptime(Text.Strip(raw), RELEASE_FORMATS[k]) == Some(r) &&
        forall j :: 0 <= j < k ==> strptime(Text.Strip(raw), RELEASE_FORMATS[j]).None?
  {
    var text := Text.Strip(raw);
    if text == "" then EPOCH_DATE
    else
      match FirstParse(text, RELEASE_FORMATS, strptime)
      case Some(d) => d
      case None => EPOCH_DATE
  }

  /** `to_int(value, default)`: `int(value)`, or the default where that raises. */
  function ToInt(v: Json, default: int): (r: int)
    ensures PyInt(v).Some? ==> r == PyInt(v).value
    ensures PyInt(v).None? ==> r == default
  {
    match PyInt(v)
    case Some(n) => n
    case None => default
  }

  /** An appid written back as a string converts to itself, whatever the default. */
  lemma ToIntOfIntString(n: int, default: int)
    ensures ToInt(JStr(Text.IntToString(n)), default) == n
  {
    Text.ParseIntToString(n);
  }

  /**
   * `parse_owners_upper`: the upper bound of a SteamSpy owners range
   * `"lo .. hi"` with its thousands separators removed, and 0 for an empty
   * text, a text that does not split into exactly two parts around "..",
   * or an upper part that is not all digits.
   */
  function ParseOwnersUpper(owners: string): (r: nat)
    ensures owners == "" ==> r == 0
    ensures owners != "" && |Text.Split(owners, "..")| != 2 ==> r == 0
    ensures r != 0 ==>
              && |Text.Split(owners, "..")| == 2
              && Text.IsDigits(Text.RemoveChar(Text.Strip(Text.Split(owners, "..")[1]), ','))
              && r == Text.DigitsValue(Text.RemoveChar(Text.Strip(Text.Split(owners, "..")[1]), ','))
  {
    if owners == "" then 0
    else
      var parts := Text.Split(owners, "..");
      if |parts| != 2 then 0
      else
        var hi := Text.RemoveChar(Text.Strip(parts[1]), ',');
        if Text.IsDigits(hi) then Text.DigitsValue(hi) else 0
  }

  /**
   * The owners range as SteamSpy writes it, `lo + " .. " + hi` with `hi`
   * made of digits and commas, reads back as the value of `hi`.
   */
  lemma OwnersUpperOfRange(lo: string, hi: string)
    requires forall k :: 0 <= k < |lo| ==> lo[k] != '.'
    requires forall k :: 0 <= k < |hi| ==> Text.IsDigitChar(hi[k]) || hi[k] == ','
    requires Text.IsDigits(Text.RemoveChar(hi, ','))
    ensures ParseOwnersUpper(lo + " .. " + hi) == Text.DigitsValue(Text.RemoveChar(hi, ','))
  {
    var s := lo + " .. " + hi;
    var n := |lo|;
    assert s[n..n + 4] == " .. ";
    assert s[n + 4..] == hi;
    assert forall k :: 0 <= k < n ==> s[k] == lo[k];
    OwnersUpperAt(s, n, hi);
  }

  /** `OwnersUpperOfRange` on the characters of the range text. */
  lemma OwnersUpperAt(s: string, n: nat, hi: string)
    requires n + 4 <= |s| && s[n..n + 4] == " .. " && s[n + 4..] == hi
    requires forall k :: 0 <= k < n ==> s[k] != '.'
    requires forall k :: 0 <= k < |hi| ==> Text.IsDigitChar(hi[k]) || hi[k] == ','
    requires Text.IsDigits(Text.RemoveChar(hi, ','))
    ensures ParseOwnersUpper(s) == Text.DigitsValue(Text.RemoveChar(hi, ','))
  {
    DigitsOrCommas(hi);
    RangeParts(s, n, hi);
    OwnersUpperOfParts(s, hi);
  }

  /** The text splits at its ".." into the lower part and " " + `hi`. */
  lemma RangeParts(s: string, n: nat, hi: string)
    requires n + 4 <= |s| && s[n..n + 4] == " .. " && s[n + 4..] == hi
    requires forall k :: 0 <= k < n ==> s[k] != '.'
    requires hi != [] && !Text.IsSpace(hi[0]) && !Text.IsSpace(hi[|hi| - 1])
    requires forall k :: 0 <= k < |hi| ==> hi[k] != '.'
    ensures |Text.Split(s, "..")| == 2 && Text.Strip(Text.Split(s, "..")[1]) == hi
  {
    assert s[n] == ' ' && s[n + 1] == '.' && s[n + 2] == '.' && s[n + 3] == ' ' by {
      assert s[n..n + 4][0] == s[n];
      assert s[n..n + 4][1] == s[n + 1];
      assert s[n..n + 4][2] == s[n + 2];
      assert s[n..n + 4][3] == s[n + 3];
    }
    assert forall k :: n + 4 <= k < |s| ==> s[k] == hi[k - n - 4];
    SplitAtRangeSep(s, n);
    assert s[n + 3..] == " " + hi by {
      assert s[n + 3..][1..] == hi;
    }
    Text.StripLeadingSpace(hi);
  }

  /** A non-empty run of digits and commas: no dot, nothing to strip. */
  lemma DigitsOrCommas(hi: string)
    requires forall k :: 0 <= k < |hi| ==> Text.IsDigitChar(hi[k]) || hi[k] == ','
    requires Text.IsDigits(Text.RemoveChar(hi, ','))
    ensures hi != [] && !Text.IsSpace(hi[0]) && !Text.IsSpace(hi[|hi| - 1])
    ensures forall k :: 0 <= k < |hi| ==> hi[k] != '.'
  {
    assert hi != [] by {
      assert |Text.RemoveChar(hi, ',')| <= |hi|;
    }
    DigitOrCommaNotSpace(hi[0]);
    DigitOrCommaNotSpace(hi[|hi| - 1]);
  }

  lemma DigitOrCommaNotSpace(c: char)
    requires Text.IsDigitChar(c) || c == ','
    ensures !Text.IsSpace(c)
  {
  }

  /** The upper part, once stripped, is what `parse_owners_upper` reads. */
  lemma OwnersUpperOfParts(s: string, hi: string)
    requires s != "" && |Text.Split(s, "..")| == 2 && Text.Strip(Text.Split(s, "..")[1]) == hi
    ensures ParseOwnersUpper(s) == if Text.IsDigits(Text.RemoveChar(hi, ',')) then Text.DigitsValue(Text.RemoveChar(hi, ',')) else 0
  {
  }

  /** A range text splits around its one "..". */
  lemma SplitAtRangeSep(s: string, n: nat)
    requires n + 4 <= |s| && s[n + 1] == '.' && s[n + 2] == '.' && s[n] != '.' && s[n + 3] != '.'
    requires forall k :: 0 <= k < n ==> s[k] != '.'
    requires forall k :: n + 4 <= k < |s| ==> s[k] != '.'
    ensures Text.Split(s, "..") == [s[..n + 1], s[n + 3..]]
  {
    FindRangeSep(s, n + 1);
    var rest := s[n + 3..];
    FindNoDot(rest);
    assert Text.Split(rest, "..") == [rest];
  }

  /** The first ".." of a text is at `i` when no '.' comes before it. */
  lemma FindRangeSep(s: string, i: nat)
    requires i + 2 <= |s| && s[i] == '.' && s[i + 1] == '.'
    requires forall k :: 0 <= k < i ==> s[k] != '.'
    ensures Text.Find(s, "..") == Some(i)
  {
    assert s[i..i + 2] == "..";
    forall k: nat | k < i
      ensures !Text.OccursAt(s, "..", k)
    {
      if k + 2 <= |s| {
        assert s[k..k + 2][0] == s[k];
      }
    }
    Text.FindFirstAt(s, "..", i);
  }

  /** A text without '.' has no "..". */
  lemma FindNoDot(t: string)
    requires forall k :: 0 <= k < |t| ==> t[k] != '.'
    ensures Text.Find(t, "..").None?
  {
    forall k: nat
      ensures !Text.OccursAt(t, "..", k)
    {
      if k + 2 <= |t| {
        assert t[k..k + 2][0] == t[k];
      }
    }
    Text.FindLeftmost(t, "..");
  }

  /** `extract_store_payload`: the members of `from_store["data"]` when that is a dict, else none. */
  function ExtractStorePayload(fromStore: seq<Member>): (r: seq<Member>)
    ensures GetOrNull(fromStore, "data").JObj? ==> r == GetOrNull(fromStore, "data").members
    ensures !GetOrNull(fromStore, "data").JObj? ==> r == []
  {
    var data := GetOrNull(fromStore, "data");
    if data.JObj? then data.members else []
  }

  /** `extract_spy_tags`: the keys of `spy["tags"]` in order when that is a dict, else none. */
  function ExtractSpyTags(spy: seq<Member>): (r: seq<string>)
    ensures !GetOrNull(spy, "tags").JObj? ==> r == []
    ensures GetOrNull(spy, "tags").JObj? ==>
      |r| == |GetOrNull(spy, "tags").members| &&
      forall i :: 0 <= i < |r| ==> r[i] == GetOrNull(spy, "tags").members[i].key
  {
    var tags := GetOrNull(spy, "tags");
    if tags.JObj? then Keys(tags.members) else []
  }

  /**
   * The text handed to `parse_release_date`:
   * `((store_data.get("release_date") or {}).get("date", "") or "")`, which
   * raises when `release_date` is truthy but not a dict, or when the date is
   * truthy but not a string.
   */
  function ReleaseRaw(storeData: seq<Member>): (r: Result<string>)
    ensures Truthy(GetOrNull(storeData, "release_date")) && !GetOrNull(storeData, "release_date").JObj? ==>
      r == Err(RELEASE_NOT_OBJECT_ERROR)
    ensures !Truthy(GetOrNull(storeData, "release_date")) ==> r == Ok("")
    ensures GetOrNull(storeData, "release_date").JObj? ==>
      var date := Field(GetOrNull(storeData, "release_date"), "date");
      (!Truthy(date) ==> r == Ok("")) &&
      (date.JStr? ==> r == Ok(date.s)) &&
      (Truthy(date) && !date.JStr? ==> r == Err(DATE_NOT_STRING_ERROR))
  {
    var release := Or(GetOrNull(storeData, "release_date"), JObj([]));
    if !release.JObj? then Err(RELEASE_NOT_OBJECT_ERROR)
    else
      var date := match Get(release.members, "date") case Some(d) => d case None => JStr("");
      var text := Or(date, JStr(""));
      if text.JStr? then Ok(text.s) else Err(DATE_NOT_STRING_ERROR)
  }

  /** The list under `key`, where a missing, falsy or non-list value counts as empty. */
  function ListOrEmpty(storeData: seq<Member>, key: string): (r: seq<Json>)
    ensures GetOrNull(storeData, key).JArr? ==> r == GetOrNull(storeData, key).items
    ensures !GetOrNull(storeData, key).JArr? ==> r == []
  {
    var v := Or(GetOrNull(storeData, key), JArr([]));
    if v.JArr? then v.items else []
  }

  /** `str(first.get("path_full") or first.get("path_thumbnail") or "")` for the first screenshot. */
  function ScreenshotUrl(storeData: seq<Member>): (r: string)
    ensures !GetOrNull(storeData, "screenshots").JArr? ==> r == ""
    ensures GetOrNull(storeData, "screenshots").JArr? && GetOrNull(storeData, "screenshots").items == [] ==> r == ""
    ensures GetOrNull(storeData, "screenshots").JArr? && GetOrNull(storeData, "screenshots").items != [] ==>
      var first := GetOrNull(storeData, "screenshots").items[0];
      && (!first.JObj? ==> r == "")
      && (first.JObj? && Truthy(Field(first, "path_full")) ==> r == PyStr(Field(first, "path_full")))
      && (first.JObj? && !Truthy(Field(first, "path_full")) && Truthy(Field(first, "path_thumbnail")) ==>
            r == PyStr(Field(first, "path_thumbnail")))
      && (first.JObj? && !Truthy(Field(first, "path_full")) && !Truthy(Field(first, "path_thumbnail")) ==> r == "")
  {
    var shots := Or(GetOrNull(storeData, "screenshots"), JArr([]));
    if shots.JArr? && shots.items != [] && shots.items[0].JObj? then
      var first := shots.items[0];
      PyStr(Or(Or(Field(first, "path_full"), Field(first, "path_thumbnail")), JStr("")))
    else ""
  }

  /**
   * One game of the table. The price is kept in cents: the script's
   * `round(final / 100, 2)` is that number of cents as a float.
   */
  datatype Game = Game(
    appId: int,
    name: string,
    releaseDate: string,
    currency: string,
    priceCents: int,
    ccu: int,
    owners: nat,
    reviewTotal: nat,
    positive: int,
    negative: int,
    userTags: seq<string>,
    developers: seq<Json>,
    publishers: seq<Json>,
    screenshotUrl: string,
    headerImage: Json)

  /** `str(store name or spy name or f"App {appid}")`. */
  function GameName(appid: int, storeData: seq<Member>, spy: seq<Member>): (r: string)
    ensures Truthy(GetOrNull(storeData, "name")) ==> r == PyStr(GetOrNull(storeData, "name"))
    ensures !Truthy(GetOrNull(storeData, "name")) && Truthy(GetOrNull(spy, "name")) ==> r == PyStr(GetOrNull(spy, "name"))
    ensures !Truthy(GetOrNull(storeData, "name")) && !Truthy(GetOrNull(spy, "name")) ==> r == "App " + Text.IntToString(appid)
  {
    PyStr(Or(Or(GetOrNull(storeData, "name"), GetOrNull(spy, "name")), JStr("App " + Text.IntToString(appid))))
  }

  /**
   * `build_game`: no game without a non-empty `data` dict in the store part;
   * otherwise the record, unless reading the release date raises.
   */
  function BuildGame(appid: int, fromStore: seq<Member>, fromSpy: seq<Member>, strptime: Strptime): (r: Result<Option<Game>>)
    ensures ExtractStorePayload(fromStore) == [] ==> r == Ok(None)
    ensures ExtractStorePayload(fromStore) != [] ==>
      (r.Err? <==> ReleaseRaw(ExtractStorePayload(fromStore)).Err?) && (r.Ok? ==> r.value.Some?)
    ensures r.Ok? && r.value.Some? ==>
      var g, store := r.value.value, ExtractStorePayload(fromStore);
      var pos, neg := ToInt(GetOrNull(fromSpy, "positive"), 0), ToInt(GetOrNull(fromSpy, "negative"), 0);
      && g.appId == appid
      && g.name == GameName(appid, store, fromSpy)
      && g.releaseDate == ParseReleaseDate(ReleaseRaw(store).value, strptime)
      && g.positive == pos && g.negative == neg
      && g.reviewTotal == (if pos + neg > 0 then pos + neg else 0)
      && (Truthy(GetOrNull(store, "is_free")) ==> g.priceCents == 0)
      && g.ccu == ToInt(GetOrNull(fromSpy, "ccu"), 0)
      && g.userTags == ExtractSpyTags(fromSpy)
      && g.developers == ListOrEmpty(store, "developers")
      && g.publishers == ListOrEmpty(store, "publishers")
    ensures r.Ok? && r.value.Some? ==>
      var g, store := r.value.value, ExtractStorePayload(fromStore);
      && g.owners == OwnersOf(fromSpy)
      && g.currency == Currency(store)
      && g.priceCents == PriceCents(store)
      && g.screenshotUrl == ScreenshotUrl(store)
      && g.headerImage == HeaderImage(store)
  {
    var store := ExtractStorePayload(fromStore);
    if store == [] then Ok(None)
    else
      match ReleaseRaw(store)
      case Err(e) => Err(e)
      case Ok(raw) => Ok(Some(GameRecord(appid, store, fromSpy, ParseReleaseDate(raw, strptime))))
  }

  /**
   * `parse_owners_upper(str(from_spy.get("owners", "")))`: no owners field
   * counts as 0 owners.
   */
  function OwnersOf(spy: seq<Member>): (r: nat)
    ensures Get(spy, "owners").None? ==> r == 0
    ensures Get(spy, "owners").Some? ==> r == ParseOwnersUpper(PyStr(Get(spy, "owners").value))
  {
    ParseOwnersUpper(PyStr(match Get(spy, "owners") case Some(o) => o case None => JStr("")))
  }

  /** `price_overview.currency` (or "") when `price_overview` is a dict, else "". */
  function Currency(store: seq<Member>): (r: string)
    ensures GetOrNull(store, "price_overview").JObj? ==>
      r == PyStr(Or(Field(GetOrNull(store, "price_overview"), "currency"), JStr("")))
    ensures !GetOrNull(store, "price_overview").JObj? ==> r == ""
  {
    var priceOverview := Or(GetOrNull(store, "price_overview"), JObj([]));
    if priceOverview.JObj? then PyStr(Or(Field(priceOverview, "currency"), JStr(""))) else ""
  }

  /**
   * The current price in cents: 0 for a free game, else `price_overview.final`
   * when `price_overview` is a dict (0 where `int()` rejects it), else 0.
   */
  function PriceCents(store: seq<Member>): (r: int)
    ensures Truthy(GetOrNull(store, "is_free")) ==> r == 0
    ensures !Truthy(GetOrNull(store, "is_free")) && GetOrNull(store, "price_overview").JObj? ==>
      r == ToInt(Field(GetOrNull(store, "price_overview"), "final"), 0)
    ensures !GetOrNull(store, "price_overview").JObj? ==> r == 0
  {
    var priceOverview := Or(GetOrNull(store, "price_overview"), JObj([]));
    var cents := if priceOverview.JObj? then ToInt(Field(priceOverview, "final"), 0) else 0;
    if Truthy(GetOrNull(store, "is_free")) then 0 else cents
  }

  /** `store_data.get("header_image") or ""`. */
  function HeaderImage(store: seq<Member>): (r: Json)
    ensures Truthy(GetOrNull(store, "header_image")) ==> r == GetOrNull(store, "header_image")
    ensures !Truthy(GetOrNull(store, "header_image")) ==> r == JStr("")
  {
    Or(GetOrNull(store, "header_image"), JStr(""))
  }

  /**
   * The record `build_game` assembles once the release date is known: the
   * name fallback chain, the price, the SteamSpy counts and tags, the store
   * lists and the images.
   */
  function GameRecord(appid: int, store: seq<Member>, spy: seq<Member>, releaseDate: string): (g: Game)
    ensures g.appId == appid && g.name == GameName(appid, store, spy) && g.releaseDate == releaseDate
    ensures g.currency == Currency(store) && g.priceCents == PriceCents(store)
    ensures g.ccu == ToInt(GetOrNull(spy, "ccu"), 0) && g.owners == OwnersOf(spy)
    ensures g.positive == ToInt(GetOrNull(spy, "positive"), 0) && g.negative == ToInt(GetOrNull(spy, "negative"), 0)
    ensures g.reviewTotal == (if g.positive + g.negative > 0 then g.positive + g.negative else 0)
    ensures g.userTags == ExtractSpyTags(spy)
    ensures g.developers == ListOrEmpty(store, "developers") && g.publishers == ListOrEmpty(store, "publishers")
    ensures g.screenshotUrl == ScreenshotUrl(store) && g.headerImage == HeaderImage(store)
  {
    var positive := ToInt(GetOrNull(spy, "positive"), 0);
    var negative := ToInt(GetOrNull(spy, "negative"), 0);
    Game(
      appId := appid,
      name := GameName(appid, store, spy),
      releaseDate := releaseDate,
      currency := Currency(store),
      priceCents := PriceCents(store),
      ccu := ToInt(GetOrNull(spy, "ccu"), 0),
      owners := OwnersOf(spy),
      reviewTotal := if positive + negative > 0 then positive + negative else 0,
      positive := positive,
      negative := negative,
      userTags := ExtractSpyTags(spy),
      developers := ListOrEmpty(store, "developers"),
      publishers := ListOrEmpty(store, "publishers"),
      screenshotUrl := ScreenshotUrl(store),
      headerImage := HeaderImage(store))
  }

  /** `payload.get(key, {})`, with anything but a dict replaced by `{}`. */
  function PartOf(payload: seq<Member>, key: string): (r: seq<Member>)
    ensures Get(payload, key).Some? && Get(payload, key).value.JObj? ==> r == Get(payload, key).value.members
    ensures !(Get(payload, key).Some? && Get(payload, key).value.JObj?) ==> r == []
  {
    match Get(payload, key)
    case Some(JObj(ms)) => ms
    case _ => []
  }

  /**
   * The rows the loop does not skip: a non-blank line holding a dict with
   * exactly one key, whose value is a dict and whose key `int()` accepts.
   * Gives the appid and the payload's members.
   */
  function AcceptedRow(line: string, decode: string -> Option<Json>): (r: Option<(int, seq<Member>)>)
    ensures r.Some? <==>
      var raw := Text.Strip(line);
      && raw != ""
      && decode(raw).Some? && decode(raw).value.JObj? && |decode(raw).value.members| == 1
      && decode(raw).value.members[0].value.JObj?
      && Text.ParseInt(decode(raw).value.members[0].key).Some?
    ensures r.Some? ==>
      var row := decode(Text.Strip(line)).value.members[0];
      r.value == (Text.ParseInt(row.key).value, row.value.members)
  {
    var raw := Text.Strip(line);
    if raw == "" then None
    else
      match decode(raw)
      case None => None
      case Some(row) =>
        if !row.JObj? || |row.members| != 1 || !row.members[0].value.JObj? then None
        else
          match Text.ParseInt(row.members[0].key)
          case None => None
          case Some(appid) => Some((appid, row.members[0].value.members))
  }

  /**
   * What one line of the input contributes: nothing for a skipped row;
   * otherwise `str(appid)` and the record `build_game` gives, nothing when it
   * gives none, and its error, which aborts the conversion.
   */
  function RowGame(line: string, decode: string -> Option<Json>, strptime: Strptime): (r: Result<Option<(string, Game)>>)
    ensures Text.Strip(line) == "" ==> r == Ok(None)
    ensures AcceptedRow(line, decode).None? ==> r == Ok(None)
    ensures AcceptedRow(line, decode).Some? ==>
      var (appid, payload) := AcceptedRow(line, decode).value;
      var built := BuildGame(appid, PartOf(payload, "from_store"), PartOf(payload, "from_spy"), strptime);
      && (r.Err? <==> built.Err?)
      && (built.Err? ==> r == Err(built.msg))
      && (built == Ok(None) ==> r == Ok(None))
      && (built.Ok? && built.value.Some? ==> r == Ok(Some((Text.IntToString(appid), built.value.value))))
    ensures r.Ok? && r.value.Some? ==> r.value.value.0 == Text.IntToString(r.value.value.1.appId)
  {
    match AcceptedRow(line, decode)
    case None => Ok(None)
    case Some((appid, payload)) =>
      match BuildGame(appid, PartOf(payload, "from_store"), PartOf(payload, "from_spy"), strptime)
      case Err(e) => Err(e)
      case Ok(None) => Ok(None)
      case Ok(Some(g)) => Ok(Some((Text.IntToString(appid), g)))
  }

  /** The `games` dict: its keys in insertion order and its entries. */
  datatype Table = Table(order: seq<string>, games: map<string, Game>)

  /** The table's order lists each key of `games` once. */
  ghost predicate WellFormed(t: Table) {
    Seqs.NoDup(t.order) && (forall k :: k in t.games <==> k in t.order) && |t.games| == |t.order|
  }

  /** `games[key] = game`: a new key goes last, an existing one keeps its place. */
  function Put(t: Table, key: string, g: Game): (r: Table)
    ensures WellFormed(t) ==> WellFormed(r)
    ensures r.games == t.games[key := g]
  {
    if key in t.games then
      assert t.games[key := g].Keys == t.games.Keys;
      Table(t.order, t.games[key := g])
    else
      Table(t.order + [key], t.games[key := g])
  }

  /** What one input line contributes (see `RowGame`). */
  type Row = Result<Option<(string, Game)>>

  /** The key a row contributes, if any. */
  function KeyOf(row: Row): Option<string> {
    match row
    case Ok(Some(kg)) => Some(kg.0)
    case _ => None
  }

  /**
   * The table after the given rows, or the error that aborted the
   * conversion: each accepted row is put under its key.
   */
  function Collect(rows: seq<Row>): (r: Result<Table>)
    ensures r.Ok? ==> WellFormed(r.value)
  {
    if rows == [] then Ok(Table([], map[]))
    else
      match Collect(rows[..|rows| - 1])
      case Err(e) => Err(e)
      case Ok(t) =>
        match rows[|rows| - 1]
        case Err(e) => Err(e)
        case Ok(None) => Ok(t)
        case Ok(Some(kg)) => Ok(Put(t, kg.0, kg.1))
  }

  /** The rows of the input's lines. */
  function RowResults(lines: seq<string>, decode: string -> Option<Json>, strptime: Strptime): (r: seq<Row>)
    ensures |r| == |lines| && forall i :: 0 <= i < |lines| ==> r[i] == RowGame(lines[i], decode, strptime)
  {
    seq(|lines|, i requires 0 <= i < |lines| => RowGame(lines[i], decode, strptime))
  }

  /** One more row: its contribution applied to the table so far. */
  lemma CollectStep(rows: seq<Row>, i: nat)
    requires i < |rows|
    ensures Collect(rows[..i + 1]) ==
      match Collect(rows[..i])
      case Err(e) => Err(e)
      case Ok(t) =>
        match rows[i]
        case Err(e) => Err(e)
        case Ok(None) => Ok(t)
        case Ok(Some(kg)) => Ok(Put(t, kg.0, kg.1))
  {
    assert rows[..i + 1][..i] == rows[..i];
  }

  /** An error aborts the conversion: the rows after it change nothing. */
  lemma {:induction false} CollectAborts(rows: seq<Row>, n: nat)
    requires n <= |rows| && Collect(rows[..n]).Err?
    ensures Collect(rows) == Collect(rows[..n])
    decreases |rows|
  {
    if n < |rows| {
      var p := rows[..|rows| - 1];
      assert p[..n] == rows[..n];
      CollectAborts(p, n);
    } else {
      assert rows[..n] == rows;
    }
  }

  /**
   * The row loop of `convert` over the input's lines: the table it builds,
   * whose size is the count the script returns.
   */
  method Convert(lines: seq<string>, decode: string -> Option<Json>, strptime: Strptime) returns (r: Result<Table>)
    ensures r == Collect(RowResults(lines, decode, strptime))
    ensures r.Ok? ==> WellFormed(r.value)
  {
    var order: seq<string> := [];
    var games: map<string, Game> := map[];
    ghost var rows := RowResults(lines, decode, strptime);
    for i := 0 to |lines|
      invariant Collect(rows[..i]) == Ok(Table(order, games))
    {
      CollectStep(rows, i);
      var raw := Text.Strip(lines[i]);
      if raw == "" {
        continue;
      }
      var row := decode(raw);
      if row.None? {
        continue;
      }
      if !row.value.JObj? || |row.value.members| != 1 {
        continue;
      }
      var appidRaw := row.value.members[0].key;
      var payload := row.value.members[0].value;
      if !payload.JObj? {
        continue;
      }
      var appid := Text.ParseInt(appidRaw);
      if appid.None? {
        continue;
      }
      var fromStore := PartOf(payload.members, "from_store");
      var fromSpy := PartOf(payload.members, "from_spy");
      var game := BuildGame(appid.value, fromStore, fromSpy, strptime);
      if game.Err? {
        CollectAborts(rows, i + 1);
        return Err(game.msg);
      }
      if game.value.Some? {
        var t := Put(Table(order, games), Text.IntToString(appid.value), game.value.value);
        order, games := t.order, t.games;
      }
    }
    assert rows[..|rows|] == rows;
    return Ok(Table(order, games));
  }

  /** The keys of the table are exactly the keys of the accepted rows. */
  lemma CollectKeys(rows: seq<Row>)
    requires Collect(rows).Ok?
    ensures forall k :: k in Collect(rows).value.games <==> exists i :: 0 <= i < |rows| && KeyOf(rows[i]) == Some(k)
  {
    CollectOrder(rows);
    Seqs.DedupMembers(Seqs.FilterMap(rows, KeyOf));
    Seqs.FilterMapMembers(rows, KeyOf);
  }

  /**
   * The dict's iteration order: each key of an accepted row once, at the
   * place of its first row (a later row with that key does not move it).
   */
  lemma {:induction false} CollectOrder(rows: seq<Row>)
    requires Collect(rows).Ok?
    ensures Collect(rows).value.order == Seqs.Dedup(Seqs.FilterMap(rows, KeyOf))
  {
    if rows != [] {
      var p, z := rows[..|rows| - 1], rows[|rows| - 1];
      CollectOrder(p);
      var t := Collect(p).value;
      match z
      case Ok(Some(kg)) =>
        assert Seqs.FilterMap(rows, KeyOf) == Seqs.FilterMap(p, KeyOf) + [kg.0];
        Seqs.DedupSnoc(Seqs.FilterMap(p, KeyOf), kg.0);
        assert kg.0 in t.games <==> kg.0 in t.order;
      case Ok(None) =>
      case Err(_) =>
    }
  }

  /**
   * A later row with the same appid overwrites an earlier one: each key
   * holds the game of the last accepted row with that key.
   */
  lemma {:induction false} CollectLastRowWins(rows: seq<Row>, i: nat)
    requires Collect(rows).Ok?
    requires i < |rows| && rows[i].Ok? && rows[i].value.Some?
    requires forall j :: i < j < |rows| ==> KeyOf(rows[j]) != KeyOf(rows[i])
    ensures rows[i].value.value.0 in Collect(rows).value.games
    ensures Collect(rows).value.games[rows[i].value.value.0] == rows[i].value.value.1
  {
    var p := rows[..|rows| - 1];
    CollectStep(rows, |rows| - 1);
    assert rows[..|rows|] == rows;
    if i < |rows| - 1 {
      assert forall j :: 0 <= j < |p| ==> p[j] == rows[j];
      CollectLastRowWins(p, i);
    }
  }
}
