/**
 * The store-only fetcher (scripts/fetch_store_raw.py): removing fields at
 * dotted key paths from the store payload, and turning the store's answer
 * for one appid into the record the script writes.
 */
module FetchStoreRaw {
  import opened Wrappers
  import opened Json
  import Text
  import Seqs
  import opened DateParsing
  import FetchCommon

  /** The dotted paths, relative to the per-appid payload, that are removed. */
  const FIELD_BLACKLIST: set<string> := {
    "data.detailed_description",
    "data.about_the_game",
    "data.short_description",
    "data.extended_description",
    "data.legal_notice"
  }

  /** A non-empty dotted path that the blacklist names. */
  predicate Blocked(path: seq<string>, blacklist: set<string>) {
    var current := Text.Join(path, ".");
    current != "" && current in blacklist
  }

  /**
   * `drop_blacklisted_fields(value, blacklist, path_parts)` as a value:
   * None for a blocked path and for null; object members are visited with
   * their key appended to the path, list items with the list's own path, and
   * the ones that come back None are left out.
   */
  function Dropped(v: Json, blacklist: set<string>, path: seq<string>): (r: Option<Json>)
    ensures Blocked(path, blacklist) ==> r.None?
    ensures !Blocked(path, blacklist) ==> (r.None? <==> v.JNull?)
    ensures !Blocked(path, blacklist) && (v.JBool? || v.JInt? || v.JStr?) ==> r == Some(v)
    ensures r.Some? && v.JObj? ==> r.value.JObj? && |r.value.members| <= |v.members|
    ensures r.Some? && v.JArr? ==> r.value.JArr? && |r.value.items| <= |v.items|
  {
    if Blocked(path, blacklist) then None
    else
      match v
      case JNull => None
      case JObj(ms) => Some(JObj(DroppedMembers(ms, blacklist, path)))
      case JArr(xs) => Some(JArr(DroppedItems(xs, blacklist, path)))
      case _ => Some(v)
  }

  /** The surviving members of an object found at `path`. */
  function DroppedMembers(ms: seq<Member>, blacklist: set<string>, path: seq<string>): (r: seq<Member>)
    ensures |r| <= |ms|
  {
    if ms == [] then []
    else
      var rest := DroppedMembers(ms[..|ms| - 1], blacklist, path);
      match DropMember(ms[|ms| - 1], blacklist, path)
      case Some(m) => rest + [m]
      case None => rest
  }

  /** A member of an object at `path`: its value dropped at `path + [key]`. */
  function DropMember(m: Member, blacklist: set<string>, path: seq<string>): (r: Option<Member>)
    ensures r.Some? ==> r.value.key == m.key
  {
    match Dropped(m.value, blacklist, path + [m.key])
    case Some(w) => Some(Member(m.key, w))
    case None => None
  }

  /** The surviving items of a list found at `path`. */
  function DroppedItems(xs: seq<Json>, blacklist: set<string>, path: seq<string>): (r: seq<Json>)
    ensures |r| <= |xs|
  {
    if xs == [] then []
    else
      var rest := DroppedItems(xs[..|xs| - 1], blacklist, path);
      match Dropped(xs[|xs| - 1], blacklist, path)
      case Some(w) => rest + [w]
      case None => rest
  }

  /** `drop_blacklisted_fields`, recursing into every member and item. */
  method DropBlacklistedFields(v: Json, blacklist: set<string>, path: seq<string>) returns (r: Option<Json>)
    ensures r == Dropped(v, blacklist, path)
    decreases v
  {
    var current := Text.Join(path, ".");
    if current != "" && current in blacklist {
      return None;
    }
    match v {
      case JObj(ms) =>
        var out: seq<Member> := [];
        for i := 0 to |ms|
          invariant out == DroppedMembers(ms[..i], blacklist, path)
        {
          assert ms[..i + 1][..i] == ms[..i];
          assert ms[i] in ms;
          var child := DropBlacklistedFields(ms[i].value, blacklist, path + [ms[i].key]);
          if child.Some? {
            out := out + [Member(ms[i].key, child.value)];
          }
        }
        assert ms[..|ms|] == ms;
        return Some(JObj(out));
      case JArr(xs) =>
        var outList: seq<Json> := [];
        for i := 0 to |xs|
          invariant outList == DroppedItems(xs[..i], blacklist, path)
        {
          assert xs[..i + 1][..i] == xs[..i];
          var child := DropBlacklistedFields(xs[i], blacklist, path);
          if child.Some? {
            outList := outList + [child.value];
          }
        }
        assert xs[..|xs|] == xs;
        return Some(JArr(outList));
      case JNull =>
        return None;
      case _ =>
        return Some(v);
    }
  }

  /** The top-level call (empty path) never removes anything but a null. */
  lemma RootKept(v: Json, blacklist: set<string>)
    ensures Dropped(v, blacklist, []).None? <==> v.JNull?
  {
    assert Text.Join([], ".") == "";
  }

  /**
   * A value found at `path` from which nothing more would be removed: no
   * blocked path and no null at any depth.
   */
  predicate Clean(v: Json, blacklist: set<string>, path: seq<string>) {
    !Blocked(path, blacklist) &&
    match v
    case JNull => false
    case JArr(xs) => forall i :: 0 <= i < |xs| ==> Clean(xs[i], blacklist, path)
    case JObj(ms) => forall i :: 0 <= i < |ms| ==> Clean(ms[i].value, blacklist, path + [ms[i].key])
    case _ => true
  }

  /** Whatever survives is clean: no blacklisted path is left in it. */
  lemma {:induction false} DroppedIsClean(v: Json, blacklist: set<string>, path: seq<string>)
    ensures Dropped(v, blacklist, path).Some? ==> Clean(Dropped(v, blacklist, path).value, blacklist, path)
    decreases v, 1
  {
    if !Blocked(path, blacklist) {
      match v
      case JArr(xs) => DroppedItemsClean(xs, blacklist, path);
      case JObj(ms) => DroppedMembersClean(ms, blacklist, path);
      case _ =>
    }
  }

  lemma {:induction false} DroppedItemsClean(xs: seq<Json>, blacklist: set<string>, path: seq<string>)
    ensures forall i :: 0 <= i < |DroppedItems(xs, blacklist, path)| ==>
      Clean(DroppedItems(xs, blacklist, path)[i], blacklist, path)
    decreases xs, 0
  {
    if xs != [] {
      DroppedItemsClean(xs[..|xs| - 1], blacklist, path);
      DroppedIsClean(xs[|xs| - 1], blacklist, path);
    }
  }

  lemma {:induction false} DroppedMembersClean(ms: seq<Member>, blacklist: set<string>, path: seq<string>)
    ensures forall i :: 0 <= i < |DroppedMembers(ms, blacklist, path)| ==>
      var m := DroppedMembers(ms, blacklist, path)[i];
      Clean(m.value, blacklist, path + [m.key])
    decreases ms, 0
  {
    if ms != [] {
      DroppedMembersClean(ms[..|ms| - 1], blacklist, path);
      var z := ms[|ms| - 1];
      assert z in ms;
      DroppedIsClean(z.value, blacklist, path + [z.key]);
    }
  }

  /** A clean value comes back unchanged. */
  lemma {:induction false} CleanKept(v: Json, blacklist: set<string>, path: seq<string>)
    requires Clean(v, blacklist, path)
    ensures Dropped(v, blacklist, path) == Some(v)
    decreases v, 1
  {
    match v
    case JArr(xs) => CleanKeptItems(xs, blacklist, path);
    case JObj(ms) => CleanKeptMembers(ms, blacklist, path);
    case _ =>
  }

  lemma {:induction false} CleanKeptItems(xs: seq<Json>, blacklist: set<string>, path: seq<string>)
    requires forall i :: 0 <= i < |xs| ==> Clean(xs[i], blacklist, path)
    ensures DroppedItems(xs, blacklist, path) == xs
    decreases xs, 0
  {
    if xs != [] {
      var p := xs[..|xs| - 1];
      CleanKeptItems(p, blacklist, path);
      CleanKept(xs[|xs| - 1], blacklist, path);
      assert xs == p + [xs[|xs| - 1]];
    }
  }

  lemma {:induction false} CleanKeptMembers(ms: seq<Member>, blacklist: set<string>, path: seq<string>)
    requires forall i :: 0 <= i < |ms| ==> Clean(ms[i].value, blacklist, path + [ms[i].key])
    ensures DroppedMembers(ms, blacklist, path) == ms
    decreases ms, 0
  {
    if ms != [] {
      var p := ms[..|ms| - 1];
      CleanKeptMembers(p, blacklist, path);
      var z := ms[|ms| - 1];
      assert z in ms;
      CleanKept(z.value, blacklist, path + [z.key]);
      assert ms == p + [z];
    }
  }

  /** Dropping twice is dropping once. */
  lemma DropIdempotent(v: Json, blacklist: set<string>, path: seq<string>)
    ensures Dropped(v, blacklist, path).Some? ==>
      Dropped(Dropped(v, blacklist, path).value, blacklist, path) == Dropped(v, blacklist, path)
  {
    if Dropped(v, blacklist, path).Some? {
      DroppedIsClean(v, blacklist, path);
      CleanKept(Dropped(v, blacklist, path).value, blacklist, path);
    }
  }

  /**
   * A member survives exactly when its value, dropped at the path extended
   * by its key, is not None; it keeps its key.
   */
  lemma {:induction false} DroppedMembersKept(ms: seq<Member>, blacklist: set<string>, path: seq<string>)
    ensures forall m :: m in DroppedMembers(ms, blacklist, path) <==>
      exists i :: 0 <= i < |ms| && ms[i].key == m.key && Dropped(ms[i].value, blacklist, path + [ms[i].key]) == Some(m.value)
  {
    var f := (m: Member) => DropMember(m, blacklist, path);
    assert DroppedMembers(ms, blacklist, path) == Seqs.FilterMap(ms, f) by {
      DroppedMembersFilterMap(ms, blacklist, path);
    }
    Seqs.FilterMapMembers(ms, f);
  }

  lemma {:induction false} DroppedMembersFilterMap(ms: seq<Member>, blacklist: set<string>, path: seq<string>)
    ensures DroppedMembers(ms, blacklist, path) == Seqs.FilterMap(ms, (m: Member) => DropMember(m, blacklist, path))
  {
    if ms != [] {
      DroppedMembersFilterMap(ms[..|ms| - 1], blacklist, path);
    }
  }

  /**
   * List items all see the list's own path (no index is added): the
   * surviving items are the items dropped at that path, in order.
   */
  lemma {:induction false} DroppedItemsFilterMap(xs: seq<Json>, blacklist: set<string>, path: seq<string>)
    ensures DroppedItems(xs, blacklist, path) == Seqs.FilterMap(xs, (x: Json) => Dropped(x, blacklist, path))
  {
    if xs != [] {
      DroppedItemsFilterMap(xs[..|xs| - 1], blacklist, path);
    }
  }

  /** The dotted path of a key directly under `data`. */
  lemma DataPath(key: string)
    ensures Text.Join(["data", key], ".") == "data." + key
  {
    assert ["data", key][1..] == [key];
  }

  /** The fields the shipped blacklist names. */
  const DESCRIPTION_FIELDS: set<string> := {
    "detailed_description", "about_the_game", "short_description", "extended_description", "legal_notice"
  }

  /** Each description field, under `data`, is a blacklisted path. */
  lemma DescriptionPathsBlacklisted(k: string)
    ensures k in DESCRIPTION_FIELDS ==> "data." + k in FIELD_BLACKLIST
  {
    if k == "detailed_description" {
      DetailedDescriptionBlacklisted();
    } else if k == "about_the_game" {
      AboutTheGameBlacklisted();
    } else if k == "short_description" {
      ShortDescriptionBlacklisted();
    } else if k == "extended_description" {
      ExtendedDescriptionBlacklisted();
    } else if k == "legal_notice" {
      LegalNoticeBlacklisted();
    }
  }

  // One lemma per literal path: each concatenation is checked on its own,
  // which keeps every proof small.

  lemma DetailedDescriptionBlacklisted()
    ensures "data." + "detailed_description" in FIELD_BLACKLIST
  {
    assert "data." + "detailed_description" == "data.detailed_description";
  }

  lemma AboutTheGameBlacklisted()
    ensures "data." + "about_the_game" in FIELD_BLACKLIST
  {
    assert "data." + "about_the_game" == "data.about_the_game";
  }

  lemma ShortDescriptionBlacklisted()
    ensures "data." + "short_description" in FIELD_BLACKLIST
  {
    assert "data." + "short_description" == "data.short_description";
  }

  lemma ExtendedDescriptionBlacklisted()
    ensures "data." + "extended_description" in FIELD_BLACKLIST
  {
    assert "data." + "extended_description" == "data.extended_description";
  }

  lemma LegalNoticeBlacklisted()
    ensures "data." + "legal_notice" in FIELD_BLACKLIST
  {
    assert "data." + "legal_notice" == "data.legal_notice";
  }

  /**
   * With the shipped blacklist, no `data` object left in a dropped payload
   * holds any of the five description fields.
   */
  lemma ShippedBlacklistRemovesDescriptions(payload: Json)
    requires Dropped(payload, FIELD_BLACKLIST, []).Some?
    ensures var out := Dropped(payload, FIELD_BLACKLIST, []).value;
      out.JObj? ==> forall i, j ::
        (0 <= i < |out.members| && out.members[i].key == "data" && out.members[i].value.JObj? &&
         0 <= j < |out.members[i].value.members|) ==> out.members[i].value.members[j].key !in DESCRIPTION_FIELDS
  {
    var out := Dropped(payload, FIELD_BLACKLIST, []).value;
    DroppedIsClean(payload, FIELD_BLACKLIST, []);
    if out.JObj? {
      forall i, j | 0 <= i < |out.members| && out.members[i].key == "data" && out.members[i].value.JObj? &&
        0 <= j < |out.members[i].value.members|
        ensures out.members[i].value.members[j].key !in DESCRIPTION_FIELDS
      {
        var data := out.members[i].value;
        assert [] + ["data"] == ["data"];
        assert Clean(data, FIELD_BLACKLIST, ["data"]);
        var k := data.members[j].key;
        assert !Blocked(["data"] + [k], FIELD_BLACKLIST);
        assert ["data"] + [k] == ["data", k];
        DataPath(k);
        DescriptionPathsBlacklisted(k);
      }
    }
  }

  /** The record `build_store_record` writes under `str(appid)`. */
  datatype StoreRecord = StoreRecord(key: string, appId: int, name: string, releaseDate: string, payload: Json)

  /**
   * `store_all.get(str(appid), {})`, where a non-object answer counts as
   * `{}` (`fetch_store_meta`).
   */
  function StoreEntry(appid: int, storeAll: Json): (r: Json)
    ensures !storeAll.JObj? ==> r == JObj([])
    ensures storeAll.JObj? && Get(storeAll.members, Text.IntToString(appid)).None? ==> r == JObj([])
    ensures storeAll.JObj? && Get(storeAll.members, Text.IntToString(appid)).Some? ==>
      Member(Text.IntToString(appid), r) in storeAll.members
  {
    if !storeAll.JObj? then JObj([])
    else
      match Get(storeAll.members, Text.IntToString(appid))
      case Some(x) => x
      case None => JObj([])
  }

  /** `str(d.get(key) or "")`. */
  function StrOrEmpty(d: Json, key: string): (r: string)
    ensures !Truthy(Field(d, key)) ==> r == ""
    ensures Field(d, key).JStr? ==> r == Field(d, key).s
  {
    PyStr(Or(Field(d, key), JStr("")))
  }

  /**
   * The raw release text of a `data` object: `release_date.date` when
   * `release_date` is an object, else `str(release_date)`, "" when absent.
   */
  function ReleaseText(data: Json): (r: string)
    ensures !data.JObj? || Field(data, "release_date").JNull? ==> r == ""
    ensures Field(data, "release_date").JObj? ==> r == StrOrEmpty(Field(data, "release_date"), "date")
    ensures Field(data, "release_date").JStr? ==> r == Field(data, "release_date").s
    ensures data.JObj? && !Field(data, "release_date").JObj? && !Field(data, "release_date").JNull? ==>
      r == PyStr(Field(data, "release_date"))
  {
    if !data.JObj? then ""
    else
      var release := Field(data, "release_date");
      if release.JObj? then StrOrEmpty(release, "date")
      else if !release.JNull? then PyStr(release)
      else ""
  }

  /**
   * `build_store_record`: nothing unless the appid's entry is an object
   * with a truthy `success`; otherwise the entry with the blacklisted
   * fields dropped, its name and its normalised release date.
   */
  function BuildStoreRecord(appid: int, storeAll: Json, strptime: Strptime, fromTimestamp: int -> string): (r: Option<StoreRecord>)
    ensures r.Some? <==> StoreEntry(appid, storeAll).JObj? && Truthy(Field(StoreEntry(appid, storeAll), "success"))
    ensures r.Some? ==> r.value.key == Text.IntToString(appid) && r.value.appId == appid
    ensures r.Some? ==> Some(r.value.payload) == Dropped(StoreEntry(appid, storeAll), FIELD_BLACKLIST, [])
    ensures r.Some? ==> r.value.payload.JObj?
    ensures r.Some? ==> var data := Field(r.value.payload, "data");
      r.value.name == (if data.JObj? then StrOrEmpty(data, "name") else "") &&
      r.value.releaseDate == FetchCommon.NormalizeDate(JStr(ReleaseText(data)), strptime, fromTimestamp)
  {
    var storeOne := StoreEntry(appid, storeAll);
    if !storeOne.JObj? || !Truthy(Field(storeOne, "success")) then None
    else
      RootKept(storeOne, FIELD_BLACKLIST);
      var payload := Dropped(storeOne, FIELD_BLACKLIST, []).value;
      var data := if payload.JObj? then (match Get(payload.members, "data") case Some(d) => d case None => JObj([])) else JObj([]);
      var name := if data.JObj? then StrOrEmpty(data, "name") else "";
      Some(StoreRecord(Text.IntToString(appid), appid, name,
        FetchCommon.NormalizeDate(JStr(ReleaseText(data)), strptime, fromTimestamp), payload))
  }
}
