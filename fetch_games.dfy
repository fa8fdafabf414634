/**
 * The per-app fetcher (scripts/fetch_games.py): which rate limiter a URL is
 * throttled by, how the store payload is cut down before it is written, the
 * top-n cap on the appid list and the resume filter.
 */
module FetchGames {
  import opened Wrappers
  import opened Json
  import Text
  import Seqs
  import FetchCommon

  const MAX_STORE_STRING_LENGTH := 600
  const MAX_STORE_LIST_LENGTH := 200

  const STEAMSPY_HOST := "steamspy.com"
  const STORE_HOST := "store.steampowered.com"

  /** One `name=value` pair of a URL's query string, already decoded. */
  datatype QueryParam = QueryParam(name: string, value: string)

  /**
   * `parse_qs(query).get("request", [""])[0]`: the first non-blank value
   * given for `request` (`parse_qs` drops blank values), or "".
   */
  function RequestParam(query: seq<QueryParam>): (r: string)
    ensures r != "" ==> QueryParam("request", r) in query
    ensures r != "" ==> exists i :: 0 <= i < |query| && query[i] == QueryParam("request", r) &&
                         forall j :: 0 <= j < i && query[j].name == "request" ==> query[j].value == ""
    ensures r == "" ==> forall i :: 0 <= i < |query| && query[i].name == "request" ==> query[i].value == ""
  {
    if query == [] then ""
    else if query[0].name == "request" && query[0].value != "" then query[0].value
    else
      var r := RequestParam(query[1..]);
      assert forall i :: 1 <= i < |query| ==> query[1..][i - 1] == query[i];
      r
  }

  /**
   * `choose_limiter(url)` as the tag it reports, on the URL's network
   * location and query: a SteamSpy host wins over a store host, and the
   * SteamSpy "all" endpoint has a limiter of its own.
   */
  function ChooseLimiter(netloc: string, query: seq<QueryParam>): (tag: string)
    ensures tag in {"steamspy:all", "steamspy:normal", "store", "default"}
    ensures tag == "steamspy:all" <==>
      Text.Contains(Text.Lower(netloc), STEAMSPY_HOST) && Text.Lower(RequestParam(query)) == "all"
    ensures tag == "steamspy:normal" <==>
      Text.Contains(Text.Lower(netloc), STEAMSPY_HOST) && Text.Lower(RequestParam(query)) != "all"
    ensures tag == "store" <==>
      !Text.Contains(Text.Lower(netloc), STEAMSPY_HOST) && Text.Contains(Text.Lower(netloc), STORE_HOST)
    ensures tag == "default" <==>
      !Text.Contains(Text.Lower(netloc), STEAMSPY_HOST) && !Text.Contains(Text.Lower(netloc), STORE_HOST)
  {
    var host := Text.Lower(netloc);
    if Text.Contains(host, STEAMSPY_HOST) then
      if Text.Lower(RequestParam(query)) == "all" then "steamspy:all" else "steamspy:normal"
    else if Text.Contains(host, STORE_HOST) then "store"
    else "default"
  }

  /** The host is compared case-insensitively: lower-casing it first changes nothing. */
  lemma ChooseLimiterIgnoresHostCase(netloc: string, query: seq<QueryParam>)
    ensures ChooseLimiter(Text.Lower(netloc), query) == ChooseLimiter(netloc, query)
  {
    Text.LowerIdempotent(netloc);
  }

  /**
   * `prune_store_payload` as a value: None where the Python function
   * returns None (a null, a string over 600 characters, a list over 200
   * items); otherwise the value with every such part removed from the
   * objects and lists around it.
   */
  function Pruned(v: Json): (r: Option<Json>)
    ensures v.JNull? ==> r.None?
    ensures v.JBool? || v.JInt? ==> r == Some(v)
    ensures v.JStr? ==> r == if |v.s| > MAX_STORE_STRING_LENGTH then None else Some(v)
    ensures v.JArr? ==> (r.None? <==> |v.items| > MAX_STORE_LIST_LENGTH)
    ensures v.JArr? && r.Some? ==> r.value.JArr? && |r.value.items| <= |v.items|
    ensures v.JObj? ==> r.Some? && r.value.JObj? && |r.value.members| <= |v.members|
  {
    match v
    case JNull => None
    case JBool(_) => Some(v)
    case JInt(_) => Some(v)
    case JStr(s) => if |s| > MAX_STORE_STRING_LENGTH then None else Some(v)
    case JArr(xs) => if |xs| > MAX_STORE_LIST_LENGTH then None else Some(JArr(PrunedItems(xs)))
    case JObj(ms) => Some(JObj(PrunedMembers(ms)))
  }

  /** The pruned items of a short list, the removed ones left out. */
  function PrunedItems(xs: seq<Json>): (r: seq<Json>)
    ensures |r| <= |xs|
  {
    if xs == [] then []
    else
      var rest := PrunedItems(xs[..|xs| - 1]);
      match Pruned(xs[|xs| - 1])
      case Some(w) => rest + [w]
      case None => rest
  }

  /** The pruned members of an object, the removed ones left out. */
  function PrunedMembers(ms: seq<Member>): (r: seq<Member>)
    ensures |r| <= |ms|
  {
    if ms == [] then []
    else
      var rest := PrunedMembers(ms[..|ms| - 1]);
      match PruneMember(ms[|ms| - 1])
      case Some(m) => rest + [m]
      case None => rest
  }

  /** A member under its own key with its pruned value, unless that is None. */
  function PruneMember(m: Member): (r: Option<Member>)
    ensures r.Some? ==> r.value.key == m.key
  {
    match Pruned(m.value)
    case Some(w) => Some(Member(m.key, w))
    case None => None
  }

  /** `prune_store_payload`, recursing into every member and item. */
  method PruneStorePayload(v: Json) returns (r: Option<Json>)
    ensures r == Pruned(v)
    decreases v
  {
    match v {
      case JObj(ms) =>
        var pruned: seq<Member> := [];
        for i := 0 to |ms|
          invariant pruned == PrunedMembers(ms[..i])
        {
          assert ms[..i + 1][..i] == ms[..i];
          assert ms[i] in ms;
          var cleaned := PruneStorePayload(ms[i].value);
          if cleaned.Some? {
            pruned := pruned + [Member(ms[i].key, cleaned.value)];
          }
        }
        assert ms[..|ms|] == ms;
        return Some(JObj(pruned));
      case JArr(xs) =>
        if |xs| > MAX_STORE_LIST_LENGTH {
          return None;
        }
        var out: seq<Json> := [];
        for i := 0 to |xs|
          invariant out == PrunedItems(xs[..i])
        {
          assert xs[..i + 1][..i] == xs[..i];
          var cleaned := PruneStorePayload(xs[i]);
          if cleaned.Some? {
            out := out + [cleaned.value];
          }
        }
        assert xs[..|xs|] == xs;
        return Some(JArr(out));
      case JStr(s) =>
        if |s| > MAX_STORE_STRING_LENGTH {
          return None;
        }
        return Some(v);
      case JNull =>
        return None;
      case _ =>
        return Some(v);
    }
  }

  /**
   * What a pruned payload looks like at every depth: no null, no string
   * over 600 characters, no list over 200 items.
   */
  predicate Bounded(v: Json) {
    match v
    case JNull => false
    case JStr(s) => |s| <= MAX_STORE_STRING_LENGTH
    case JArr(xs) => |xs| <= MAX_STORE_LIST_LENGTH && forall i :: 0 <= i < |xs| ==> Bounded(xs[i])
    case JObj(ms) => forall i :: 0 <= i < |ms| ==> Bounded(ms[i].value)
    case _ => true
  }

  /** Whatever survives pruning is bounded. */
  lemma {:induction false} PrunedIsBounded(v: Json)
    ensures Pruned(v).Some? ==> Bounded(Pruned(v).value)
    decreases v, 1
  {
    match v
    case JArr(xs) => PrunedItemsBounded(xs);
    case JObj(ms) => PrunedMembersBounded(ms);
    case _ =>
  }

  lemma {:induction false} PrunedItemsBounded(xs: seq<Json>)
    ensures forall i :: 0 <= i < |PrunedItems(xs)| ==> Bounded(PrunedItems(xs)[i])
    decreases xs, 0
  {
    if xs != [] {
      var p := xs[..|xs| - 1];
      PrunedItemsBounded(p);
      PrunedIsBounded(xs[|xs| - 1]);
    }
  }

  lemma {:induction false} PrunedMembersBounded(ms: seq<Member>)
    ensures forall i :: 0 <= i < |PrunedMembers(ms)| ==> Bounded(PrunedMembers(ms)[i].value)
    decreases ms, 0
  {
    if ms != [] {
      var p := ms[..|ms| - 1];
      PrunedMembersBounded(p);
      assert ms[|ms| - 1] in ms;
      PrunedIsBounded(ms[|ms| - 1].value);
    }
  }

  /** A payload that is already bounded comes back unchanged. */
  lemma {:induction false} PruneKeepsBounded(v: Json)
    requires Bounded(v)
    ensures Pruned(v) == Some(v)
    decreases v, 1
  {
    match v
    case JArr(xs) => PruneKeepsBoundedItems(xs);
    case JObj(ms) => PruneKeepsBoundedMembers(ms);
    case _ =>
  }

  lemma {:induction false} PruneKeepsBoundedItems(xs: seq<Json>)
    requires forall i :: 0 <= i < |xs| ==> Bounded(xs[i])
    ensures PrunedItems(xs) == xs
    decreases xs, 0
  {
    if xs != [] {
      var p := xs[..|xs| - 1];
      PruneKeepsBoundedItems(p);
      PruneKeepsBounded(xs[|xs| - 1]);
      assert xs == p + [xs[|xs| - 1]];
    }
  }

  lemma {:induction false} PruneKeepsBoundedMembers(ms: seq<Member>)
    requires forall i :: 0 <= i < |ms| ==> Bounded(ms[i].value)
    ensures PrunedMembers(ms) == ms
    decreases ms, 0
  {
    if ms != [] {
      var p := ms[..|ms| - 1];
      PruneKeepsBoundedMembers(p);
      assert ms[|ms| - 1] in ms;
      PruneKeepsBounded(ms[|ms| - 1].value);
      assert ms == p + [ms[|ms| - 1]];
    }
  }

  /** Pruning twice is pruning once. */
  lemma PruneIdempotent(v: Json)
    ensures Pruned(v).Some? ==> Pruned(Pruned(v).value) == Pruned(v)
  {
    if Pruned(v).Some? {
      PrunedIsBounded(v);
      PruneKeepsBounded(Pruned(v).value);
    }
  }

  /**
   * A short list loses exactly its items that prune to None; the others
   * are pruned in place and keep their relative order.
   */
  lemma {:induction false} PrunedItemsAreFilterMap(xs: seq<Json>)
    ensures PrunedItems(xs) == Seqs.FilterMap(xs, Pruned)
  {
    if xs != [] {
      PrunedItemsAreFilterMap(xs[..|xs| - 1]);
    }
  }

  /** The members of a pruned object are the ones pruning keeps, in order. */
  lemma {:induction false} PrunedMembersAreFilterMap(ms: seq<Member>)
    ensures PrunedMembers(ms) == Seqs.FilterMap(ms, PruneMember)
  {
    if ms != [] {
      PrunedMembersAreFilterMap(ms[..|ms| - 1]);
    }
  }

  /**
   * A key survives exactly when its pruned value is not None, and then
   * under the same key with the pruned value.
   */
  lemma PrunedMembersKept(ms: seq<Member>)
    ensures forall m :: m in PrunedMembers(ms) <==>
      exists i :: 0 <= i < |ms| && ms[i].key == m.key && Pruned(ms[i].value) == Some(m.value)
  {
    PrunedMembersAreFilterMap(ms);
    Seqs.FilterMapMembers(ms, PruneMember);
  }

  /** The surviving keys keep the object's key order. */
  lemma {:induction false} PrunedMembersKeepKeyOrder(ms: seq<Member>)
    ensures Seqs.IsSubseq(Keys(PrunedMembers(ms)), Keys(ms))
  {
    if ms != [] {
      var p, z := ms[..|ms| - 1], ms[|ms| - 1];
      PrunedMembersKeepKeyOrder(p);
      var a, b := Keys(PrunedMembers(p)), Keys(p);
      assert Keys(ms) == b + [z.key];
      match PruneMember(z)
      case Some(m) =>
        assert Keys(PrunedMembers(ms)) == a + [z.key];
        assert (a + [z.key])[..|a|] == a;
        assert (b + [z.key])[..|b|] == b;
      case None =>
        Seqs.IsSubseqSnoc(a, b, z.key);
    }
  }

  /**
   * `load_local_appids(path, top_n)` on the decoded file: the list
   * `FetchCommon.LoadLocalAppids` reads, cut to its first `topN` ids when
   * `topN > 0`.
   */
  method LoadLocalAppids(data: Json, topN: int) returns (r: Result<seq<int>>)
    ensures AppidList(data).None? ==> r == Err(FetchCommon.FORMAT_ERROR)
    ensures AppidList(data).Some? ==> r.Ok?
    ensures AppidList(data).Some? ==>
              var all := Seqs.FilterMap(AppidList(data).value, PyInt);
              r.Ok? && |r.value| == (if 0 < topN < |all| then topN else |all|) && r.value == all[..|r.value|]
  {
    var loaded := FetchCommon.LoadLocalAppids(data);
    if loaded.Err? {
      return loaded;
    }
    var appids := loaded.value;
    if topN > 0 {
      appids := Seqs.Take(appids, topN);
    }
    return Ok(appids);
  }

  function NotDone(done: set<int>): int -> bool {
    x => x !in done
  }

  /**
   * The resume step of `main`: with a non-empty done set, the pending ids
   * that are not done, in their original order.
   */
  function ResumeFilter(appids: seq<int>, done: set<int>): (r: seq<int>)
    ensures forall x :: x in r <==> x in appids && x !in done
    ensures Seqs.IsSubseq(r, appids)
    ensures done == {} ==> r == appids
    ensures forall x :: multiset(r)[x] == if x in done then 0 else multiset(appids)[x]
  {
    Seqs.FilterMembers(appids, NotDone(done));
    Seqs.FilterMultiset(appids, NotDone(done));
    Seqs.FilterIsSubseq(appids, NotDone(done));
    if done == {} then
      Seqs.FilterKeepAll(appids, NotDone(done));
      appids
    else
      Seqs.Filter(appids, NotDone(done))
  }
}
