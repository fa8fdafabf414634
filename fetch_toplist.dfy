/**
 * Turning a decoded SteamSpy toplist into an appid list
 * (scripts/fetch_toplist.py): one id per entry, taken from the entry's own
 * `appid` field or else from its key, duplicates dropped, optionally cut to
 * the first `top-n`.
 */
module FetchToplist {
  import opened Wrappers
  import opened Json
  import Text
  import Seqs

  const TIMEOUT_ERROR := "timeout must be > 0"
  const TOP_N_ERROR := "top-n must be >= 0"

  /** `int(value["appid"])`, when the value is a dict holding an `appid` that `int()` accepts. */
  function AppidField(value: Json): Option<int> {
    if value.JObj? && Get(value.members, "appid").Some? then PyInt(Get(value.members, "appid").value)
    else None
  }

  /**
   * The id one toplist entry contributes: its `appid` field, falling back
   * to `int(key)` when that field is missing or `int()` rejects it; None
   * when neither converts.
   */
  function EntryId(m: Member): (r: Option<int>)
    ensures AppidField(m.value).Some? ==> r == AppidField(m.value)
    ensures AppidField(m.value).None? ==> r == Text.ParseInt(m.key)
    ensures r.None? <==> AppidField(m.value).None? && Text.ParseInt(m.key).None?
  {
    match AppidField(m.value)
    case Some(n) => Some(n)
    case None => Text.ParseInt(m.key)
  }

  /** What `normalize_appids` returns: the entry ids in dict order, each kept once. */
  function Normalized(raw: Json): seq<int> {
    if raw.JObj? then Seqs.Dedup(Seqs.FilterMap(raw.members, EntryId)) else []
  }

  /**
   * `normalize_appids`: walks the entries in order, skips those without an
   * id and appends each id the `seen` set does not hold yet.
   */
  method NormalizeAppids(raw: Json) returns (appids: seq<int>)
    ensures appids == Normalized(raw)
    ensures !raw.JObj? ==> appids == []
  {
    appids := [];
    if !raw.JObj? {
      return;
    }
    var entries := raw.members;
    var seen: set<int> := {};
    for i := 0 to |entries|
      invariant appids == Seqs.Dedup(Seqs.FilterMap(entries[..i], EntryId))
      invariant forall x :: x in seen <==> x in appids
    {
      assert entries[..i + 1] == entries[..i] + [entries[i]];
      Seqs.FilterMapAppend(entries[..i], [entries[i]], EntryId);
      var candidate := EntryId(entries[i]);
      if candidate.None? {
        continue;
      }
      Seqs.DedupSnoc(Seqs.FilterMap(entries[..i], EntryId), candidate.value);
      if candidate.value !in seen {
        seen := seen + {candidate.value};
        appids := appids + [candidate.value];
      }
    }
    assert entries[..|entries|] == entries;
  }

  /**
   * The normalised list has no duplicates, holds exactly the ids some entry
   * yields, and lists them in the order of their first entry.
   */
  lemma NormalizedIds(raw: Json)
    ensures Seqs.NoDup(Normalized(raw))
    ensures raw.JObj? ==> forall x :: x in Normalized(raw) <==>
      exists i :: 0 <= i < |raw.members| && EntryId(raw.members[i]) == Some(x)
    ensures !raw.JObj? ==> Normalized(raw) == []
  {
    if raw.JObj? {
      Seqs.DedupMembers(Seqs.FilterMap(raw.members, EntryId));
      Seqs.FilterMapMembers(raw.members, EntryId);
    }
  }

  /** Ids are listed in the order in which the entries first produce them. */
  lemma NormalizedFirstOccurrenceOrder(raw: Json)
    requires raw.JObj?
    ensures var ids := Seqs.FilterMap(raw.members, EntryId);
      forall i, j :: 0 <= i < j < |Normalized(raw)| ==>
        Normalized(raw)[i] in ids && Normalized(raw)[j] in ids &&
        Seqs.FirstIndex(ids, Normalized(raw)[i]) < Seqs.FirstIndex(ids, Normalized(raw)[j])
  {
    var ids := Seqs.FilterMap(raw.members, EntryId);
    Seqs.DedupKeepsFirstOccurrenceOrder(ids);
    assert Normalized(raw) == Seqs.Dedup(ids);
    assert forall i :: 0 <= i < |Normalized(raw)| ==> Normalized(raw)[i] in Seqs.Dedup(ids);
  }

  /**
   * The list `main` saves: the argument checks come first (`timeout`, then
   * `top-n`), then the normalised ids, cut to the first `topN` when
   * `topN > 0`.
   */
  method Toplist(raw: Json, topN: int, timeout: int) returns (r: Result<seq<int>>)
    ensures timeout <= 0 ==> r == Err(TIMEOUT_ERROR)
    ensures timeout > 0 && topN < 0 ==> r == Err(TOP_N_ERROR)
    ensures r.Ok? <==> timeout > 0 && topN >= 0
    ensures r.Ok? && topN == 0 ==> r.value == Normalized(raw)
    ensures r.Ok? && topN > 0 ==> r.value == Seqs.Take(Normalized(raw), topN)
  {
    if timeout <= 0 {
      return Err(TIMEOUT_ERROR);
    }
    if topN < 0 {
      return Err(TOP_N_ERROR);
    }
    var appids := NormalizeAppids(raw);
    if topN > 0 {
      appids := Seqs.Take(appids, topN);
    }
    return Ok(appids);
  }

  /**
   * A successful run saves a duplicate-free prefix of the normalised list
   * holding at most `topN` ids when `topN > 0`.
   */
  lemma ToplistPrefix(raw: Json, topN: nat)
    ensures var saved := if topN > 0 then Seqs.Take(Normalized(raw), topN) else Normalized(raw);
      && saved == Normalized(raw)[..|saved|]
      && (topN > 0 ==> |saved| <= topN)
      && Seqs.NoDup(saved)
  {
    NormalizedIds(raw);
  }
}
