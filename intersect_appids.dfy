/**
 * Intersecting appid lists (scripts/intersect_appids.py): every input file
 * is read as a canonical, duplicate-free list of appid strings, and the
 * result keeps the ids of the first list that every other list holds too,
 * in the first list's order.
 */
module IntersectAppids {
  import opened Wrappers
  import opened Json
  import Seqs

  const TOO_FEW_INPUTS_ERROR := "Please provide at least 2 input files"
  const INVALID_FORMAT_PREFIX := "Invalid appids JSON format: "

  /** An input file: its path as given and its decoded content. */
  datatype InputFile = InputFile(path: string, data: Json)

  /**
   * What `load_appids` returns for a file: a top level that is neither
   * `{"appids": [...]}` nor a list raises; otherwise the items `str(int())`
   * accepts, in file order, each kept once.
   */
  function Loaded(f: InputFile): (r: Result<seq<string>>)
    ensures r.Err? <==> AppidList(f.data).None?
    ensures r.Err? ==> r.msg == INVALID_FORMAT_PREFIX + f.path
  {
    match AppidList(f.data)
    case None => Err(INVALID_FORMAT_PREFIX + f.path)
    case Some(items) => Ok(Seqs.Dedup(Seqs.FilterMap(items, CanonicalId)))
  }

  /** `load_appids`: the loop over the items with its `seen` set. */
  method LoadAppids(f: InputFile) returns (r: Result<seq<string>>)
    ensures r == Loaded(f)
  {
    var source := AppidList(f.data);
    if source.None? {
      return Err(INVALID_FORMAT_PREFIX + f.path);
    }
    var items := source.value;
    var out: seq<string> := [];
    var seen: set<string> := {};
    for i := 0 to |items|
      invariant out == Seqs.Dedup(Seqs.FilterMap(items[..i], CanonicalId))
      invariant forall x :: x in seen <==> x in out
    {
      assert items[..i + 1] == items[..i] + [items[i]];
      Seqs.FilterMapAppend(items[..i], [items[i]], CanonicalId);
      var appid := CanonicalId(items[i]);
      if appid.None? {
        continue;
      }
      Seqs.DedupSnoc(Seqs.FilterMap(items[..i], CanonicalId), appid.value);
      if appid.value in seen {
        continue;
      }
      seen := seen + {appid.value};
      out := out + [appid.value];
    }
    assert items[..|items|] == items;
    return Ok(out);
  }

  /**
   * A loaded list has no duplicates and holds exactly the canonical forms
   * of the items that convert.
   */
  lemma LoadedIds(f: InputFile)
    requires Loaded(f).Ok?
    ensures Seqs.NoDup(Loaded(f).value)
    ensures forall x :: x in Loaded(f).value <==>
      exists i :: 0 <= i < |AppidList(f.data).value| && CanonicalId(AppidList(f.data).value[i]) == Some(x)
  {
    var items := AppidList(f.data).value;
    Seqs.DedupMembers(Seqs.FilterMap(items, CanonicalId));
    Seqs.FilterMapMembers(items, CanonicalId);
  }

  /** The lists of all files in order, or the error of the first file that fails. */
  function LoadAll(files: seq<InputFile>): (r: Result<seq<seq<string>>>)
    ensures r.Ok? ==> |r.value| == |files|
    ensures r.Ok? ==> forall k :: 0 <= k < |files| ==> Loaded(files[k]) == Ok(r.value[k])
    ensures r.Ok? <==> forall k :: 0 <= k < |files| ==> Loaded(files[k]).Ok?
    ensures r.Err? ==> exists k ::
      && 0 <= k < |files|
      && Loaded(files[k]) == Err(r.msg)
      && forall j :: 0 <= j < k ==> Loaded(files[j]).Ok?
  {
    if files == [] then Ok([])
    else
      var p := files[..|files| - 1];
      assert forall k :: 0 <= k < |p| ==> files[k] == p[k];
      match LoadAll(p)
      case Err(e) => Err(e)
      case Ok(lists) =>
        match Loaded(files[|files| - 1])
        case Err(e) => Err(e)
        case Ok(l) => Ok(lists + [l])
  }

  /** Once a file fails to load, loading any longer run fails the same way. */
  lemma {:induction false} LoadAllAborts(files: seq<InputFile>, n: nat)
    requires n <= |files| && LoadAll(files[..n]).Err?
    ensures LoadAll(files) == LoadAll(files[..n])
    decreases |files| - n
  {
    if n < |files| {
      assert files[..n + 1][..n] == files[..n];
      LoadAllAborts(files, n + 1);
    } else {
      assert files[..n] == files;
    }
  }

  /** `x` occurs in every list. */
  predicate InAll(lists: seq<seq<string>>, x: string) {
    forall j :: 0 <= j < |lists| ==> x in lists[j]
  }

  function InEvery(lists: seq<seq<string>>): string -> bool {
    x => InAll(lists, x)
  }

  /** The ids of the first list found in every list, in the first list's order. */
  function Intersection(lists: seq<seq<string>>): seq<string>
    requires lists != []
  {
    Seqs.Filter(lists[0], InEvery(lists))
  }

  /**
   * The intersection holds exactly the ids common to all lists, follows
   * the first list's order and, as that list has no duplicates, has none
   * either.
   */
  lemma IntersectionIds(lists: seq<seq<string>>)
    requires lists != []
    ensures forall x :: x in Intersection(lists) <==> InAll(lists, x)
    ensures Seqs.IsSubseq(Intersection(lists), lists[0])
    ensures Seqs.NoDup(lists[0]) ==> Seqs.NoDup(Intersection(lists))
  {
    Seqs.FilterMembers(lists[0], InEvery(lists));
    Seqs.FilterIsSubseq(lists[0], InEvery(lists));
    if Seqs.NoDup(lists[0]) {
      Seqs.FilterNoDup(lists[0], InEvery(lists));
    }
  }

  /** What `main` writes: the intersection of the loaded lists. */
  function IntersectResult(files: seq<InputFile>): (r: Result<seq<string>>)
    ensures |files| < 2 ==> r == Err(TOO_FEW_INPUTS_ERROR)
    ensures r.Ok? <==> |files| >= 2 && LoadAll(files).Ok?
  {
    if |files| < 2 then Err(TOO_FEW_INPUTS_ERROR)
    else
      match LoadAll(files)
      case Err(e) => Err(e)
      case Ok(lists) => Ok(Intersection(lists))
  }

  /**
   * A successful run yields exactly the ids every input file's list holds,
   * each once, in the order of the first file.
   */
  lemma IntersectResultIds(files: seq<InputFile>)
    requires IntersectResult(files).Ok?
    ensures var r, lists := IntersectResult(files).value, LoadAll(files).value;
      && Seqs.NoDup(r)
      && Seqs.IsSubseq(r, lists[0])
      && forall x :: x in r <==> InAll(lists, x)
  {
    var lists := LoadAll(files).value;
    assert Loaded(files[0]) == Ok(lists[0]);
    LoadedIds(files[0]);
    IntersectionIds(lists);
  }

  /**
   * `main`: checks the number of inputs, loads every file, narrows the set
   * of the first list's ids by each further list, then keeps the first
   * list's ids that are still in the set.
   */
  method Intersect(files: seq<InputFile>) returns (r: Result<seq<string>>)
    ensures r == IntersectResult(files)
  {
    if |files| < 2 {
      return Err(TOO_FEW_INPUTS_ERROR);
    }
    var loaded := LoadLists(files);
    if loaded.Err? {
      return Err(loaded.msg);
    }
    var ordered := Ordered(loaded.value);
    return Ok(ordered);
  }

  /** `loaded_lists`: `load_appids` of every file in turn; the first failure propagates. */
  method LoadLists(files: seq<InputFile>) returns (r: Result<seq<seq<string>>>)
    ensures r == LoadAll(files)
  {
    var lists: seq<seq<string>> := [];
    for k := 0 to |files|
      invariant LoadAll(files[..k]) == Ok(lists)
    {
      assert files[..k + 1][..k] == files[..k];
      var l := LoadAppids(files[k]);
      if l.Err? {
        LoadAllAborts(files, k + 1);
        return Err(l.msg);
      }
      lists := lists + [l.value];
    }
    assert files[..|files|] == files;
    return Ok(lists);
  }

  /** `intersection_ordered`: the first list filtered by membership in `intersection_set`. */
  method Ordered(lists: seq<seq<string>>) returns (ordered: seq<string>)
    requires lists != []
    ensures ordered == Intersection(lists)
  {
    var common := NarrowedSet(lists);
    ordered := [];
    var first := lists[0];
    for i := 0 to |first|
      invariant ordered == Seqs.Filter(first[..i], InEvery(lists))
    {
      assert first[..i + 1] == first[..i] + [first[i]];
      Seqs.FilterSnoc(first[..i], first[i], InEvery(lists));
      assert first[i] in common <==> InEvery(lists)(first[i]);
      if first[i] in common {
        ordered := ordered + [first[i]];
      }
    }
    assert first[..|first|] == first;
  }

  /** `intersection_set`: the first list's ids, narrowed by `&=` with each further list. */
  method NarrowedSet(lists: seq<seq<string>>) returns (common: set<string>)
    requires lists != []
    ensures forall x :: x in common <==> x in lists[0] && InAll(lists, x)
  {
    common := set x | x in lists[0];
    for k := 1 to |lists|
      invariant forall x :: x in common <==> x in lists[0] && InAll(lists[..k], x)
    {
      assert forall x :: InAll(lists[..k + 1], x) <==> InAll(lists[..k], x) && x in lists[k] by {
        assert forall j :: 0 <= j < k ==> lists[..k + 1][j] == lists[..k][j];
      }
      common := common * (set x | x in lists[k]);
    }
    assert lists[..|lists|] == lists;
  }
}
