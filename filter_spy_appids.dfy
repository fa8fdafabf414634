/**
 * Selecting appids from a directory of SteamSpy toplist pages by
 * concurrent-user count (scripts/filter_spy_appids.py): the pages are read
 * in page-number order, every entry is counted, and the appid of each entry
 * whose `ccu` is strictly above the threshold is kept once, in order of
 * first appearance.
 */
module FilterSpyAppids {
  import opened Wrappers
  import opened Json
  import Text
  import Seqs

  const MIN_CCU_ERROR := "min-ccu must be >= 0"
  const NO_PAGES_PREFIX := "No page*.json found in: "
  /** The page number given to a file whose name does not carry one. */
  const UNNUMBERED: nat := 1_000_000_000

  /**
   * Where the run of digits that ends just before position `j` starts
   * (`j` itself when `s[j - 1]` is not a digit).
   */
  function DigitRunStart(s: string, j: nat): (k: nat)
    requires j <= |s|
    ensures k <= j
    ensures forall i :: k <= i < j ==> Text.IsDigitChar(s[i])
    ensures k == 0 || !Text.IsDigitChar(s[k - 1])
  {
    if j == 0 || !Text.IsDigitChar(s[j - 1]) then j else DigitRunStart(s, j - 1)
  }

  /** `DigitRunStart` finds the start of any maximal run of digits. */
  lemma {:induction false} DigitRunStartAt(s: string, k: nat, j: nat)
    requires k <= j <= |s|
    requires forall i :: k <= i < j ==> Text.IsDigitChar(s[i])
    requires k == 0 || !Text.IsDigitChar(s[k - 1])
    ensures DigitRunStart(s, j) == k
    decreases j
  {
    if j > k {
      DigitRunStartAt(s, k, j - 1);
    }
  }

  /** The name without one trailing newline, which `$` lets a match end before. */
  function DropNewline(name: string): (t: string)
    ensures name == t + (if |t| < |name| then "\n" else "")
  {
    if name != [] && name[|name| - 1] == '\n' then
      assert name == name[..|name| - 1] + "\n";
      name[..|name| - 1]
    else name
  }

  /**
   * The number `re.search(r"page(\d+)\.json$", name)` captures: the name,
   * less one trailing newline, ends in ".json" right after a non-empty run
   * of digits that follows "page".
   */
  function PageNumber(name: string): (r: Option<nat>) {
    PageNumberAtEnd(DropNewline(name))
  }

  /** The number of a `page<digits>.json` ending at the very end of `t`. */
  function PageNumberAtEnd(t: string): (r: Option<nat>)
    ensures r.Some? ==> |t| >= 10 && t[|t| - 5..] == ".json"
  {
    if |t| < 5 || t[|t| - 5..] != ".json" then None
    else
      var e := |t| - 5;
      var k := DigitRunStart(t, e);
      if k < e && k >= 4 && t[k - 4..k] == "page" then
        var digits := t[k..e];
        assert Text.AllDigits(digits) by {
          assert forall i :: 0 <= i < |digits| ==> digits[i] == t[k + i];
        }
        Some(Text.DigitsValue(digits))
      else None
  }

  /** `page_index`: the captured number, or 10**9 so that such files sort last. */
  function PageIndex(name: string): (r: nat)
    ensures PageNumber(name).None? ==> r == UNNUMBERED
    ensures PageNumber(name).Some? ==> r == PageNumber(name).value
  {
    match PageNumber(name)
    case Some(n) => n
    case None => UNNUMBERED
  }

  /** A name of the form `<prefix>page<digits>.json` has the page number of its digits. */
  lemma PageIndexOfName(prefix: string, digits: string)
    requires Text.IsDigits(digits)
    ensures PageIndex(prefix + "page" + digits + ".json") == Text.DigitsValue(digits)
  {
    var name := prefix + "page" + digits + ".json";
    var n, d := |prefix|, |digits|;
    assert DropNewline(name) == name by {
      assert name[|name| - 1] == 'n';
    }
    assert name[n + 4 + d..] == ".json";
    assert name[n..n + 4] == "page";
    assert name[n + 4..n + 4 + d] == digits;
    assert name[n + 3] == 'e';
    PageNumberAtEndOf(name, n + 4, n + 4 + d);
  }

  /** `PageNumberAtEnd` on the positions of the digits. */
  lemma PageNumberAtEndOf(t: string, k: nat, e: nat)
    requires 4 <= k < e && e + 5 == |t| && t[e..] == ".json" && t[k - 4..k] == "page"
    requires Text.IsDigits(t[k..e]) && !Text.IsDigitChar(t[k - 1])
    ensures PageNumberAtEnd(t) == Some(Text.DigitsValue(t[k..e]))
  {
    assert forall i :: k <= i < e ==> Text.IsDigitChar(t[i]) by {
      assert forall i :: k <= i < e ==> t[i] == t[k..e][i - k];
    }
    DigitRunStartAt(t, k, e);
  }

  /**
   * Conversely, a name with a page number is `<prefix>page<digits>.json`,
   * possibly followed by one newline, and the number is the digits' value.
   */
  lemma PageNumberShape(name: string)
    requires PageNumber(name).Some?
    ensures exists prefix, digits, nl ::
      && nl in {"", "\n"}
      && Text.IsDigits(digits)
      && name == prefix + "page" + digits + ".json" + nl
      && PageNumber(name).value == Text.DigitsValue(digits)
  {
    var t := DropNewline(name);
    var nl := if |t| < |name| then "\n" else "";
    var prefix, digits := PageNumberAtEndShape(t);
    assert name == prefix + "page" + digits + ".json" + nl;
  }

  lemma PageNumberAtEndShape(t: string) returns (prefix: string, digits: string)
    requires PageNumberAtEnd(t).Some?
    ensures Text.IsDigits(digits) && t == prefix + "page" + digits + ".json"
    ensures PageNumberAtEnd(t).value == Text.DigitsValue(digits)
  {
    var e := |t| - 5;
    var k := DigitRunStart(t, e);
    digits := t[k..e];
    assert Text.IsDigits(digits) by {
      assert forall i :: 0 <= i < |digits| ==> digits[i] == t[k + i];
    }
    prefix := t[..k - 4];
    SplitAroundPage(t, k, e);
  }

  lemma SplitAroundPage(t: string, k: nat, e: nat)
    requires 4 <= k <= e <= |t| && t[k - 4..k] == "page" && t[e..] == ".json"
    ensures t == t[..k - 4] + "page" + t[k..e] + ".json"
  {
    assert t == t[..k - 4] + t[k - 4..k] + t[k..e] + t[e..];
  }

  /** `extract_appid`: `str(int(value["appid"]))` when possible, else `str(int(key))`, else None. */
  function ExtractAppid(key: string, value: Json): (r: Option<string>)
    ensures value.JObj? && CanonicalId(GetOrNull(value.members, "appid")).Some? ==>
      r == CanonicalId(GetOrNull(value.members, "appid"))
    ensures !(value.JObj? && CanonicalId(GetOrNull(value.members, "appid")).Some?) ==>
      r == CanonicalId(JStr(key))
  {
    var fromField :=
      if value.JObj? && GetOrNull(value.members, "appid") != JNull then CanonicalId(GetOrNull(value.members, "appid"))
      else None;
    if fromField.Some? then fromField else CanonicalId(JStr(key))
  }

  /** `extract_ccu`: `int(value["ccu"])` for a dict with a non-None `ccu` that `int()` accepts. */
  function ExtractCcu(value: Json): (r: Option<int>)
    ensures r.Some? <==> value.JObj? && PyInt(GetOrNull(value.members, "ccu")).Some?
    ensures r.Some? ==> r == PyInt(GetOrNull(value.members, "ccu"))
  {
    if !value.JObj? then None
    else
      var raw := GetOrNull(value.members, "ccu");
      if raw == JNull then None else PyInt(raw)
  }

  /**
   * The appid an entry contributes: its `extract_appid`, provided
   * `extract_ccu` gives a count strictly above `minCcu`.
   */
  function Candidate(m: Member, minCcu: int): (r: Option<string>)
    ensures r.Some? ==>
      && ExtractCcu(m.value).Some? && ExtractCcu(m.value).value > minCcu
      && ExtractAppid(m.key, m.value) == r
    ensures ExtractCcu(m.value).Some? && ExtractCcu(m.value).value > minCcu ==>
      r == ExtractAppid(m.key, m.value)
  {
    match ExtractCcu(m.value)
    case Some(c) => if c > minCcu then ExtractAppid(m.key, m.value) else None
    case None => None
  }

  function Kept(minCcu: int): Member -> Option<string> {
    m => Candidate(m, minCcu)
  }

  /** The appids selected from a run of entries: candidates in order, each kept once. */
  function Selected(entries: seq<Member>, minCcu: int): seq<string> {
    Seqs.Dedup(Seqs.FilterMap(entries, Kept(minCcu)))
  }

  /** One more entry: its candidate, if any and not yet selected, is appended. */
  lemma SelectedSnoc(entries: seq<Member>, m: Member, minCcu: int)
    ensures Selected(entries + [m], minCcu) ==
      match Candidate(m, minCcu)
      case None => Selected(entries, minCcu)
      case Some(x) => if x in Selected(entries, minCcu) then Selected(entries, minCcu) else Selected(entries, minCcu) + [x]
  {
    Seqs.FilterMapAppend(entries, [m], Kept(minCcu));
    assert Seqs.FilterMap([m], Kept(minCcu)) == if Candidate(m, minCcu).Some? then [Candidate(m, minCcu).value] else [];
    if Candidate(m, minCcu).Some? {
      Seqs.DedupSnoc(Seqs.FilterMap(entries, Kept(minCcu)), Candidate(m, minCcu).value);
    } else {
      assert Seqs.FilterMap(entries + [m], Kept(minCcu)) == Seqs.FilterMap(entries, Kept(minCcu));
    }
  }

  /**
   * Every selected appid comes from an entry whose `ccu` is strictly above
   * the threshold, every such entry's appid is selected, and none is
   * selected twice.
   */
  lemma SelectedIds(entries: seq<Member>, minCcu: int)
    ensures Seqs.NoDup(Selected(entries, minCcu))
    ensures forall x :: x in Selected(entries, minCcu) <==>
      exists i :: 0 <= i < |entries| && Candidate(entries[i], minCcu) == Some(x)
  {
    Seqs.DedupMembers(Seqs.FilterMap(entries, Kept(minCcu)));
    Seqs.FilterMapMembers(entries, Kept(minCcu));
  }

  /** Selected appids are listed in the order of the first entry giving each. */
  lemma SelectedFirstOccurrenceOrder(entries: seq<Member>, minCcu: int)
    ensures var ids := Seqs.FilterMap(entries, Kept(minCcu));
      forall i, j :: 0 <= i < j < |Selected(entries, minCcu)| ==>
        Selected(entries, minCcu)[i] in ids && Selected(entries, minCcu)[j] in ids &&
        Seqs.FirstIndex(ids, Selected(entries, minCcu)[i]) < Seqs.FirstIndex(ids, Selected(entries, minCcu)[j])
  {
    var ids := Seqs.FilterMap(entries, Kept(minCcu));
    Seqs.DedupKeepsFirstOccurrenceOrder(ids);
    assert Selected(entries, minCcu) == Seqs.Dedup(ids);
    assert forall i :: 0 <= i < |Seqs.Dedup(ids)| ==> Seqs.Dedup(ids)[i] in Seqs.Dedup(ids);
  }

  /** A file of the input directory: its name and its decoded content. */
  datatype Page = Page(name: string, content: Json)

  /** The glob `page*.json`. */
  predicate IsPageFile(p: Page) {
    |p.name| >= 9 && p.name[..4] == "page" && p.name[|p.name| - 5..] == ".json"
  }

  function PageKey(p: Page): int {
    PageIndex(p.name)
  }

  /** `type(v).__name__`. */
  function TypeName(v: Json): string {
    match v
    case JNull => "NoneType"
    case JBool(_) => "bool"
    case JInt(_) => "int"
    case JStr(_) => "str"
    case JArr(_) => "list"
    case JObj(_) => "dict"
  }

  /** What `read_json_file` raises for a page that is not a dict. */
  function NotObjectError(p: Page): string {
    "Expected object in " + p.name + ", got " + TypeName(p.content)
  }

  /**
   * The entries of the pages, page after page, or the error of the first
   * page that is not a dict.
   */
  function Scan(pages: seq<Page>): (r: Result<seq<Member>>) {
    if pages == [] then Ok([])
    else
      var last := pages[|pages| - 1];
      match Scan(pages[..|pages| - 1])
      case Err(e) => Err(e)
      case Ok(entries) =>
        if last.content.JObj? then Ok(entries + last.content.members) else Err(NotObjectError(last))
  }

  /** Once a page fails, the scan of any longer run fails the same way. */
  lemma {:induction false} ScanAborts(pages: seq<Page>, n: nat)
    requires n <= |pages| && Scan(pages[..n]).Err?
    ensures Scan(pages) == Scan(pages[..n])
    decreases |pages| - n
  {
    if n < |pages| {
      assert pages[..n + 1][..n] == pages[..n];
      ScanAborts(pages, n + 1);
    } else {
      assert pages[..n] == pages;
    }
  }

  /** The pages read, in `page_index` order (a stable sort of the glob's matches). */
  function PageFiles(files: seq<Page>): seq<Page> {
    Seqs.SortBy(Seqs.Filter(files, IsPageFile), PageKey)
  }

  /**
   * The pages are the directory's `page*.json` files, each once, in
   * non-decreasing `page_index` order, and files sharing a page index keep
   * their listing order.
   */
  lemma PageFilesOrder(files: seq<Page>, k: int)
    ensures Seqs.SortedBy(PageFiles(files), PageKey)
    ensures multiset(PageFiles(files)) == multiset(Seqs.Filter(files, IsPageFile))
    ensures Seqs.Filter(PageFiles(files), Seqs.KeyIs(PageKey, k)) == Seqs.Filter(Seqs.Filter(files, IsPageFile), Seqs.KeyIs(PageKey, k))
  {
    Seqs.SortByStable(Seqs.Filter(files, IsPageFile), PageKey, k);
  }

  /** The scan succeeds exactly when every page is a dict. */
  lemma {:induction false} ScanOk(pages: seq<Page>)
    ensures Scan(pages).Ok? <==> forall k :: 0 <= k < |pages| ==> pages[k].content.JObj?
  {
    if pages != [] {
      var p := pages[..|pages| - 1];
      ScanOk(p);
      assert forall k :: 0 <= k < |p| ==> p[k] == pages[k];
    }
  }

  /** The counters and the list the script writes. */
  datatype Summary = Summary(
    appids: seq<string>,
    pageFileCount: nat,
    minCcu: int,
    totalEntriesScanned: nat,
    appidsMatched: nat)

  /**
   * What `main` produces from the directory's files: a negative threshold
   * and a directory without page files are rejected, the first page that
   * is not a dict stops the run, and otherwise the selection is made from
   * all entries of all pages in page order.
   */
  function Selection(files: seq<Page>, minCcu: int, inputDir: string): (r: Result<Summary>)
    ensures minCcu < 0 ==> r == Err(MIN_CCU_ERROR)
    ensures minCcu >= 0 && PageFiles(files) == [] ==> r == Err(NO_PAGES_PREFIX + inputDir)
    ensures r.Ok? <==> minCcu >= 0 && PageFiles(files) != [] && Scan(PageFiles(files)).Ok?
  {
    if minCcu < 0 then Err(MIN_CCU_ERROR)
    else
      var pages := PageFiles(files);
      if pages == [] then Err(NO_PAGES_PREFIX + inputDir)
      else
        ScanSummary(pages, minCcu)
  }

  /**
   * A successful run lists each appid once, exactly the appids of entries
   * (of any page) whose `ccu` is above the threshold, and counts every
   * entry of every page.
   */
  lemma SelectionKeeps(files: seq<Page>, minCcu: int, inputDir: string)
    requires Selection(files, minCcu, inputDir).Ok?
    ensures var s, entries := Selection(files, minCcu, inputDir).value, Scan(PageFiles(files)).value;
      && Seqs.NoDup(s.appids)
      && s.appidsMatched == |s.appids|
      && s.totalEntriesScanned == |entries|
      && (forall x :: x in s.appids <==> exists i :: 0 <= i < |entries| && Candidate(entries[i], minCcu) == Some(x))
      && (forall k, m :: 0 <= k < |PageFiles(files)| && PageFiles(files)[k].content.JObj? && m in PageFiles(files)[k].content.members ==> m in entries)
      && (forall m :: m in entries ==> exists k :: 0 <= k < |PageFiles(files)| && PageFiles(files)[k].content.JObj? && m in PageFiles(files)[k].content.members)
  {
    var entries := Scan(PageFiles(files)).value;
    SelectedIds(entries, minCcu);
    ScanEntries(PageFiles(files));
  }

  /** The scan's entries are exactly the members of the pages. */
  lemma {:induction false} ScanEntries(pages: seq<Page>)
    requires Scan(pages).Ok?
    ensures forall k, m :: 0 <= k < |pages| && pages[k].content.JObj? && m in pages[k].content.members ==> m in Scan(pages).value
    ensures forall m :: m in Scan(pages).value ==> exists k :: 0 <= k < |pages| && pages[k].content.JObj? && m in pages[k].content.members
  {
    if pages != [] {
      var p := pages[..|pages| - 1];
      ScanEntries(p);
      assert forall k :: 0 <= k < |p| ==> p[k] == pages[k];
    }
  }

  /** `main`, proved to produce `Selection`. */
  method FilterSpy(files: seq<Page>, minCcu: int, inputDir: string) returns (r: Result<Summary>)
    ensures r == Selection(files, minCcu, inputDir)
  {
    if minCcu < 0 {
      return Err(MIN_CCU_ERROR);
    }
    var pages := PageFiles(files);
    if pages == [] {
      return Err(NO_PAGES_PREFIX + inputDir);
    }
    r := ScanPages(pages, minCcu);
  }

  /** The outcome of the scan over pages already in page order. */
  function ScanSummary(pages: seq<Page>, minCcu: int): Result<Summary> {
    match Scan(pages)
    case Err(e) => Err(e)
    case Ok(entries) =>
      var ids := Selected(entries, minCcu);
      Ok(Summary(ids, |pages|, minCcu, |entries|, |ids|))
  }

  /**
   * The loop of `main` over the sorted pages: reads each page, stops at
   * one that is not a dict, and otherwise counts and selects its entries.
   */
  method ScanPages(pages: seq<Page>, minCcu: int) returns (r: Result<Summary>)
    ensures r == ScanSummary(pages, minCcu)
  {
    var appids: seq<string> := [];
    var seen: set<string> := {};
    var total := 0;
    var filtered := 0;
    ghost var scanned: seq<Member> := [];
    for p := 0 to |pages|
      invariant Scan(pages[..p]) == Ok(scanned)
      invariant appids == Selected(scanned, minCcu)
      invariant total == |scanned|
      invariant filtered == |appids|
      invariant forall x :: x in seen <==> x in appids
    {
      assert pages[..p + 1][..p] == pages[..p];
      var payload := pages[p].content;
      if !payload.JObj? {
        ScanAborts(pages, p + 1);
        return Err(NotObjectError(pages[p]));
      }
      appids, seen, total, filtered := SelectFromPage(payload.members, minCcu, scanned, appids, seen, total, filtered);
      scanned := scanned + payload.members;
    }
    assert pages[..|pages|] == pages;
    return Ok(Summary(appids, |pages|, minCcu, total, filtered));
  }

  /**
   * The inner loop of `main` over one page's entries: counts every entry
   * and appends each new selected appid, extending the selection made from
   * the entries `before` to those of the page.
   */
  method SelectFromPage(ms: seq<Member>, minCcu: int, ghost before: seq<Member>,
                        appids0: seq<string>, seen0: set<string>, total0: nat, filtered0: nat)
    returns (appids: seq<string>, seen: set<string>, total: nat, filtered: nat)
    requires appids0 == Selected(before, minCcu) && filtered0 == |appids0| && total0 == |before|
    requires forall x :: x in seen0 <==> x in appids0
    ensures appids == Selected(before + ms, minCcu)
    ensures total == |before + ms| && filtered == |appids|
    ensures forall x :: x in seen <==> x in appids
  {
    appids, seen, total, filtered := appids0, seen0, total0, filtered0;
    assert before + ms[..0] == before;
    for i := 0 to |ms|
      invariant appids == Selected(before + ms[..i], minCcu)
      invariant total == |before| + i
      invariant filtered == |appids|
      invariant forall x :: x in seen <==> x in appids
    {
      assert before + ms[..i + 1] == (before + ms[..i]) + [ms[i]];
      SelectedSnoc(before + ms[..i], ms[i], minCcu);
      total := total + 1;
      var ccu := ExtractCcu(ms[i].value);
      if ccu.None? || ccu.value <= minCcu {
        continue;
      }
      var appid := ExtractAppid(ms[i].key, ms[i].value);
      if appid.None? || appid.value in seen {
        continue;
      }
      seen := seen + {appid.value};
      appids := appids + [appid.value];
      filtered := filtered + 1;
    }
    assert ms[..|ms|] == ms;
  }
}
