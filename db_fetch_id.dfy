/**
 * Reading appids out of a saved SteamDB page (scripts/db_fetch_id.py):
 * every `data-appid="<digits>"` attribute of the text, each id once in
 * order of first appearance, and the date stamp in the file's name.
 */
module DbFetchId {
  import opened Wrappers
  import Text
  import Seqs

  /** The text in front of the captured digits. */
  const ATTR := "data-appid=\""

  /** Where the run of digits starting at `i` ends. */
  function DigitRunEnd(s: string, i: nat): (j: nat)
    requires i <= |s|
    ensures i <= j <= |s|
    ensures forall k :: i <= k < j ==> Text.IsDigitChar(s[k])
    ensures j == |s| || !Text.IsDigitChar(s[j])
    decreases |s| - i
  {
    if i == |s| || !Text.IsDigitChar(s[i]) then i else DigitRunEnd(s, i + 1)
  }

  /**
   * Whether `data-appid="(\d+)"` matches at position `p`, and if so where
   * the match ends (just after the closing quote). The greedy `\d+` takes
   * the whole run of digits, and only a quote may follow it.
   */
  function MatchAt(s: string, p: nat): (r: Option<nat>)
    ensures r.Some? ==> p + 14 <= r.value <= |s| && s[p..p + 12] == ATTR && s[r.value - 1] == '"'
    ensures r.Some? ==> forall k :: p + 12 <= k < r.value - 1 ==> Text.IsDigitChar(s[k])
    ensures forall e: nat :: QuotedDigitsAt(s, p, e) ==> r == Some(e + 1)
  {
    if p + 12 <= |s| && s[p..p + 12] == ATTR then
      var j := DigitRunEnd(s, p + 12);
      assert forall e: nat :: QuotedDigitsAt(s, p, e) ==> e == j by {
        forall e: nat | QuotedDigitsAt(s, p, e) ensures e == j {
          assert !Text.IsDigitChar(s[e]);
          assert e >= j;
        }
      }
      if j > p + 12 && j < |s| && s[j] == '"' then Some(j + 1) else None
    else None
  }

  /**
   * `data-appid="` at `p`, then one or more digits up to a quote at `e`:
   * the text the pattern describes.
   */
  predicate QuotedDigitsAt(s: string, p: nat, e: nat) {
    && p + 12 < e < |s|
    && s[p..p + 12] == ATTR
    && s[e] == '"'
    && forall k :: p + 12 <= k < e ==> Text.IsDigitChar(s[k])
  }

  /** The digits a match at `p` captures. */
  function Captured(s: string, p: nat): (d: string)
    requires MatchAt(s, p).Some?
    ensures Text.IsDigits(d)
  {
    var d := s[p + 12..MatchAt(s, p).value - 1];
    assert forall k :: 0 <= k < |d| ==> d[k] == s[p + 12 + k];
    d
  }

  /** `re.findall` from position `i` on: the captures of the successive non-overlapping matches. */
  function FindAllFrom(s: string, i: nat): (r: seq<string>)
    requires i <= |s|
    ensures forall x :: x in r ==> Text.IsDigits(x)
    decreases |s| - i
  {
    if i == |s| then []
    else
      match MatchAt(s, i)
      case Some(e) => [Captured(s, i)] + FindAllFrom(s, e)
      case None => FindAllFrom(s, i + 1)
  }

  /** Every capture `findall` returns comes from a match at some position. */
  lemma {:induction false} FindAllSound(s: string, i: nat)
    requires i <= |s|
    ensures forall x :: x in FindAllFrom(s, i) ==>
      exists p :: i <= p < |s| && MatchAt(s, p).Some? && Captured(s, p) == x
    decreases |s| - i
  {
    if i < |s| {
      match MatchAt(s, i)
      case Some(e) => FindAllSound(s, e);
      case None => FindAllSound(s, i + 1);
    }
  }

  /** No match starts strictly inside another. */
  lemma NoOverlap(s: string, i: nat, p: nat)
    requires MatchAt(s, i).Some? && i < p < MatchAt(s, i).value
    ensures MatchAt(s, p).None?
  {
    var e := MatchAt(s, i).value;
    assert s[p] != 'd' || (p + 1 < |s| && s[p + 1] != 'a') by {
      if p < i + 12 {
        assert s[i..i + 12][p - i] == s[p];
        if p - i < 11 {
          assert s[i..i + 12][p - i + 1] == s[p + 1];
        }
        AttrShift(p - i);
      }
    }
    assert !(p + 12 <= |s| && s[p..p + 12] == ATTR) by {
      if p + 12 <= |s| {
        assert s[p..p + 12][0] == s[p] && s[p..p + 12][1] == s[p + 1];
      }
    }
  }

  /** `ATTR` does not start again at any of its own positions after the first. */
  lemma AttrShift(k: nat)
    requires 1 <= k < 12
    ensures ATTR[k] != 'd' || (k < 11 && ATTR[k + 1] != 'a')
  {
  }

  /** Every match at or after `i` is captured by `findall` from `i`. */
  lemma {:induction false} FindAllComplete(s: string, i: nat, p: nat)
    requires i <= p < |s| && MatchAt(s, p).Some?
    requires forall q :: i <= q < p ==> MatchAt(s, q).None? || MatchAt(s, q).value <= p
    ensures Captured(s, p) in FindAllFrom(s, i)
    decreases |s| - i
  {
    if i < p {
      match MatchAt(s, i)
      case Some(e) =>
        FindAllComplete(s, e, p);
      case None =>
        FindAllComplete(s, i + 1, p);
    }
  }

  /** Every match of the text is captured by `findall`. */
  lemma FindAllCapturesEveryMatch(s: string, p: nat)
    requires p < |s| && MatchAt(s, p).Some?
    ensures Captured(s, p) in FindAllFrom(s, 0)
  {
    forall q | 0 <= q < p && MatchAt(s, q).Some?
      ensures MatchAt(s, q).value <= p
    {
      if MatchAt(s, q).value > p {
        NoOverlap(s, q, p);
      }
    }
    FindAllComplete(s, 0, p);
  }

  /** `extract_appids`: the captures in order, each kept once (`dict.fromkeys`). */
  function ExtractAppids(html: string): (r: seq<string>)
    ensures Seqs.NoDup(r)
    ensures forall x :: x in r <==> x in FindAllFrom(html, 0)
  {
    Seqs.DedupMembers(FindAllFrom(html, 0));
    Seqs.Dedup(FindAllFrom(html, 0))
  }

  /**
   * Each extracted id is the non-empty digit string of some
   * `data-appid="..."` in the text, every such string is extracted, and
   * none is extracted twice.
   */
  lemma ExtractAppidsSpec(html: string)
    ensures Seqs.NoDup(ExtractAppids(html))
    ensures forall x :: x in ExtractAppids(html) ==>
      Text.IsDigits(x) && exists p :: 0 <= p < |html| && MatchAt(html, p).Some? && Captured(html, p) == x
    ensures forall p :: 0 <= p < |html| && MatchAt(html, p).Some? ==> Captured(html, p) in ExtractAppids(html)
  {
    Seqs.DedupMembers(FindAllFrom(html, 0));
    FindAllSound(html, 0);
    forall p | 0 <= p < |html| && MatchAt(html, p).Some?
      ensures Captured(html, p) in ExtractAppids(html)
    {
      FindAllCapturesEveryMatch(html, p);
    }
  }

  /** The extracted ids keep the order of their first capture in the text. */
  lemma ExtractAppidsOrder(html: string)
    ensures var found := FindAllFrom(html, 0);
      forall i, j :: 0 <= i < j < |ExtractAppids(html)| ==>
        ExtractAppids(html)[i] in found && ExtractAppids(html)[j] in found &&
        Seqs.FirstIndex(found, ExtractAppids(html)[i]) < Seqs.FirstIndex(found, ExtractAppids(html)[j])
  {
    var found := FindAllFrom(html, 0);
    Seqs.DedupKeepsFirstOccurrenceOrder(found);
    assert ExtractAppids(html) == Seqs.Dedup(found);
    assert forall i :: 0 <= i < |Seqs.Dedup(found)| ==> Seqs.Dedup(found)[i] in Seqs.Dedup(found);
  }

  /** Eight digits start at `p`. */
  predicate EightDigitsAt(name: string, p: nat) {
    p + 8 <= |name| && forall k :: p <= k < p + 8 ==> Text.IsDigitChar(name[k])
  }

  /** The first position at or after `i` where eight digits start. */
  function FirstEightDigits(name: string, i: nat): (r: Option<nat>)
    ensures r.Some? ==> i <= r.value && EightDigitsAt(name, r.value)
    decreases |name| - i
  {
    if i + 8 > |name| then None
    else if EightDigitsAt(name, i) then Some(i)
    else FirstEightDigits(name, i + 1)
  }

  /** `FirstEightDigits` finds the leftmost run of eight digits from `i` on, or reports there is none. */
  lemma {:induction false} FirstEightDigitsLeftmost(name: string, i: nat)
    ensures FirstEightDigits(name, i).Some? ==>
      var p := FirstEightDigits(name, i).value;
      i <= p && EightDigitsAt(name, p) && forall q :: i <= q < p ==> !EightDigitsAt(name, q)
    ensures FirstEightDigits(name, i).None? ==> forall q :: i <= q ==> !EightDigitsAt(name, q)
    decreases |name| - i
  {
    if i + 8 <= |name| && !EightDigitsAt(name, i) {
      FirstEightDigitsLeftmost(name, i + 1);
    }
  }

  /**
   * The digit-run branch of `infer_date_from_filename`: the first eight
   * consecutive digits of the file name; None where the script falls back
   * to today's date.
   */
  function InferDate(name: string): (r: Option<string>)
    ensures r.Some? ==> |r.value| == 8 && Text.IsDigits(r.value)
  {
    match FirstEightDigits(name, 0)
    case Some(p) =>
      FirstEightDigitsLeftmost(name, 0);
      var d := name[p..p + 8];
      assert forall k :: 0 <= k < 8 ==> d[k] == name[p + k];
      Some(d)
    case None => None
  }

  /**
   * The inferred date is the leftmost eight-digit run of the name, and
   * there is none exactly when the name has no eight consecutive digits.
   */
  lemma InferDateSpec(name: string)
    ensures InferDate(name).Some? ==> exists p: nat ::
      && EightDigitsAt(name, p)
      && InferDate(name).value == name[p..p + 8]
      && forall q: nat :: q < p ==> !EightDigitsAt(name, q)
    ensures InferDate(name).None? <==> forall q: nat :: !EightDigitsAt(name, q)
  {
    FirstEightDigitsLeftmost(name, 0);
  }
}
