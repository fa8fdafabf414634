/**
 * The parts of Python's `str` that the scripts rely on: `strip()`,
 * `lower()`, `isdigit()`, `int(s)`, `str(n)`, `in`, `split(sep)` and
 * `sep.join(parts)`. Digits are ASCII digits; see README for what that
 * leaves out.
 */
module Text {
  import opened Wrappers

  /** Python's `str.isspace()` for one character (its complete list). */
  predicate IsSpace(c: char) {
    || c == ' '
    || ('\t' <= c <= '\r')
    || ('\U{1C}' <= c <= '\U{1F}')
    || c == '\U{85}' || c == '\U{A0}' || c == '\U{1680}'
    || ('\U{2000}' <= c <= '\U{200A}')
    || c == '\U{2028}' || c == '\U{2029}' || c == '\U{202F}' || c == '\U{205F}' || c == '\U{3000}'
  }

  /** Where `s.lstrip()` starts: the first non-whitespace position from `i` on. */
  function StripStartAt(s: string, i: nat): (k: nat)
    requires i <= |s|
    ensures i <= k <= |s|
    ensures k == |s| || !IsSpace(s[k])
    decreases |s| - i
  {
    if i == |s| || !IsSpace(s[i]) then i else StripStartAt(s, i + 1)
  }

  /** Where `s.rstrip()` ends, not looking below `lo`. */
  function StripEndAt(s: string, lo: nat, j: nat): (k: nat)
    requires lo <= j <= |s|
    ensures lo <= k <= j
    ensures k == lo || !IsSpace(s[k - 1])
  {
    if j == lo || !IsSpace(s[j - 1]) then j else StripEndAt(s, lo, j - 1)
  }

  /** Python's `s.strip()`: what is left between the leading and trailing whitespace. */
  function Strip(s: string): (r: string)
    ensures |r| <= |s|
    ensures r == [] || (!IsSpace(r[0]) && !IsSpace(r[|r| - 1]))
  {
    var lo := StripStartAt(s, 0);
    s[lo..StripEndAt(s, lo, |s|)]
  }

  /** Everything `strip()` skips from position `i` on is whitespace. */
  lemma {:induction false} StripStartSkipsSpace(s: string, i: nat)
    requires i <= |s|
    ensures forall k :: i <= k < StripStartAt(s, i) ==> IsSpace(s[k])
    decreases |s| - i
  {
    if i < |s| && IsSpace(s[i]) {
      StripStartSkipsSpace(s, i + 1);
    }
  }

  /** Everything `strip()` drops at the end is whitespace. */
  lemma {:induction false} StripEndSkipsSpace(s: string, lo: nat, j: nat)
    requires lo <= j <= |s|
    ensures forall k :: StripEndAt(s, lo, j) <= k < j ==> IsSpace(s[k])
  {
    if j > lo && IsSpace(s[j - 1]) {
      StripEndSkipsSpace(s, lo, j - 1);
    }
  }

  /** `strip()` gives "" exactly for an all-whitespace string. */
  lemma StripBlank(s: string)
    ensures Strip(s) == "" <==> forall k :: 0 <= k < |s| ==> IsSpace(s[k])
  {
    var lo := StripStartAt(s, 0);
    StripStartSkipsSpace(s, 0);
    StripEndSkipsSpace(s, lo, |s|);
  }

  /** A string with no whitespace at either end is its own `strip()`. */
  lemma StripTrimmed(s: string)
    requires s == [] || (!IsSpace(s[0]) && !IsSpace(s[|s| - 1]))
    ensures Strip(s) == s
  {
    if s != [] {
      assert StripStartAt(s, 0) == 0;
      assert StripEndAt(s, 0, |s|) == |s|;
    }
  }

  /** One leading blank before a trimmed text is all `strip()` removes. */
  lemma StripLeadingSpace(s: string)
    requires s != [] && !IsSpace(s[0]) && !IsSpace(s[|s| - 1])
    ensures Strip(" " + s) == s
  {
    var t := " " + s;
    assert StripStartAt(t, 1) == 1;
    assert StripStartAt(t, 0) == 1;
    assert StripEndAt(t, 1, |t|) == |t|;
    assert t[1..] == s;
  }

  /** Stripping twice is stripping once. */
  lemma StripIdempotent(s: string)
    ensures Strip(Strip(s)) == Strip(s)
  {
    StripTrimmed(Strip(s));
  }

  /** `lower()` of one character, ASCII letters only. */
  function LowerChar(c: char): char {
    if 'A' <= c <= 'Z' then (c as int - 'A' as int + 'a' as int) as char else c
  }

  /** Python's `s.lower()`, ASCII letters only. */
  function Lower(s: string): string {
    seq(|s|, i requires 0 <= i < |s| => LowerChar(s[i]))
  }

  lemma LowerIdempotent(s: string)
    ensures Lower(Lower(s)) == Lower(s)
  {
  }

  predicate IsDigitChar(c: char) {
    '0' <= c <= '9'
  }

  /** Every character is a digit (vacuously true of ""). */
  predicate AllDigits(s: string) {
    forall k :: 0 <= k < |s| ==> IsDigitChar(s[k])
  }

  /** Python's `s.isdigit()`: non-empty and all digits. */
  predicate IsDigits(s: string) {
    |s| > 0 && AllDigits(s)
  }

  /** The decimal value of a run of digits (leading zeros allowed). */
  function DigitsValue(s: string): nat
    requires AllDigits(s)
  {
    if s == [] then 0
    else DigitsValue(s[..|s| - 1]) * 10 + (s[|s| - 1] as int - '0' as int)
  }

  /**
   * Python's `int(s)` on a string: surrounding whitespace, an optional sign,
   * then one or more digits; anything else raises (None here).
   */
  function ParseInt(s: string): Option<int> {
    var t := Strip(s);
    if |t| > 0 && (t[0] == '+' || t[0] == '-') then
      if IsDigits(t[1..]) then
        var v: int := DigitsValue(t[1..]);
        Some(if t[0] == '-' then -v else v)
      else None
    else if IsDigits(t) then Some(DigitsValue(t))
    else None
  }

  function DigitChar(d: nat): (c: char)
    requires d < 10
    ensures IsDigitChar(c) && c as int - '0' as int == d
  {
    ('0' as int + d) as char
  }

  /** Python's `str(n)` for a natural number. */
  function NatToString(n: nat): (r: string)
    ensures IsDigits(r)
    ensures DigitsValue(r) == n
  {
    if n < 10 then [DigitChar(n)]
    else
      var r := NatToString(n / 10) + [DigitChar(n % 10)];
      assert r[..|r| - 1] == NatToString(n / 10);
      r
  }

  /** Python's `str(i)` for an integer. */
  function IntToString(i: int): string {
    if i < 0 then "-" + NatToString(-i) else NatToString(i)
  }

  /** A run of digits has no whitespace to strip. */
  lemma DigitsTrimmed(s: string)
    requires IsDigits(s)
    ensures Strip(s) == s
  {
    assert IsDigitChar(s[0]) && IsDigitChar(s[|s| - 1]);
    StripTrimmed(s);
  }

  /** `int(s)` of a run of digits is its decimal value. */
  lemma ParseDigits(s: string)
    requires IsDigits(s)
    ensures ParseInt(s) == Some(DigitsValue(s))
  {
    DigitsTrimmed(s);
    assert IsDigitChar(s[0]);
  }

  /** `int(str(n)) == n` for a natural number. */
  lemma ParseNatToString(n: nat)
    ensures ParseInt(NatToString(n)) == Some(n)
  {
    ParseDigits(NatToString(n));
  }

  /** `int(s) == -int(s[1..])` for a minus sign followed by digits. */
  lemma ParseNegDigits(s: string)
    requires |s| > 1 && s[0] == '-' && IsDigits(s[1..])
    ensures ParseInt(s) == Some(-(DigitsValue(s[1..]) as int))
  {
    assert s[|s| - 1] == s[1..][|s| - 2];
    StripTrimmed(s);
  }

  /** `int(str(i)) == i`: the canonical form `str(int(x))` reads back. */
  lemma ParseIntToString(i: int)
    ensures ParseInt(IntToString(i)) == Some(i)
  {
    if i < 0 {
      var s := IntToString(i);
      assert s[1..] == NatToString(-i);
      ParseNegDigits(s);
    } else {
      ParseNatToString(i);
    }
  }

  /** Distinct integers have distinct canonical strings. */
  lemma IntToStringInjective(a: int, b: int)
    requires IntToString(a) == IntToString(b)
    ensures a == b
  {
    ParseIntToString(a);
    ParseIntToString(b);
  }

  predicate StartsWith(s: string, p: string) {
    |p| <= |s| && s[..|p|] == p
  }

  predicate EndsWith(s: string, p: string) {
    |p| <= |s| && s[|s| - |p|..] == p
  }

  /** `sub` occurs in `s` starting at position `i`. */
  predicate OccursAt(s: string, sub: string, i: nat) {
    i + |sub| <= |s| && s[i..i + |sub|] == sub
  }

  /** Python's `s.find(sub)`: the leftmost occurrence, if any. */
  function Find(s: string, sub: string): (r: Option<nat>)
    ensures r.Some? ==> OccursAt(s, sub, r.value)
    decreases |s|
  {
    if |s| < |sub| then None
    else if s[..|sub|] == sub then Some(0)
    else
      match Find(s[1..], sub)
      case None => None
      case Some(k) =>
        assert s[1..][k..k + |sub|] == s[k + 1..k + 1 + |sub|];
        Some(k + 1)
  }

  /** An occurrence past the first position is an occurrence in the tail. */
  lemma OccursShift(s: string, sub: string)
    requires s != []
    ensures forall k: nat :: 0 < k && OccursAt(s, sub, k) ==> OccursAt(s[1..], sub, k - 1)
  {
    forall k: nat | 0 < k && OccursAt(s, sub, k)
      ensures OccursAt(s[1..], sub, k - 1)
    {
      assert s[1..][k - 1..k - 1 + |sub|] == s[k..k + |sub|];
    }
  }

  /** `find` misses no occurrence: none before the one it returns, none at all when it fails. */
  lemma {:induction false} FindLeftmost(s: string, sub: string)
    ensures Find(s, sub).Some? ==> forall k: nat :: k < Find(s, sub).value ==> !OccursAt(s, sub, k)
    ensures Find(s, sub).None? ==> forall k: nat :: !OccursAt(s, sub, k)
    decreases |s|
  {
    if |s| >= |sub| && s[..|sub|] != sub {
      OccursShift(s, sub);
      FindLeftmost(s[1..], sub);
    }
  }

  /** An occurrence with none before it is what `find` reports. */
  lemma FindFirstAt(s: string, sub: string, i: nat)
    requires OccursAt(s, sub, i)
    requires forall k: nat :: k < i ==> !OccursAt(s, sub, k)
    ensures Find(s, sub) == Some(i)
  {
    FindLeftmost(s, sub);
  }

  /** Python's `sub in s`. */
  predicate Contains(s: string, sub: string) {
    Find(s, sub).Some?
  }

  /** Python's `sep.join(parts)`. */
  function Join(parts: seq<string>, sep: string): string {
    if |parts| == 0 then ""
    else if |parts| == 1 then parts[0]
    else parts[0] + sep + Join(parts[1..], sep)
  }

  /** Python's `s.split(sep)` for a non-empty separator. */
  function Split(s: string, sep: string): (parts: seq<string>)
    requires |sep| > 0
    ensures |parts| >= 1
    decreases |s|
  {
    match Find(s, sep)
    case None => [s]
    case Some(i) => [s[..i]] + Split(s[i + |sep|..], sep)
  }

  /** Joining a part in front of at least one more. */
  lemma JoinCons(head: string, tail: seq<string>, sep: string)
    requires |tail| >= 1
    ensures Join([head] + tail, sep) == head + sep + Join(tail, sep)
  {
    assert ([head] + tail)[1..] == tail;
  }

  lemma SliceThree(s: string, i: nat, j: nat)
    requires i <= j <= |s|
    ensures s == s[..i] + s[i..j] + s[j..]
  {
  }

  /** `sep.join(s.split(sep)) == s`. */
  lemma {:induction false} JoinSplit(s: string, sep: string)
    requires |sep| > 0
    ensures Join(Split(s, sep), sep) == s
    decreases |s|
  {
    match Find(s, sep)
    case None =>
    case Some(i) =>
      var rest := s[i + |sep|..];
      JoinSplit(rest, sep);
      JoinCons(s[..i], Split(rest, sep), sep);
      assert s == s[..i] + sep + rest by {
        assert s[i..i + |sep|] == sep;
        SliceThree(s, i, i + |sep|);
      }
  }

  /** The text before the leftmost separator holds no separator. */
  lemma BeforeFirstAvoidsSep(s: string, sep: string)
    requires |sep| > 0 && Find(s, sep).Some?
    ensures !Contains(s[..Find(s, sep).value], sep)
  {
    var i := Find(s, sep).value;
    var head := s[..i];
    FindLeftmost(s, sep);
    forall k: nat
      ensures !OccursAt(head, sep, k)
    {
      if k + |sep| <= |head| {
        assert k < i;
        assert !OccursAt(s, sep, k);
        assert head[k..k + |sep|] == s[k..k + |sep|];
      }
    }
  }

  /** No part of `s.split(sep)` contains `sep`. */
  lemma {:induction false} SplitPartsAvoidSep(s: string, sep: string)
    requires |sep| > 0
    ensures forall k :: 0 <= k < |Split(s, sep)| ==> !Contains(Split(s, sep)[k], sep)
    decreases |s|
  {
    match Find(s, sep)
    case None =>
    case Some(i) =>
      var head, tail := s[..i], Split(s[i + |sep|..], sep);
      SplitPartsAvoidSep(s[i + |sep|..], sep);
      BeforeFirstAvoidsSep(s, sep);
      var parts := Split(s, sep);
      assert parts == [head] + tail;
      forall k | 0 <= k < |parts|
        ensures !Contains(parts[k], sep)
      {
        if k > 0 {
          assert parts[k] == tail[k - 1];
        }
      }
  }

  /** `s` with every occurrence of `c` removed (`s.replace(c, "")`). */
  function RemoveChar(s: string, c: char): (r: string)
    ensures forall k :: 0 <= k < |r| ==> r[k] != c
    ensures |r| <= |s|
  {
    if s == [] then []
    else if s[0] == c then RemoveChar(s[1..], c)
    else [s[0]] + RemoveChar(s[1..], c)
  }
}
