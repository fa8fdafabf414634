/**
 * Sequence operations the pipeline scripts use over and over: the
 * order-preserving de-duplication (a loop guarded by a `seen` set, or
 * `list(dict.fromkeys(...))`), list comprehensions with a filter, the
 * "convert or skip" loops, `s[:n]`, and Python's stable `sorted(key=...)`.
 *
 * The functions carry only cheap facts in their own contracts; what they
 * mean (membership, order, duplicates) is stated by the lemmas next to them.
 */
module Seqs {
  import opened Wrappers

  /** No element occurs twice. */
  predicate NoDup<T(==)>(s: seq<T>) {
    forall i, j :: 0 <= i < j < |s| ==> s[i] != s[j]
  }

  /** The position of the first occurrence of `x` in `s`. */
  function FirstIndex<T(==)>(s: seq<T>, x: T): (k: nat)
    requires x in s
    ensures k < |s| && s[k] == x
    ensures forall j :: 0 <= j < k ==> s[j] != x
  {
    if s[0] == x then 0 else 1 + FirstIndex(s[1..], x)
  }

  lemma FirstIndexSnoc<T>(p: seq<T>, z: T, y: T)
    requires y in p
    ensures FirstIndex(p + [z], y) == FirstIndex(p, y)
  {
    var k, k' := FirstIndex(p + [z], y), FirstIndex(p, y);
    assert (p + [z])[k'] == y;
    assert k <= k';
    assert p[k] == y;
  }

  /**
   * Keeps the first occurrence of every element, in order. Defined the way
   * the scripts' loops build it: one element at a time, appended unless
   * already seen.
   */
  function Dedup<T(==)>(s: seq<T>): (r: seq<T>)
    ensures |r| <= |s|
  {
    if s == [] then []
    else
      var d := Dedup(s[..|s| - 1]);
      if s[|s| - 1] in d then d else d + [s[|s| - 1]]
  }

  /** One step of a `seen`-guarded loop. */
  lemma DedupSnoc<T>(s: seq<T>, x: T)
    ensures Dedup(s + [x]) == if x in Dedup(s) then Dedup(s) else Dedup(s) + [x]
  {
    assert (s + [x])[..|s|] == s;
  }

  /** The result has no duplicates and holds exactly the elements of `s`. */
  lemma {:induction false} DedupMembers<T(!new)>(s: seq<T>)
    ensures NoDup(Dedup(s))
    ensures forall x :: x in Dedup(s) <==> x in s
  {
    if s != [] {
      var p, z := s[..|s| - 1], s[|s| - 1];
      assert s == p + [z];
      DedupMembers(p);
    }
  }

  /** The survivors appear in the order of their first occurrence in `s`. */
  lemma {:induction false} DedupKeepsFirstOccurrenceOrder<T(!new)>(s: seq<T>)
    ensures forall x :: x in Dedup(s) ==> x in s
    ensures forall i, j :: 0 <= i < j < |Dedup(s)| ==>
      FirstIndex(s, Dedup(s)[i]) < FirstIndex(s, Dedup(s)[j])
  {
    DedupMembers(s);
    if s != [] {
      var p, z := s[..|s| - 1], s[|s| - 1];
      assert s == p + [z];
      DedupKeepsFirstOccurrenceOrder(p);
      DedupMembers(p);
      var d, d' := Dedup(p), Dedup(s);
      assert d' == if z in d then d else d + [z];
      forall i, j | 0 <= i < j < |d'|
        ensures FirstIndex(s, d'[i]) < FirstIndex(s, d'[j])
      {
        assert d'[i] == d[i] && d[i] in p;
        FirstIndexSnoc(p, z, d'[i]);
        if j < |d| {
          assert d'[j] == d[j] && d[j] in p;
          FirstIndexSnoc(p, z, d'[j]);
        } else {
          assert d'[j] == z && z !in p;
        }
      }
    }
  }

  /** A sequence without duplicates is left unchanged. */
  lemma {:induction false} DedupOfNoDup<T>(s: seq<T>)
    requires NoDup(s)
    ensures Dedup(s) == s
  {
    if s != [] {
      var p, z := s[..|s| - 1], s[|s| - 1];
      assert s == p + [z];
      assert NoDup(p);
      DedupOfNoDup(p);
      assert z !in p;
    }
  }

  /** De-duplicating twice is the same as de-duplicating once. */
  lemma DedupIdempotent<T(!new)>(s: seq<T>)
    ensures Dedup(Dedup(s)) == Dedup(s)
  {
    DedupMembers(s);
    DedupOfNoDup(Dedup(s));
  }

  /** A list comprehension `[x for x in s if keep(x)]`. */
  function Filter<T>(s: seq<T>, keep: T -> bool): (r: seq<T>)
    ensures |r| <= |s|
  {
    if s == [] then []
    else
      var f := Filter(s[..|s| - 1], keep);
      if keep(s[|s| - 1]) then f + [s[|s| - 1]] else f
  }

  /** One step of a filter loop. */
  lemma FilterSnoc<T>(s: seq<T>, z: T, keep: T -> bool)
    ensures Filter(s + [z], keep) == Filter(s, keep) + (if keep(z) then [z] else [])
  {
    assert (s + [z])[..|s|] == s;
  }

  /** The filter keeps exactly the elements `keep` accepts. */
  lemma {:induction false} FilterMembers<T(!new)>(s: seq<T>, keep: T -> bool)
    ensures forall x :: x in Filter(s, keep) <==> x in s && keep(x)
  {
    if s != [] {
      var p, z := s[..|s| - 1], s[|s| - 1];
      assert s == p + [z];
      FilterMembers(p, keep);
    }
  }

  /**
   * `a` can be obtained from `b` by deleting elements: `a` keeps the
   * relative order of `b`. (Matching greedily from the end is complete.)
   */
  predicate IsSubseq<T(==)>(a: seq<T>, b: seq<T>)
    decreases |b|
  {
    if a == [] then true
    else if b == [] then false
    else if a[|a| - 1] == b[|b| - 1] then IsSubseq(a[..|a| - 1], b[..|b| - 1])
    else IsSubseq(a, b[..|b| - 1])
  }

  lemma {:induction false} IsSubseqDropLast<T>(a: seq<T>, b: seq<T>)
    requires a != [] && IsSubseq(a, b)
    ensures IsSubseq(a[..|a| - 1], b)
    decreases |b|
  {
    var a' := a[..|a| - 1];
    var b' := b[..|b| - 1];
    if a' != [] {
      if a[|a| - 1] == b[|b| - 1] {
        if a'[|a'| - 1] == b[|b| - 1] {
          IsSubseqDropLast(a', b');
          assert a'[..|a'| - 1] == a[..|a| - 2];
        }
      } else {
        IsSubseqDropLast(a, b');
        if a'[|a'| - 1] == b[|b| - 1] {
          IsSubseqDropLast(a', b');
        }
      }
    }
  }

  lemma IsSubseqSnoc<T>(a: seq<T>, b: seq<T>, x: T)
    requires IsSubseq(a, b)
    ensures IsSubseq(a, b + [x])
  {
    assert (b + [x])[..|b|] == b;
    if a != [] && a[|a| - 1] == x {
      IsSubseqDropLast(a, b);
    }
  }

  /** A filtered list keeps the relative order of what it keeps. */
  lemma {:induction false} FilterIsSubseq<T>(s: seq<T>, keep: T -> bool)
    ensures IsSubseq(Filter(s, keep), s)
  {
    if s != [] {
      var p, z := s[..|s| - 1], s[|s| - 1];
      assert s == p + [z];
      FilterIsSubseq(p, keep);
      var f := Filter(p, keep);
      if keep(z) {
        assert (f + [z])[..|f|] == f;
      } else {
        IsSubseqSnoc(f, p, z);
      }
    }
  }

  /** A filter keeps every copy of a kept element and no copy of the others. */
  lemma {:induction false} FilterMultiset<T>(s: seq<T>, keep: T -> bool)
    ensures forall x :: multiset(Filter(s, keep))[x] == if keep(x) then multiset(s)[x] else 0
  {
    if s != [] {
      var p, z := s[..|s| - 1], s[|s| - 1];
      assert s == p + [z];
      FilterMultiset(p, keep);
      assert multiset(s) == multiset(p) + multiset{z};
    }
  }

  /** Filtering a duplicate-free list leaves it duplicate-free. */
  lemma {:induction false} FilterNoDup<T(!new)>(s: seq<T>, keep: T -> bool)
    requires NoDup(s)
    ensures NoDup(Filter(s, keep))
  {
    if s != [] {
      var p, z := s[..|s| - 1], s[|s| - 1];
      assert s == p + [z];
      assert NoDup(p);
      FilterNoDup(p, keep);
      FilterMembers(p, keep);
      assert z !in p;
    }
  }

  /** A filter that keeps everything is the identity. */
  lemma {:induction false} FilterKeepAll<T>(s: seq<T>, keep: T -> bool)
    requires forall i :: 0 <= i < |s| ==> keep(s[i])
    ensures Filter(s, keep) == s
  {
    if s != [] {
      var p, z := s[..|s| - 1], s[|s| - 1];
      assert s == p + [z];
      FilterKeepAll(p, keep);
    }
  }

  /**
   * A loop that converts each element with `f` and skips the ones the
   * conversion rejects (`try: out.append(conv(x)) except: continue`).
   */
  function FilterMap<A, B>(s: seq<A>, f: A -> Option<B>): (r: seq<B>)
    ensures |r| <= |s|
  {
    if s == [] then []
    else
      var rest := FilterMap(s[..|s| - 1], f);
      match f(s[|s| - 1])
      case Some(y) => rest + [y]
      case None => rest
  }

  /** The results are exactly the successful conversions. */
  lemma {:induction false} FilterMapMembers<A, B(!new)>(s: seq<A>, f: A -> Option<B>)
    ensures forall y :: y in FilterMap(s, f) <==> exists i :: 0 <= i < |s| && f(s[i]) == Some(y)
  {
    if s != [] {
      var p := s[..|s| - 1];
      assert forall i :: 0 <= i < |p| ==> p[i] == s[i];
      FilterMapMembers(p, f);
    }
  }

  /** FilterMap works element by element: it distributes over `+`. */
  lemma {:induction false} FilterMapAppend<A, B>(a: seq<A>, b: seq<A>, f: A -> Option<B>)
    ensures FilterMap(a + b, f) == FilterMap(a, f) + FilterMap(b, f)
    decreases |b|
  {
    if b == [] {
      assert a + b == a;
    } else {
      var b' := b[..|b| - 1];
      assert (a + b)[..|a + b| - 1] == a + b';
      FilterMapAppend(a, b', f);
    }
  }

  /** When nothing is rejected, every element is converted, in place. */
  lemma {:induction false} FilterMapAllConverted<A, B>(s: seq<A>, f: A -> Option<B>)
    requires forall i :: 0 <= i < |s| ==> f(s[i]).Some?
    ensures |FilterMap(s, f)| == |s|
    ensures forall i :: 0 <= i < |s| ==> FilterMap(s, f)[i] == f(s[i]).value
  {
    if s != [] {
      var p := s[..|s| - 1];
      FilterMapAllConverted(p, f);
      assert FilterMap(s, f) == FilterMap(p, f) + [f(s[|s| - 1]).value];
    }
  }

  /** Python's `s[:n]` for `n >= 0`. */
  function Take<T>(s: seq<T>, n: nat): (r: seq<T>)
    ensures |r| == if n < |s| then n else |s|
    ensures r == s[..|r|]
  {
    if n < |s| then s[..n] else s
  }

  /** Non-decreasing by `key`. */
  predicate SortedBy<T>(s: seq<T>, key: T -> int) {
    forall i, j :: 0 <= i < j < |s| ==> key(s[i]) <= key(s[j])
  }

  /** Inserts `x` after every element whose key is not larger than its own. */
  function InsertAfterEqual<T>(s: seq<T>, x: T, key: T -> int): (r: seq<T>)
    ensures |r| == |s| + 1
  {
    if s == [] || key(s[|s| - 1]) <= key(x) then s + [x]
    else InsertAfterEqual(s[..|s| - 1], x, key) + [s[|s| - 1]]
  }

  lemma {:induction false} InsertAfterEqualPerm<T>(s: seq<T>, x: T, key: T -> int)
    ensures multiset(InsertAfterEqual(s, x, key)) == multiset(s) + multiset{x}
  {
    if s != [] && key(s[|s| - 1]) > key(x) {
      var p, z := s[..|s| - 1], s[|s| - 1];
      assert s == p + [z];
      InsertAfterEqualPerm(p, x, key);
    }
  }

  lemma {:induction false} InsertAfterEqualSorted<T>(s: seq<T>, x: T, key: T -> int)
    requires SortedBy(s, key)
    ensures SortedBy(InsertAfterEqual(s, x, key), key)
  {
    if s != [] && key(s[|s| - 1]) > key(x) {
      var p, z := s[..|s| - 1], s[|s| - 1];
      assert s == p + [z];
      InsertAfterEqualSorted(p, x, key);
      InsertAfterEqualPerm(p, x, key);
      var r' := InsertAfterEqual(p, x, key);
      forall i | 0 <= i < |r'|
        ensures key(r'[i]) <= key(z)
      {
        assert r'[i] in multiset(r');
        if r'[i] != x {
          assert r'[i] in multiset(p);
          var j :| 0 <= j < |p| && p[j] == r'[i];
          assert s[j] == p[j];
        }
      }
    }
  }

  /** Python's `sorted(s, key=key)`. */
  function SortBy<T>(s: seq<T>, key: T -> int): (r: seq<T>)
    ensures SortedBy(r, key)
    ensures multiset(r) == multiset(s)
  {
    if s == [] then []
    else
      var p, z := s[..|s| - 1], s[|s| - 1];
      assert s == p + [z];
      InsertAfterEqualSorted(SortBy(p, key), z, key);
      InsertAfterEqualPerm(SortBy(p, key), z, key);
      InsertAfterEqual(SortBy(p, key), z, key)
  }

  /** The elements whose key is `k`. */
  function KeyIs<T>(key: T -> int, k: int): T -> bool {
    x => key(x) == k
  }

  /**
   * Inserting `x` appends it to the elements of any one key class `keep`
   * (a class whose members all share a key) and leaves the rest of the
   * class in order.
   */
  lemma {:induction false} InsertAfterEqualStable<T>(s: seq<T>, x: T, key: T -> int, keep: T -> bool)
    requires forall a, b :: keep(a) && keep(b) ==> key(a) == key(b)
    ensures Filter(InsertAfterEqual(s, x, key), keep) == Filter(s, keep) + (if keep(x) then [x] else [])
  {
    if s == [] || key(s[|s| - 1]) <= key(x) {
      FilterSnoc(s, x, keep);
    } else {
      var p, z := s[..|s| - 1], s[|s| - 1];
      assert s == p + [z];
      InsertAfterEqualStable(p, x, key, keep);
      FilterSnoc(InsertAfterEqual(p, x, key), z, keep);
      FilterSnoc(p, z, keep);
      assert !(keep(x) && keep(z));
    }
  }

  /**
   * The sort is stable: the elements sharing any one key keep their
   * original relative order.
   */
  lemma {:induction false} SortByStable<T>(s: seq<T>, key: T -> int, k: int)
    ensures Filter(SortBy(s, key), KeyIs(key, k)) == Filter(s, KeyIs(key, k))
  {
    if s != [] {
      var p, z := s[..|s| - 1], s[|s| - 1];
      SortByStable(p, key, k);
      InsertAfterEqualStable(SortBy(p, key), z, key, KeyIs(key, k));
      FilterSnoc(p, z, KeyIs(key, k));
      assert s == p + [z];
    }
  }
}
