/** The array combinators the frontend relies on (`filter`, `find`,
    `findIndex`), stated once for every element type. */
module Seqs {
  import opened Wrappers

  /** `a` can be obtained from `b` by deleting elements: the order of what is
      kept is the order in `b`. */
  ghost predicate IsSubsequence<T>(a: seq<T>, b: seq<T>)
    decreases |b|
  {
    a == [] ||
    (b != [] && ((a[0] == b[0] && IsSubsequence(a[1..], b[1..])) || IsSubsequence(a, b[1..])))
  }

  /** Every two elements, taken in list order, satisfy `ok`. */
  ghost predicate Pairwise<T>(s: seq<T>, ok: (T, T) -> bool)
  {
    forall i, j :: 0 <= i < j < |s| ==> ok(s[i], s[j])
  }

  /** `Array.prototype.filter`: the elements satisfying `keep`, in order
      (each as often as it occurs in `s`, see `FilterCounts`). */
  function Filter<T(!new)>(s: seq<T>, keep: T -> bool): (r: seq<T>)
    ensures |r| <= |s|
    ensures forall i :: 0 <= i < |r| ==> keep(r[i])
    ensures forall x :: x in r <==> x in s && keep(x)
    ensures IsSubsequence(r, s)
  {
    if s == [] then []
    else
      assert s == [s[0]] + s[1..];
      var rest := Filter(s[1..], keep);
      if keep(s[0]) then
        assert ([s[0]] + rest)[1..] == rest;
        [s[0]] + rest
      else rest
  }

  /** Filtering keeps each passing element as often as it occurs, and drops
      every other element. */
  lemma {:induction false} FilterCounts<T(!new)>(s: seq<T>, keep: T -> bool)
    ensures forall x :: multiset(Filter(s, keep))[x] == if keep(x) then multiset(s)[x] else 0
  {
    if s != [] {
      FilterCounts(s[1..], keep);
      assert s == [s[0]] + s[1..];
    }
  }

  /** Filtering keeps everything when every element passes. */
  lemma {:induction false} FilterKeepsAll<T(!new)>(s: seq<T>, keep: T -> bool)
    requires forall i :: 0 <= i < |s| ==> keep(s[i])
    ensures Filter(s, keep) == s
  {
    if s != [] {
      FilterKeepsAll(s[1..], keep);
      assert s == [s[0]] + s[1..];
    }
  }

  /** A subsequence keeps every pairwise property of the sequence it was taken from. */
  lemma {:induction false} SubsequenceKeepsPairwise<T>(a: seq<T>, b: seq<T>, ok: (T, T) -> bool)
    requires IsSubsequence(a, b) && Pairwise(b, ok)
    ensures Pairwise(a, ok)
    decreases |b|
  {
    if a != [] {
      if a[0] == b[0] && IsSubsequence(a[1..], b[1..]) {
        SubsequenceKeepsPairwise(a[1..], b[1..], ok);
        SubsequenceElements(a[1..], b[1..]);
        forall i, j | 0 <= i < j < |a| ensures ok(a[i], a[j]) {
          if i == 0 {
            assert a[j] == a[1..][j - 1];
            assert a[j] in a[1..];
            assert a[j] in b[1..];
            var k :| 0 <= k < |b[1..]| && b[1..][k] == a[j];
            assert ok(b[0], b[k + 1]);
          } else {
            assert a[i] == a[1..][i - 1] && a[j] == a[1..][j - 1];
          }
        }
      } else {
        SubsequenceKeepsPairwise(a, b[1..], ok);
      }
    }
  }

  /** Every element of a subsequence is an element of the sequence. */
  lemma {:induction false} SubsequenceElements<T>(a: seq<T>, b: seq<T>)
    requires IsSubsequence(a, b)
    ensures forall x :: x in a ==> x in b
    decreases |b|
  {
    if a != [] {
      if a[0] == b[0] && IsSubsequence(a[1..], b[1..]) {
        SubsequenceElements(a[1..], b[1..]);
        assert a == [a[0]] + a[1..];
      } else {
        SubsequenceElements(a, b[1..]);
      }
    }
  }

  /** `Array.prototype.findIndex`, with "not found" as `None`: the first
      position whose element satisfies `p`. */
  function FirstIndex<T>(s: seq<T>, p: T -> bool): (r: Option<nat>)
    ensures r.Some? ==> r.value < |s| && p(s[r.value]) && forall j :: 0 <= j < r.value ==> !p(s[j])
    ensures r.None? <==> forall j :: 0 <= j < |s| ==> !p(s[j])
  {
    if s == [] then None
    else if p(s[0]) then Some(0)
    else
      match FirstIndex(s[1..], p)
      case None => None
      case Some(k) => Some(k + 1)
  }

  /** A position that satisfies `p` with none before it is the first index. */
  lemma FirstIndexUnique<T>(s: seq<T>, p: T -> bool, k: nat)
    requires k < |s| && p(s[k]) && forall j :: 0 <= j < k ==> !p(s[j])
    ensures FirstIndex(s, p) == Some(k)
  {
    var r := FirstIndex(s, p);
    assert r.Some? by { assert p(s[k]); }
    assert !(r.value < k) && !(k < r.value);
  }

  /** Appending an element does not change a match that is already there. */
  lemma FindAppend<T>(s: seq<T>, x: T, p: T -> bool)
    requires Find(s, p).Some?
    ensures Find(s + [x], p) == Find(s, p)
  {
    var k := FirstIndex(s, p).value;
    forall j | 0 <= j <= k ensures (s + [x])[j] == s[j] { }
    FirstIndexUnique(s + [x], p, k);
  }

  /** `Array.prototype.find`: the first element satisfying `p`. */
  function Find<T>(s: seq<T>, p: T -> bool): (r: Option<T>)
    ensures r.None? <==> forall j :: 0 <= j < |s| ==> !p(s[j])
    ensures r.Some? ==> exists k :: 0 <= k < |s| && s[k] == r.value && p(s[k]) &&
                                    forall j :: 0 <= j < k ==> !p(s[j])
  {
    match FirstIndex(s, p)
    case None => None
    case Some(k) => Some(s[k])
  }

  /** `Array.prototype.reverse` on a copy: the elements from last to first. */
  function Reversed<T>(s: seq<T>): (r: seq<T>)
    ensures |r| == |s|
    ensures forall k :: 0 <= k < |s| ==> r[k] == s[|s| - 1 - k]
  {
    if s == [] then [] else Reversed(s[1..]) + [s[0]]
  }
}
