/**
 * Duplicate removal that keeps the first occurrence of each element, as
 * both `arr.filter((x, i) => arr.indexOf(x) === i)` and
 * `Array.from(new Set(arr))` do.
 */
module Sequences {

  predicate Distinct<T(==)>(s: seq<T>) {
    forall i, j :: 0 <= i < j < |s| ==> s[i] != s[j]
  }

  /** Position of the first occurrence of `x` (`indexOf`). */
  function FirstIndex<T(==)>(s: seq<T>, x: T): (k: nat)
    requires x in s
    ensures k < |s| && s[k] == x && x !in s[..k]
  {
    if s[0] == x then 0
    else
      var k := FirstIndex(s[1..], x) + 1;
      assert s[1..][..k - 1] == s[1..k];
      k
  }

  /** Each element at the first place it occurs; later repeats dropped. */
  function KeepFirst<T(==)>(s: seq<T>): (r: seq<T>)
    ensures Distinct(r)
    ensures forall k :: 0 <= k < |r| ==> r[k] in s
    ensures forall k :: 0 <= k < |s| ==> s[k] in r
    ensures |r| <= |s|
  {
    if s == [] then []
    else
      var p, x := s[..|s| - 1], s[|s| - 1];
      assert s == p + [x];
      if x in p then KeepFirst(p) else KeepFirst(p) + [x]
  }

  lemma {:induction false} FirstIndexExtend<T>(p: seq<T>, y: T, x: T)
    requires x in p
    ensures FirstIndex(p + [y], x) == FirstIndex(p, x)
  {
    if p[0] != x {
      assert (p + [y])[1..] == p[1..] + [y];
      FirstIndexExtend(p[1..], y, x);
    }
  }

  /** The kept elements appear in the order of their first occurrences. */
  lemma {:induction false} KeepFirstOrder<T>(s: seq<T>, i: nat, j: nat)
    requires i < j < |KeepFirst(s)|
    ensures FirstIndex(s, KeepFirst(s)[i]) < FirstIndex(s, KeepFirst(s)[j])
  {
    var p, x := s[..|s| - 1], s[|s| - 1];
    assert s == p + [x];
    var q := KeepFirst(p);
    if x in p {
      FirstIndexExtend(p, x, q[i]);
      FirstIndexExtend(p, x, q[j]);
      KeepFirstOrder(p, i, j);
    } else {
      FirstIndexExtend(p, x, q[i]);
      if j < |q| {
        FirstIndexExtend(p, x, q[j]);
        KeepFirstOrder(p, i, j);
      } else {
        assert KeepFirst(s)[j] == x;
        assert FirstIndex(s, x) == |p|;
      }
    }
  }

  /** A list without repeats is left as it is. */
  lemma {:induction false} KeepFirstOfDistinct<T>(s: seq<T>)
    requires Distinct(s)
    ensures KeepFirst(s) == s
  {
    if s != [] {
      var p, x := s[..|s| - 1], s[|s| - 1];
      assert s == p + [x];
      assert x !in p;
      KeepFirstOfDistinct(p);
    }
  }

  /** A prefix is the shorter prefix and one more element. */
  lemma TakeSnoc<T>(s: seq<T>, n: nat)
    requires 0 < n <= |s|
    ensures s[..n] == s[..n - 1] + [s[n - 1]]
  {
  }

  lemma TakeAll<T>(s: seq<T>)
    ensures s[..|s|] == s
  {
  }

  lemma TakeNone<T>(s: seq<T>)
    ensures s[..0] == []
  {
  }

  lemma FirstOfPair<T>(a: T, b: T)
    ensures [a, b][..1] == [a]
  {
  }

  lemma EmptyAppend<T>(s: seq<T>)
    ensures [] + s == s
  {
  }

  /** Slices of a suffix are slices of the whole. */
  lemma SliceOfSuffix<T>(s: seq<T>, a: nat, m: nat)
    requires a + m <= |s|
    ensures s[a..][..m] == s[a..a + m] && s[a..][m..] == s[a + m..]
  {
  }

  /** `s` is its first element followed by the rest. */
  lemma HeadTail<T>(s: seq<T>)
    requires s != []
    ensures s == [s[0]] + s[1..]
  {
  }

  /** The rest of `[x] + s` is `s`. */
  lemma TailOfCons<T>(x: T, s: seq<T>)
    ensures ([x] + s)[1..] == s && ([x] + s)[0] == x
  {
  }

  lemma AppendEmpty<T>(s: seq<T>)
    ensures s + [] == s
  {
  }

  lemma Singleton<T>(s: seq<T>)
    requires |s| == 1
    ensures s == [s[0]]
  {
  }

  lemma Three<T>(s: seq<T>)
    requires |s| == 3
    ensures s == [s[0], s[1], s[2]]
  {
  }

  lemma TailsOfThree<T>(a: T, b: T, c: T)
    ensures [a, b, c][1..] == [b, c] && [b, c][1..] == [c]
  {
  }

  lemma PrefixOfPrefix<T>(s: seq<T>, i: nat)
    requires i < |s|
    ensures s[..i + 1][..i] == s[..i] && s[..i + 1][i] == s[i]
  {
  }

  /** An element missing from a sequence is missing from its slices. */
  lemma NotInSlice<T>(s: seq<T>, x: T, a: nat, b: nat)
    requires x !in s && a <= b <= |s|
    ensures x !in s[a..b]
  {
  }

  lemma AroundIndex<T>(s: seq<T>, i: nat)
    requires i < |s|
    ensures s == s[..i] + [s[i]] + s[i + 1..]
  {
  }

  lemma TakeOfSlice<T>(s: seq<T>, a: nat, b: nat, m: nat)
    requires a + m <= b <= |s|
    ensures s[a..b][..m] == s[a..a + m]
  {
  }

  lemma TailOfAppend<T>(a: seq<T>, b: seq<T>)
    requires a != []
    ensures (a + b)[0] == a[0] && (a + b)[1..] == a[1..] + b
  {
  }

  lemma InitOfAppend<T>(a: seq<T>, b: seq<T>)
    requires b != []
    ensures (a + b)[..|a + b| - 1] == a + b[..|b| - 1] && (a + b)[|a + b| - 1] == b[|b| - 1]
  {
  }
}
