/** The LINQ operators the compiler applies to its lists: `Where` and
    `First`, over sequences in their enumeration order. */
module Queries {
  import opened Base

  /** `s.Where(p)`: the elements satisfying `p`, in their original order. */
  function Where<T>(s: seq<T>, p: T -> bool): (r: seq<T>)
    ensures |r| <= |s|
    ensures forall i :: 0 <= i < |r| ==> p(r[i])
  {
    if s == [] then [] else (if p(s[0]) then [s[0]] else []) + Where(s[1..], p)
  }

  /** An element survives `Where` exactly when it was present and satisfies
      the predicate. */
  lemma {:induction false} WhereMember<T>(s: seq<T>, p: T -> bool, x: T)
    ensures x in Where(s, p) <==> x in s && p(x)
  {
    if s != [] {
      WhereMember(s[1..], p, x);
      assert s == [s[0]] + s[1..];
    }
  }

  /** `Where(p)` and `Where(!p)` split the sequence: their lengths add up. */
  lemma {:induction false} WhereSplit<T>(s: seq<T>, p: T -> bool, q: T -> bool)
    requires forall x :: q(x) == !p(x)
    ensures |Where(s, p)| + |Where(s, q)| == |s|
  {
    if s != [] {
      WhereSplit(s[1..], p, q);
    }
  }

  predicate AscendingBy<T>(s: seq<T>, key: T -> int)
  {
    forall i, j :: 0 <= i < j < |s| ==> key(s[i]) < key(s[j])
  }

  /** `Where` keeps the order of what it keeps. */
  lemma {:induction false} WhereAscending<T>(s: seq<T>, p: T -> bool, key: T -> int)
    requires AscendingBy(s, key)
    ensures AscendingBy(Where(s, p), key)
  {
    if s != [] {
      WhereAscending(s[1..], p, key);
      var r0 := Where(s[1..], p);
      if p(s[0]) {
        var r := [s[0]] + r0;
        forall i, j | 0 <= i < j < |r| ensures key(r[i]) < key(r[j]) {
          WhereMember(s[1..], p, r[j]);
          var k :| 0 <= k < |s[1..]| && s[1..][k] == r[j];
          assert s[k + 1] == r[j];
          if i > 0 {
            WhereMember(s[1..], p, r[i]);
          }
        }
      }
    }
  }

  /** The index `s.First(p)` stops at: the first element satisfying `p`, or
      None where `First` throws because there is none. */
  function FirstIndex<T>(s: seq<T>, p: T -> bool): (r: Option<nat>)
    ensures r.Some? ==> r.value < |s| && p(s[r.value])
    ensures r.Some? ==> forall k :: 0 <= k < r.value ==> !p(s[k])
    ensures r.None? ==> forall k :: 0 <= k < |s| ==> !p(s[k])
  {
    if s == [] then None
    else if p(s[0]) then Some(0)
    else
      var r := FirstIndex(s[1..], p);
      assert forall k :: 1 <= k < |s| ==> s[k] == s[1..][k - 1];
      if r.Some? then Some(r.value + 1) else None
  }

  /** `s.Select(f)`. */
  function Select<T, U>(s: seq<T>, f: T -> U): (r: seq<U>)
    ensures |r| == |s|
    ensures forall i :: 0 <= i < |s| ==> r[i] == f(s[i])
  {
    if s == [] then [] else [f(s[0])] + Select(s[1..], f)
  }
}
