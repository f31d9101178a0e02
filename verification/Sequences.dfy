/** Duplicate-free sequences and the pigeonhole principle on them. */
module Sequences {

  predicate NoDup<T(==)>(s: seq<T>)
  {
    forall i, j :: 0 <= i < j < |s| ==> s[i] != s[j]
  }

  function Last<T>(s: seq<T>): (r: T)
    requires s != []
    ensures r in s
  {
    s[|s| - 1]
  }

  function Front<T>(s: seq<T>): (r: seq<T>)
    requires s != []
    ensures s == r + [Last(s)]
    ensures forall x :: x in r ==> x in s
  {
    s[..|s| - 1]
  }

  /** `s` without its first occurrence of `t`. */
  function Without<T(==)>(s: seq<T>, t: T): (r: seq<T>)
    ensures t !in s ==> r == s
    ensures t in s ==> |r| == |s| - 1
    ensures forall x :: x in r ==> x in s
    ensures forall x :: x in s && x != t ==> x in r
  {
    if s == [] then []
    else if s[0] == t then s[1..]
    else [s[0]] + Without(s[1..], t)
  }

  lemma {:induction false} WithoutAt<T>(s: seq<T>, k: nat)
    requires NoDup(s) && k < |s|
    ensures Without(s, s[k]) == s[..k] + s[k + 1..]
  {
    if k > 0 {
      WithoutAt(s[1..], k - 1);
      assert s[1..][..k - 1] == s[1..k];
      assert s[1..][k..] == s[k + 1..];
      assert s[..k] == [s[0]] + s[1..k];
    }
  }

  lemma WithoutNoDup<T>(s: seq<T>, t: T)
    requires NoDup(s)
    ensures NoDup(Without(s, t)) && t !in Without(s, t)
  {
    if t in s {
      var k :| 0 <= k < |s| && s[k] == t;
      WithoutAt(s, k);
    }
  }

  lemma NoDupCons<T>(t: T, s: seq<T>)
    requires NoDup(s) && t !in s
    ensures NoDup([t] + s)
  {}

  function Range(n: nat): (r: set<nat>)
    ensures |r| == n
    ensures forall i :: i in r <==> 0 <= i < n
  {
    if n == 0 then {} else Range(n - 1) + {n - 1}
  }

  lemma {:induction false} Pigeonhole(s: seq<nat>, free: set<nat>)
    requires NoDup(s) && forall x :: x in s ==> x in free
    ensures |s| <= |free|
  {
    if s != [] {
      var last := Last(s);
      assert last !in Front(s);
      Pigeonhole(Front(s), free - {last});
    }
  }

  /** Distinct numbers below `n` that leave one of them out are fewer than `n`. */
  lemma RoomLeft(s: seq<nat>, n: nat, f: nat)
    requires NoDup(s) && f < n && f !in s
    requires forall x :: x in s ==> x < n
    ensures |s| < n
  {
    Pigeonhole(s, Range(n) - {f});
  }
}
