/**
 Sums and counts over sequences, indexed from the front so that an ascending loop
 `for i := 0 to n` keeps `t == SumTo(s, i)` without slicing.
 */
module Seqs {

  /** s[0] + ... + s[n-1] */
  function SumTo(s: seq<int>, n: nat): (r: int)
    requires n <= |s|
  {
    if n == 0 then 0 else SumTo(s, n - 1) + s[n - 1]
  }

  function Sum(s: seq<int>): (r: int) {
    SumTo(s, |s|)
  }

  /** The sequence of n zeros. */
  function Zeros(n: nat): (r: seq<nat>)
    ensures |r| == n
  {
    seq(n, _ => 0)
  }

  lemma {:induction false} SumToUpdate(s: seq<int>, n: nat, i: nat, v: int)
    requires n <= |s| && i < |s|
    ensures SumTo(s[i := v], n) == SumTo(s, n) + (if i < n then v - s[i] else 0)
  {
    if n > 0 { SumToUpdate(s, n - 1, i, v); }
  }

  lemma SumUpdate(s: seq<int>, i: nat, v: int)
    requires i < |s|
    ensures Sum(s[i := v]) == Sum(s) + v - s[i]
  {
    SumToUpdate(s, |s|, i, v);
  }

  lemma {:induction false} SumToZero(s: seq<int>, n: nat)
    requires n <= |s| && forall i :: 0 <= i < n ==> s[i] == 0
    ensures SumTo(s, n) == 0
  {
    if n > 0 { SumToZero(s, n - 1); }
  }

  lemma {:induction false} SumToMono(s: seq<int>, t: seq<int>, n: nat)
    requires n <= |s| && n <= |t|
    requires forall i :: 0 <= i < n ==> s[i] <= t[i]
    ensures SumTo(s, n) <= SumTo(t, n)
    ensures SumTo(s, n) == SumTo(t, n) ==> forall i :: 0 <= i < n ==> s[i] == t[i]
  {
    if n > 0 { SumToMono(s, t, n - 1); }
  }

  lemma {:induction false} SumToNonNegative(s: seq<int>, n: nat)
    requires n <= |s| && forall i :: 0 <= i < n ==> 0 <= s[i]
    ensures 0 <= SumTo(s, n)
    ensures forall i :: 0 <= i < n ==> s[i] <= SumTo(s, n)
  {
    if n > 0 { SumToNonNegative(s, n - 1); }
  }

  lemma {:induction false} SumToAdd(s: seq<int>, t: seq<int>, u: seq<int>, n: nat)
    requires n <= |s| && n <= |t| && n <= |u|
    requires forall i :: 0 <= i < n ==> u[i] == s[i] + t[i]
    ensures SumTo(u, n) == SumTo(s, n) + SumTo(t, n)
  {
    if n > 0 { SumToAdd(s, t, u, n - 1); }
  }

  /** How many of s[0], ..., s[n-1] equal x. */
  function CountTo(s: seq<int>, n: nat, x: int): (r: nat)
    requires n <= |s|
  {
    if n == 0 then 0 else CountTo(s, n - 1, x) + (if s[n - 1] == x then 1 else 0)
  }

  function Count(s: seq<int>, x: int): (r: nat) {
    CountTo(s, |s|, x)
  }

  lemma {:induction false} CountToUpdate(s: seq<int>, n: nat, i: nat, v: int, x: int)
    requires n <= |s| && i < |s|
    ensures CountTo(s[i := v], n, x) ==
      CountTo(s, n, x) + (if i < n && v == x then 1 else 0) - (if i < n && s[i] == x then 1 else 0)
  {
    if n > 0 { CountToUpdate(s, n - 1, i, v, x); }
  }

  lemma CountUpdate(s: seq<int>, i: nat, v: int, x: int)
    requires i < |s|
    ensures Count(s[i := v], x) == Count(s, x) + (if v == x then 1 else 0) - (if s[i] == x then 1 else 0)
  {
    CountToUpdate(s, |s|, i, v, x);
  }

  lemma {:induction false} CountToZero(s: seq<int>, n: nat, x: int)
    requires n <= |s|
    ensures CountTo(s, n, x) == 0 <==> forall i :: 0 <= i < n ==> s[i] != x
  {
    if n > 0 { CountToZero(s, n - 1, x); }
  }

  lemma {:induction false} CountToAll(s: seq<int>, n: nat, x: int)
    requires n <= |s| && forall i :: 0 <= i < n ==> s[i] == x
    ensures CountTo(s, n, x) == n
  {
    if n > 0 { CountToAll(s, n - 1, x); }
  }

  /** How many of s[0], ..., s[n-1] are positive. */
  function Positives(s: seq<nat>, n: nat): (r: nat)
    requires n <= |s|
    ensures r <= n
  {
    if n == 0 then 0 else Positives(s, n - 1) + (if s[n - 1] > 0 then 1 else 0)
  }

  ghost predicate Distinct(s: seq<nat>) {
    forall i, j :: 0 <= i < j < |s| ==> s[i] != s[j]
  }
}
