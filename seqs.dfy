/** Prefix and suffix selection on sequences, as iterator `take(n)` and `skip(n)` do. */
module Seqs {

  function Min(a: nat, b: nat): nat {
    if a <= b then a else b
  }

  function Max(a: nat, b: nat): nat {
    if a <= b then b else a
  }

  /** The first `n` elements, or all of them when there are fewer. */
  function Take<T>(s: seq<T>, n: nat): (r: seq<T>)
    ensures |r| == Min(n, |s|)
    ensures r <= s
  {
    if |s| <= n then s else s[..n]
  }

  /** Everything after the first `n` elements. */
  function Drop<T>(s: seq<T>, n: nat): (r: seq<T>)
    ensures |r| == |s| - Min(n, |s|)
    ensures r == s[Min(n, |s|)..]
  {
    if |s| <= n then [] else s[n..]
  }

  lemma DropAppend<T>(a: seq<T>, b: seq<T>, n: nat)
    requires n <= |a|
    ensures Drop(a + b, n) == Drop(a, n) + b
  {
    assert (a + b)[n..] == a[n..] + b;
  }

  lemma TakeAppend<T>(a: seq<T>, b: seq<T>)
    ensures Take(a + b, |a|) == a
  {
    assert (a + b)[..|a|] == a;
  }
}
