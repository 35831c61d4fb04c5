/** Taking one element out of a sequence. */
module Sequences {

  function Without<T>(s: seq<T>, i: nat): (r: seq<T>)
    requires i < |s|
    ensures |r| == |s| - 1
  {
    s[..i] + s[i + 1..]
  }

  lemma WithoutAt<T>(s: seq<T>, i: nat)
    requires i < |s|
    ensures forall k :: 0 <= k < i ==> Without(s, i)[k] == s[k]
    ensures forall k :: i < k < |s| ==> Without(s, i)[k - 1] == s[k]
    ensures forall k :: i <= k < |s| - 1 ==> Without(s, i)[k] == s[k + 1]
  {
  }

  lemma WithoutFirst<T>(s: seq<T>, i: nat)
    requires i < |s|
    ensures Without(s, i) == if i == 0 then s[1..] else [s[0]] + Without(s[1..], i - 1)
  {
  }

  lemma WithoutIsOneLess<T>(s: seq<T>, i: nat)
    requires i < |s|
    ensures multiset(s) == multiset(Without(s, i)) + multiset{s[i]}
  {
    assert s == s[..i] + [s[i]] + s[i + 1..];
  }

  /** Taking an element out of the second of two sequences. */
  lemma WithoutBehind<T>(s: seq<T>, t: seq<T>, i: nat)
    requires i < |t|
    ensures Without(s + t, |s| + i) == s + Without(t, i) && (s + t)[|s| + i] == t[i]
  {
  }
}
