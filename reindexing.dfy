/**
 * Reading a sequence through an index map. A map that sends distinct
 * positions to distinct positions only rearranges the values, so the
 * multiset of values is kept.
 */
module Reindexing {
  /** Every entry of `m` is an index of a sequence of length n. */
  predicate IsIndexMap(m: seq<int>, n: int) {
    forall k :: 0 <= k < |m| ==> 0 <= m[k] < n
  }

  predicate Distinct(m: seq<int>) {
    forall i, j :: 0 <= i < j < |m| ==> m[i] != m[j]
  }

  /** The sequence whose k-th value is s[m[k]]. */
  function Reindex(s: seq<int>, m: seq<int>): seq<int>
    requires IsIndexMap(m, |s|)
  {
    seq(|m|, k requires 0 <= k < |m| => s[m[k]])
  }

  /** Removing index j from s and shifting the map accordingly reads the same values. */
  function Without(m: seq<int>, j: int): seq<int> {
    seq(|m|, k requires 0 <= k < |m| => if m[k] < j then m[k] else m[k] - 1)
  }

  lemma WithoutKeepsValues(s: seq<int>, m: seq<int>, j: int)
    requires IsIndexMap(m, |s|) && Distinct(m) && 0 <= j < |s| && j !in m
    ensures IsIndexMap(Without(m, j), |s| - 1) && Distinct(Without(m, j))
    ensures Reindex(s[..j] + s[j + 1..], Without(m, j)) == Reindex(s, m)
  {
    var m' := Without(m, j);
    forall i, k | 0 <= i < k < |m|
      ensures m'[i] != m'[k]
    {
      assert m[i] != m[k] && m[i] != j && m[k] != j;
    }
    forall k | 0 <= k < |m|
      ensures 0 <= m'[k] < |s| - 1
    {
      assert m[k] != j;
    }
  }

  /** Reading s through a bijective index map yields the same multiset of values. */
  lemma {:induction false} ReindexPreservesMultiset(s: seq<int>, m: seq<int>)
    requires |m| == |s| && IsIndexMap(m, |s|) && Distinct(m)
    ensures multiset(Reindex(s, m)) == multiset(s)
    decreases |s|
  {
    if |s| > 0 {
      var n := |s|;
      var j := m[n - 1];
      var init := m[..n - 1];
      assert j !in init;
      WithoutKeepsValues(s, init, j);
      ReindexPreservesMultiset(s[..j] + s[j + 1..], Without(init, j));
      var t := Reindex(s, m);
      assert t == Reindex(s, init) + [s[j]];
      assert s == s[..j] + [s[j]] + s[j + 1..];
      calc {
        multiset(s);
        multiset(s[..j]) + multiset{s[j]} + multiset(s[j + 1..]);
        multiset(s[..j] + s[j + 1..]) + multiset{s[j]};
        multiset(Reindex(s, init)) + multiset{s[j]};
        multiset(t);
      }
    }
  }
}
