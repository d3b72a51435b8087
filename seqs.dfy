/** Small facts about sequences that the larger proofs lean on. */
module Seqs {
  /** Concatenation regrouped to the left. */
  lemma Assoc<T>(x: seq<T>, y: seq<T>, z: seq<T>)
    ensures x + (y + z) == x + y + z
  {}

  /** Strictly increasing indices. */
  predicate Increasing(s: seq<nat>) {
    forall a, b :: 0 <= a < b < |s| ==> s[a] < s[b]
  }

  /** An index above every element extends an increasing sequence. */
  lemma SnocIncreasing(s: seq<nat>, x: nat)
    requires Increasing(s) && forall a :: 0 <= a < |s| ==> s[a] < x
    ensures Increasing(s + [x])
  {
    var r := s + [x];
    forall a, b | 0 <= a < b < |r|
      ensures r[a] < r[b]
    {
      assert r[a] == s[a];
      if b < |s| {
        assert r[b] == s[b];
      }
    }
  }

  /** A sequence whose elements all lie in [lo, hi) is empty unless the
      range is. */
  lemma EmptyRange(s: seq<nat>, lo: nat, hi: nat)
    requires forall a :: 0 <= a < |s| ==> lo <= s[a] < hi
    ensures s == [] || lo < hi
  {
    if s != [] {
      assert lo <= s[0] < hi;
    }
  }

  /** Moving the boundary between two equal-length sequences by one place. */
  lemma SpliceStep<T>(p: seq<T>, t: seq<T>, i: nat)
    requires |p| == |t| && i < |t|
    ensures p[..i + 1] + t[i + 1..] == (p[..i] + t[i..])[i := p[i]]
  {
    var u := (p[..i] + t[i..])[i := p[i]];
    var v := p[..i + 1] + t[i + 1..];
    forall j | 0 <= j < |u|
      ensures u[j] == v[j]
    {
      if j < i {
        assert u[j] == p[..i][j] == p[j];
        assert v[j] == p[..i + 1][j] == p[j];
      } else if j > i {
        assert u[j] == t[i..][j - i] == t[j];
        assert v[j] == t[i + 1..][j - i - 1] == t[j];
      }
    }
  }
}
