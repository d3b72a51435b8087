/** String-keyed dictionaries that remember insertion order, as a JavaScript
    `Map` or a plain object with string keys does. */
module Dicts {
  import opened Wrappers

  /** Entries in insertion order. */
  type Dict<V> = seq<(string, V)>

  /** `m.get(k)` / `obj[k]`: the value of the first entry with key `k`. */
  function Lookup<V>(m: Dict<V>, k: string): Option<V>
    decreases |m|
  {
    if m == [] then None else if m[0].0 == k then Some(m[0].1) else Lookup(m[1..], k)
  }

  predicate UniqueKeys<V>(m: Dict<V>) {
    forall i, j :: 0 <= i < j < |m| ==> m[i].0 != m[j].0
  }

  /** `m.set(k, x)` / `obj[k] = x`: an existing key keeps its place and takes
      the new value; a new key goes last. */
  function Put<V>(m: Dict<V>, k: string, x: V): (r: Dict<V>)
    ensures Lookup(r, k) == Some(x)
    ensures forall k' :: k' != k ==> Lookup(r, k') == Lookup(m, k')
    ensures Lookup(m, k).None? ==> r == m + [(k, x)]
    ensures Lookup(m, k).Some? ==> |r| == |m| && forall i :: 0 <= i < |m| ==> r[i].0 == m[i].0
    decreases |m|
  {
    if m == [] then [(k, x)]
    else if m[0].0 == k then [(k, x)] + m[1..]
    else [m[0]] + Put(m[1..], k, x)
  }

  /** A key with no value is the key of no entry. */
  lemma {:induction false} LookupNone<V>(m: Dict<V>, k: string)
    requires Lookup(m, k).None?
    ensures forall i :: 0 <= i < |m| ==> m[i].0 != k
    decreases |m|
  {
    if m != [] {
      LookupNone(m[1..], k);
      assert forall i :: 1 <= i < |m| ==> m[i] == m[1..][i - 1];
    }
  }

  /** The converse: a key of no entry has no value. */
  lemma {:induction false} LookupOutside<V>(m: Dict<V>, k: string)
    requires forall i :: 0 <= i < |m| ==> m[i].0 != k
    ensures Lookup(m, k).None?
    decreases |m|
  {
    if m != [] {
      assert forall i :: 1 <= i < |m| ==> m[i] == m[1..][i - 1];
      LookupOutside(m[1..], k);
    }
  }

  /** With distinct keys, the entry at `i` is what its key looks up. */
  lemma {:induction false} LookupAt<V>(m: Dict<V>, i: int)
    requires UniqueKeys(m) && 0 <= i < |m|
    ensures Lookup(m, m[i].0) == Some(m[i].1)
    decreases |m|
  {
    if i > 0 {
      assert m[1..][i - 1] == m[i];
      LookupAt(m[1..], i - 1);
    }
  }

  /** Assigning a key keeps the keys distinct. */
  lemma PutUnique<V>(m: Dict<V>, k: string, x: V)
    requires UniqueKeys(m)
    ensures UniqueKeys(Put(m, k, x))
  {
    var r := Put(m, k, x);
    if Lookup(m, k).None? {
      LookupNone(m, k);
      forall a, b | 0 <= a < b < |r|
        ensures r[a].0 != r[b].0
      {
        assert r[a] == m[a];
        if b < |m| {
          assert r[b] == m[b];
        } else {
          assert r[b] == (k, x);
        }
      }
    } else {
      forall a, b | 0 <= a < b < |r|
        ensures r[a].0 != r[b].0
      {
        assert r[a].0 == m[a].0 && r[b].0 == m[b].0;
      }
    }
  }

  /** With distinct keys, assigning a key changes the entry holding it and
      no other. */
  lemma {:induction false} PutAt<V>(m: Dict<V>, k: string, x: V, i: nat)
    requires UniqueKeys(m) && i < |m|
    ensures Put(m, k, x)[i] == (if m[i].0 == k then (k, x) else m[i])
    decreases |m|
  {
    if m[0].0 == k {
      if i > 0 {
        assert m[i].0 != m[0].0;
      }
    } else if i > 0 {
      assert UniqueKeys(m[1..]) by {
        forall a, b | 0 <= a < b < |m[1..]|
          ensures m[1..][a].0 != m[1..][b].0
        {
          assert m[1..][a] == m[a + 1] && m[1..][b] == m[b + 1];
        }
      }
      PutAt(m[1..], k, x, i - 1);
    }
  }

  /** The place of the entry a key looks up. */
  lemma {:induction false} LookupIndex<V>(m: Dict<V>, k: string) returns (i: nat)
    requires Lookup(m, k).Some?
    ensures i < |m| && m[i] == (k, Lookup(m, k).value)
    decreases |m|
  {
    if m[0].0 == k {
      i := 0;
    } else {
      var j := LookupIndex(m[1..], k);
      i := j + 1;
    }
  }

  /** The dictionary built by assigning the pairs in order: a repeated key
      keeps its first place and its last value. */
  function FromPairs<V>(ps: seq<(string, V)>): Dict<V>
    decreases |ps|
  {
    if ps == [] then [] else Put(FromPairs(ps[..|ps| - 1]), ps[|ps| - 1].0, ps[|ps| - 1].1)
  }

  /** Building from pairs always gives distinct keys. */
  lemma {:induction false} FromPairsUniqueKeys<V>(ps: seq<(string, V)>)
    ensures UniqueKeys(FromPairs(ps))
    decreases |ps|
  {
    if ps != [] {
      FromPairsUniqueKeys(ps[..|ps| - 1]);
      PutUnique(FromPairs(ps[..|ps| - 1]), ps[|ps| - 1].0, ps[|ps| - 1].1);
    }
  }

  /** Pairs whose keys are already distinct come back unchanged. */
  lemma {:induction false} FromPairsUnique<V>(ps: seq<(string, V)>)
    requires UniqueKeys(ps)
    ensures FromPairs(ps) == ps
    decreases |ps|
  {
    if ps != [] {
      var init := ps[..|ps| - 1];
      assert UniqueKeys(init);
      FromPairsUnique(init);
      LookupOutside(init, ps[|ps| - 1].0);
      assert init + [ps[|ps| - 1]] == ps;
    }
  }
}
