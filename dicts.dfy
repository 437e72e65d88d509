/** Python dictionaries whose iteration order the modelled code observes.  A dictionary is its
    keys in insertion order together with the value under each key.  Assigning to a present key
    replaces its value and keeps its place; assigning to a new key appends it. */
module Dicts {
  import opened Wrappers

  datatype Dict<K, V> = Dict(keys: seq<K>, values: map<K, V>)

  predicate NoDuplicates<T(==)>(s: seq<T>) {
    forall i, j :: 0 <= i < j < |s| ==> s[i] != s[j]
  }

  /** The keys of a dictionary built from `l`: each once, in order of first appearance. */
  function Distinct<T(==, !new)>(l: seq<T>): (r: seq<T>)
    ensures NoDuplicates(r)
    ensures forall x :: x in r <==> x in l
  {
    if l == [] then []
    else
      var n := |l| - 1;
      assert l == l[..n] + [l[n]];
      var r := Distinct(l[..n]);
      if l[n] in r then r else r + [l[n]]
  }

  /** `len(set(s)) < len(s)` exactly when some element is repeated. */
  lemma {:induction false} SetSizeNoDuplicates<T>(s: seq<T>)
    ensures |set x | x in s| <= |s|
    ensures |set x | x in s| == |s| <==> NoDuplicates(s)
  {
    if s != [] {
      var n := |s| - 1;
      var init := s[..n];
      SetSizeNoDuplicates(init);
      assert s == init + [s[n]];
      assert (set x | x in s) == (set x | x in init) + {s[n]};
      if s[n] in init {
        var i :| 0 <= i < n && init[i] == s[n];
        assert s[i] == s[n];
      } else {
        assert NoDuplicates(s) <==> NoDuplicates(init) by {
          if NoDuplicates(init) {
            forall i, j | 0 <= i < j < |s| ensures s[i] != s[j] {
              if j < n {
                assert s[i] == init[i] && s[j] == init[j];
              } else {
                assert s[i] in init;
              }
            }
          }
          if NoDuplicates(s) {
            forall i, j | 0 <= i < j < n ensures init[i] != init[j] {
              assert init[i] == s[i] && init[j] == s[j];
            }
          }
        }
      }
    }
  }

  /** The keys are listed once each, and exactly the keys hold values. */
  ghost predicate Valid<K(!new), V>(d: Dict<K, V>) {
    NoDuplicates(d.keys) && forall k :: k in d.values <==> k in d.keys
  }

  /** `{}` */
  function Empty<K(!new), V>(): (d: Dict<K, V>)
    ensures Valid(d) && d.keys == []
  {
    Dict([], map[])
  }

  /** `d[k]`: a missing key raises `KeyError`. */
  function Lookup<K, V>(d: Dict<K, V>, k: K): (r: Result<V>)
    ensures r.Err? <==> k !in d.values
    ensures r.Err? ==> r.error == KeyError
    ensures r.Ok? ==> k in d.values && r.value == d.values[k]
  {
    if k in d.values then Ok(d.values[k]) else Err(KeyError)
  }

  /** `d[k] = v`: a present key keeps its place and a new key goes last; `k` then holds `v` and
      every other key keeps its value. */
  function Put<K(!new), V>(d: Dict<K, V>, k: K, v: V): (r: Dict<K, V>)
    ensures Valid(d) ==> Valid(r)
    ensures k in d.values ==> r.keys == d.keys
    ensures k !in d.values ==> r.keys == d.keys + [k]
    ensures r.values == d.values[k := v]
  {
    if k in d.values then Dict(d.keys, d.values[k := v]) else Dict(d.keys + [k], d.values[k := v])
  }

  /** Changing only values keeps a dictionary well formed. */
  lemma SameKeysValid<K(!new), V>(d: Dict<K, V>, e: Dict<K, V>)
    requires Valid(d) && e.keys == d.keys && e.values.Keys == d.values.Keys
    ensures Valid(e)
  {
  }

  /** The keys of a list of pairs, in order. */
  function KeysOf<K, V>(pairs: seq<(K, V)>): (ks: seq<K>)
    ensures |ks| == |pairs|
    ensures forall i :: 0 <= i < |pairs| ==> ks[i] == pairs[i].0
  {
    seq(|pairs|, i requires 0 <= i < |pairs| => pairs[i].0)
  }

  /** `dict(pairs)`: later pairs overwrite earlier ones with the same key. */
  function FromPairs<K(!new), V>(pairs: seq<(K, V)>): (d: Dict<K, V>)
    ensures Valid(d)
    ensures forall k :: k in d.values <==> k in KeysOf(pairs)
  {
    if pairs == [] then Empty()
    else
      var init := pairs[..|pairs| - 1];
      var last := pairs[|pairs| - 1];
      assert KeysOf(pairs) == KeysOf(init) + [last.0];
      Put(FromPairs(init), last.0, last.1)
  }

  /** In `dict(pairs)` a key holds the value of its last pair. */
  lemma {:induction false} FromPairsLastWins<K(!new), V>(pairs: seq<(K, V)>, i: nat)
    requires i < |pairs|
    requires forall j :: i < j < |pairs| ==> pairs[j].0 != pairs[i].0
    ensures pairs[i].0 in FromPairs(pairs).values
    ensures FromPairs(pairs).values[pairs[i].0] == pairs[i].1
  {
    if i < |pairs| - 1 {
      FromPairsLastWins(pairs[..|pairs| - 1], i);
    }
  }

  /** Every value of `dict(pairs)` comes from a pair with its key. */
  lemma {:induction false} FromPairsValue<K(!new), V>(pairs: seq<(K, V)>, k: K)
    requires k in FromPairs(pairs).values
    ensures exists i :: 0 <= i < |pairs| && pairs[i] == (k, FromPairs(pairs).values[k])
  {
    var init := pairs[..|pairs| - 1];
    var last := pairs[|pairs| - 1];
    if k == last.0 {
      assert pairs[|pairs| - 1] == (k, FromPairs(pairs).values[k]);
    } else {
      FromPairsValue(init, k);
      var i :| 0 <= i < |init| && init[i] == (k, FromPairs(init).values[k]);
      assert pairs[i] == init[i];
    }
  }

  /** With no repeated key, `dict(pairs)` lists the keys in the order of the pairs. */
  lemma {:induction false} FromPairsOrder<K(!new), V>(pairs: seq<(K, V)>)
    requires NoDuplicates(KeysOf(pairs))
    ensures FromPairs(pairs).keys == KeysOf(pairs)
  {
    if pairs != [] {
      var init := pairs[..|pairs| - 1];
      var last := pairs[|pairs| - 1];
      assert KeysOf(pairs) == KeysOf(init) + [last.0];
      FromPairsOrder(init);
    }
  }
}
