/** Poset tables built from time-series data, and the networks they cover (`calculate_poset` and
    `check_posets` of the poset utilities).

    Networks are their specification strings; the variable names of the network a
    specification describes are a library computation, the input `graph`.  The names present in
    a time-series file and the posets of extrema computed from it are inputs as well. */
module Posets {
  import opened Wrappers
  import opened Dsgrn
  import opened PosetTables

  /** The network a specification describes. */
  type Graph = string -> Network

  /** The poset-table key of a specification's network: its sorted tuple of names. */
  function Key(graph: Graph, spec: string): multiset<string> {
    NameKey(graph(spec))
  }

  /** Every variable name of the network is among `names`. */
  predicate Covered(graph: Graph, spec: string, names: set<string>) {
    forall n :: n in graph(spec).names ==> n in names
  }

  /** The networks all of whose names are among `names`, in their order. */
  function CoveredNetworks(graph: Graph, networks: seq<string>, names: set<string>): (r: seq<string>)
    ensures |r| <= |networks|
  {
    if networks == [] then []
    else
      var n := |networks| - 1;
      var init := CoveredNetworks(graph, networks[..n], names);
      if Covered(graph, networks[n], names) then init + [networks[n]] else init
  }

  /** The networks kept are exactly the covered ones. */
  lemma {:induction false} CoveredNetworksMeaning(graph: Graph, networks: seq<string>, names: set<string>, s: string)
    ensures s in CoveredNetworks(graph, networks, names) <==> s in networks && Covered(graph, s, names)
  {
    if networks != [] {
      var n := |networks| - 1;
      assert networks == networks[..n] + [networks[n]];
      CoveredNetworksMeaning(graph, networks[..n], names, s);
    }
  }

  /** `a` is `b` with some elements left out, in order. */
  predicate IsSubsequence<T(==)>(a: seq<T>, b: seq<T>)
    decreases |b|
  {
    if a == [] then true
    else if b == [] then false
    else if a[|a| - 1] == b[|b| - 1] then IsSubsequence(a[..|a| - 1], b[..|b| - 1])
    else IsSubsequence(a, b[..|b| - 1])
  }

  /** Leaving out the last element keeps a subsequence. */
  lemma {:induction false} SubsequenceDropLast<T>(a: seq<T>, b: seq<T>)
    requires a != [] && IsSubsequence(a, b)
    ensures IsSubsequence(a[..|a| - 1], b)
    decreases |b|
  {
    var a0 := a[..|a| - 1];
    if a0 != [] {
      var b0 := b[..|b| - 1];
      if a[|a| - 1] != b[|b| - 1] {
        SubsequenceDropLast(a, b0);
      }
      if a0[|a0| - 1] == b[|b| - 1] {
        SubsequenceDropLast(a0, b0);
      }
    }
  }

  /** A subsequence stays one when an element is appended to the longer sequence. */
  lemma {:induction false} SubsequenceExtend<T>(a: seq<T>, b: seq<T>, x: T)
    requires IsSubsequence(a, b)
    ensures IsSubsequence(a, b + [x])
  {
    assert (b + [x])[..|b|] == b;
    if a != [] && a[|a| - 1] == x {
      SubsequenceDropLast(a, b);
    }
  }

  /** The networks kept are an order-preserving subsequence of those given. */
  lemma {:induction false} CoveredIsSubsequence(graph: Graph, networks: seq<string>, names: set<string>)
    ensures IsSubsequence(CoveredNetworks(graph, networks, names), networks)
  {
    if networks != [] {
      var n := |networks| - 1;
      var init := CoveredNetworks(graph, networks[..n], names);
      CoveredIsSubsequence(graph, networks[..n], names);
      if Covered(graph, networks[n], names) {
        assert (init + [networks[n]])[..|init|] == init;
      } else {
        SubsequenceExtend(init, networks[..n], networks[n]);
        assert networks[..n] + [networks[n]] == networks;
      }
    }
  }

  /** Filtering by a smaller name set first leaves nothing for a larger one to remove, so a list
      filtered repeatedly with growing name sets is the list filtered by the first. */
  lemma {:induction false} CoveredTwice(graph: Graph, networks: seq<string>, small: set<string>, large: set<string>)
    requires small <= large
    ensures CoveredNetworks(graph, CoveredNetworks(graph, networks, small), large) == CoveredNetworks(graph, networks, small)
  {
    if networks != [] {
      var n := |networks| - 1;
      var init := CoveredNetworks(graph, networks[..n], small);
      CoveredTwice(graph, networks[..n], small, large);
      if Covered(graph, networks[n], small) {
        var r := init + [networks[n]];
        assert r[..|r| - 1] == init;
      }
    }
  }

  /** The names of the networks that are missing from `data`. */
  function MissingNames(graph: Graph, networks: seq<string>, data: set<string>): (m: set<string>)
    ensures forall x :: x in m ==> x !in data
  {
    if networks == [] then {}
    else
      var n := |networks| - 1;
      MissingNames(graph, networks[..n], data) + (set x | x in graph(networks[n]).names && x !in data)
  }

  /** The keys of the covered networks. */
  function CoveredKeys(graph: Graph, networks: seq<string>, data: set<string>): (ks: set<multiset<string>>)
  {
    if networks == [] then {}
    else
      var n := |networks| - 1;
      CoveredKeys(graph, networks[..n], data) + (if Covered(graph, networks[n], data) then {Key(graph, networks[n])} else {})
  }

  /** The missing names are exactly the names of some network that are absent from `data`. */
  lemma {:induction false} MissingNamesMeaning(graph: Graph, networks: seq<string>, data: set<string>, x: string)
    ensures x in MissingNames(graph, networks, data) <==> x !in data && exists s :: s in networks && x in graph(s).names
  {
    if networks != [] {
      var n := |networks| - 1;
      assert networks == networks[..n] + [networks[n]];
      MissingNamesMeaning(graph, networks[..n], data, x);
    }
  }

  /** The keys computed are exactly those of the covered networks. */
  lemma {:induction false} CoveredKeysMeaning(graph: Graph, networks: seq<string>, data: set<string>, k: multiset<string>)
    ensures k in CoveredKeys(graph, networks, data) <==> exists s :: s in networks && Covered(graph, s, data) && Key(graph, s) == k
  {
    if networks != [] {
      var n := |networks| - 1;
      assert networks == networks[..n] + [networks[n]];
      CoveredKeysMeaning(graph, networks[..n], data, k);
    }
  }

  /** One network more extends the kept networks, the keys and the missing names by its own. */
  lemma PrefixStep(graph: Graph, networks: seq<string>, i: nat, data: set<string>)
    requires i < |networks|
    ensures var spec := networks[i];
      && MissingNames(graph, networks[..i + 1], data)
         == MissingNames(graph, networks[..i], data) + (set x | x in graph(spec).names && x !in data)
      && CoveredNetworks(graph, networks[..i + 1], data)
         == CoveredNetworks(graph, networks[..i], data) + (if Covered(graph, spec, data) then [spec] else [])
      && CoveredKeys(graph, networks[..i + 1], data)
         == CoveredKeys(graph, networks[..i], data) + (if Covered(graph, spec, data) then {Key(graph, spec)} else {})
  {
    assert networks[..i + 1][..i] == networks[..i];
  }

  /** The names of a network that are among `missing`. */
  function MissingOf(graph: Graph, spec: string, missing: set<string>): set<string> {
    set x | x in graph(spec).names && x in missing
  }

  /** A network is dropped exactly when one of its names is among the missing names so far,
      those of the network included. */
  lemma DroppedIffUncovered(graph: Graph, spec: string, data: set<string>, missing: set<string>)
    requires forall x :: x in missing ==> x !in data
    requires forall x :: x in graph(spec).names && x !in data ==> x in missing
    ensures MissingOf(graph, spec, missing) != {} <==> !Covered(graph, spec, data)
  {
    if !Covered(graph, spec, data) {
      var x :| x in graph(spec).names && x !in data;
      assert x in MissingOf(graph, spec, missing);
    } else {
      forall y | y in graph(spec).names ensures y !in missing {
        assert y in data;
      }
      assert MissingOf(graph, spec, missing) == {};
    }
  }

  /** Every covered network's key has posets. */
  predicate AllComputed(graph: Graph, networks: seq<string>, data: set<string>, epsPosets: multiset<string> -> Option<PosetList>) {
    if networks == [] then true
    else
      var n := |networks| - 1;
      AllComputed(graph, networks[..n], data, epsPosets) && (Covered(graph, networks[n], data) ==> epsPosets(Key(graph, networks[n])).Some?)
  }

  /** `AllComputed` says that no covered network's posets are `None`. */
  lemma {:induction false} AllComputedMeaning(graph: Graph, networks: seq<string>, data: set<string>, epsPosets: multiset<string> -> Option<PosetList>)
    ensures AllComputed(graph, networks, data, epsPosets) <==> forall s :: s in networks && Covered(graph, s, data) ==> epsPosets(Key(graph, s)).Some?
  {
    if networks != [] {
      var n := |networks| - 1;
      assert networks == networks[..n] + [networks[n]];
      AllComputedMeaning(graph, networks[..n], data, epsPosets);
    }
  }

  /** A prefix of networks all computed is all computed. */
  lemma {:induction false} AllComputedPrefix(graph: Graph, networks: seq<string>, j: nat, data: set<string>, epsPosets: multiset<string> -> Option<PosetList>)
    requires j <= |networks| && AllComputed(graph, networks, data, epsPosets)
    ensures AllComputed(graph, networks[..j], data, epsPosets)
  {
    if j < |networks| {
      var n := |networks| - 1;
      assert networks[..n][..j] == networks[..j];
      AllComputedPrefix(graph, networks[..n], j, data, epsPosets);
    } else {
      assert networks[..j] == networks;
    }
  }

  /** One network more is computed when the networks before it are and its own posets are. */
  lemma AllComputedStep(graph: Graph, networks: seq<string>, i: nat, data: set<string>, epsPosets: multiset<string> -> Option<PosetList>)
    requires i < |networks|
    ensures AllComputed(graph, networks[..i + 1], data, epsPosets)
         == (AllComputed(graph, networks[..i], data, epsPosets) && (Covered(graph, networks[i], data) ==> epsPosets(Key(graph, networks[i])).Some?))
  {
    assert networks[..i + 1][..i] == networks[..i];
  }

  /** The posets `calculate_poset` computes: those of every covered network's key. */
  function Computations(graph: Graph, networks: seq<string>, data: set<string>, epsPosets: multiset<string> -> Option<PosetList>)
    : (m: map<multiset<string>, PosetList>)
    ensures forall k :: k in m ==> k in CoveredKeys(graph, networks, data) && epsPosets(k) == Some(m[k])
  {
    map k | k in CoveredKeys(graph, networks, data) && epsPosets(k).Some? :: epsPosets(k).value
  }

  /** When no computation fails, every covered network's key is computed. */
  lemma ComputationsKeys(graph: Graph, networks: seq<string>, data: set<string>, epsPosets: multiset<string> -> Option<PosetList>)
    requires AllComputed(graph, networks, data, epsPosets)
    ensures Computations(graph, networks, data, epsPosets).Keys == CoveredKeys(graph, networks, data)
  {
    AllComputedMeaning(graph, networks, data, epsPosets);
    forall k | k in CoveredKeys(graph, networks, data) ensures epsPosets(k).Some? {
      CoveredKeysMeaning(graph, networks, data, k);
    }
  }

  /** The result of `calculate_poset`: the posets per key, the networks kept, the missing names. */
  datatype Calculated = Calculated(posets: map<multiset<string>, PosetList>, networks: seq<string>, missing: set<string>)

  /** One iteration of `calculate_poset`: the network's absent names join the missing ones; a
      network none of whose names is missing has its key's posets computed unless present, and
      `ok` is false when that computation gives `None`. */
  method VisitNetwork(graph: Graph, spec: string, data: set<string>, epsPosets: multiset<string> -> Option<PosetList>,
                      posets: map<multiset<string>, PosetList>, missing: set<string>)
    returns (ok: bool, covered: bool, posets2: map<multiset<string>, PosetList>, missing2: set<string>)
    requires forall x :: x in missing ==> x !in data
    requires forall k :: k in posets ==> epsPosets(k) == Some(posets[k])
    ensures missing2 == missing + (set x | x in graph(spec).names && x !in data)
    ensures covered == Covered(graph, spec, data)
    ensures !ok <==> covered && epsPosets(Key(graph, spec)).None?
    ensures ok ==> posets2 == if covered then posets[Key(graph, spec) := epsPosets(Key(graph, spec)).value] else posets
  {
    var names := graph(spec).names;
    missing2 := missing + (set x | x in names && x !in data);
    DroppedIffUncovered(graph, spec, data, missing2);
    posets2 := posets;
    if MissingOf(graph, spec, missing2) != {} {
      return true, false, posets2, missing2;
    }
    var key := multiset(names);
    if key !in posets {
      var pos := epsPosets(key);
      if pos.None? {
        return false, true, posets2, missing2;
      }
      posets2 := posets[key := pos.value];
    }
    return true, true, posets2, missing2;
  }

  /** `c` is what `calculate_poset` holds after the networks of `prefix`, none of whose posets
      was `None`. */
  ghost predicate Computed(graph: Graph, prefix: seq<string>, data: set<string>, epsPosets: multiset<string> -> Option<PosetList>, c: Calculated) {
    && c.networks == CoveredNetworks(graph, prefix, data)
    && c.missing == MissingNames(graph, prefix, data)
    && c.posets.Keys == CoveredKeys(graph, prefix, data)
    && (forall k :: k in c.posets ==> epsPosets(k) == Some(c.posets[k]))
    && AllComputed(graph, prefix, data, epsPosets)
  }

  /** An iteration that does not raise takes the state after a prefix to the state after one
      network more. */
  lemma ComputedStep(graph: Graph, networks: seq<string>, i: nat, data: set<string>, epsPosets: multiset<string> -> Option<PosetList>,
                     c: Calculated, covered: bool, posets2: map<multiset<string>, PosetList>, missing2: set<string>)
    requires i < |networks| && Computed(graph, networks[..i], data, epsPosets, c)
    requires missing2 == c.missing + (set x | x in graph(networks[i]).names && x !in data)
    requires covered == Covered(graph, networks[i], data)
    requires !(covered && epsPosets(Key(graph, networks[i])).None?)
    requires posets2 == if covered then c.posets[Key(graph, networks[i]) := epsPosets(Key(graph, networks[i])).value] else c.posets
    ensures Computed(graph, networks[..i + 1], data, epsPosets,
                     Calculated(posets2, c.networks + (if covered then [networks[i]] else []), missing2))
  {
    PrefixStep(graph, networks, i, data);
    AllComputedStep(graph, networks, i, data, epsPosets);
  }

  /** `calculate_poset` for one time-series file whose series are named `data`: the networks all
      of whose names have a series are kept in order, and the posets are computed once per key
      with `epsPosets`, a `None` from which raises. */
  method CalculatePoset(graph: Graph, networks: seq<string>, data: set<string>, epsPosets: multiset<string> -> Option<PosetList>)
    returns (r: Result<Calculated>)
    ensures r.Err? <==> !AllComputed(graph, networks, data, epsPosets)
    ensures r.Err? ==> r.error == ValueError("poset is None!")
    ensures r.Ok? ==> r.value.networks == CoveredNetworks(graph, networks, data)
    ensures r.Ok? ==> r.value.missing == MissingNames(graph, networks, data)
    ensures r.Ok? ==> r.value.posets.Keys == CoveredKeys(graph, networks, data)
    ensures r.Ok? ==> r.value.posets == Computations(graph, networks, data, epsPosets)
  {
    var c := Calculated(map[], [], {});
    for i := 0 to |networks|
      invariant Computed(graph, networks[..i], data, epsPosets, c)
    {
      var spec := networks[i];
      var ok, covered, posets2, missing2 := VisitNetwork(graph, spec, data, epsPosets, c.posets, c.missing);
      if !ok {
        AllComputedStep(graph, networks, i, data, epsPosets);
        if AllComputed(graph, networks, data, epsPosets) {
          AllComputedPrefix(graph, networks, i + 1, data, epsPosets);
          assert false;
        }
        return Err(ValueError("poset is None!"));
      }
      ComputedStep(graph, networks, i, data, epsPosets, c, covered, posets2, missing2);
      c := Calculated(posets2, c.networks + (if covered then [spec] else []), missing2);
    }
    assert networks[..|networks|] == networks;
    assert c.posets == Computations(graph, networks, data, epsPosets);
    return Ok(c);
  }

  /** All names of all keys of a poset table. */
  function PosetNames<V>(posets: map<multiset<string>, V>): (ns: set<string>)
    ensures forall n :: n in ns <==> exists k :: k in posets && n in k
  {
    set k, n | k in posets && n in k :: n
  }

  /** `check_posets`: the networks all of whose names occur in some key of the table, in order. */
  method CheckPosets<V>(graph: Graph, networks: seq<string>, posets: map<multiset<string>, V>) returns (kept: seq<string>)
    ensures kept == CoveredNetworks(graph, networks, PosetNames(posets))
  {
    kept := [];
    var missing: set<string> := {};
    for i := 0 to |networks|
      invariant kept == CoveredNetworks(graph, networks[..i], PosetNames(posets))
      invariant missing == MissingNames(graph, networks[..i], PosetNames(posets))
    {
      var spec := networks[i];
      var posetNames := PosetNames(posets);
      PrefixStep(graph, networks, i, posetNames);
      var names := graph(spec).names;
      missing := missing + (set x | x in names && x !in posetNames);
      DroppedIffUncovered(graph, spec, posetNames, missing);
      if MissingOf(graph, spec, missing) != {} {
        continue;
      }
      kept := kept + [spec];
    }
    assert networks[..|networks|] == networks;
  }
}
