/** The tables of posets of extrema the pattern-match queries look networks up in.

    A network's posets are found under its variable names; the source keys them by the sorted
    tuple of names, which identifies exactly the multiset of names, so the model keys them by
    that multiset.  Under a key sit the datasets: per time-series file name (or the single name
    "no_time_series_file" for posets given literally), an (epsilon, poset) pair per noise level. */
module PosetTables {
  import opened Dsgrn
  import opened Dicts

  /** An (epsilon, poset) pair per noise level. */
  type PosetList = seq<(real, Poset)>

  /** Poset lists keyed by time-series file name, in insertion order. */
  type Datasets = Dict<string, PosetList>

  type PosetTable = map<multiset<string>, Datasets>

  /** `tuple(sorted([network.name(k) for k in range(network.size())]))`, as a key. */
  function NameKey(net: Network): multiset<string> {
    multiset(net.names)
  }

  /** The dataset name under which literal posets are stored. */
  const NoTimeSeriesFile := "no_time_series_file"

  /** The noise levels of a poset list. */
  function EpsSet(list: PosetList): set<real> {
    set j | 0 <= j < |list| :: list[j].0
  }

  predicate DistinctEps(list: PosetList) {
    forall i, j :: 0 <= i < j < |list| ==> list[i].0 != list[j].0
  }

  /** The keys of `{str(eps): … for (eps, _) in poset_list}`: each noise level once, in order of
      first appearance. */
  function EpsKeys(list: PosetList): (ks: seq<real>)
    ensures NoDuplicates(ks)
    ensures forall e :: e in ks <==> e in EpsSet(list)
  {
    if list == [] then []
    else
      var init := list[..|list| - 1];
      var e := list[|list| - 1].0;
      var ks := EpsKeys(init);
      assert EpsSet(list) == EpsSet(init) + {e} by {
        forall x | x in EpsSet(list) ensures x in EpsSet(init) + {e} {
          var j :| 0 <= j < |list| && list[j].0 == x;
          if j < |list| - 1 {
            assert init[j] == list[j];
          }
        }
        forall x | x in EpsSet(init) ensures x in EpsSet(list) {
          var j :| 0 <= j < |init| && init[j].0 == x;
          assert list[j] == init[j];
        }
      }
      if e in ks then ks else ks + [e]
  }
}
