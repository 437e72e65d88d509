/** `calculate_posets_from_multiple_time_series`: the posets of every time-series file merged into
    one table keyed by network names, each key holding a dataset per file in which its posets
    were computed, and the networks kept for some file. */
module PosetMerge {
  import opened Wrappers
  import opened Dicts
  import opened PosetTables
  import opened Posets

  /** The `timeseriesfname` parameter: one file name, a list of them, or anything else. */
  datatype FileNames = OneFile(name: string) | FileList(names: seq<string>) | NotNames

  /** A single name is a one-element list, a list is used as given, anything else raises. */
  function TimeSeriesFiles(f: FileNames): (r: Result<seq<string>>)
    ensures f.OneFile? ==> r == Ok([f.name])
    ensures f.FileList? ==> r == Ok(f.names)
    ensures f.NotNames? ==> r == Err(ValueError("Input time series file names must be a string or a list of strings."))
  {
    match f
    case OneFile(name) => Ok([name])
    case FileList(names) => Ok(names)
    case NotNames => Err(ValueError("Input time series file names must be a string or a list of strings."))
  }

  /** The datasets of a key before a file is merged in: none when the key is new. */
  function Before<K, D(!new), V>(table: map<K, Dict<D, V>>, name: K): Dict<D, V> {
    if name in table then table[name] else Empty()
  }

  /** The table once the posets of file `ts` under the keys `ks` are merged in: each such key's
      datasets gain (or replace) the entry for `ts`, every other entry stays. */
  function MergeOn<K(!new), D(!new), V>(table: map<K, Dict<D, V>>, ts: D, pos: map<K, V>, ks: set<K>): (t: map<K, Dict<D, V>>)
    requires ks <= pos.Keys
    ensures t.Keys == table.Keys + ks
  {
    map name | name in table.Keys + ks :: if name in ks then Put(Before(table, name), ts, pos[name]) else table[name]
  }

  /** Merging in one file's posets keeps the entries of every other file. */
  lemma MergeKeepsOthers<K(!new), D(!new), V>(table: map<K, Dict<D, V>>, ts: D, pos: map<K, V>, name: K, other: D)
    requires other != ts && name in table && other in table[name].values
    ensures name in MergeOn(table, ts, pos, pos.Keys)
    ensures other in MergeOn(table, ts, pos, pos.Keys)[name].values
    ensures MergeOn(table, ts, pos, pos.Keys)[name].values[other] == table[name].values[other]
  {
  }

  /** `t` holds, key by key, what merging the keys `ks` gives. */
  ghost predicate MergedOn<K(!new), D(!new), V>(table: map<K, Dict<D, V>>, ts: D, pos: map<K, V>, ks: set<K>, t: map<K, Dict<D, V>>)
    requires ks <= pos.Keys
  {
    && t.Keys == table.Keys + ks
    && forall k :: k in t ==> t[k] == if k in ks then Put(Before(table, k), ts, pos[k]) else table[k]
  }

  /** A table that is the merge key by key is the merge. */
  lemma MergedOnIs<K(!new), D(!new), V>(table: map<K, Dict<D, V>>, ts: D, pos: map<K, V>, ks: set<K>, t: map<K, Dict<D, V>>)
    requires ks <= pos.Keys && MergedOn(table, ts, pos, ks, t)
    ensures t == MergeOn(table, ts, pos, ks)
  {
  }

  /** Merges the posets of one file into the table, key by key. */
  method MergeFile<K(!new), D(!new), V>(table: map<K, Dict<D, V>>, ts: D, pos: map<K, V>) returns (t: map<K, Dict<D, V>>)
    ensures t == MergeOn(table, ts, pos, pos.Keys)
  {
    t := table;
    var rest := pos.Keys;
    ghost var done: set<K> := {};
    while rest != {}
      invariant done + rest == pos.Keys && done !! rest
      invariant MergedOn(table, ts, pos, done, t)
      decreases rest
    {
      var name :| name in rest;
      t := t[name := Put(Before(t, name), ts, pos[name])];
      done := done + {name};
      rest := rest - {name};
    }
    MergedOnIs(table, ts, pos, done, t);
  }

  /** The merged state after the files `files`: the table, the networks kept for some file and the
      names missing from some file; the first file whose posets fail raises. */
  function MergeAll(graph: Graph, networks: seq<string>, files: seq<string>, dataOf: string -> set<string>,
                    epsPosetsOf: string -> multiset<string> -> Option<PosetList>)
    : Result<(PosetTable, set<string>, set<string>)>
  {
    if files == [] then Ok((map[], {}, {}))
    else
      var n := |files| - 1;
      var ts := files[n];
      match MergeAll(graph, networks, files[..n], dataOf, epsPosetsOf)
      case Err(e) => Err(e)
      case Ok((table, nets, missing)) =>
        if !AllComputed(graph, networks, dataOf(ts), epsPosetsOf(ts)) then Err(ValueError("poset is None!"))
        else
          var pos := Computations(graph, networks, dataOf(ts), epsPosetsOf(ts));
          var kept := CoveredNetworks(graph, networks, dataOf(ts));
          Ok((MergeOn(table, ts, pos, pos.Keys),
              nets + (set s | s in kept),
              missing + MissingNames(graph, networks, dataOf(ts))))
  }

  /** The table and the kept networks after dispatching on the file-name parameter and merging
      all files; the missing names are only reported. */
  function FromMultiple(graph: Graph, networks: seq<string>, fileNames: FileNames, dataOf: string -> set<string>,
                        epsPosetsOf: string -> multiset<string> -> Option<PosetList>)
    : Result<(PosetTable, set<string>)>
  {
    match TimeSeriesFiles(fileNames)
    case Err(e) => Err(e)
    case Ok(files) =>
      match MergeAll(graph, networks, files, dataOf, epsPosetsOf)
      case Err(e) => Err(e)
      case Ok((table, nets, _)) => Ok((table, nets))
  }

  /** `calculate_posets_from_multiple_time_series`: the file-name parameter is dispatched on, and
      then each file's posets are computed and merged; the kept networks are a set. The series
      names of each file and the poset computation for it are the inputs `dataOf` and
      `epsPosetsOf`. */
  method CalculateFromMultiple(graph: Graph, networks: seq<string>, fileNames: FileNames, dataOf: string -> set<string>,
                               epsPosetsOf: string -> multiset<string> -> Option<PosetList>)
    returns (r: Result<(PosetTable, set<string>)>)
    ensures r == FromMultiple(graph, networks, fileNames, dataOf, epsPosetsOf)
  {
    var files: seq<string>;
    match fileNames {
      case OneFile(name) => files := [name];
      case FileList(names) => files := names;
      case NotNames => return Err(ValueError("Input time series file names must be a string or a list of strings."));
    }
    var table: PosetTable := map[];
    var nets: set<string> := {};
    var missing: set<string> := {};
    for i := 0 to |files|
      invariant MergeAll(graph, networks, files[..i], dataOf, epsPosetsOf) == Ok((table, nets, missing))
    {
      var ts := files[i];
      assert files[..i + 1][..i] == files[..i];
      var res := CalculatePoset(graph, networks, dataOf(ts), epsPosetsOf(ts));
      if res.Err? {
        assert MergeAll(graph, networks, files[..i + 1], dataOf, epsPosetsOf) == Err(ValueError("poset is None!"));
        MergeAllErrFinal(graph, networks, files, i + 1, dataOf, epsPosetsOf);
        return Err(res.error);
      }
      nets := nets + (set s | s in res.value.networks);
      missing := missing + res.value.missing;
      table := MergeFile(table, ts, res.value.posets);
    }
    assert files[..|files|] == files;
    return Ok((table, nets));
  }

  /** Once a prefix of the files raises, so do all the files. */
  lemma {:induction false} MergeAllErrFinal(graph: Graph, networks: seq<string>, files: seq<string>, j: nat, dataOf: string -> set<string>,
                                            epsPosetsOf: string -> multiset<string> -> Option<PosetList>)
    requires j <= |files| && MergeAll(graph, networks, files[..j], dataOf, epsPosetsOf).Err?
    ensures MergeAll(graph, networks, files, dataOf, epsPosetsOf) == MergeAll(graph, networks, files[..j], dataOf, epsPosetsOf)
    decreases |files|
  {
    if j == |files| {
      assert files[..j] == files;
    } else {
      var n := |files| - 1;
      assert files[..n][..j] == files[..j];
      MergeAllErrFinal(graph, networks, files[..n], j, dataOf, epsPosetsOf);
    }
  }

  /** The merge raises exactly when some file's posets fail, and then with the error of
      `calculate_poset`. */
  lemma {:induction false} MergeAllErr(graph: Graph, networks: seq<string>, files: seq<string>, dataOf: string -> set<string>,
                                       epsPosetsOf: string -> multiset<string> -> Option<PosetList>)
    ensures MergeAll(graph, networks, files, dataOf, epsPosetsOf).Err?
        <==> exists ts :: ts in files && !AllComputed(graph, networks, dataOf(ts), epsPosetsOf(ts))
    ensures MergeAll(graph, networks, files, dataOf, epsPosetsOf).Err?
        ==> MergeAll(graph, networks, files, dataOf, epsPosetsOf).error == ValueError("poset is None!")
  {
    if files != [] {
      var n := |files| - 1;
      assert files == files[..n] + [files[n]];
      MergeAllErr(graph, networks, files[..n], dataOf, epsPosetsOf);
    }
  }

  /** A network is kept by the merge exactly when some file has series for all its names. */
  lemma {:induction false} MergeAllNetworks(graph: Graph, networks: seq<string>, files: seq<string>, dataOf: string -> set<string>,
                                            epsPosetsOf: string -> multiset<string> -> Option<PosetList>, s: string)
    requires MergeAll(graph, networks, files, dataOf, epsPosetsOf).Ok?
    ensures s in MergeAll(graph, networks, files, dataOf, epsPosetsOf).value.1
        <==> s in networks && exists ts :: ts in files && Covered(graph, s, dataOf(ts))
  {
    if files != [] {
      var n := |files| - 1;
      assert files == files[..n] + [files[n]];
      MergeAllNetworks(graph, networks, files[..n], dataOf, epsPosetsOf, s);
      CoveredNetworksMeaning(graph, networks, dataOf(files[n]), s);
    }
  }

  /** After the merge, key `name` holds a dataset for file `ts` exactly when some network with
      those names is covered by `ts`; that dataset is the posets computed from `ts`, and every
      key's datasets form a well-formed dictionary. */
  lemma {:induction false} MergeAllEntries(graph: Graph, networks: seq<string>, files: seq<string>, dataOf: string -> set<string>,
                                           epsPosetsOf: string -> multiset<string> -> Option<PosetList>, name: multiset<string>, ts: string)
    requires MergeAll(graph, networks, files, dataOf, epsPosetsOf).Ok?
    ensures var table := MergeAll(graph, networks, files, dataOf, epsPosetsOf).value.0;
      && ((name in table && ts in table[name].values) <==> ts in files && name in CoveredKeys(graph, networks, dataOf(ts)))
      && (name in table && ts in table[name].values ==> epsPosetsOf(ts)(name) == Some(table[name].values[ts]))
      && (name in table ==> Valid(table[name]))
  {
    if files != [] {
      var n := |files| - 1;
      var last := files[n];
      assert files == files[..n] + [last];
      MergeAllEntries(graph, networks, files[..n], dataOf, epsPosetsOf, name, ts);
      ComputationsKeys(graph, networks, dataOf(last), epsPosetsOf(last));
    }
  }
}
