/** `record_results` of the pattern-match queries over poset tables (`CountPatternMatch_DB`,
    `CountPatternMatch_large_networks` and the parameter-indices variant): every network's result
    lists are regrouped under their (search, dataset) key, in the order the keys are first met,
    and each group is saved to its own file as a dictionary from network specification to result
    list.  The loops visit the networks, then each network's searches, then each search's
    datasets, all in dictionary order. */
module ResultFiles {
  import opened Wrappers
  import opened Dicts
  import opened Strings
  import opened PatternDbCount
  import opened PatternDbExists
  import opened ParamIndices
  import PatternDbSearch

  /** A key of `reparse`: a search name and a dataset name. */
  type Key = (string, string)

  /** A group of `reparse`: (network specification, result list) pairs. */
  type Group<V> = seq<(string, V)>

  // ---- the grouping ----

  /** One result list met by the loops, under its key, for network `net`. */
  datatype Item<V> = Item(key: Key, net: string, value: V)

  function ItemKeys<V>(items: seq<Item<V>>): (ks: seq<Key>)
    ensures |ks| == |items|
    ensures forall i :: 0 <= i < |items| ==> ks[i] == items[i].key
  {
    seq(|items|, i requires 0 <= i < |items| => items[i].key)
  }

  /** The (network, list) pairs of the items under `k`, in order. */
  function Filter<V>(items: seq<Item<V>>, k: Key): Group<V> {
    if items == [] then []
    else
      var n := |items| - 1;
      Filter(items[..n], k) + (if items[n].key == k then [(items[n].net, items[n].value)] else [])
  }

  /** The pairs under `k` are exactly those of the items with key `k`. */
  lemma {:induction false} FilterMeaning<V>(items: seq<Item<V>>, k: Key, p: (string, V))
    ensures p in Filter(items, k) <==> exists i :: 0 <= i < |items| && items[i].key == k && (items[i].net, items[i].value) == p
  {
    if items != [] {
      var n := |items| - 1;
      FilterMeaning(items[..n], k, p);
      if p in Filter(items[..n], k) {
        var i :| 0 <= i < n && items[..n][i].key == k && (items[..n][i].net, items[..n][i].value) == p;
        assert items[i] == items[..n][i];
      }
      if i :| 0 <= i < |items| && items[i].key == k && (items[i].net, items[i].value) == p {
        if i < n {
          assert items[..n][i] == items[i];
        }
      }
    }
  }

  /** No item under `k`: no pair under `k`. */
  lemma {:induction false} FilterAbsent<V>(items: seq<Item<V>>, k: Key)
    requires k !in ItemKeys(items)
    ensures Filter(items, k) == []
  {
    if items != [] {
      var n := |items| - 1;
      assert ItemKeys(items[..n]) == ItemKeys(items)[..n];
      FilterAbsent(items[..n], k);
      assert ItemKeys(items)[n] == items[n].key;
    }
  }

  /** `reparse` once the items are in: one group per key, in order of first appearance, each
      holding the pairs of that key's items in order. */
  function Grouped<V>(items: seq<Item<V>>): (g: Dict<Key, Group<V>>)
    ensures Valid(g)
  {
    Dict(Distinct(ItemKeys(items)), map k | k in ItemKeys(items) :: Filter(items, k))
  }

  /** The groups are well formed, keyed by exactly the items' keys. */
  lemma GroupedMeaning<V>(items: seq<Item<V>>)
    ensures Valid(Grouped(items))
    ensures forall k :: k in Grouped(items).values <==> exists i :: 0 <= i < |items| && items[i].key == k
  {
    forall k | k in Grouped(items).values ensures exists i :: 0 <= i < |items| && items[i].key == k {
      var i :| 0 <= i < |items| && ItemKeys(items)[i] == k;
    }
  }

  /** `reparse[key].append(x)` when the key is present, else `reparse[key] = [x]`. */
  function AddItem<V>(reparse: Dict<Key, Group<V>>, x: Item<V>): Dict<Key, Group<V>> {
    if x.key in reparse.values then Put(reparse, x.key, reparse.values[x.key] + [(x.net, x.value)])
    else Put(reparse, x.key, [(x.net, x.value)])
  }

  /** One more item adds its pair to the end of its own key's pairs only. */
  lemma FilterSnoc<V>(items: seq<Item<V>>, x: Item<V>, k: Key)
    ensures Filter(items + [x], k) == Filter(items, k) + if x.key == k then [(x.net, x.value)] else []
  {
    var all := items + [x];
    assert all[..|all| - 1] == items;
  }

  /** One more key is listed at the end unless it is already listed. */
  lemma DistinctSnoc(l: seq<Key>, y: Key)
    ensures Distinct(l + [y]) == if y in l then Distinct(l) else Distinct(l) + [y]
  {
    var all := l + [y];
    assert all[..|all| - 1] == l;
  }

  /** `g` groups `items`: its keys are theirs in order of first appearance, each key holding the
      pairs of its items. */
  ghost predicate IsGrouping<V>(items: seq<Item<V>>, g: Dict<Key, Group<V>>) {
    && g.keys == Distinct(ItemKeys(items))
    && (forall k :: k in g.values <==> k in ItemKeys(items))
    && (forall k :: k in g.values ==> g.values[k] == Filter(items, k))
  }

  lemma GroupedIsGrouping<V>(items: seq<Item<V>>)
    ensures IsGrouping(items, Grouped(items))
  {
  }

  /** A grouping of the items is unique. */
  lemma GroupingUnique<V>(items: seq<Item<V>>, g: Dict<Key, Group<V>>, h: Dict<Key, Group<V>>)
    requires IsGrouping(items, g) && IsGrouping(items, h)
    ensures g == h
  {
    assert g.values.Keys == h.values.Keys;
    assert g.values == h.values;
  }

  /** `AddItem` keeps a grouping one item further. */
  lemma AddItemGrouping<V>(items: seq<Item<V>>, x: Item<V>, g: Dict<Key, Group<V>>)
    requires IsGrouping(items, g)
    ensures IsGrouping(items + [x], AddItem(g, x))
  {
    var all := items + [x];
    assert ItemKeys(all) == ItemKeys(items) + [x.key];
    DistinctSnoc(ItemKeys(items), x.key);
    if x.key !in ItemKeys(items) {
      FilterAbsent(items, x.key);
    }
    var h := AddItem(g, x);
    forall k | k in h.values ensures h.values[k] == Filter(all, k) {
      FilterSnoc(items, x, k);
    }
  }

  /** One more item updates the groups as `AddItem` does. */
  lemma GroupedSnoc<V>(items: seq<Item<V>>, x: Item<V>)
    ensures Grouped(items + [x]) == AddItem(Grouped(items), x)
  {
    GroupedIsGrouping(items);
    AddItemGrouping(items, x, Grouped(items));
    GroupedIsGrouping(items + [x]);
    GroupingUnique(items + [x], Grouped(items + [x]), AddItem(Grouped(items), x));
  }

  /** The loop that fills `reparse` from the items in the order they are met. */
  method Reparse<V>(items: seq<Item<V>>) returns (reparse: Dict<Key, Group<V>>)
    ensures reparse == Grouped(items)
  {
    reparse := Dict([], map[]);
    for i := 0 to |items|
      invariant reparse == Grouped(items[..i])
    {
      var x := items[i];
      assert items[..i + 1] == items[..i] + [x];
      GroupedSnoc(items[..i], x);
      if x.key in reparse.values {
        reparse := Put(reparse, x.key, reparse.values[x.key] + [(x.net, x.value)]);
      } else {
        reparse := Put(reparse, x.key, [(x.net, x.value)]);
      }
    }
    assert items[..|items|] == items;
  }

  // ---- the items met by the loops ----

  /** Network specification, then search name, then dataset name, down to a result list. */
  type Nested<V> = Dict<string, Dict<string, Dict<string, V>>>

  ghost predicate WellFormed<V>(results: Nested<V>) {
    && Valid(results)
    && forall n :: n in results.values ==>
         (Valid(results.values[n]) && forall s :: s in results.values[n].values ==> Valid(results.values[n].values[s]))
  }

  /** The lists of one search of one network, dataset by dataset. */
  function DatasetItems<V>(search: string, net: string, tsdict: Dict<string, V>): (items: seq<Item<V>>)
    requires Valid(tsdict)
    ensures |items| == |tsdict.keys|
    ensures forall i :: 0 <= i < |items| ==> items[i] == Item((search, tsdict.keys[i]), net, tsdict.values[tsdict.keys[i]])
  {
    seq(|tsdict.keys|, i requires 0 <= i < |tsdict.keys| => Item((search, tsdict.keys[i]), net, tsdict.values[tsdict.keys[i]]))
  }

  /** The lists of the first `j` searches of one network, each kept when `params[search]` is
      true; a search that is not a key of the parameters raises `KeyError`. */
  function SearchItems<V>(net: string, er: Dict<string, Dict<string, V>>, flags: map<string, bool>, j: nat): Result<seq<Item<V>>>
    requires j <= |er.keys| && Valid(er)
    requires forall s :: s in er.values ==> Valid(er.values[s])
  {
    if j == 0 then Ok([])
    else
      match SearchItems(net, er, flags, j - 1)
      case Err(e) => Err(e)
      case Ok(prev) =>
        var s := er.keys[j - 1];
        if s !in flags then Err(KeyError)
        else Ok(prev + if flags[s] then DatasetItems(s, net, er.values[s]) else [])
  }

  /** The lists of the first `i` networks. */
  function NetItems<V>(results: Nested<V>, flags: map<string, bool>, i: nat): Result<seq<Item<V>>>
    requires i <= |results.keys| && WellFormed(results)
  {
    if i == 0 then Ok([])
    else
      var n := results.keys[i - 1];
      match NetItems(results, flags, i - 1)
      case Err(e) => Err(e)
      case Ok(prev) =>
        match SearchItems(n, results.values[n], flags, |results.values[n].keys|)
        case Err(e) => Err(e)
        case Ok(more) => Ok(prev + more)
  }

  /** The list of network `n` under search `s` and dataset `t`, when the search is kept. */
  predicate Listed<V(==)>(results: Nested<V>, flags: map<string, bool>, n: string, s: string, t: string, v: V) {
    && n in results.values && s in results.values[n].values && s in flags && flags[s]
    && t in results.values[n].values[s].values && v == results.values[n].values[s].values[t]
  }

  /** A search of network `n` that is not a key of the parameters. */
  predicate Unknown<V>(results: Nested<V>, flags: map<string, bool>, n: string, s: string) {
    n in results.values && s in results.values[n].values && s !in flags
  }

  /** `x` is the list of network `net` under a kept search `s` of `er`. */
  predicate KeptItem<V(==)>(net: string, er: Dict<string, Dict<string, V>>, flags: map<string, bool>, s: string, x: Item<V>) {
    && x.net == net && x.key.0 == s && s in er.values && s in flags && flags[s]
    && x.key.1 in er.values[s].values && x.value == er.values[s].values[x.key.1]
  }

  lemma DatasetItemsMeaning<V>(s: string, net: string, tsdict: Dict<string, V>, x: Item<V>)
    requires Valid(tsdict)
    ensures x in DatasetItems(s, net, tsdict) <==>
      x.net == net && x.key.0 == s && x.key.1 in tsdict.values && x.value == tsdict.values[x.key.1]
  {
    if x.net == net && x.key.0 == s && x.key.1 in tsdict.values && x.value == tsdict.values[x.key.1] {
      var i :| 0 <= i < |tsdict.keys| && tsdict.keys[i] == x.key.1;
      assert DatasetItems(s, net, tsdict)[i] == x;
    }
  }

  lemma {:induction false} SearchItemsMeaning<V>(net: string, er: Dict<string, Dict<string, V>>, flags: map<string, bool>, j: nat)
    requires j <= |er.keys| && Valid(er)
    requires forall s :: s in er.values ==> Valid(er.values[s])
    ensures SearchItems(net, er, flags, j).Err? <==> exists q :: 0 <= q < j && er.keys[q] !in flags
    ensures SearchItems(net, er, flags, j).Ok? ==> forall x: Item<V> :: x in SearchItems(net, er, flags, j).value <==>
      exists q :: 0 <= q < j && KeptItem(net, er, flags, er.keys[q], x)
  {
    if j > 0 {
      SearchItemsMeaning(net, er, flags, j - 1);
      var s := er.keys[j - 1];
      if SearchItems(net, er, flags, j - 1).Ok? && s in flags {
        var more := if flags[s] then DatasetItems(s, net, er.values[s]) else [];
        forall x: Item<V> ensures x in more <==> KeptItem(net, er, flags, s, x) {
          DatasetItemsMeaning(s, net, er.values[s], x);
        }
      }
    }
  }

  /** The loops over one network's searches raise exactly when one of them is not a key of the
      parameters, and otherwise meet exactly the lists of its kept searches. */
  lemma SearchItemsAll<V>(net: string, er: Dict<string, Dict<string, V>>, flags: map<string, bool>)
    requires Valid(er)
    requires forall s :: s in er.values ==> Valid(er.values[s])
    ensures SearchItems(net, er, flags, |er.keys|).Err? <==> exists s :: s in er.values && s !in flags
    ensures SearchItems(net, er, flags, |er.keys|).Ok? ==> forall x: Item<V> :: x in SearchItems(net, er, flags, |er.keys|).value <==>
      KeptItem(net, er, flags, x.key.0, x)
  {
    SearchItemsMeaning(net, er, flags, |er.keys|);
    if s :| s in er.values && s !in flags {
      var q :| 0 <= q < |er.keys| && er.keys[q] == s;
    }
    if SearchItems(net, er, flags, |er.keys|).Ok? {
      forall x: Item<V> | KeptItem(net, er, flags, x.key.0, x) ensures exists q :: 0 <= q < |er.keys| && KeptItem(net, er, flags, er.keys[q], x) {
        var q :| 0 <= q < |er.keys| && er.keys[q] == x.key.0;
      }
    }
  }

  /** The loops over the first `i` networks raise exactly when one of them has a search that
      is not a key of the parameters. */
  lemma {:induction false} NetItemsFails<V>(results: Nested<V>, flags: map<string, bool>, i: nat)
    requires i <= |results.keys| && WellFormed(results)
    ensures NetItems(results, flags, i).Err? <==> exists q, s :: 0 <= q < i && Unknown(results, flags, results.keys[q], s)
  {
    if i > 0 {
      NetItemsFails(results, flags, i - 1);
      var n := results.keys[i - 1];
      SearchItemsAll(n, results.values[n], flags);
      if NetItems(results, flags, i - 1).Ok? && SearchItems(n, results.values[n], flags, |results.values[n].keys|).Err? {
        var s :| s in results.values[n].values && s !in flags;
        assert Unknown(results, flags, results.keys[i - 1], s);
      }
      if q, s :| 0 <= q < i && Unknown(results, flags, results.keys[q], s) {
        if q == i - 1 {
          assert s in results.values[n].values && s !in flags;
        } else {
          assert 0 <= q < i - 1;
        }
      }
    }
  }

  /** When they do not raise, the loops over the first `i` networks meet exactly the lists of
      those networks' kept searches. */
  lemma {:induction false} NetItemsLists<V>(results: Nested<V>, flags: map<string, bool>, i: nat)
    requires i <= |results.keys| && WellFormed(results)
    ensures NetItems(results, flags, i).Ok? ==> forall x: Item<V> :: x in NetItems(results, flags, i).value <==>
      exists q :: 0 <= q < i && x.net == results.keys[q] && Listed(results, flags, x.net, x.key.0, x.key.1, x.value)
  {
    if i > 0 && NetItems(results, flags, i).Ok? {
      NetItemsLists(results, flags, i - 1);
      var n := results.keys[i - 1];
      var er := results.values[n];
      SearchItemsAll(n, er, flags);
      assert NetItems(results, flags, i).value == NetItems(results, flags, i - 1).value + SearchItems(n, er, flags, |er.keys|).value;
      NetItemsStep(results, flags, i, NetItems(results, flags, i - 1).value, SearchItems(n, er, flags, |er.keys|).value);
    }
  }

  /** Appending the lists of network `i - 1` to those of the networks before it. */
  lemma NetItemsStep<V>(results: Nested<V>, flags: map<string, bool>, i: nat, prev: seq<Item<V>>, more: seq<Item<V>>)
    requires 0 < i <= |results.keys| && WellFormed(results)
    requires forall x: Item<V> :: x in prev <==>
      exists q :: 0 <= q < i - 1 && x.net == results.keys[q] && Listed(results, flags, x.net, x.key.0, x.key.1, x.value)
    requires forall x: Item<V> :: x in more <==> KeptItem(results.keys[i - 1], results.values[results.keys[i - 1]], flags, x.key.0, x)
    ensures forall x: Item<V> :: x in prev + more <==>
      exists q :: 0 <= q < i && x.net == results.keys[q] && Listed(results, flags, x.net, x.key.0, x.key.1, x.value)
  {
    var n := results.keys[i - 1];
    var er := results.values[n];
    forall x: Item<V> ensures x in prev + more <==>
      exists q :: 0 <= q < i && x.net == results.keys[q] && Listed(results, flags, x.net, x.key.0, x.key.1, x.value)
    {
      if x in more {
        assert KeptItem(n, er, flags, x.key.0, x);
        assert x.net == results.keys[i - 1];
      }
      if q :| 0 <= q < i && x.net == results.keys[q] && Listed(results, flags, x.net, x.key.0, x.key.1, x.value) {
        if q == i - 1 {
          assert KeptItem(n, er, flags, x.key.0, x);
        } else {
          assert 0 <= q < i - 1;
        }
      }
    }
  }

  /** Both halves for the first `i` networks. */
  lemma NetItemsMeaning<V>(results: Nested<V>, flags: map<string, bool>, i: nat)
    requires i <= |results.keys| && WellFormed(results)
    ensures NetItems(results, flags, i).Err? <==> exists q, s :: 0 <= q < i && Unknown(results, flags, results.keys[q], s)
    ensures NetItems(results, flags, i).Ok? ==> forall x: Item<V> :: x in NetItems(results, flags, i).value <==>
      exists q :: 0 <= q < i && x.net == results.keys[q] && Listed(results, flags, x.net, x.key.0, x.key.1, x.value)
  {
    NetItemsFails(results, flags, i);
    NetItemsLists(results, flags, i);
  }

  /** All the loops raise exactly when some network has a search that is not a key of the
      parameters; otherwise they meet exactly the lists of the kept searches. */
  lemma NetItemsAll<V(!new)>(results: Nested<V>, flags: map<string, bool>)
    requires WellFormed(results)
    ensures NetItems(results, flags, |results.keys|).Err? <==> exists n, s :: Unknown(results, flags, n, s)
    ensures NetItems(results, flags, |results.keys|).Ok? ==> ListsExactly(NetItems(results, flags, |results.keys|).value, results, flags)
  {
    NetItemsMeaning(results, flags, |results.keys|);
    if n, s :| Unknown(results, flags, n, s) {
      var q :| 0 <= q < |results.keys| && results.keys[q] == n;
      assert Unknown(results, flags, results.keys[q], s);
    }
    if NetItems(results, flags, |results.keys|).Ok? {
      forall x: Item<V> | Listed(results, flags, x.net, x.key.0, x.key.1, x.value)
        ensures exists q :: 0 <= q < |results.keys| && x.net == results.keys[q] && Listed(results, flags, x.net, x.key.0, x.key.1, x.value)
      {
        var q :| 0 <= q < |results.keys| && results.keys[q] == x.net;
      }
    }
  }

  // ---- the files ----


  /** How a dataset name becomes the file name's token. */
  datatype Naming =
    | FirstDot        // `key[1].split("/")[-1].split(".")[0]`
    | LastExtension   // `os.path.splitext(os.path.basename(key[1]))[0]`

  /** The base name up to its first '.'. */
  function Token(ts: string): string {
    BeforeFirst(AfterLast(ts, '/'), '.')
  }

  predicate AllDots(s: string) {
    forall i :: 0 <= i < |s| ==> s[i] == '.'
  }

  /** `os.path.splitext(b)[0]` for a base name `b`: the text before its last '.', unless every
      character before that '.' is a '.' too (a leading-dot name has no extension). */
  function DropExtension(b: string): (r: string)
    ensures '.' !in b ==> r == b
  {
    var ext := AfterLast(b, '.');
    if |ext| == |b| then b
    else
      var d := |b| - |ext| - 1;
      if AllDots(b[..d]) then b else b[..d]
  }

  function Stem(ts: string): string {
    DropExtension(AfterLast(ts, '/'))
  }

  /** `os.path.join(resultsdir, "query_results_{search}_{token}{suffix}.json")`. */
  function FileName(dir: string, k: Key, naming: Naming, suffix: string): string {
    var token := if naming == FirstDot then Token(k.1) else Stem(k.1);
    PathJoin(dir, "query_results_" + k.0 + "_" + token + suffix + ".json")
  }

  /** One `savefile(rname, rdict)`: the file of the group under `key` in the folder `dir`, and
      the dictionary dumped there. */
  datatype Saved<V> = Saved(dir: string, key: Key, naming: Naming, suffix: string, body: Dict<string, V>)
  {
    function Path(): string {
      FileName(dir, key, naming, suffix)
    }
  }

  /** The file of the group under `k`, holding `dict(list_of_tup)`. */
  function SavedAt<V>(reparse: Dict<Key, Group<V>>, dir: string, naming: Naming, suffix: string, k: Key): Saved<V>
    requires k in reparse.values
  {
    Saved(dir, k, naming, suffix, FromPairs(reparse.values[k]))
  }

  /** One file per group, in the order of the keys. */
  function SavedFiles<V>(reparse: Dict<Key, Group<V>>, dir: string, naming: Naming, suffix: string): (ws: seq<Saved<V>>)
    requires Valid(reparse)
    ensures |ws| == |reparse.keys|
    ensures forall i :: 0 <= i < |ws| ==> ws[i] == SavedAt(reparse, dir, naming, suffix, reparse.keys[i])
  {
    seq(|reparse.keys|, i requires 0 <= i < |reparse.keys| => SavedAt(reparse, dir, naming, suffix, reparse.keys[i]))
  }

  /** The loop over `reparse.items()` that saves each group. */
  method SaveAll<V>(reparse: Dict<Key, Group<V>>, dir: string, naming: Naming, suffix: string) returns (ws: seq<Saved<V>>)
    requires Valid(reparse)
    ensures ws == SavedFiles(reparse, dir, naming, suffix)
  {
    ws := [];
    for i := 0 to |reparse.keys|
      invariant |ws| == i
      invariant forall j :: 0 <= j < i ==> ws[j] == SavedAt(reparse, dir, naming, suffix, reparse.keys[j])
    {
      ws := ws + [SavedAt(reparse, dir, naming, suffix, reparse.keys[i])];
    }
  }

  /** The dictionary of one group: under network `n`, the value of an item of `n` with the
      group's key, present exactly when there is such an item. */
  lemma GroupBody<V>(items: seq<Item<V>>, k: Key, n: string)
    requires k in Grouped(items).values
    ensures var body := FromPairs(Grouped(items).values[k]);
      && (n in body.values <==> exists v :: Item(k, n, v) in items)
      && (n in body.values ==> Item(k, n, body.values[n]) in items)
  {
    var g := Filter(items, k);
    assert Grouped(items).values[k] == g;
    var body := FromPairs(g);
    if n in body.values {
      FromPairsValue(g, n);
      var i :| 0 <= i < |g| && g[i] == (n, body.values[n]);
      FilterMeaning(items, k, g[i]);
      var j :| 0 <= j < |items| && items[j].key == k && (items[j].net, items[j].value) == g[i];
      assert items[j] == Item(k, n, body.values[n]);
    }
    if v :| Item(k, n, v) in items {
      var j :| 0 <= j < |items| && items[j] == Item(k, n, v);
      FilterMeaning(items, k, (n, v));
      var i :| 0 <= i < |g| && g[i] == (n, v);
      assert KeysOf(g)[i] == n;
    }
  }

  /** The items are exactly the lists of the kept searches. */
  ghost predicate ListsExactly<V(!new)>(items: seq<Item<V>>, results: Nested<V>, flags: map<string, bool>) {
    forall x: Item<V> :: x in items <==> Listed(results, flags, x.net, x.key.0, x.key.1, x.value)
  }

  lemma BodyListed<V(!new)>(items: seq<Item<V>>, results: Nested<V>, flags: map<string, bool>, k: Key, n: string)
    requires ListsExactly(items, results, flags) && k in Grouped(items).values
    ensures var body := FromPairs(Grouped(items).values[k]);
      && (n in body.values <==> exists v :: Listed(results, flags, n, k.0, k.1, v))
      && (n in body.values ==> Listed(results, flags, n, k.0, k.1, body.values[n]))
  {
    GroupBody(items, k, n);
    var body := FromPairs(Grouped(items).values[k]);
    if n in body.values {
      var x := Item(k, n, body.values[n]);
      assert x in items;
      assert Listed(results, flags, x.net, x.key.0, x.key.1, x.value);
    }
    if v :| Listed(results, flags, n, k.0, k.1, v) {
      var x := Item(k, n, v);
      assert Listed(results, flags, x.net, x.key.0, x.key.1, x.value);
      assert x in items;
    }
  }

  /** What one file holds: under network `n`, the list of `n` for the file's search and
      dataset, present exactly when `n` has that list and the search is kept. */
  lemma SavedMeaning<V(!new)>(results: Nested<V>, flags: map<string, bool>, k: Key, n: string)
    requires WellFormed(results) && NetItems(results, flags, |results.keys|).Ok?
    requires k in Grouped(NetItems(results, flags, |results.keys|).value).values
    ensures var body := FromPairs(Grouped(NetItems(results, flags, |results.keys|).value).values[k]);
      && (n in body.values <==> exists v :: Listed(results, flags, n, k.0, k.1, v))
      && (n in body.values ==> Listed(results, flags, n, k.0, k.1, body.values[n]))
  {
    NetItemsAll(results, flags);
    BodyListed(NetItems(results, flags, |results.keys|).value, results, flags, k, n);
  }

  // ---- `CountPatternMatch_DB` and `CountPatternMatch_large_networks` ----

  /** One dataset's rows: counts or existence answers. */
  datatype RowList = Counted(counts: seq<Row>) | Founded(founds: seq<FoundRow>)

  function AnswerRows(a: PatternDbSearch.Answer): Dict<string, RowList> {
    match a
    case Counts(t) => Dict(t.keys, map u | u in t.values :: Counted(t.values[u]))
    case Founds(f) => Dict(f.keys, map u | u in f.values :: Founded(f.values[u]))
  }

  /** `results`, each answer seen as its dataset dictionary. */
  function DbNested(results: Dict<string, Dict<string, PatternDbSearch.Answer>>): Nested<RowList> {
    Dict(results.keys, map n | n in results.values ::
      Dict(results.values[n].keys, map s | s in results.values[n].values :: AnswerRows(results.values[n].values[s])))
  }

  /** `record_results(network_file, params_file, results, resultsdir, params)`, with `flags` the
      boolean entries of `params` and `dir` the folder from `create_results_folder`: the files
      written, in order, or the `KeyError` of a search that is not a parameter key. */
  method RecordDb(results: Nested<RowList>, flags: map<string, bool>, dir: string) returns (r: Result<seq<Saved<RowList>>>)
    requires WellFormed(results)
    ensures NetItems(results, flags, |results.keys|).Err? ==> r == Err(KeyError)
    ensures NetItems(results, flags, |results.keys|).Ok? ==>
      r == Ok(SavedFiles(Grouped(NetItems(results, flags, |results.keys|).value), dir, FirstDot, ""))
  {
    var items := NetItems(results, flags, |results.keys|);
    if items.Err? {
      NetItemsError(results, flags, |results.keys|);
      return Err(KeyError);
    }
    var reparse := Reparse(items.value);
    var ws := SaveAll(reparse, dir, FirstDot, "");
    return Ok(ws);
  }

  /** The only error the loops raise is `KeyError`. */
  lemma {:induction false} NetItemsError<V>(results: Nested<V>, flags: map<string, bool>, i: nat)
    requires i <= |results.keys| && WellFormed(results)
    ensures NetItems(results, flags, i).Err? ==> NetItems(results, flags, i).error == KeyError
  {
    if i > 0 {
      NetItemsError(results, flags, i - 1);
      var n := results.keys[i - 1];
      SearchItemsError(n, results.values[n], flags, |results.values[n].keys|);
    }
  }

  lemma {:induction false} SearchItemsError<V>(net: string, er: Dict<string, Dict<string, V>>, flags: map<string, bool>, j: nat)
    requires j <= |er.keys| && Valid(er)
    requires forall s :: s in er.values ==> Valid(er.values[s])
    ensures SearchItems(net, er, flags, j).Err? ==> SearchItems(net, er, flags, j).error == KeyError
  {
    if j > 0 {
      SearchItemsError(net, er, flags, j - 1);
    }
  }

  // ---- the parameter-indices variant ----

  /** The tables and index lists of one network's result are well formed. */
  ghost predicate ResultHeld(res: Reformatted) {
    && (res.domain.Some? ==> Valid(res.domain.value))
    && (res.stablefc.Some? ==> Valid(res.stablefc.value))
    && (res.domainLists.Some? ==> Valid(res.domainLists.value))
    && (res.stablefcLists.Some? ==> Valid(res.stablefcLists.value))
  }

  /** Every network's result is well formed. */
  ghost predicate ResultsHeld(results: Dict<string, Reformatted>) {
    Valid(results) && forall n :: n in results.values ==> ResultHeld(results.values[n])
  }

  /** The count tables of one network's result: "domain" then "stablefc", each when present;
      the "param_list" entry is not among them. */
  function Tables(res: Reformatted): (d: Dict<string, Table>)
    ensures Valid(d)
    ensures forall s :: s in d.values ==> s == "domain" || s == "stablefc"
    ensures ResultHeld(res) ==> forall s :: s in d.values ==> Valid(d.values[s])
  {
    var d := if res.domain.Some? then Put(Empty(), "domain", res.domain.value) else Empty();
    if res.stablefc.Some? then Put(d, "stablefc", res.stablefc.value) else d
  }

  /** The "param_list" entry of one network's result. */
  function Lists(res: Reformatted): (d: Dict<string, ParamLists>)
    ensures Valid(d)
    ensures forall s :: s in d.values ==> s == "domain" || s == "stablefc"
    ensures ResultHeld(res) ==> forall s :: s in d.values ==> Valid(d.values[s])
  {
    var d := if res.domainLists.Some? then Put(Empty(), "domain", res.domainLists.value) else Empty();
    if res.stablefcLists.Some? then Put(d, "stablefc", res.stablefcLists.value) else d
  }

  function TablesNested(results: Dict<string, Reformatted>): (r: Nested<seq<Row>>)
    requires ResultsHeld(results)
    ensures WellFormed(r) && r.keys == results.keys
    ensures forall n, s :: n in r.values && s in r.values[n].values ==> s == "domain" || s == "stablefc"
  {
    Dict(results.keys, map n | n in results.values :: Tables(results.values[n]))
  }

  function ListsNested(results: Dict<string, Reformatted>): (r: Nested<seq<(real, seq<nat>)>>)
    requires ResultsHeld(results)
    ensures WellFormed(r) && r.keys == results.keys
    ensures forall n, s :: n in r.values && s in r.values[n].values ==> s == "domain" || s == "stablefc"
  {
    Dict(results.keys, map n | n in results.values :: Lists(results.values[n]))
  }

  /** The entries of "param_list" are read whatever the parameters say. */
  const AllLists: map<string, bool> := map["domain" := true, "stablefc" := true]

  /** The loops over the variant's results never raise: its searches are "domain" and
      "stablefc", both parameter keys. */
  lemma NoUnknownSearch(results: Dict<string, Reformatted>, flags: map<string, bool>)
    requires ResultsHeld(results) && "domain" in flags && "stablefc" in flags
    ensures NetItems(TablesNested(results), flags, |results.keys|).Ok?
    ensures NetItems(ListsNested(results), AllLists, |results.keys|).Ok?
  {
    OnlyKnownSearches(TablesNested(results), flags);
    OnlyKnownSearches(ListsNested(results), AllLists);
  }

  lemma OnlyKnownSearches<V(!new)>(results: Nested<V>, flags: map<string, bool>)
    requires WellFormed(results) && "domain" in flags && "stablefc" in flags
    requires forall n, s :: n in results.values && s in results.values[n].values ==> s == "domain" || s == "stablefc"
    ensures NetItems(results, flags, |results.keys|).Ok?
  {
    NetItemsAll(results, flags);
  }

  /** `record_results` of the parameter-indices variant: first the count files, each dataset
      token the base name without its last extension, then the index-list files ending in
      "_param_list". */
  method RecordParamIndices(results: Dict<string, Reformatted>, flags: map<string, bool>, dir: string)
    returns (counts: seq<Saved<seq<Row>>>, lists: seq<Saved<seq<(real, seq<nat>)>>>)
    requires ResultsHeld(results) && "domain" in flags && "stablefc" in flags
    ensures var items := NetItems(TablesNested(results), flags, |results.keys|);
      items.Ok? && counts == SavedFiles(Grouped(items.value), dir, LastExtension, "")
    ensures var items := NetItems(ListsNested(results), AllLists, |results.keys|);
      items.Ok? && lists == SavedFiles(Grouped(items.value), dir, LastExtension, "_param_list")
  {
    NoUnknownSearch(results, flags);
    var tabItems := NetItems(TablesNested(results), flags, |results.keys|).value;
    var listItems := NetItems(ListsNested(results), AllLists, |results.keys|).value;
    var reparse := Reparse(tabItems);
    var reparseParams := Reparse(listItems);
    counts := SaveAll(reparse, dir, LastExtension, "");
    lists := SaveAll(reparseParams, dir, LastExtension, "_param_list");
  }

  // ---- the two file-name tokens ----

  /** The token and the stem of a base name `a.b.ext` under a directory. */
  lemma TokensDiffer(dir: string, a: string, b: string, ext: string)
    requires a != [] && '.' !in a && '.' !in ext
    requires '/' !in a && '/' !in b && '/' !in ext
    ensures Token(dir + ['/'] + (a + ['.'] + (b + ['.'] + ext))) == a
    ensures Stem(dir + ['/'] + ((a + ['.'] + b) + ['.'] + ext)) == a + ['.'] + b
  {
    var base := a + ['.'] + (b + ['.'] + ext);
    assert '/' !in base;
    AfterLastRest(dir, '/', base);
    BeforeFirstStem(a, '.', b + ['.'] + ext);
    var stem := a + ['.'] + b;
    var base2 := stem + ['.'] + ext;
    assert '/' !in base2;
    AfterLastRest(dir, '/', base2);
    AfterLastRest(stem, '.', ext);
    StemOf(stem, ext);
  }

  lemma StemOf(stem: string, ext: string)
    requires stem != [] && stem[0] != '.' && '.' !in ext
    ensures DropExtension(stem + ['.'] + ext) == stem
  {
    var b := stem + ['.'] + ext;
    AfterLastRest(stem, '.', ext);
    assert |b| - |ext| - 1 == |stem|;
    assert b[..|stem|] == stem;
    assert !AllDots(stem);
  }

  /** A base name without a dot gives the same token both ways: itself. */
  lemma TokensAgreeWithoutDot(ts: string)
    requires '.' !in AfterLast(ts, '/')
    ensures Token(ts) == Stem(ts) == AfterLast(ts, '/')
  {
    var b := AfterLast(ts, '/');
    BeforeFirstNone(b, '.');
    assert Token(ts) == BeforeFirst(b, '.');
    assert Stem(ts) == DropExtension(b);
  }

  lemma {:induction false} BeforeFirstNone(s: string, c: char)
    requires c !in s
    ensures BeforeFirst(s, c) == s
  {
    if s != [] {
      BeforeFirstNone(s[1..], c);
      assert s == [s[0]] + s[1..];
    }
  }
}
