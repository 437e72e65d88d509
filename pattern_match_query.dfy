/** The driver of the `patternmatch` query around the matching functions: choosing the
    requested functions (`extract_queries`), running them for one network over every dataset
    and epsilon (`search_over_networks`), and naming the result files (`record_results`). */
module PatternMatchQuery {
  import opened Wrappers
  import opened Dsgrn
  import opened Strings
  import opened Dicts
  import opened PosetTables
  import opened PatternMatch

  // ---- extract_queries ----

  /** `params['matchingfunction']`: one name or a list of names. */
  type Request = StrOrList

  function RequestedNames(req: Request): seq<string> {
    req.Items()
  }

  /** The functions `patternmatch.py` defines or imports, in the order `getmembers` lists them:
      the four matching functions and nine others. */
  const ModuleFunctions: seq<string> := [
    "CycleMatchInDomainGraph", "CycleMatchInStableMorseSet",
    "PathMatchInDomainGraph", "PathMatchInStableFullCycle",
    "calculate_posets_from_multiple_time_series", "extract_queries", "getGraphs", "getmembers",
    "isfunction", "query", "read_networks", "record_results", "search_over_networks"]

  /** The entries of `fs` that are requested, in the order of `fs`. */
  function KeepRequested(fs: seq<string>, names: seq<string>): (kept: seq<string>)
    ensures forall f :: f in kept <==> f in fs && f in names
  {
    if fs == [] then []
    else (if fs[0] in names then [fs[0]] else []) + KeepRequested(fs[1..], names)
  }

  /** The query refuses a name that is not a function of the module.  The source's message also
      shows the set of unknown names between "Matching function(s)" and "not implemented"; Python
      prints a set in hash order, so the message here leaves the names out. */
  const NotImplemented := "\nMatching function(s) not implemented in patternmatch.py.\n"

  /** `extract_queries` as written: any function of the module may be requested, not only a
      matching function. */
  function ExtractQueriesAsWritten(req: Request): (r: Result<seq<string>>)
    ensures r.Ok? <==> forall n :: n in RequestedNames(req) ==> n in ModuleFunctions
    ensures r.Err? ==> r.error == ValueError(NotImplemented)
    ensures r.Ok? ==> forall f :: f in r.value <==> f in ModuleFunctions && f in RequestedNames(req)
  {
    var names := RequestedNames(req);
    if exists n :: n in names && n !in ModuleFunctions then Err(ValueError(NotImplemented))
    else Ok(KeepRequested(ModuleFunctions, names))
  }

  /** The name of a helper that is not a matching function passes the check, and is then called
      with a parameter graph, a pattern graph and the count flag. */
  lemma HelperNamesAccepted()
    ensures ExtractQueriesAsWritten(Str("read_networks")).Ok?
    ensures "read_networks" in ExtractQueriesAsWritten(Str("read_networks")).value
    ensures forall m :: Name(m) != "read_networks"
  {
    assert "read_networks" == ModuleFunctions[10];
    LowerCaseIsNoMatcher("read_networks");
  }

  predicate IsMatcherName(n: string) {
    exists m :: Name(m) == n
  }

  /** Strictly increasing in `getmembers` order, hence without repetitions. */
  predicate InOrder(ms: seq<Matcher>) {
    forall i, j :: 0 <= i < j < |ms| ==> Rank(ms[i]) < Rank(ms[j])
  }

  /** The matching functions of `ms` that are requested, in the order of `ms`. */
  function KeepMatchers(ms: seq<Matcher>, names: seq<string>): (kept: seq<Matcher>)
    ensures forall m :: m in kept <==> m in ms && Name(m) in names
  {
    if ms == [] then []
    else (if Name(ms[0]) in names then [ms[0]] else []) + KeepMatchers(ms[1..], names)
  }

  lemma {:induction false} KeepMatchersInOrder(ms: seq<Matcher>, names: seq<string>)
    requires InOrder(ms)
    ensures InOrder(KeepMatchers(ms, names))
  {
    if ms != [] {
      var rest := KeepMatchers(ms[1..], names);
      KeepMatchersInOrder(ms[1..], names);
      forall m | m in rest ensures Rank(ms[0]) < Rank(m) {
        var j :| 0 <= j < |ms[1..]| && ms[1..][j] == m;
        assert ms[j + 1] == m;
      }
    }
  }

  /** `extract_queries` as evidently intended: only the four matching functions may be requested,
      and the mapping holds exactly the requested ones, in `getmembers` order. */
  function ExtractQueries(req: Request): (r: Result<seq<Matcher>>)
    ensures r.Ok? <==> forall n :: n in RequestedNames(req) ==> IsMatcherName(n)
    ensures r.Err? ==> r.error == ValueError(NotImplemented)
    ensures r.Ok? ==> forall m :: m in r.value <==> Name(m) in RequestedNames(req)
    ensures r.Ok? ==> InOrder(r.value)
  {
    var names := RequestedNames(req);
    if exists n :: n in names && !IsMatcherName(n) then Err(ValueError(NotImplemented))
    else
      KeepMatchersInOrder(Matchers, names);
      Ok(KeepMatchers(Matchers, names))
  }

  /** A name starting with a lower-case letter is not a matching function's. */
  lemma LowerCaseIsNoMatcher(f: string)
    requires |f| > 0 && 'a' <= f[0] <= 'z'
    ensures !IsMatcherName(f)
  {
    MatcherNamesCapitalised();
  }

  lemma MatcherNamesCapitalised()
    ensures forall m :: |Name(m)| > 0 && 'A' <= Name(m)[0] <= 'Z'
  {
    forall m ensures |Name(m)| > 0 && 'A' <= Name(m)[0] <= 'Z' {
      match m
      case CycleDomain =>
      case CycleStable =>
      case PathDomain =>
      case PathStableFC =>
    }
  }

  lemma HelpersAreNoMatchers()
    ensures forall i :: 4 <= i < |ModuleFunctions| ==> !IsMatcherName(ModuleFunctions[i])
  {
    forall i | 4 <= i < |ModuleFunctions| ensures !IsMatcherName(ModuleFunctions[i]) {
      LowerCaseIsNoMatcher(ModuleFunctions[i]);
    }
  }

  function Names(ms: seq<Matcher>): (ns: seq<string>)
    ensures |ns| == |ms| && forall i :: 0 <= i < |ms| ==> ns[i] == Name(ms[i])
  {
    if ms == [] then [] else [Name(ms[0])] + Names(ms[1..])
  }

  lemma {:induction false} KeepRequestedAppend(a: seq<string>, b: seq<string>, names: seq<string>)
    ensures KeepRequested(a + b, names) == KeepRequested(a, names) + KeepRequested(b, names)
  {
    if a != [] {
      assert (a + b)[1..] == a[1..] + b;
      KeepRequestedAppend(a[1..], b, names);
    } else {
      assert a + b == b;
    }
  }

  lemma {:induction false} NamesAppend(a: seq<Matcher>, b: seq<Matcher>)
    ensures Names(a + b) == Names(a) + Names(b)
  {
    if a == [] {
      assert a + b == b;
    } else {
      assert (a + b)[1..] == a[1..] + b;
      NamesAppend(a[1..], b);
    }
  }

  lemma {:induction false} KeepRequestedNames(ms: seq<Matcher>, names: seq<string>)
    ensures KeepRequested(Names(ms), names) == Names(KeepMatchers(ms, names))
  {
    if ms != [] {
      KeepRequestedNames(ms[1..], names);
      var ns := Names(ms);
      assert ns == [Name(ms[0])] + Names(ms[1..]);
      assert ns[1..] == Names(ms[1..]);
      var head := if Name(ms[0]) in names then [ms[0]] else [];
      NamesAppend(head, KeepMatchers(ms[1..], names));
      assert Names(head) == if Name(ms[0]) in names then [Name(ms[0])] else [];
    }
  }

  lemma {:induction false} KeepNoneRequested(fs: seq<string>, names: seq<string>)
    requires forall f :: f in fs ==> f !in names
    ensures KeepRequested(fs, names) == []
  {
    if fs != [] {
      KeepNoneRequested(fs[1..], names);
    }
  }

  /** When only matching functions are requested, the check as written and the intended one
      select the same functions in the same order. */
  lemma IntendedAgreesOnMatcherNames(req: Request)
    requires ExtractQueries(req).Ok?
    ensures ExtractQueriesAsWritten(req) == Ok(Names(ExtractQueries(req).value))
  {
    var names := RequestedNames(req);
    assert Names(Matchers) == ModuleFunctions[..4];
    forall n | n in names ensures n in ModuleFunctions {
      var m :| Name(m) == n;
      assert Name(m) in Names(Matchers);
    }
    HelpersAreNoMatchers();
    forall f | f in ModuleFunctions[4..] ensures f !in names {
      var i :| 0 <= i < |ModuleFunctions[4..]| && ModuleFunctions[4..][i] == f;
      assert ModuleFunctions[i + 4] == f;
    }
    assert ModuleFunctions == ModuleFunctions[..4] + ModuleFunctions[4..];
    KeepRequestedAppend(ModuleFunctions[..4], ModuleFunctions[4..], names);
    KeepNoneRequested(ModuleFunctions[4..], names);
    KeepRequestedNames(Matchers, names);
    var kept := KeepRequested(ModuleFunctions, names);
    assert kept == Names(KeepMatchers(Matchers, names));
    assert ExtractQueriesAsWritten(req) == Ok(kept);
  }

  // ---- search_over_networks ----

  /** One element of a result list: `(eps, R, size)`, or `(eps, numparams, numFC, size)` for the
      stable full-cycle path search in count mode. */
  datatype Entry =
    | Entry3(eps: real, answer: MatchAnswer, size: nat)
    | Entry4(eps: real, numparams: nat, numFC: nat, size: nat)

  /** The element recorded for answer `r` of matching function `m`. */
  function MakeEntry(m: Matcher, eps: real, r: MatchAnswer, size: nat, count: bool): Entry
    requires m == PathStableFC && count ==> r.CountFC?
  {
    if m == PathStableFC && count then Entry4(eps, r.numparams, r.numFC, size) else Entry3(eps, r, size)
  }

  /** The element recorded for matching function `m` and the poset `pos` at noise level `eps`: it
      carries the epsilon and the size of the parameter graph; the four-field form, only for the
      stable full-cycle path search in count mode, has at most as many matches as stable full
      cycles and at most as many of those as parameters. */
  function EntryFor(m: Matcher, params: seq<Parameter>, eps: real, pos: Poset, count: bool): (e: Entry)
    ensures e.eps == eps && e.size == |params|
    ensures e.Entry4? <==> m == PathStableFC && count
    ensures e.Entry3? ==> e.answer == Answer(m, params, pos, count)
    ensures e.Entry4? ==> e.numparams <= e.numFC <= e.size
  {
    CountsBounded(m, params, pos);
    MakeEntry(m, eps, Answer(m, params, pos, count), |params|, count)
  }

  /** The elements for one dataset: one per (epsilon, poset) pair, in order. */
  function Entries(m: Matcher, params: seq<Parameter>, list: PosetList, count: bool): (es: seq<Entry>)
    ensures |es| == |list|
    ensures forall j :: 0 <= j < |list| ==> es[j] == EntryFor(m, params, list[j].0, list[j].1, count)
  {
    seq(|list|, j requires 0 <= j < |list| => EntryFor(m, params, list[j].0, list[j].1, count))
  }

  /** Appending one (epsilon, poset) pair appends its element. */
  lemma EntriesSnoc(m: Matcher, params: seq<Parameter>, list: PosetList, j: nat, count: bool)
    requires j < |list|
    ensures Entries(m, params, list[..j + 1], count)
      == Entries(m, params, list[..j], count) + [EntryFor(m, params, list[j].0, list[j].1, count)]
  {
    var a := Entries(m, params, list[..j + 1], count);
    var b := Entries(m, params, list[..j], count) + [EntryFor(m, params, list[j].0, list[j].1, count)];
    assert |a| == |b|;
    forall i | 0 <= i < |a| ensures a[i] == b[i] {
      if i < j {
        assert list[..j + 1][i] == list[..j][i];
      }
    }
  }

  /** `ER`: a result list per (matching function name, dataset name). */
  type SearchResults<D(==)> = Dict<(Matcher, D), seq<Entry>>

  /** The pairs of the comprehension that starts `ER`: every matching function with every dataset,
      each with an empty list. */
  function InitialPairs<D(==, !new)>(ms: seq<Matcher>, ts: seq<D>): (ps: seq<((Matcher, D), seq<Entry>)>)
    ensures forall k :: k in KeysOf(ps) <==> k.0 in ms && k.1 in ts
    ensures forall i :: 0 <= i < |ps| ==> ps[i].1 == []
  {
    if ms == [] then []
    else
      var head := seq(|ts|, i requires 0 <= i < |ts| => ((ms[0], ts[i]), []));
      var rest := InitialPairs(ms[1..], ts);
      assert KeysOf(head + rest) == KeysOf(head) + KeysOf(rest);
      assert forall k :: k in KeysOf(head) <==> k.0 == ms[0] && k.1 in ts by {
        forall k: (Matcher, D) | k.0 == ms[0] && k.1 in ts ensures k in KeysOf(head) {
          var i :| 0 <= i < |ts| && ts[i] == k.1;
          assert KeysOf(head)[i] == k;
        }
      }
      head + rest
  }

  /** `ER` before the search: an empty list per matching function and dataset. */
  method InitialResults<D(==, !new)>(matchers: seq<Matcher>, ts: seq<D>) returns (er: SearchResults<D>)
    ensures Valid(er)
    ensures forall k :: k in er.values <==> k.0 in matchers && k.1 in ts
    ensures forall k :: k in er.values ==> er.values[k] == []
  {
    er := FromPairs(InitialPairs(matchers, ts));
    forall k | k in er.values ensures er.values[k] == [] {
      FromPairsValue(InitialPairs(matchers, ts), k);
    }
  }

  /** What `search_over_networks` computes for one network: a list per requested matching
      function and dataset and nothing else, each holding one element per epsilon of that
      dataset. */
  ghost predicate Searched<D(!new)>(er: SearchResults<D>, matchers: seq<Matcher>, ds: Dict<D, PosetList>, params: seq<Parameter>, count: bool) {
    Valid(er)
    && (forall k :: k in er.values <==> k.0 in matchers && k.1 in ds.values)
    && forall m, t :: m in matchers && t in ds.values ==>
         er.values[(m, t)] == Entries(m, params, ds.values[t], count)
  }

  /** The element one call of the matching function `m` appends. */
  method RunEntry(m: Matcher, params: seq<Parameter>, eps: real, pos: Poset, count: bool) returns (e: Entry)
    ensures e == EntryFor(m, params, eps, pos, count)
  {
    var r := Run(m, params, pos, count);
    e := MakeEntry(m, eps, r, |params|, count);
  }

  /** The loop over the matching functions for one (epsilon, poset) pair of dataset `ts`. */
  method AppendAnswers<D(==, !new)>(er: SearchResults<D>, matchers: seq<Matcher>, ts: D, eps: real, pos: Poset,
                       params: seq<Parameter>, count: bool) returns (er': SearchResults<D>)
    requires NoDuplicates(matchers)
    requires forall m :: m in matchers ==> (m, ts) in er.values
    ensures er'.keys == er.keys
    ensures er'.values.Keys == er.values.Keys
    ensures forall m :: m in matchers ==>
      er'.values[(m, ts)] == er.values[(m, ts)] + [EntryFor(m, params, eps, pos, count)]
    ensures forall k :: k in er.values && (k.1 != ts || k.0 !in matchers) ==> er'.values[k] == er.values[k]
  {
    er' := er;
    var i := 0;
    while i < |matchers|
      invariant 0 <= i <= |matchers|
      invariant er'.keys == er.keys
      invariant er'.values.Keys == er.values.Keys
      invariant forall j :: 0 <= j < i ==>
        er'.values[(matchers[j], ts)] == er.values[(matchers[j], ts)] + [EntryFor(matchers[j], params, eps, pos, count)]
      invariant forall j :: i <= j < |matchers| ==> er'.values[(matchers[j], ts)] == er.values[(matchers[j], ts)]
      invariant forall k :: k in er.values && (k.1 != ts || k.0 !in matchers) ==> er'.values[k] == er.values[k]
    {
      var m := matchers[i];
      var e := RunEntry(m, params, eps, pos, count);
      var key := (m, ts);
      assert m in matchers;
      er' := Put(er', key, er'.values[key] + [e]);
      i := i + 1;
    }
  }

  /** The lists of dataset `ts` after pair `j` has been appended to those after pairs `..j`. */
  lemma EntriesGrow<D(!new)>(start: map<(Matcher, D), seq<Entry>>, before: map<(Matcher, D), seq<Entry>>,
                             after: map<(Matcher, D), seq<Entry>>, matchers: seq<Matcher>, ts: D,
                             list: PosetList, j: nat, params: seq<Parameter>, count: bool)
    requires j < |list|
    requires forall m :: m in matchers ==> (m, ts) in start && (m, ts) in before && (m, ts) in after
    requires forall m :: m in matchers ==> before[(m, ts)] == start[(m, ts)] + Entries(m, params, list[..j], count)
    requires forall m :: m in matchers ==>
      after[(m, ts)] == before[(m, ts)] + [EntryFor(m, params, list[j].0, list[j].1, count)]
    ensures forall m :: m in matchers ==> after[(m, ts)] == start[(m, ts)] + Entries(m, params, list[..j + 1], count)
  {
    forall m | m in matchers
      ensures after[(m, ts)] == start[(m, ts)] + Entries(m, params, list[..j + 1], count)
    {
      EntriesSnoc(m, params, list, j, count);
    }
  }

  /** The loop over the (epsilon, poset) pairs of dataset `ts`. */
  method SearchDataset<D(==, !new)>(er: SearchResults<D>, matchers: seq<Matcher>, ts: D, list: PosetList,
                       params: seq<Parameter>, count: bool) returns (er': SearchResults<D>)
    requires NoDuplicates(matchers)
    requires forall m :: m in matchers ==> (m, ts) in er.values
    ensures er'.keys == er.keys
    ensures er'.values.Keys == er.values.Keys
    ensures forall m :: m in matchers ==> er'.values[(m, ts)] == er.values[(m, ts)] + Entries(m, params, list, count)
    ensures forall k :: k in er.values && (k.1 != ts || k.0 !in matchers) ==> er'.values[k] == er.values[k]
  {
    er' := er;
    var j := 0;
    while j < |list|
      invariant 0 <= j <= |list|
      invariant er'.keys == er.keys
      invariant er'.values.Keys == er.values.Keys
      invariant forall m :: m in matchers ==> er'.values[(m, ts)] == er.values[(m, ts)] + Entries(m, params, list[..j], count)
      invariant forall k :: k in er.values && (k.1 != ts || k.0 !in matchers) ==> er'.values[k] == er.values[k]
    {
      ghost var before := er'.values;
      er' := AppendAnswers(er', matchers, ts, list[j].0, list[j].1, params, count);
      EntriesGrow(er.values, before, er'.values, matchers, ts, list, j, params, count);
      j := j + 1;
    }
    assert list[..j] == list;
  }

  /** One more dataset `ts` done: its lists have been filled in and no other list has changed. */
  lemma ExtendDone<M(!new), D(!new), V>(prev: map<(M, D), seq<V>>, cur: map<(M, D), seq<V>>,
                                        target: (M, D) -> seq<V>, ms: seq<M>, ts: D, done: seq<D>)
    requires cur.Keys == prev.Keys
    requires forall k :: k in prev ==> k.0 in ms
    requires forall k :: k in prev ==> prev[k] == if k.1 in done then target(k.0, k.1) else []
    requires forall m :: m in ms && (m, ts) in prev ==> cur[(m, ts)] == prev[(m, ts)] + target(m, ts)
    requires forall k :: k in prev && k.1 != ts ==> cur[k] == prev[k]
    requires ts !in done
    ensures forall k :: k in cur ==> cur[k] == if k.1 in done + [ts] then target(k.0, k.1) else []
  {
    forall k | k in cur ensures cur[k] == if k.1 in done + [ts] then target(k.0, k.1) else [] {
      var (m, t) := k;
      if t == ts {
        assert prev[(m, ts)] == [];
        assert cur[(m, ts)] == [] + target(m, ts);
      }
    }
  }

  /** The list dataset `t` is to receive for matching function `m`; none for a name the network
      has no dataset under. */
  ghost function Target<D(!new)>(ds: Dict<D, PosetList>, params: seq<Parameter>, count: bool, m: Matcher, t: D): seq<Entry> {
    if t in ds.values then Entries(m, params, ds.values[t], count) else []
  }

  /** One pass of the loop over the datasets: dataset `ds.keys[di]` is searched, after which the
      datasets before it and it have their lists and the others still have empty ones. */
  method SearchNext<D(==, !new)>(er: SearchResults<D>, matchers: seq<Matcher>, ds: Dict<D, PosetList>,
                                 params: seq<Parameter>, count: bool, di: nat, ghost done: seq<D>)
    returns (er': SearchResults<D>)
    requires NoDuplicates(matchers)
    requires Valid(ds)
    requires di < |ds.keys|
    requires |done| == di && forall i :: 0 <= i < di ==> done[i] == ds.keys[i]
    requires forall k :: k in er.values <==> k.0 in matchers && k.1 in ds.values
    requires forall k :: k in er.values ==> er.values[k] == if k.1 in done then Target(ds, params, count, k.0, k.1) else []
    ensures er'.keys == er.keys && er'.values.Keys == er.values.Keys
    ensures forall k :: k in er'.values ==>
      er'.values[k] == if k.1 in done + [ds.keys[di]] then Target(ds, params, count, k.0, k.1) else []
  {
    var ts := ds.keys[di];
    er' := SearchDataset(er, matchers, ts, ds.values[ts], params, count);
    assert ts !in done by {
      forall i | 0 <= i < di ensures done[i] != ts {
        assert done[i] == ds.keys[i];
      }
    }
    ExtendDone(er.values, er'.values, (m, t) => Target(ds, params, count, m, t), matchers, ts, done);
  }

  /** The loop over the datasets of one network, starting from `ER` with every list empty. */
  method SearchDatasets<D(==, !new)>(matchers: seq<Matcher>, ds: Dict<D, PosetList>, params: seq<Parameter>, count: bool)
    returns (er: SearchResults<D>)
    requires NoDuplicates(matchers)
    requires Valid(ds)
    ensures Searched(er, matchers, ds, params, count)
  {
    er := InitialResults(matchers, ds.keys);
    ghost var er0 := er;
    var di := 0;
    ghost var done: seq<D> := [];
    while di < |ds.keys|
      invariant 0 <= di <= |ds.keys|
      invariant |done| == di && forall i :: 0 <= i < di ==> done[i] == ds.keys[i]
      invariant er.keys == er0.keys && er.values.Keys == er0.values.Keys
      invariant forall k :: k in er.values ==> er.values[k] == if k.1 in done then Target(ds, params, count, k.0, k.1) else []
    {
      er := SearchNext(er, matchers, ds, params, count, di, done);
      done := done + [ds.keys[di]];
      di := di + 1;
    }
    forall k | k in er.values ensures k.1 in done {
      var i :| 0 <= i < |ds.keys| && ds.keys[i] == k.1;
      assert done[i] == k.1;
    }
    SameKeysValid(er0, er);
  }

  /** `search_over_networks` for one network: `KeyError` when no posets are stored under the
      network's variable names, and otherwise the specification with a list per requested
      matching function and dataset. */
  method SearchOverNetworks(matchers: seq<Matcher>, count: bool, posets: PosetTable, net: Network)
    returns (r: Result<(string, SearchResults<string>)>)
    requires NoDuplicates(matchers)
    requires NameKey(net) in posets ==> Valid(posets[NameKey(net)])
    ensures r.Err? <==> NameKey(net) !in posets
    ensures r.Err? ==> r.error == KeyError
    ensures r.Ok? ==> r.value.0 == net.spec && Searched(r.value.1, matchers, posets[NameKey(net)], net.params, count)
  {
    var key := NameKey(net);
    if key !in posets {
      return Err(KeyError);
    }
    var er := SearchDatasets(matchers, posets[key], net.params, count);
    return Ok((net.spec, er));
  }

  // ---- record_results ----

  /** `dict(output)`: each network's `ER` under its specification. */
  type AllResults = Dict<string, SearchResults<string>>

  /** One JSON file written by `record_results`: the file for search `search` and dataset
      `dataset` under `resultsdir`, and the dictionary dumped into it. */
  datatype Write = Write(resultsdir: string, search: string, dataset: string, body: Dict<string, seq<Entry>>)
  {
    function Path(): string {
      ResultFileName(resultsdir, search, dataset)
    }
  }

  /** `os.path.join(resultsdir, "query_results_{search}_{stem}.json")`, where the stem is the
      dataset name up to its first '.'. */
  function ResultFileName(resultsdir: string, search: string, ts: string): string {
    PathJoin(resultsdir, "query_results_" + search + "_" + BeforeFirst(ts, '.') + ".json")
  }

  /** `reparse` for one key of `ER`: every network's list under `name`, in the order of the
      networks; `KeyError` when some network has no list under `name`. */
  function Regroup<N(==, !new), K(==, !new), V>(results: Dict<N, Dict<K, V>>, name: K): (r: Result<Dict<N, V>>)
    requires Valid(results)
    ensures r.Err? <==> exists n :: n in results.values && name !in results.values[n].values
    ensures r.Err? ==> r.error == KeyError
    ensures r.Ok? ==> Valid(r.value) && r.value.keys == results.keys
    ensures r.Ok? ==> forall n :: n in results.values ==>
      n in r.value.values && r.value.values[n] == results.values[n].values[name]
  {
    if exists n :: n in results.values && name !in results.values[n].values then Err(KeyError)
    else Ok(Dict(results.keys, map n | n in results.values :: results.values[n].values[name]))
  }

  /** The loop that fills `reparse`, starting from an empty list per network. */
  method RegroupLoop<N(==, !new), K(==, !new), V>(results: Dict<N, Dict<K, V>>, name: K, empty: V)
    returns (r: Result<Dict<N, V>>)
    requires Valid(results)
    ensures r == Regroup(results, name)
  {
    var nets, rs := results.keys, results.values;
    var reparse := Dict(nets, map n | n in rs :: empty);
    var i := 0;
    while i < |nets|
      invariant 0 <= i <= |nets|
      invariant reparse.keys == nets && reparse.values.Keys == rs.Keys
      invariant forall j :: 0 <= j < i ==> name in rs[nets[j]].values && reparse.values[nets[j]] == rs[nets[j]].values[name]
    {
      var n := nets[i];
      if name !in rs[n].values {
        return Err(KeyError);
      }
      ghost var prev := reparse;
      reparse := Put(reparse, n, rs[n].values[name]);
      forall j | 0 <= j <= i
        ensures name in rs[nets[j]].values && reparse.values[nets[j]] == rs[nets[j]].values[name]
      {
        if j < i {
          assert nets[j] != n;
          assert reparse.values[nets[j]] == prev.values[nets[j]];
        }
      }
      i := i + 1;
    }
    RegroupComplete(results, name, reparse);
    r := Ok(reparse);
  }

  lemma RegroupComplete<N(!new), K(!new), V>(results: Dict<N, Dict<K, V>>, name: K, reparse: Dict<N, V>)
    requires Valid(results)
    requires reparse.keys == results.keys && reparse.values.Keys == results.values.Keys
    requires forall j :: 0 <= j < |results.keys| ==>
      name in results.values[results.keys[j]].values && reparse.values[results.keys[j]] == results.values[results.keys[j]].values[name]
    ensures Regroup(results, name) == Ok(reparse)
  {
    forall n | n in results.values ensures name in results.values[n].values && reparse.values[n] == results.values[n].values[name] {
      var j :| 0 <= j < |results.keys| && results.keys[j] == n;
    }
    assert reparse.values == map n | n in results.values :: results.values[n].values[name];
  }

  /** What `record_results` leaves behind: the files written, in order, and the exception that
      ended it, if any (files written before the exception stay written). */
  datatype Recorded = Recorded(writes: seq<Write>, error: Option<Error>)

  /** The loop over the keys of the first network's `ER` has written one file per key, in
      order, holding every network's list under that key, and stopped with `KeyError` at the
      first key some network lacks. */
  ghost predicate WroteEachKey(r: Recorded, results: AllResults, resultsdir: string, keys: seq<(Matcher, string)>)
    requires Valid(results)
  {
    && |r.writes| <= |keys|
    && (forall i :: 0 <= i < |r.writes| ==>
         Regroup(results, keys[i]).Ok?
         && r.writes[i] == Write(resultsdir, Name(keys[i].0), keys[i].1, Regroup(results, keys[i]).value))
    && (r.error.None? ==> |r.writes| == |keys|)
    && (r.error.Some? ==> |r.writes| < |keys| && Regroup(results, keys[|r.writes|]).Err? && r.error.value == KeyError)
  }

  /** The files for one search when no network was searched: one per time-series file. */
  function EmptyRow(resultsdir: string, search: string, tsf: seq<string>): (ws: seq<Write>)
    ensures |ws| == |tsf|
    ensures forall j :: 0 <= j < |tsf| ==> ws[j] == Write(resultsdir, search, tsf[j], Empty())
  {
    seq(|tsf|, j requires 0 <= j < |tsf| => Write(resultsdir, search, tsf[j], Empty()))
  }

  /** The files written when no network was searched: one per requested search and dataset name,
      each holding the empty dictionary. */
  function EmptyWrites(resultsdir: string, searches: seq<string>, tsf: seq<string>): (ws: seq<Write>)
    ensures |ws| == |searches| * |tsf|
    ensures forall w :: w in ws <==>
      w.resultsdir == resultsdir && w.search in searches && w.dataset in tsf && w.body == Empty()
  {
    if searches == [] then []
    else
      var head := EmptyRow(resultsdir, searches[0], tsf);
      var rest := EmptyWrites(resultsdir, searches[1..], tsf);
      assert |head + rest| == |searches| * |tsf| by {
        assert |searches| * |tsf| == |tsf| + (|searches| - 1) * |tsf|;
      }
      assert forall w: Write :: w in head <==> w.resultsdir == resultsdir && w.search == searches[0] && w.dataset in tsf && w.body == Empty() by {
        forall w: Write | w.resultsdir == resultsdir && w.search == searches[0] && w.dataset in tsf && w.body == Empty() ensures w in head {
          var j :| 0 <= j < |tsf| && tsf[j] == w.dataset;
          assert head[j] == w;
        }
      }
      assert forall x :: x in searches <==> x == searches[0] || x in searches[1..];
      head + rest
  }

  /** The branch of `record_results` with results: the loop over the keys of the first
      network's `ER`. */
  method RecordSearched(results: AllResults, resultsdir: string) returns (r: Recorded)
    requires Valid(results) && results.keys != []
    ensures WroteEachKey(r, results, resultsdir, results.values[results.keys[0]].keys)
  {
    var keys := results.values[results.keys[0]].keys;
    var writes: seq<Write> := [];
    var i := 0;
    while i < |keys|
      invariant 0 <= i <= |keys| && |writes| == i
      invariant forall k :: 0 <= k < i ==>
        Regroup(results, keys[k]).Ok?
        && writes[k] == Write(resultsdir, Name(keys[k].0), keys[k].1, Regroup(results, keys[k]).value)
    {
      var reparse := RegroupLoop(results, keys[i], []);
      if reparse.Err? {
        return Recorded(writes, Some(reparse.error));
      }
      writes := writes + [Write(resultsdir, Name(keys[i].0), keys[i].1, reparse.value)];
      i := i + 1;
    }
    return Recorded(writes, None);
  }

  /** The branch of `record_results` without results: the loops over the requested searches
      and the time-series files. */
  method RecordNothing(resultsdir: string, searches: seq<string>, tsf: seq<string>) returns (writes: seq<Write>)
    ensures writes == EmptyWrites(resultsdir, searches, tsf)
  {
    writes := [];
    var i := 0;
    while i < |searches|
      invariant 0 <= i <= |searches|
      invariant EmptyWrites(resultsdir, searches, tsf) == writes + EmptyWrites(resultsdir, searches[i..], tsf)
    {
      var row := RecordEmptyRow(resultsdir, searches[i], tsf);
      writes := writes + row;
      assert searches[i..][1..] == searches[i + 1..];
      i := i + 1;
    }
  }

  /** The inner loop of the branch without results: one empty file per time-series file. */
  method RecordEmptyRow(resultsdir: string, search: string, tsf: seq<string>) returns (row: seq<Write>)
    ensures row == EmptyRow(resultsdir, search, tsf)
  {
    row := [];
    var j := 0;
    while j < |tsf|
      invariant 0 <= j <= |tsf|
      invariant row == EmptyRow(resultsdir, search, tsf)[..j]
    {
      row := row + [Write(resultsdir, search, tsf[j], Empty())];
      j := j + 1;
    }
  }

  /** `record_results`: with results, one file per key of the first network's `ER`, holding
      every network's list under that key; with none, an empty file per requested search and
      time-series file, where a missing `timeseriesfname` raises `KeyError` first. */
  method RecordResults(results: AllResults, resultsdir: string, tsfname: Option<StrOrList>, matchers: seq<Matcher>)
    returns (r: Recorded)
    requires Valid(results)
    ensures results.keys != [] ==> WroteEachKey(r, results, resultsdir, results.values[results.keys[0]].keys)
    ensures results.keys == [] && tsfname.None? ==> r == Recorded([], Some(KeyError))
    ensures results.keys == [] && tsfname.Some? ==>
      r == Recorded(EmptyWrites(resultsdir, Names(matchers), tsfname.value.Items()), None)
  {
    if results.keys != [] {
      r := RecordSearched(results, resultsdir);
    } else if tsfname.None? {
      r := Recorded([], Some(KeyError));
    } else {
      var writes := RecordNothing(resultsdir, Names(matchers), tsfname.value.Items());
      r := Recorded(writes, None);
    }
  }

  /** When every network has a list under every key of the first network's `ER` (as when they
      were all searched over the same datasets), a file is written for every key and nothing
      is raised. */
  lemma SharedKeysRecordAll(r: Recorded, results: AllResults, resultsdir: string, keys: seq<(Matcher, string)>)
    requires Valid(results) && WroteEachKey(r, results, resultsdir, keys)
    requires forall n, i :: n in results.values && 0 <= i < |keys| ==> keys[i] in results.values[n].values
    ensures r.error.None? && |r.writes| == |keys|
  {
  }

  /** A key of the first network's `ER` that a later network lacks ends `record_results` with
      `KeyError` before the file for that key is written. */
  lemma MissingKeyRaises(r: Recorded, results: AllResults, resultsdir: string, keys: seq<(Matcher, string)>, n: string, i: nat)
    requires Valid(results) && WroteEachKey(r, results, resultsdir, keys)
    requires n in results.values && i < |keys| && keys[i] !in results.values[n].values
    ensures r.error == Some(KeyError) && |r.writes| <= i
  {
  }

  /** Two dataset names that agree up to their first '.' share their result file, so the later
      file replaces the earlier one. */
  lemma DatasetsCanShareAFile(resultsdir: string, search: string, stem: string, ext1: string, ext2: string)
    requires '.' !in stem
    ensures ResultFileName(resultsdir, search, stem + "." + ext1) == ResultFileName(resultsdir, search, stem + "." + ext2)
  {
    BeforeFirstStem(stem, '.', ext1);
    BeforeFirstStem(stem, '.', ext2);
  }
}
