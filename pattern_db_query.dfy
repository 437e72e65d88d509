/** The query layer shared by the pattern-match count queries: the configuration check
    `sanity_check` and `get_posets`, which either computes posets from time-series files or
    takes them literally from the parameters.

    The literal poset dictionary is the result of parsing the `posets` parameter, an input here;
    its items are visited in dictionary order. */
module PatternDbQuery {
  import opened Wrappers
  import opened Dicts
  import opened Dsgrn
  import opened PosetTables
  import opened Posets
  import opened PosetMerge

  /** The messages of the four rejections. */
  const OneSourceMessage := "Only one of 'posets' or the three keys 'timeseriesfname', 'tsfile_is_row_format' and 'epsilons' may be specified in the parameter file."
  const TripleMessage := "All of the three keys 'timeseriesfname', 'tsfile_is_row_format' and 'epsilons' must be specified in the parameter file."
  const NoSourceMessage := "Either 'posets' or the three keys 'timeseriesfname', 'tsfile_is_row_format' and 'epsilons' must be specified in the parameter file."
  const ModeMessage := "All of the three keys 'domain', 'stablefc' and 'count' must be specified in the parameter file."

  /** `sanity_check` on the keys of the parameter dictionary: the configuration is accepted
      exactly when the posets come from one source, literally or from all three time-series
      keys, and the three mode keys are present; every rejection is a `ValueError`. */
  function SanityCheck(keys: set<string>): (r: Option<Error>)
    ensures r.None? <==>
      && (|| ("posets" in keys && "timeseriesfname" !in keys && "tsfile_is_row_format" !in keys && "epsilons" !in keys)
          || ("posets" !in keys && "timeseriesfname" in keys && "tsfile_is_row_format" in keys && "epsilons" in keys))
      && "domain" in keys && "stablefc" in keys && "count" in keys
    ensures r.Some? ==> r.value.ValueError?
  {
    var anyTs := "timeseriesfname" in keys || "tsfile_is_row_format" in keys || "epsilons" in keys;
    var allTs := "timeseriesfname" in keys && "tsfile_is_row_format" in keys && "epsilons" in keys;
    if anyTs && "posets" in keys then
      Some(ValueError(OneSourceMessage))
    else if anyTs && !allTs then
      Some(ValueError(TripleMessage))
    else if "posets" !in keys && "timeseriesfname" !in keys then
      Some(ValueError(NoSourceMessage))
    else if "domain" !in keys || "stablefc" !in keys || "count" !in keys then
      Some(ValueError(ModeMessage))
    else None
  }

  /** Giving both `posets` and a time-series key is the first error reported. */
  lemma BothSourcesRejectedFirst(keys: set<string>)
    requires "posets" in keys && "epsilons" in keys
    ensures SanityCheck(keys) == Some(ValueError(OneSourceMessage))
  {
  }

  // Sorting by noise level

  predicate SortedByEps(l: PosetList) {
    forall i, j :: 0 <= i < j < |l| ==> l[i].0 <= l[j].0
  }

  predicate SortedReals(l: seq<real>) {
    forall i, j :: 0 <= i < j < |l| ==> l[i] <= l[j]
  }

  /** `x` placed after the pairs whose noise level is not larger. */
  function InsertByEps(x: (real, Poset), s: PosetList): (r: PosetList)
    ensures |r| == |s| + 1
  {
    if s == [] then [x]
    else if x.0 < s[0].0 then [x] + s
    else [s[0]] + InsertByEps(x, s[1..])
  }

  lemma {:induction false} InsertByEpsPerm(x: (real, Poset), s: PosetList)
    ensures multiset(InsertByEps(x, s)) == multiset(s) + multiset{x}
  {
    if s != [] && x.0 >= s[0].0 {
      InsertByEpsPerm(x, s[1..]);
      assert s == [s[0]] + s[1..];
    }
  }

  lemma {:induction false} InsertByEpsSorted(x: (real, Poset), s: PosetList)
    requires SortedByEps(s)
    ensures SortedByEps(InsertByEps(x, s))
    ensures InsertByEps(x, s)[0] == x || InsertByEps(x, s)[0] == s[0]
  {
    if s != [] && x.0 >= s[0].0 {
      var t := InsertByEps(x, s[1..]);
      InsertByEpsSorted(x, s[1..]);
      var r := [s[0]] + t;
      forall i, j | 0 <= i < j < |r| ensures r[i].0 <= r[j].0 {
        assert r[j] == t[j - 1];
        if i > 0 { assert r[i] == t[i - 1]; } else { assert t[0].0 <= t[j - 1].0; }
      }
    }
  }

  /** The poset list sorted by noise level (insertion sort). */
  function SortByEps(l: PosetList): (r: PosetList)
    ensures |r| == |l|
  {
    if l == [] then [] else InsertByEps(l[0], SortByEps(l[1..]))
  }

  /** `sorted(pos)` orders the pairs by noise level and keeps every pair. */
  lemma {:induction false} SortByEpsSorts(l: PosetList)
    ensures SortedByEps(SortByEps(l))
    ensures multiset(SortByEps(l)) == multiset(l)
  {
    if l != [] {
      SortByEpsSorts(l[1..]);
      InsertByEpsSorted(l[0], SortByEps(l[1..]));
      InsertByEpsPerm(l[0], SortByEps(l[1..]));
      assert l == [l[0]] + l[1..];
    }
  }

  function InsertReal(x: real, s: seq<real>): (r: seq<real>)
    ensures |r| == |s| + 1
  {
    if s == [] then [x]
    else if x < s[0] then [x] + s
    else [s[0]] + InsertReal(x, s[1..])
  }

  lemma {:induction false} InsertRealPerm(x: real, s: seq<real>)
    ensures multiset(InsertReal(x, s)) == multiset(s) + multiset{x}
  {
    if s != [] && x >= s[0] {
      InsertRealPerm(x, s[1..]);
      assert s == [s[0]] + s[1..];
    }
  }

  lemma {:induction false} InsertRealSorted(x: real, s: seq<real>)
    requires SortedReals(s)
    ensures SortedReals(InsertReal(x, s))
    ensures InsertReal(x, s)[0] == x || InsertReal(x, s)[0] == s[0]
  {
    if s != [] && x >= s[0] {
      var t := InsertReal(x, s[1..]);
      InsertRealSorted(x, s[1..]);
      var r := [s[0]] + t;
      forall i, j | 0 <= i < j < |r| ensures r[i] <= r[j] {
        assert r[j] == t[j - 1];
        if i > 0 { assert r[i] == t[i - 1]; } else { assert t[0] <= t[j - 1]; }
      }
    }
  }

  /** `sorted` on a list of noise levels. */
  function SortReals(l: seq<real>): (r: seq<real>)
    ensures |r| == |l|
  {
    if l == [] then [] else InsertReal(l[0], SortReals(l[1..]))
  }

  /** `sorted` orders the noise levels and keeps every one. */
  lemma {:induction false} SortRealsSorts(l: seq<real>)
    ensures SortedReals(SortReals(l))
    ensures multiset(SortReals(l)) == multiset(l)
  {
    if l != [] {
      SortRealsSorts(l[1..]);
      InsertRealSorted(l[0], SortReals(l[1..]));
      InsertRealPerm(l[0], SortReals(l[1..]));
      assert l == [l[0]] + l[1..];
    }
  }

  /** `[eps for eps, _ in pos]` */
  function EpsOf(l: PosetList): (es: seq<real>)
    ensures |es| == |l| && forall k :: 0 <= k < |l| ==> es[k] == l[k].0
  {
    seq(|l|, k requires 0 <= k < |l| => l[k].0)
  }

  lemma {:induction false} EpsOfInsert(x: (real, Poset), s: PosetList)
    ensures EpsOf(InsertByEps(x, s)) == InsertReal(x.0, EpsOf(s))
  {
    if s != [] && x.0 >= s[0].0 {
      EpsOfInsert(x, s[1..]);
      assert EpsOf(s)[1..] == EpsOf(s[1..]);
      assert EpsOf([s[0]] + InsertByEps(x, s[1..])) == [s[0].0] + EpsOf(InsertByEps(x, s[1..]));
    } else if s != [] {
      assert EpsOf([x] + s) == [x.0] + EpsOf(s);
    }
  }

  /** The noise levels of the sorted poset list are the sorted noise levels, so the epsilons the
      parameter-indices query fills in agree with the order of its posets. */
  lemma {:induction false} EpsOfSorted(l: PosetList)
    ensures EpsOf(SortByEps(l)) == SortReals(EpsOf(l))
  {
    if l != [] {
      EpsOfSorted(l[1..]);
      EpsOfInsert(l[0], SortByEps(l[1..]));
      assert EpsOf(l)[1..] == EpsOf(l[1..]);
    }
  }

  // Literal posets

  /** The literal poset dictionary: tuples of node names keying poset lists. */
  type Literal = Dict<seq<string>, PosetList>

  /** `{"no_time_series_file" : pos}` */
  function Single(pos: PosetList): (d: Datasets)
    ensures Valid(d) && d.keys == [NoTimeSeriesFile]
  {
    Dict([NoTimeSeriesFile], map[NoTimeSeriesFile := pos])
  }

  /** The poset list stored for the `i`-th literal entry: sorted by noise level when `sorted`. */
  function LiteralList(lit: Literal, i: nat, sorted: bool): PosetList
    requires Valid(lit) && i < |lit.keys|
  {
    var pos := lit.values[lit.keys[i]];
    if sorted then SortByEps(pos) else pos
  }

  /** The table after the first `n` literal entries: each entry's names, sorted, key a single
      dataset "no_time_series_file"; a later entry with the same names replaces an earlier one. */
  function LiteralTable(lit: Literal, n: nat, sorted: bool): PosetTable
    requires Valid(lit) && n <= |lit.keys|
  {
    if n == 0 then map[]
    else LiteralTable(lit, n - 1, sorted)[multiset(lit.keys[n - 1]) := Single(LiteralList(lit, n - 1, sorted))]
  }

  /** The keys of the literal table are the entries' name multisets. */
  lemma {:induction false} LiteralTableKeys(lit: Literal, n: nat, sorted: bool, k: multiset<string>)
    requires Valid(lit) && n <= |lit.keys|
    ensures k in LiteralTable(lit, n, sorted) <==> exists i :: 0 <= i < n && multiset(lit.keys[i]) == k
  {
    if n > 0 {
      LiteralTableKeys(lit, n - 1, sorted, k);
    }
  }

  /** A key holds the list of the last entry with those names. */
  lemma {:induction false} LiteralTableLastWins(lit: Literal, n: nat, sorted: bool, i: nat)
    requires Valid(lit) && i < n <= |lit.keys|
    requires forall j :: i < j < n ==> multiset(lit.keys[j]) != multiset(lit.keys[i])
    ensures multiset(lit.keys[i]) in LiteralTable(lit, n, sorted)
    ensures LiteralTable(lit, n, sorted)[multiset(lit.keys[i])] == Single(LiteralList(lit, i, sorted))
  {
    if i < n - 1 {
      LiteralTableLastWins(lit, n - 1, sorted, i);
    }
  }

  /** The names of the first literal entry. */
  function FirstNames(lit: Literal): set<string>
    requires lit.keys != []
  {
    set x | x in lit.keys[0]
  }

  /** After the first entry, the table's names include those of the first entry. */
  lemma FirstNamesCovered(lit: Literal, n: nat, sorted: bool)
    requires Valid(lit) && 0 < n <= |lit.keys|
    ensures FirstNames(lit) <= PosetNames(LiteralTable(lit, n, sorted))
  {
    LiteralTableKeys(lit, n, sorted, multiset(lit.keys[0]));
    forall x | x in FirstNames(lit) ensures x in PosetNames(LiteralTable(lit, n, sorted)) {
      assert x in multiset(lit.keys[0]);
    }
  }

  /** The networks that the literal branch keeps as written: `check_posets` runs after every
      entry, so a network survives only if the first entry alone covers it. */
  function KeptAsWritten(graph: Graph, networks: seq<string>, lit: Literal): seq<string> {
    if lit.keys == [] then networks else CoveredNetworks(graph, networks, FirstNames(lit))
  }

  /** The `epsilons` parameter after the literal branch of the parameter-indices query: when it
      was absent, the sorted noise levels of the first entry. */
  function FilledEpsilons(lit: Literal, epsilons: Option<seq<real>>, sorted: bool): Option<seq<real>>
    requires Valid(lit)
  {
    if sorted && epsilons.None? && lit.keys != [] then Some(SortReals(EpsOf(lit.values[lit.keys[0]]))) else epsilons
  }

  /** What the literal branch writes into the parameters besides the posets. */
  datatype ParamUpdates = ParamUpdates(timeseriesfname: Option<string>, epsilons: Option<seq<real>>)

  /** The parameter updates after the first `i` literal entries. */
  function LiteralUpdates(lit: Literal, i: nat, sorted: bool, epsilons: Option<seq<real>>): ParamUpdates
    requires Valid(lit) && i <= |lit.keys|
  {
    if i == 0 then ParamUpdates(None, epsilons) else ParamUpdates(Some(NoTimeSeriesFile), FilledEpsilons(lit, epsilons, sorted))
  }

  /** One literal entry: stores its (possibly sorted) list under its sorted names, sets
      `timeseriesfname` and, in the parameter-indices query, fills in missing `epsilons`. */
  method StoreEntry(lit: Literal, i: nat, sorted: bool, epsilons: Option<seq<real>>, posets: PosetTable, updates: ParamUpdates)
    returns (posets2: PosetTable, updates2: ParamUpdates)
    requires Valid(lit) && i < |lit.keys|
    requires posets == LiteralTable(lit, i, sorted) && updates == LiteralUpdates(lit, i, sorted, epsilons)
    ensures posets2 == LiteralTable(lit, i + 1, sorted) && updates2 == LiteralUpdates(lit, i + 1, sorted, epsilons)
  {
    var names := lit.keys[i];
    var pos := lit.values[names];
    updates2 := updates.(timeseriesfname := Some(NoTimeSeriesFile));
    posets2 := posets[multiset(names) := Single(if sorted then SortByEps(pos) else pos)];
    if sorted && updates2.epsilons.None? {
      updates2 := updates2.(epsilons := Some(SortReals(EpsOf(pos))));
    }
  }

  /** The literal branch of `get_posets` as written: every entry is stored by `StoreEntry` and is
      followed by `check_posets` on the networks kept so far. */
  method LiteralPosetsAsWritten(graph: Graph, networks: seq<string>, lit: Literal, sorted: bool, epsilons: Option<seq<real>>)
    returns (posets: PosetTable, kept: seq<string>, updates: ParamUpdates)
    requires Valid(lit)
    ensures posets == LiteralTable(lit, |lit.keys|, sorted)
    ensures kept == KeptAsWritten(graph, networks, lit)
    ensures updates.timeseriesfname == if lit.keys == [] then None else Some(NoTimeSeriesFile)
    ensures updates.epsilons == FilledEpsilons(lit, epsilons, sorted)
  {
    posets := map[];
    kept := networks;
    updates := ParamUpdates(None, epsilons);
    for i := 0 to |lit.keys|
      invariant posets == LiteralTable(lit, i, sorted) && updates == LiteralUpdates(lit, i, sorted, epsilons)
      invariant kept == if i == 0 then networks else CoveredNetworks(graph, networks, FirstNames(lit))
    {
      posets, updates := StoreEntry(lit, i, sorted, epsilons, posets, updates);
      kept := CheckPosets(graph, kept, posets);
      KeptAfterCheck(graph, networks, lit, i, sorted);
    }
  }

  /** Checking the networks kept so far against the table after entry `i` keeps those the first
      entry covers. */
  lemma KeptAfterCheck(graph: Graph, networks: seq<string>, lit: Literal, i: nat, sorted: bool)
    requires Valid(lit) && i < |lit.keys|
    ensures var before := if i == 0 then networks else CoveredNetworks(graph, networks, FirstNames(lit));
      CoveredNetworks(graph, before, PosetNames(LiteralTable(lit, i + 1, sorted))) == CoveredNetworks(graph, networks, FirstNames(lit))
  {
    var t := LiteralTable(lit, i + 1, sorted);
    FirstNamesCovered(lit, i + 1, sorted);
    if i == 0 {
      assert PosetNames(t) == FirstNames(lit) by {
        forall x | x in PosetNames(t) ensures x in FirstNames(lit) {
          var k :| k in t && x in k;
          assert x in multiset(lit.keys[0]);
        }
      }
    } else {
      CoveredTwice(graph, networks, FirstNames(lit), PosetNames(t));
    }
  }

  /** The literal branch as evidently intended: the entries are stored as above and the networks
      are checked once, against all of them. */
  method LiteralPosets(graph: Graph, networks: seq<string>, lit: Literal, sorted: bool, epsilons: Option<seq<real>>)
    returns (posets: PosetTable, kept: seq<string>, updates: ParamUpdates)
    requires Valid(lit)
    ensures posets == LiteralTable(lit, |lit.keys|, sorted)
    ensures kept == CoveredNetworks(graph, networks, PosetNames(posets))
    ensures updates.timeseriesfname == if lit.keys == [] then None else Some(NoTimeSeriesFile)
    ensures updates.epsilons == FilledEpsilons(lit, epsilons, sorted)
  {
    posets := map[];
    updates := ParamUpdates(None, epsilons);
    for i := 0 to |lit.keys|
      invariant posets == LiteralTable(lit, i, sorted) && updates == LiteralUpdates(lit, i, sorted, epsilons)
    {
      posets, updates := StoreEntry(lit, i, sorted, epsilons, posets, updates);
    }
    kept := CheckPosets(graph, networks, posets);
  }

  /** With the check after the loop, a network is kept exactly when every one of its names
      occurs in some literal entry. */
  lemma LiteralKeepsCoveredNetworks(graph: Graph, networks: seq<string>, lit: Literal, sorted: bool, s: string)
    requires Valid(lit)
    ensures s in CoveredNetworks(graph, networks, PosetNames(LiteralTable(lit, |lit.keys|, sorted)))
        <==> s in networks && forall x :: x in graph(s).names ==> exists i :: 0 <= i < |lit.keys| && x in lit.keys[i]
  {
    var t := LiteralTable(lit, |lit.keys|, sorted);
    CoveredNetworksMeaning(graph, networks, PosetNames(t), s);
    forall x ensures x in PosetNames(t) <==> exists i :: 0 <= i < |lit.keys| && x in lit.keys[i] {
      if x in PosetNames(t) {
        var k :| k in t && x in k;
        LiteralTableKeys(lit, |lit.keys|, sorted, k);
        var i :| 0 <= i < |lit.keys| && multiset(lit.keys[i]) == k;
        assert x in multiset(lit.keys[i]);
      }
      if exists i :: 0 <= i < |lit.keys| && x in lit.keys[i] {
        var i :| 0 <= i < |lit.keys| && x in lit.keys[i];
        LiteralTableKeys(lit, |lit.keys|, sorted, multiset(lit.keys[i]));
        assert x in multiset(lit.keys[i]);
      }
    }
  }

  /** Either way the networks kept are an order-preserving selection of those given. */
  lemma LiteralKeepsSubsequence(graph: Graph, networks: seq<string>, lit: Literal, sorted: bool)
    requires Valid(lit)
    ensures IsSubsequence(KeptAsWritten(graph, networks, lit), networks)
    ensures IsSubsequence(CoveredNetworks(graph, networks, PosetNames(LiteralTable(lit, |lit.keys|, sorted))), networks)
  {
    if lit.keys != [] {
      CoveredIsSubsequence(graph, networks, FirstNames(lit));
    } else {
      IsSubsequenceRefl(networks);
    }
    CoveredIsSubsequence(graph, networks, PosetNames(LiteralTable(lit, |lit.keys|, sorted)));
  }

  lemma {:induction false} IsSubsequenceRefl<T>(s: seq<T>)
    ensures IsSubsequence(s, s)
  {
    if s != [] {
      IsSubsequenceRefl(s[..|s| - 1]);
    }
  }

  /** Two literal entries over different names, and a network over each: as written the second
      network is dropped at the first entry and never re-admitted, while checking after the
      loop keeps both. */
  lemma LiteralCheckInsideLoopDropsNetworks()
    ensures var graph: Graph := s => Network(s, if s == "B : B" then ["B"] else ["A"], []);
      var lit: Literal := Dict([["A"], ["B"]], map[["A"] := [], ["B"] := []]);
      && KeptAsWritten(graph, ["A : A", "B : B"], lit) == ["A : A"]
      && CoveredNetworks(graph, ["A : A", "B : B"], PosetNames(LiteralTable(lit, 2, false))) == ["A : A", "B : B"]
  {
    var graph: Graph := s => Network(s, if s == "B : B" then ["B"] else ["A"], []);
    var lit: Literal := Dict([["A"], ["B"]], map[["A"] := [], ["B"] := []]);
    var networks := ["A : A", "B : B"];
    assert networks[..1] == ["A : A"];
    assert !Covered(graph, "B : B", FirstNames(lit)) by {
      assert "B" in graph("B : B").names;
    }
    var t := LiteralTable(lit, 2, false);
    assert multiset(["A"]) in t && multiset(["B"]) in t;
    assert "A" in multiset(["A"]) && "B" in multiset(["B"]);
    assert Covered(graph, "A : A", PosetNames(t));
    assert Covered(graph, "B : B", PosetNames(t));
  }

  // get_posets

  /** The networks `get_posets` hands on: a list from the literal branch, a set from the
      time-series branch. */
  datatype Kept = InOrder(list: seq<string>) | Unordered(members: set<string>)

  /** `get_posets` as written: without a `posets` parameter the posets are computed from the
      time-series files; with one, the parsed literal `lit` is stored by `LiteralPosetsAsWritten`,
      so only networks the first entry covers are kept, and an empty literal keeps them all. */
  method GetPosetsAsWritten(graph: Graph, networks: seq<string>, lit: Option<Literal>, sorted: bool, epsilons: Option<seq<real>>,
                            fileNames: FileNames, dataOf: string -> set<string>, epsPosetsOf: string -> multiset<string> -> Option<PosetList>)
    returns (r: Result<(PosetTable, Kept, ParamUpdates)>)
    requires lit.Some? ==> Valid(lit.value)
    ensures lit.None? ==> match FromMultiple(graph, networks, fileNames, dataOf, epsPosetsOf)
      case Err(e) => r == Err(e)
      case Ok((t, nets)) => r == Ok((t, Unordered(nets), ParamUpdates(None, epsilons)))
    ensures lit.Some? ==> (r.Ok?
      && r.value.0 == LiteralTable(lit.value, |lit.value.keys|, sorted)
      && r.value.1 == InOrder(KeptAsWritten(graph, networks, lit.value))
      && r.value.2.timeseriesfname == (if lit.value.keys == [] then None else Some(NoTimeSeriesFile))
      && r.value.2.epsilons == FilledEpsilons(lit.value, epsilons, sorted))
  {
    if lit.None? {
      var res := CalculateFromMultiple(graph, networks, fileNames, dataOf, epsPosetsOf);
      if res.Err? {
        return Err(res.error);
      }
      return Ok((res.value.0, Unordered(res.value.1), ParamUpdates(None, epsilons)));
    }
    var posets, kept, updates := LiteralPosetsAsWritten(graph, networks, lit.value, sorted, epsilons);
    return Ok((posets, InOrder(kept), updates));
  }

  /** An empty literal stores nothing: as written every network is kept, while the corrected
      check keeps only networks without variables. */
  lemma EmptyLiteralKeepsAllAsWritten(graph: Graph, networks: seq<string>, lit: Literal, sorted: bool, s: string)
    requires Valid(lit) && lit.keys == []
    ensures KeptAsWritten(graph, networks, lit) == networks
    ensures s in CoveredNetworks(graph, networks, PosetNames(LiteralTable(lit, |lit.keys|, sorted)))
        <==> s in networks && graph(s).names == []
  {
    LiteralKeepsCoveredNetworks(graph, networks, lit, sorted, s);
    if s in networks && graph(s).names != [] {
      assert graph(s).names[0] in graph(s).names;
    }
  }

  /** `get_posets` as evidently intended: the same, with the literal branch checking the networks
      once against all entries (`LiteralPosets`). */
  method GetPosets(graph: Graph, networks: seq<string>, lit: Option<Literal>, sorted: bool, epsilons: Option<seq<real>>,
                   fileNames: FileNames, dataOf: string -> set<string>, epsPosetsOf: string -> multiset<string> -> Option<PosetList>)
    returns (r: Result<(PosetTable, Kept, ParamUpdates)>)
    requires lit.Some? ==> Valid(lit.value)
    ensures lit.None? ==> match FromMultiple(graph, networks, fileNames, dataOf, epsPosetsOf)
      case Err(e) => r == Err(e)
      case Ok((t, nets)) => r == Ok((t, Unordered(nets), ParamUpdates(None, epsilons)))
    ensures lit.Some? ==> (r.Ok?
      && r.value.0 == LiteralTable(lit.value, |lit.value.keys|, sorted)
      && r.value.1 == InOrder(CoveredNetworks(graph, networks, PosetNames(r.value.0)))
      && r.value.2.timeseriesfname == (if lit.value.keys == [] then None else Some(NoTimeSeriesFile))
      && r.value.2.epsilons == FilledEpsilons(lit.value, epsilons, sorted))
  {
    if lit.None? {
      var res := CalculateFromMultiple(graph, networks, fileNames, dataOf, epsPosetsOf);
      if res.Err? {
        return Err(res.error);
      }
      return Ok((res.value.0, Unordered(res.value.1), ParamUpdates(None, epsilons)));
    }
    var posets, kept, updates := LiteralPosets(graph, networks, lit.value, sorted, epsilons);
    return Ok((posets, InOrder(kept), updates));
  }
}
