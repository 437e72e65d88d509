/** The parameter-indices variant of the large-network pattern-match query: the answers of
    `PathMatch` for a list of parameter indices, collected by `reformat_output` into count rows
    and sorted index lists per dataset and noise level, with an "all" entry (the union over the
    datasets) when there are several datasets.

    `output` is the dictionary from parameter index to the result of `PathMatch` for that
    parameter; iterating over it visits every index once, in an order that does not change the
    result. */
module ParamIndices {
  import opened Wrappers
  import opened Dicts
  import opened Dsgrn
  import opened PosetTables
  import opened PatternDbCount
  import opened PatternDbQuery
  import opened LargePathMatch
  import opened IndexSets
  import PatternDbSearch

  // ---- what `reformat_output` reads ----

  /** The answers a search reads: under "domain" for the domain search, under "match" for the
      stable full-cycle search. */
  function MarksOf(d: Matched, s: Search): Option<Marks> {
    if s == DomainSearch then d.domain else d.matches
  }

  /** Whether the search `s` was requested. */
  predicate On(s: Search, domain: bool, stablefc: bool) {
    if s == DomainSearch then domain else stablefc
  }

  /** The parameter's answer for dataset `t` at noise level `e` is true. */
  predicate Hit(d: Matched, s: Search, t: string, e: real) {
    var m := MarksOf(d, s);
    m.Some? && t in m.value && e in m.value[t] && m.value[t][e]
  }

  /** Reading one parameter's result for dataset `t` raises `KeyError`: its answers (or, for
      the stable full-cycle search, its "stablefc" flag) are missing, the dataset is missing, or
      a true answer sits at a noise level that is not among the epsilons `es`. */
  predicate Unreadable(d: Matched, s: Search, t: string, es: set<real>) {
    var m := MarksOf(d, s);
    || m.None?
    || (s == StableFCSearch && d.stablefc.None?)
    || t !in m.value
    || exists e :: e in m.value[t] && m.value[t][e] && e !in es
  }

  /** No requested search raises on the parameter's result for dataset `t`. */
  predicate Readable(d: Matched, t: string, domain: bool, stablefc: bool, es: set<real>) {
    !(domain && Unreadable(d, DomainSearch, t, es)) && !(stablefc && Unreadable(d, StableFCSearch, t, es))
  }

  /** `reformat_output` raises exactly when some result cannot be read for some dataset. */
  ghost predicate Fails(output: map<nat, Matched>, tsfiles: seq<string>, domain: bool, stablefc: bool, es: set<real>) {
    exists t, i :: t in tsfiles && i in output && !Readable(output[i], t, domain, stablefc, es)
  }

  // ---- the sets it fills ----

  /** The indices among `ids` whose answer for dataset `t` at level `e` is true. */
  function Among(output: map<nat, Matched>, ids: set<nat>, s: Search, t: string, e: real): set<nat> {
    set i | i in ids && i in output && Hit(output[i], s, t, e)
  }

  /** The indices whose answer at level `e` is true for some dataset among `ts`. */
  function Across(output: map<nat, Matched>, s: Search, ts: seq<string>, e: real): set<nat> {
    set i | i in output && exists u :: u in ts && Hit(output[i], s, u, e)
  }

  /** Per epsilon, the matching indices among `ids` for dataset `t`. */
  function MatchSets(output: map<nat, Matched>, ids: set<nat>, s: Search, t: string, es: set<real>): map<real, set<nat>> {
    map e | e in es :: Among(output, ids, s, t, e)
  }

  /** Per epsilon, the indices matching for some dataset among `ts`. */
  function UnionSets(output: map<nat, Matched>, s: Search, ts: seq<string>, es: set<real>): map<real, set<nat>> {
    map e | e in es :: Across(output, s, ts, e)
  }

  /** The indices among `ids` whose "stablefc" flag is true. */
  function FCFlags(output: map<nat, Matched>, ids: set<nat>): set<nat> {
    set i | i in ids && i in output && output[i].stablefc == Some(true)
  }

  /** The stable full-cycle total: the number of parameters whose flag is true. */
  function NumFC(output: map<nat, Matched>): nat {
    |FCFlags(output, output.Keys)|
  }

  /** Adding the index `i` at every level where `marks` holds a true answer, for the levels in
      `done`. */
  function AddAt(sets: map<real, set<nat>>, i: nat, marks: map<real, bool>, done: set<real>): map<real, set<nat>> {
    map e | e in sets :: if e in done && e in marks && marks[e] then sets[e] + {i} else sets[e]
  }

  /** The sets of one search: per level, the matching indices for the current dataset and for
      all datasets so far. */
  datatype Sets = Sets(cur: map<real, set<nat>>, all: map<real, set<nat>>)

  /** Some member of a non-empty set: the next key of a dictionary iteration. */
  method Pick<T>(s: set<T>) returns (x: T)
    requires s != {}
    ensures x in s
  {
    x :| x in s;
  }

  /** Taking one more level into `done`. */
  lemma AddAtStep(sets: map<real, set<nat>>, i: nat, marks: map<real, bool>, done: set<real>, e: real)
    requires e in marks && e !in done && (marks[e] ==> e in sets)
    ensures AddAt(sets, i, marks, done + {e})
         == if marks[e] then AddAt(sets, i, marks, done)[e := AddAt(sets, i, marks, done)[e] + {i}] else AddAt(sets, i, marks, done)
  {
  }

  /** The state of `ScanMarks` once the levels `done` are visited. */
  ghost predicate MarksScanned(marks: map<real, bool>, i: nat, es: set<real>, multi: bool, sets: Sets, done: set<real>, sets2: Sets) {
    && (forall e :: e in done && e in marks && marks[e] ==> e in es)
    && sets2.cur == AddAt(sets.cur, i, marks, done)
    && sets2.all == if multi then AddAt(sets.all, i, marks, done) else sets.all
  }

  /** The loop over one answer dictionary, `for epsilon, booln in ….items()`: each true answer
      adds the index to its level's set (and to the "all" set with several datasets); a true
      answer at a level outside `es` raises `KeyError`. */
  method ScanMarks(marks: map<real, bool>, i: nat, es: set<real>, multi: bool, sets: Sets) returns (ok: bool, sets2: Sets)
    requires sets.cur.Keys == es && sets.all.Keys == es
    ensures ok <==> forall e :: e in marks && marks[e] ==> e in es
    ensures ok ==> MarksScanned(marks, i, es, multi, sets, marks.Keys, sets2)
  {
    sets2 := sets;
    var rest := marks.Keys;
    ghost var done: set<real> := {};
    while rest != {}
      invariant done + rest == marks.Keys && done !! rest
      invariant MarksScanned(marks, i, es, multi, sets, done, sets2)
      decreases rest
    {
      var e := Pick(rest);
      if marks[e] && e !in es {
        return false, sets2;
      }
      AddAtStep(sets.cur, i, marks, done, e);
      AddAtStep(sets.all, i, marks, done, e);
      if marks[e] {
        sets2 := Sets(sets2.cur[e := sets2.cur[e] + {i}], if multi then sets2.all[e := sets2.all[e] + {i}] else sets2.all);
      }
      done := done + {e};
      rest := rest - {e};
    }
    ok := true;
  }

  /** Empty sets at every level. */
  function Zero(es: set<real>): (z: map<real, set<nat>>)
    ensures z.Keys == es && forall e :: e in es ==> z[e] == {}
  {
    map e | e in es :: {}
  }

  /** The sets of search `s` once the indices `done` are visited for dataset `t`, after the
      datasets `before`: the matching indices of `t`, and with several datasets the indices
      matching some dataset so far. */
  ghost predicate Collected(output: map<nat, Matched>, s: Search, t: string, before: seq<string>, done: set<nat>,
                            es: set<real>, multi: bool, st: Sets) {
    && st.cur == MatchSets(output, done, s, t, es)
    && st.all == if multi then SoFar(output, s, t, before, done, es) else Zero(es)
  }

  /** The state of the loop over `output` for dataset `t`: the sets of each requested search
      and, for the stable full-cycle search, the number of visited parameters whose flag is
      true. */
  ghost predicate Visited(output: map<nat, Matched>, t: string, before: seq<string>, done: set<nat>, domain: bool, stablefc: bool,
                          es: set<real>, multi: bool, dom: Sets, fc: Sets, count: nat) {
    && (domain ==> Collected(output, DomainSearch, t, before, done, es, multi, dom))
    && (stablefc ==> Collected(output, StableFCSearch, t, before, done, es, multi, fc) && count == |FCFlags(output, done)|)
  }

  /** A map that adds `i` exactly where `marks` is true is `AddAt`. */
  lemma AddAtIs(x: map<real, set<nat>>, y: map<real, set<nat>>, i: nat, marks: map<real, bool>)
    requires y.Keys == x.Keys
    requires forall e :: e in x ==> y[e] == if e in marks && marks[e] then x[e] + {i} else x[e]
    ensures AddAt(x, i, marks, marks.Keys) == y
  {
    var a := AddAt(x, i, marks, marks.Keys);
    assert a.Keys == y.Keys;
    forall e | e in a ensures a[e] == y[e] {
    }
  }

  /** Index `i` is among the matching indices once visited exactly when its answer is true. */
  lemma AmongStep(output: map<nat, Matched>, done: set<nat>, s: Search, t: string, e: real, i: nat)
    requires i in output && i !in done
    requires MarksOf(output[i], s).Some? && t in MarksOf(output[i], s).value
    ensures var marks := MarksOf(output[i], s).value[t];
      Among(output, done + {i}, s, t, e) == if e in marks && marks[e] then Among(output, done, s, t, e) + {i} else Among(output, done, s, t, e)
  {
  }

  /** The per-dataset sets after visiting `i`. */
  lemma MatchSetsStep(output: map<nat, Matched>, done: set<nat>, s: Search, t: string, es: set<real>, i: nat)
    requires i in output && i !in done
    requires MarksOf(output[i], s).Some? && t in MarksOf(output[i], s).value
    ensures AddAt(MatchSets(output, done, s, t, es), i, MarksOf(output[i], s).value[t], MarksOf(output[i], s).value[t].Keys)
         == MatchSets(output, done + {i}, s, t, es)
  {
    var marks := MarksOf(output[i], s).value[t];
    var x := MatchSets(output, done, s, t, es);
    var y := MatchSets(output, done + {i}, s, t, es);
    forall e | e in x ensures y[e] == if e in marks && marks[e] then x[e] + {i} else x[e] {
      AmongStep(output, done, s, t, e, i);
    }
    AddAtIs(x, y, i, marks);
  }

  /** The union so far with the visited indices of `t`. */
  function SoFar(output: map<nat, Matched>, s: Search, t: string, before: seq<string>, done: set<nat>, es: set<real>): map<real, set<nat>> {
    map e | e in es :: Across(output, s, before, e) + Among(output, done, s, t, e)
  }

  /** The "all" sets after visiting `i`. */
  lemma SoFarStep(output: map<nat, Matched>, s: Search, t: string, before: seq<string>, done: set<nat>, es: set<real>, i: nat)
    requires i in output && i !in done
    requires MarksOf(output[i], s).Some? && t in MarksOf(output[i], s).value
    ensures AddAt(SoFar(output, s, t, before, done, es), i, MarksOf(output[i], s).value[t], MarksOf(output[i], s).value[t].Keys)
         == SoFar(output, s, t, before, done + {i}, es)
  {
    var marks := MarksOf(output[i], s).value[t];
    var x := SoFar(output, s, t, before, done, es);
    var y := SoFar(output, s, t, before, done + {i}, es);
    forall e | e in x ensures y[e] == if e in marks && marks[e] then x[e] + {i} else x[e] {
      AmongStep(output, done, s, t, e, i);
    }
    AddAtIs(x, y, i, marks);
  }

  /** Visiting index `i` adds it at exactly the levels where its answer is true. */
  lemma CollectStep(output: map<nat, Matched>, s: Search, t: string, before: seq<string>, done: set<nat>,
                    es: set<real>, multi: bool, i: nat, st: Sets, st2: Sets)
    requires i in output && i !in done
    requires MarksOf(output[i], s).Some? && t in MarksOf(output[i], s).value
    requires Collected(output, s, t, before, done, es, multi, st)
    requires MarksScanned(MarksOf(output[i], s).value[t], i, es, multi, st, MarksOf(output[i], s).value[t].Keys, st2)
    ensures Collected(output, s, t, before, done + {i}, es, multi, st2)
  {
    MatchSetsStep(output, done, s, t, es, i);
    if multi {
      SoFarStep(output, s, t, before, done, es, i);
    }
  }

  /** One more flag among the visited parameters. */
  lemma FCFlagsStep(output: map<nat, Matched>, done: set<nat>, i: nat)
    requires i in output && i !in done
    ensures |FCFlags(output, done + {i})| == |FCFlags(output, done)| + if output[i].stablefc == Some(true) then 1 else 0
  {
    if output[i].stablefc == Some(true) {
      assert FCFlags(output, done + {i}) == FCFlags(output, done) + {i};
    } else {
      assert FCFlags(output, done + {i}) == FCFlags(output, done);
    }
  }

  /** The body of the loop over `output` for one parameter `i` and dataset `t`. */
  method VisitParam(output: map<nat, Matched>, i: nat, t: string, ghost before: seq<string>, ghost done: set<nat>,
                    domain: bool, stablefc: bool, es: set<real>, multi: bool, dom: Sets, fc: Sets, count: nat)
    returns (ok: bool, dom2: Sets, fc2: Sets, count2: nat)
    requires i in output && i !in done
    requires Visited(output, t, before, done, domain, stablefc, es, multi, dom, fc, count)
    ensures ok <==> Readable(output[i], t, domain, stablefc, es)
    ensures ok ==> Visited(output, t, before, done + {i}, domain, stablefc, es, multi, dom2, fc2, count2)
  {
    var d := output[i];
    dom2, fc2, count2 := dom, fc, count;
    if domain {
      if d.domain.None? || t !in d.domain.value {
        return false, dom2, fc2, count2;
      }
      ok, dom2 := ScanMarks(d.domain.value[t], i, es, multi, dom);
      if !ok {
        return;
      }
      CollectStep(output, DomainSearch, t, before, done, es, multi, i, dom, dom2);
    }
    if stablefc {
      if d.stablefc.None? || d.matches.None? || t !in d.matches.value {
        return false, dom2, fc2, count2;
      }
      count2 := count + if d.stablefc.value then 1 else 0;
      FCFlagsStep(output, done, i);
      ok, fc2 := ScanMarks(d.matches.value[t], i, es, multi, fc);
      if !ok {
        return;
      }
      CollectStep(output, StableFCSearch, t, before, done, es, multi, i, fc, fc2);
    }
    ok := true;
  }

  /** Before any index is visited the sets are empty, and the "all" sets are those of the
      earlier datasets. */
  lemma CollectedStart(output: map<nat, Matched>, s: Search, t: string, before: seq<string>, es: set<real>, multi: bool)
    ensures Collected(output, s, t, before, {}, es, multi,
                      Sets(Zero(es), if multi then UnionSets(output, s, before, es) else Zero(es)))
  {
    var m := MatchSets(output, {}, s, t, es);
    forall e | e in es ensures m[e] == {} {
      assert Among(output, {}, s, t, e) == {};
    }
    assert m == Zero(es);
    var a := SoFar(output, s, t, before, {}, es);
    forall e | e in es ensures a[e] == Across(output, s, before, e) {
      assert Among(output, {}, s, t, e) == {};
    }
    assert a == UnionSets(output, s, before, es);
  }

  /** Once every index is visited, the "all" sets take in dataset `t`. */
  lemma SoFarDone(output: map<nat, Matched>, s: Search, t: string, before: seq<string>, es: set<real>)
    ensures SoFar(output, s, t, before, output.Keys, es) == UnionSets(output, s, before + [t], es)
  {
    forall e | e in es ensures Across(output, s, before, e) + Among(output, output.Keys, s, t, e) == Across(output, s, before + [t], e) {
      forall i | i in Across(output, s, before + [t], e) ensures i in Across(output, s, before, e) + Among(output, output.Keys, s, t, e) {
        var u :| u in before + [t] && Hit(output[i], s, u, e);
        if u != t {
          assert u in before;
        }
      }
      forall i | i in Across(output, s, before, e) ensures i in Across(output, s, before + [t], e) {
        var u :| u in before && Hit(output[i], s, u, e);
        assert u in before + [t];
      }
      forall i | i in Among(output, output.Keys, s, t, e) ensures i in Across(output, s, before + [t], e) {
        assert t in before + [t];
      }
    }
  }

  /** The loop over `output` for dataset `t`, after the datasets `before`; `domAll` and `fcAll`
      are the "all" sets so far. */
  method ScanOutput(output: map<nat, Matched>, t: string, ghost before: seq<string>, domain: bool, stablefc: bool,
                    es: set<real>, multi: bool, domAll: map<real, set<nat>>, fcAll: map<real, set<nat>>)
    returns (ok: bool, dom: Sets, fc: Sets, count: nat)
    requires domain ==> domAll == if multi then UnionSets(output, DomainSearch, before, es) else Zero(es)
    requires stablefc ==> fcAll == if multi then UnionSets(output, StableFCSearch, before, es) else Zero(es)
    ensures ok <==> forall i :: i in output ==> Readable(output[i], t, domain, stablefc, es)
    ensures ok ==> Visited(output, t, before, output.Keys, domain, stablefc, es, multi, dom, fc, count)
  {
    dom, fc, count := Sets(Zero(es), domAll), Sets(Zero(es), fcAll), 0;
    CollectedStart(output, DomainSearch, t, before, es, multi);
    CollectedStart(output, StableFCSearch, t, before, es, multi);
    assert FCFlags(output, {}) == {};
    var rest := output.Keys;
    ghost var done: set<nat> := {};
    while rest != {}
      invariant done + rest == output.Keys && done !! rest
      invariant forall j :: j in done ==> Readable(output[j], t, domain, stablefc, es)
      invariant Visited(output, t, before, done, domain, stablefc, es, multi, dom, fc, count)
      decreases rest
    {
      var i := Pick(rest);
      var visited;
      visited, dom, fc, count := VisitParam(output, i, t, before, done, domain, stablefc, es, multi, dom, fc, count);
      if !visited {
        return false, dom, fc, count;
      }
      done := done + {i};
      rest := rest - {i};
    }
    ok := true;
  }

  // ---- the result dictionary ----

  /** `ts_keys`: the datasets, then "all" when there are several. */
  function TsKeys(tsfiles: seq<string>): seq<string> {
    if |tsfiles| > 1 then tsfiles + ["all"] else tsfiles
  }

  /** The epsilons as a set: the keys of the per-level sets. */
  function EpsSetOf(eps: seq<real>): set<real> {
    set e | e in eps
  }

  /** The noise levels of the rows, in the order `sorted` gives them. */
  function Levels(eps: seq<real>): seq<real> {
    SortReals(Distinct(eps))
  }

  /** The rows list each epsilon once, in increasing order. */
  lemma LevelsMeaning(eps: seq<real>)
    ensures forall k, j :: 0 <= k < j < |Levels(eps)| ==> Levels(eps)[k] < Levels(eps)[j]
    ensures forall e :: e in Levels(eps) <==> e in EpsSetOf(eps)
    ensures forall k :: 0 <= k < |Levels(eps)| ==> Levels(eps)[k] in EpsSetOf(eps)
  {
    var d := Distinct(eps);
    var l := Levels(eps);
    SortRealsSorts(d);
    forall e ensures e in l <==> e in d {
      assert e in l <==> e in multiset(l);
      assert e in d <==> e in multiset(d);
    }
    forall k, j | 0 <= k < j < |l| ensures l[k] != l[j] {
      if l[k] == l[j] {
        TwoCopies(l, k, j);
        CountOne(d, l[k]);
      }
    }
  }

  /** Two equal members make a count of at least two. */
  lemma TwoCopies(l: seq<real>, k: nat, j: nat)
    requires k < j < |l| && l[k] == l[j]
    ensures multiset(l)[l[k]] >= 2
  {
    assert l == l[..j] + l[j..];
    assert l[k] in l[..j] && l[j] in l[j..];
  }

  /** Without repeats, every member occurs once. */
  lemma {:induction false} CountOne(d: seq<real>, x: real)
    requires NoDuplicates(d)
    ensures multiset(d)[x] <= 1
  {
    if d != [] {
      var n := |d| - 1;
      assert d == d[..n] + [d[n]];
      CountOne(d[..n], x);
      if d[n] == x {
        assert x !in d[..n];
      }
    }
  }

  /** The sets behind the rows of dataset key `t`: the union over the datasets for "all" when
      there are several, the dataset's own matching indices otherwise. */
  function FinalSets(output: map<nat, Matched>, s: Search, tsfiles: seq<string>, t: string, es: set<real>): (r: map<real, set<nat>>)
    ensures r.Keys == es
  {
    if |tsfiles| > 1 && t == "all" then UnionSets(output, s, tsfiles, es) else MatchSets(output, output.Keys, s, t, es)
  }

  /** One dataset's rows: per noise level in increasing order, the number of matching indices. */
  function CountRows(eps: seq<real>, sets: map<real, set<nat>>, numFC: Option<nat>, size: nat): seq<Row>
    requires sets.Keys == EpsSetOf(eps)
  {
    LevelsMeaning(eps);
    RowsFor(Levels(eps), Sizes(sets), numFC, size)
  }

  /** One dataset's index lists: per noise level in increasing order, the matching indices in
      increasing order. */
  ghost function IndexLists(eps: seq<real>, sets: map<real, set<nat>>): seq<(real, seq<nat>)>
    requires sets.Keys == EpsSetOf(eps)
  {
    LevelsMeaning(eps);
    var levels := Levels(eps);
    seq(|levels|, k requires 0 <= k < |levels| => (levels[k], SortedOf(sets[levels[k]])))
  }

  /** The index lists per dataset key. */
  type ParamLists = Dict<string, seq<(real, seq<nat>)>>

  /** The rows under dataset key `t`. */
  function RowsAt(output: map<nat, Matched>, s: Search, tsfiles: seq<string>, eps: seq<real>, numFC: Option<nat>, size: nat, t: string): seq<Row> {
    CountRows(eps, FinalSets(output, s, tsfiles, t, EpsSetOf(eps)), numFC, size)
  }

  /** The index lists under dataset key `t`. */
  ghost function ListsAt(output: map<nat, Matched>, s: Search, tsfiles: seq<string>, eps: seq<real>, t: string): seq<(real, seq<nat>)> {
    IndexLists(eps, FinalSets(output, s, tsfiles, t, EpsSetOf(eps)))
  }

  /** The count table of one search: a row list per dataset key. */
  function TableOf(output: map<nat, Matched>, s: Search, tsfiles: seq<string>, eps: seq<real>, numFC: Option<nat>, size: nat): Table {
    Dict(Distinct(TsKeys(tsfiles)), map t | t in TsKeys(tsfiles) :: RowsAt(output, s, tsfiles, eps, numFC, size, t))
  }

  /** The `param_list` entry of one search: the index lists per dataset key. */
  ghost function ListsOf(output: map<nat, Matched>, s: Search, tsfiles: seq<string>, eps: seq<real>): ParamLists {
    Dict(Distinct(TsKeys(tsfiles)), map t | t in TsKeys(tsfiles) :: ListsAt(output, s, tsfiles, eps, t))
  }

  /** What `reformat_output` returns: the count tables of the requested searches and, under
      "param_list", their index lists. */
  datatype Reformatted = Reformatted(domain: Option<Table>, stablefc: Option<Table>,
                                     domainLists: Option<ParamLists>, stablefcLists: Option<ParamLists>)

  /** `reformat_output`: `KeyError` when some result cannot be read; otherwise the domain rows
      `(eps, count, size)` and the stable full-cycle rows `(eps, count, NumFC, size)`. */
  ghost function ReformatSpec(output: map<nat, Matched>, tsfiles: seq<string>, domain: bool, stablefc: bool, eps: seq<real>, size: nat)
    : Result<Reformatted>
  {
    if Fails(output, tsfiles, domain, stablefc, EpsSetOf(eps)) then Err(KeyError)
    else Ok(Reformatted(
      if domain then Some(TableOf(output, DomainSearch, tsfiles, eps, None, size)) else None,
      if stablefc then Some(TableOf(output, StableFCSearch, tsfiles, eps, Some(NumFC(output)), size)) else None,
      if domain then Some(ListsOf(output, DomainSearch, tsfiles, eps)) else None,
      if stablefc then Some(ListsOf(output, StableFCSearch, tsfiles, eps)) else None))
  }

  /** `{t: set([]) for t in ts_keys}`: a placeholder under each dataset key. */
  method InitTable(keys: seq<string>) returns (tab: Table)
    ensures tab.keys == Distinct(keys)
    ensures forall u :: u in tab.values <==> u in keys
  {
    tab := Empty();
    for k := 0 to |keys|
      invariant tab.keys == Distinct(keys[..k])
      invariant forall u :: u in tab.values <==> u in keys[..k]
    {
      assert keys[..k + 1][..k] == keys[..k];
      tab := Put(tab, keys[k], []);
    }
    assert keys[..|keys|] == keys;
  }

  /** `sorted([[e, sorted(list(s))] for e, s in ….items()])`. */
  method ListsFor(levels: seq<real>, sets: map<real, set<nat>>, ghost eps: seq<real>) returns (r: seq<(real, seq<nat>)>)
    requires levels == Levels(eps) && sets.Keys == EpsSetOf(eps)
    ensures r == IndexLists(eps, sets)
  {
    LevelsMeaning(eps);
    r := [];
    for k := 0 to |levels|
      invariant |r| == k
      invariant forall j :: 0 <= j < k ==> r[j] == (levels[j], SortedOf(sets[levels[j]]))
    {
      var l := SortIndices(sets[levels[k]]);
      r := r + [(levels[k], l)];
    }
    IndexListsAt(eps, sets, r);
  }

  /** A list with the level and the sorted set at every position is the index list. */
  lemma IndexListsAt(eps: seq<real>, sets: map<real, set<nat>>, r: seq<(real, seq<nat>)>)
    requires sets.Keys == EpsSetOf(eps)
    requires |r| == |Levels(eps)| && forall k :: 0 <= k < |Levels(eps)| ==> Levels(eps)[k] in sets
    requires forall j :: 0 <= j < |r| ==> r[j] == (Levels(eps)[j], SortedOf(sets[Levels(eps)[j]]))
    ensures r == IndexLists(eps, sets)
  {
  }

  /** `d` has one key per member of `keys`, in order of first appearance, and holds `f(u)` under
      every dataset `u` of `done`. */
  ghost predicate Holds<V>(d: Dict<string, V>, keys: seq<string>, done: seq<string>, f: string -> V) {
    && d.keys == Distinct(keys) && (forall u :: u in d.values <==> u in keys)
    && forall u :: u in done ==> u in d.values && d.values[u] == f(u)
  }

  /** Storing `f(t)` under a key that is already present. */
  lemma HoldsStep<V>(d: Dict<string, V>, keys: seq<string>, done: seq<string>, f: string -> V, t: string)
    requires Holds(d, keys, done, f) && t in keys
    ensures Holds(Put(d, t, f(t)), keys, done + [t], f)
  {
  }

  /** Storing the value `v == f(ts[k])` under `ts[k]`, a key of `keys`, extends the stored
      prefix of `ts` by one. */
  lemma StoreAt<V>(d: Dict<string, V>, keys: seq<string>, ts: seq<string>, k: nat, f: string -> V, v: V)
    requires k < |ts| && Holds(d, keys, ts[..k], f) && ts[k] in keys && v == f(ts[k])
    ensures Holds(Put(d, ts[k], v), keys, ts[..k + 1], f)
  {
    HoldsStep(d, keys, ts[..k], f, ts[k]);
    assert ts[..k + 1] == ts[..k] + [ts[k]];
  }

  /** Storing `f(t)` under a key that is added as it is stored. */
  lemma HoldsGrow<V>(d: Dict<string, V>, done: seq<string>, f: string -> V, t: string)
    requires Holds(d, done, done, f)
    ensures Holds(Put(d, t, f(t)), done + [t], done + [t], f)
  {
    assert (done + [t])[..|done|] == done;
  }

  /** With the "all" entry stored last, the dictionary holds `F` under every dataset key. */
  lemma HoldsDone<V>(d: Dict<string, V>, init: seq<string>, tsfiles: seq<string>, f: string -> V, F: string -> V)
    requires init == tsfiles || init == TsKeys(tsfiles)
    requires Holds(d, init, tsfiles, f)
    requires forall u :: u in tsfiles && !(|tsfiles| > 1 && u == "all") ==> F(u) == f(u)
    ensures (if |tsfiles| > 1 then Put(d, "all", F("all")) else d) == Dict(Distinct(TsKeys(tsfiles)), map u | u in TsKeys(tsfiles) :: F(u))
  {
    var keys := TsKeys(tsfiles);
    if |tsfiles| > 1 {
      assert keys[..|tsfiles|] == tsfiles;
    }
    var d2 := if |tsfiles| > 1 then Put(d, "all", F("all")) else d;
    var spec: Dict<string, V> := Dict(Distinct(keys), map u | u in keys :: F(u));
    assert d2.keys == spec.keys;
    forall u | u in keys ensures u in d2.values && d2.values[u] == spec.values[u] {
      if !(|tsfiles| > 1 && u == "all") {
        assert u in tsfiles;
      }
    }
    assert d2.values.Keys == spec.values.Keys;
  }

  /** One search's rows for dataset `t` alone. */
  function OwnRows(output: map<nat, Matched>, s: Search, eps: seq<real>, numFC: Option<nat>, size: nat, t: string): seq<Row> {
    CountRows(eps, MatchSets(output, output.Keys, s, t, EpsSetOf(eps)), numFC, size)
  }

  /** One search's index lists for dataset `t` alone. */
  ghost function OwnLists(output: map<nat, Matched>, s: Search, eps: seq<real>, t: string): seq<(real, seq<nat>)> {
    IndexLists(eps, MatchSets(output, output.Keys, s, t, EpsSetOf(eps)))
  }

  /** The rows and lists of each dataset alone, and under each dataset key, as functions of the key. */
  ghost function OwnRowsOf(output: map<nat, Matched>, s: Search, eps: seq<real>, numFC: Option<nat>, size: nat): string -> seq<Row> {
    t => OwnRows(output, s, eps, numFC, size, t)
  }

  ghost function OwnListsOf(output: map<nat, Matched>, s: Search, eps: seq<real>): string -> seq<(real, seq<nat>)> {
    t => OwnLists(output, s, eps, t)
  }

  ghost function RowsAtOf(output: map<nat, Matched>, s: Search, tsfiles: seq<string>, eps: seq<real>, numFC: Option<nat>, size: nat)
    : string -> seq<Row>
  {
    t => RowsAt(output, s, tsfiles, eps, numFC, size, t)
  }

  ghost function ListsAtOf(output: map<nat, Matched>, s: Search, tsfiles: seq<string>, eps: seq<real>): string -> seq<(real, seq<nat>)> {
    t => ListsAt(output, s, tsfiles, eps, t)
  }

  /** The state of `reformat_output` after the first `k` datasets for one requested search:
      the stored rows and lists, and with several datasets the union of their matching indices. */
  ghost predicate Reformatting(output: map<nat, Matched>, s: Search, tsfiles: seq<string>, k: nat, eps: seq<real>, numFC: Option<nat>,
                               size: nat, tab: Table, lists: ParamLists, all: map<real, set<nat>>)
    requires k <= |tsfiles|
  {
    && Holds(tab, TsKeys(tsfiles), tsfiles[..k], OwnRowsOf(output, s, eps, numFC, size))
    && Holds(lists, tsfiles[..k], tsfiles[..k], OwnListsOf(output, s, eps))
    && all == if |tsfiles| > 1 then UnionSets(output, s, tsfiles[..k], EpsSetOf(eps)) else Zero(EpsSetOf(eps))
  }

  /** The rows of `tsfiles[k]` stored under its name. */
  lemma StoreRows(output: map<nat, Matched>, s: Search, tsfiles: seq<string>, k: nat, eps: seq<real>,
                  numFC: Option<nat>, size: nat, cur: map<real, set<nat>>, tab: Table)
    requires k < |tsfiles|
    requires Holds(tab, TsKeys(tsfiles), tsfiles[..k], OwnRowsOf(output, s, eps, numFC, size))
    requires cur == MatchSets(output, output.Keys, s, tsfiles[k], EpsSetOf(eps))
    ensures Holds(Put(tab, tsfiles[k], CountRows(eps, cur, numFC, size)), TsKeys(tsfiles), tsfiles[..k + 1], OwnRowsOf(output, s, eps, numFC, size))
  {
    var f := OwnRowsOf(output, s, eps, numFC, size);
    assert CountRows(eps, cur, numFC, size) == f(tsfiles[k]);
    StoreAt(tab, TsKeys(tsfiles), tsfiles, k, f, CountRows(eps, cur, numFC, size));
  }

  /** The index lists of `tsfiles[k]` stored under its name. */
  lemma StoreLists(output: map<nat, Matched>, s: Search, tsfiles: seq<string>, k: nat, eps: seq<real>,
                   cur: map<real, set<nat>>, lists: ParamLists, l: seq<(real, seq<nat>)>)
    requires k < |tsfiles|
    requires Holds(lists, tsfiles[..k], tsfiles[..k], OwnListsOf(output, s, eps))
    requires cur == MatchSets(output, output.Keys, s, tsfiles[k], EpsSetOf(eps))
    requires l == IndexLists(eps, cur)
    ensures Holds(Put(lists, tsfiles[k], l), tsfiles[..k + 1], tsfiles[..k + 1], OwnListsOf(output, s, eps))
  {
    var t := tsfiles[k];
    var f := OwnListsOf(output, s, eps);
    assert tsfiles[..k + 1] == tsfiles[..k] + [t];
    assert l == f(t);
    HoldsGrow(lists, tsfiles[..k], f, t);
  }

  /** The "all" sets take in `tsfiles[k]`. */
  lemma StoreAll(output: map<nat, Matched>, s: Search, tsfiles: seq<string>, k: nat, es: set<real>, all: map<real, set<nat>>)
    requires k < |tsfiles|
    requires all == SoFar(output, s, tsfiles[k], tsfiles[..k], output.Keys, es)
    ensures all == UnionSets(output, s, tsfiles[..k + 1], es)
  {
    SoFarDone(output, s, tsfiles[k], tsfiles[..k], es);
    assert tsfiles[..k + 1] == tsfiles[..k] + [tsfiles[k]];
  }

  /** Storing the rows and lists of `tsfiles[k]` for one search, the body of the loop over the
      datasets after the scan of `output`. */
  method StoreDataset(output: map<nat, Matched>, s: Search, tsfiles: seq<string>, k: nat, eps: seq<real>, levels: seq<real>,
                      numFC: Option<nat>, size: nat, st: Sets, tab: Table, lists: ParamLists, all: map<real, set<nat>>)
    returns (tab2: Table, lists2: ParamLists, all2: map<real, set<nat>>)
    requires k < |tsfiles| && levels == Levels(eps)
    requires Reformatting(output, s, tsfiles, k, eps, numFC, size, tab, lists, all)
    requires Collected(output, s, tsfiles[k], tsfiles[..k], output.Keys, EpsSetOf(eps), |tsfiles| > 1, st)
    ensures Reformatting(output, s, tsfiles, k + 1, eps, numFC, size, tab2, lists2, all2)
  {
    var t := tsfiles[k];
    tab2 := Put(tab, t, CountRows(eps, st.cur, numFC, size));
    StoreRows(output, s, tsfiles, k, eps, numFC, size, st.cur, tab);
    var l := ListsFor(levels, st.cur, eps);
    lists2 := Put(lists, t, l);
    StoreLists(output, s, tsfiles, k, eps, st.cur, lists, l);
    all2 := all;
    if |tsfiles| > 1 {
      StoreAll(output, s, tsfiles, k, EpsSetOf(eps), st.all);
      all2 := st.all;
    }
  }

  /** No dataset yet: the "all" sets are empty. */
  lemma UnionNone(output: map<nat, Matched>, s: Search, es: set<real>)
    ensures UnionSets(output, s, [], es) == Zero(es)
  {
    var u := UnionSets(output, s, [], es);
    forall e | e in es ensures u[e] == {} {
      assert Across(output, s, [], e) == {};
    }
  }

  /** A dataset's own rows and lists are those under its key, except for a dataset named "all"
      when there are several. */
  lemma OwnIsAt(output: map<nat, Matched>, s: Search, tsfiles: seq<string>, eps: seq<real>, numFC: Option<nat>, size: nat)
    ensures forall u :: u in tsfiles && !(|tsfiles| > 1 && u == "all") ==>
      RowsAtOf(output, s, tsfiles, eps, numFC, size)(u) == OwnRowsOf(output, s, eps, numFC, size)(u)
    ensures forall u :: u in tsfiles && !(|tsfiles| > 1 && u == "all") ==>
      ListsAtOf(output, s, tsfiles, eps)(u) == OwnListsOf(output, s, eps)(u)
  {
  }

  /** The table and lists as comprehensions over the key functions. */
  lemma AtOfIs(output: map<nat, Matched>, s: Search, tsfiles: seq<string>, eps: seq<real>, numFC: Option<nat>, size: nat)
    ensures (map u | u in TsKeys(tsfiles) :: RowsAtOf(output, s, tsfiles, eps, numFC, size)(u)) == TableOf(output, s, tsfiles, eps, numFC, size).values
    ensures (map u | u in TsKeys(tsfiles) :: ListsAtOf(output, s, tsfiles, eps)(u)) == ListsOf(output, s, tsfiles, eps).values
  {
    RowsAtOfIs(output, s, tsfiles, eps, numFC, size);
    ListsAtOfIs(output, s, tsfiles, eps);
  }

  /** The table half of `AtOfIs`. */
  lemma RowsAtOfIs(output: map<nat, Matched>, s: Search, tsfiles: seq<string>, eps: seq<real>, numFC: Option<nat>, size: nat)
    ensures (map u | u in TsKeys(tsfiles) :: RowsAtOf(output, s, tsfiles, eps, numFC, size)(u)) == TableOf(output, s, tsfiles, eps, numFC, size).values
  {
  }

  /** The index-list half of `AtOfIs`. */
  lemma ListsAtOfIs(output: map<nat, Matched>, s: Search, tsfiles: seq<string>, eps: seq<real>)
    ensures (map u | u in TsKeys(tsfiles) :: ListsAtOf(output, s, tsfiles, eps)(u)) == ListsOf(output, s, tsfiles, eps).values
  {
  }

  /** After the last dataset and the "all" entry, one search's table is that of
      `reformat_output`. */
  lemma FinishTable(output: map<nat, Matched>, s: Search, tsfiles: seq<string>, eps: seq<real>, numFC: Option<nat>, size: nat,
                    tab: Table, all: map<real, set<nat>>)
    requires Holds(tab, TsKeys(tsfiles), tsfiles, OwnRowsOf(output, s, eps, numFC, size))
    requires |tsfiles| > 1 ==> all == UnionSets(output, s, tsfiles, EpsSetOf(eps))
    ensures all.Keys == EpsSetOf(eps) ==>
      (if |tsfiles| > 1 then Put(tab, "all", CountRows(eps, all, numFC, size)) else tab) == TableOf(output, s, tsfiles, eps, numFC, size)
  {
    OwnIsAt(output, s, tsfiles, eps, numFC, size);
    HoldsDone(tab, TsKeys(tsfiles), tsfiles, OwnRowsOf(output, s, eps, numFC, size), RowsAtOf(output, s, tsfiles, eps, numFC, size));
    AtOfIs(output, s, tsfiles, eps, numFC, size);
  }

  /** After the last dataset and the "all" entry, one search's index lists are those of
      `reformat_output`. */
  lemma FinishLists(output: map<nat, Matched>, s: Search, tsfiles: seq<string>, eps: seq<real>, lists: ParamLists, all: map<real, set<nat>>)
    requires Holds(lists, tsfiles, tsfiles, OwnListsOf(output, s, eps))
    requires |tsfiles| > 1 ==> all == UnionSets(output, s, tsfiles, EpsSetOf(eps))
    ensures all.Keys == EpsSetOf(eps) ==>
      (if |tsfiles| > 1 then Put(lists, "all", IndexLists(eps, all)) else lists) == ListsOf(output, s, tsfiles, eps)
  {
    OwnIsAt(output, s, tsfiles, eps, None, 0);
    HoldsDone(lists, tsfiles, tsfiles, OwnListsOf(output, s, eps), ListsAtOf(output, s, tsfiles, eps));
    AtOfIs(output, s, tsfiles, eps, None, 0);
  }

  /** The state of the loop over the datasets: per search, the stored rows, lists and "all"
      sets, and the "stablefc" total of the last scan. */
  datatype Progress = Progress(domTab: Table, fcTab: Table, domLists: ParamLists, fcLists: ParamLists,
                               domAll: map<real, set<nat>>, fcAll: map<real, set<nat>>, numFC: nat)

  /** After the first `k` datasets: every result was readable for them and each requested
      search has stored what `reformat_output` stores. */
  ghost predicate InProgress(output: map<nat, Matched>, tsfiles: seq<string>, k: nat, domain: bool, stablefc: bool,
                             eps: seq<real>, size: nat, p: Progress)
    requires k <= |tsfiles|
  {
    && (domain ==> Reformatting(output, DomainSearch, tsfiles, k, eps, None, size, p.domTab, p.domLists, p.domAll))
    && (stablefc ==> Reformatting(output, StableFCSearch, tsfiles, k, eps, Some(NumFC(output)), size, p.fcTab, p.fcLists, p.fcAll))
    && (stablefc && k > 0 ==> p.numFC == NumFC(output))
    && forall u, i :: u in tsfiles[..k] && i in output ==> Readable(output[i], u, domain, stablefc, EpsSetOf(eps))
  }

  /** A result unreadable for `tsfiles[k]` makes `reformat_output` raise. */
  lemma FailsAt(output: map<nat, Matched>, tsfiles: seq<string>, k: nat, domain: bool, stablefc: bool, es: set<real>)
    requires k < |tsfiles|
    requires !forall i :: i in output ==> Readable(output[i], tsfiles[k], domain, stablefc, es)
    ensures Fails(output, tsfiles, domain, stablefc, es)
  {
    var i :| i in output && !Readable(output[i], tsfiles[k], domain, stablefc, es);
    assert tsfiles[k] in tsfiles;
  }

  /** Every result readable for `tsfiles[k]` too. */
  lemma ReadableGrow(output: map<nat, Matched>, tsfiles: seq<string>, k: nat, domain: bool, stablefc: bool, es: set<real>)
    requires k < |tsfiles|
    requires forall u, i :: u in tsfiles[..k] && i in output ==> Readable(output[i], u, domain, stablefc, es)
    requires forall i :: i in output ==> Readable(output[i], tsfiles[k], domain, stablefc, es)
    ensures forall u, i :: u in tsfiles[..k + 1] && i in output ==> Readable(output[i], u, domain, stablefc, es)
  {
    assert tsfiles[..k + 1] == tsfiles[..k] + [tsfiles[k]];
  }

  /** One pass of the loop over the datasets: the scan of `output` for `tsfiles[k]`, then the
      rows and lists of each requested search.  A result that cannot be read raises `KeyError`. */
  method ReformatStep(output: map<nat, Matched>, tsfiles: seq<string>, k: nat, domain: bool, stablefc: bool,
                      eps: seq<real>, levels: seq<real>, size: nat, p: Progress)
    returns (ok: bool, p2: Progress)
    requires k < |tsfiles| && levels == Levels(eps)
    requires InProgress(output, tsfiles, k, domain, stablefc, eps, size, p)
    ensures ok ==> InProgress(output, tsfiles, k + 1, domain, stablefc, eps, size, p2)
    ensures !ok ==> Fails(output, tsfiles, domain, stablefc, EpsSetOf(eps))
  {
    var t := tsfiles[k];
    var es := EpsSetOf(eps);
    var dom, fc, count;
    ok, dom, fc, count := ScanOutput(output, t, tsfiles[..k], domain, stablefc, es, |tsfiles| > 1, p.domAll, p.fcAll);
    p2 := p;
    if !ok {
      FailsAt(output, tsfiles, k, domain, stablefc, es);
      return;
    }
    ReadableGrow(output, tsfiles, k, domain, stablefc, es);
    if domain {
      var tab, lists, all := StoreDataset(output, DomainSearch, tsfiles, k, eps, levels, None, size, dom, p.domTab, p.domLists, p.domAll);
      p2 := p2.(domTab := tab, domLists := lists, domAll := all);
    }
    if stablefc {
      var tab, lists, all := StoreDataset(output, StableFCSearch, tsfiles, k, eps, levels, Some(count), size, fc, p.fcTab, p.fcLists, p.fcAll);
      p2 := p2.(fcTab := tab, fcLists := lists, fcAll := all, numFC := count);
    }
  }

  /** With several datasets, the "all" rows and lists of one search, counted over the union of
      the matching indices; `count` is the "stablefc" total of the last scan. */
  method FinishSearch(output: map<nat, Matched>, s: Search, tsfiles: seq<string>, eps: seq<real>, levels: seq<real>,
                      ghost numFC: Option<nat>, count: Option<nat>, size: nat, tab: Table, lists: ParamLists, all: map<real, set<nat>>)
    returns (tab2: Table, lists2: ParamLists)
    requires levels == Levels(eps) && (|tsfiles| > 1 ==> count == numFC)
    requires Reformatting(output, s, tsfiles, |tsfiles|, eps, numFC, size, tab, lists, all)
    ensures tab2 == TableOf(output, s, tsfiles, eps, numFC, size)
    ensures lists2 == ListsOf(output, s, tsfiles, eps)
  {
    assert tsfiles[..|tsfiles|] == tsfiles;
    FinishTable(output, s, tsfiles, eps, numFC, size, tab, all);
    FinishLists(output, s, tsfiles, eps, lists, all);
    tab2, lists2 := tab, lists;
    if |tsfiles| > 1 {
      tab2 := Put(tab, "all", CountRows(eps, all, count, size));
      var l := ListsFor(levels, all, eps);
      lists2 := Put(lists, "all", l);
    }
  }

  /** Before the first dataset: placeholders under every key, no lists, empty "all" sets. */
  lemma ProgressStart(output: map<nat, Matched>, tsfiles: seq<string>, domain: bool, stablefc: bool, eps: seq<real>, size: nat,
                      tab: Table)
    requires tab.keys == Distinct(TsKeys(tsfiles)) && forall u :: u in tab.values <==> u in TsKeys(tsfiles)
    ensures InProgress(output, tsfiles, 0, domain, stablefc, eps, size,
                       Progress(tab, tab, Empty(), Empty(), Zero(EpsSetOf(eps)), Zero(EpsSetOf(eps)), 0))
  {
    UnionNone(output, DomainSearch, EpsSetOf(eps));
    UnionNone(output, StableFCSearch, EpsSetOf(eps));
    assert tsfiles[..0] == [];
  }

  /** `reformat_output(output, tsfiles, param_dict, pgsize)`, with the "domain", "stablefc" and
      "epsilons" entries of the parameters as `domain`, `stablefc` and `eps`. */
  method Reformat(output: map<nat, Matched>, tsfiles: seq<string>, domain: bool, stablefc: bool, eps: seq<real>, size: nat)
    returns (r: Result<Reformatted>)
    ensures r == ReformatSpec(output, tsfiles, domain, stablefc, eps, size)
  {
    var levels := Levels(eps);
    var tab := InitTable(TsKeys(tsfiles));
    var p := Progress(tab, tab, Empty(), Empty(), Zero(EpsSetOf(eps)), Zero(EpsSetOf(eps)), 0);
    ProgressStart(output, tsfiles, domain, stablefc, eps, size, tab);
    for k := 0 to |tsfiles|
      invariant InProgress(output, tsfiles, k, domain, stablefc, eps, size, p)
    {
      var ok;
      ok, p := ReformatStep(output, tsfiles, k, domain, stablefc, eps, levels, size, p);
      if !ok {
        return Err(KeyError);
      }
    }
    assert tsfiles[..|tsfiles|] == tsfiles;
    var domTab, domLists, fcTab, fcLists := p.domTab, p.domLists, p.fcTab, p.fcLists;
    if domain {
      domTab, domLists := FinishSearch(output, DomainSearch, tsfiles, eps, levels, None, None, size, p.domTab, p.domLists, p.domAll);
    }
    if stablefc {
      fcTab, fcLists := FinishSearch(output, StableFCSearch, tsfiles, eps, levels, Some(NumFC(output)), Some(p.numFC), size,
                                     p.fcTab, p.fcLists, p.fcAll);
    }
    r := Ok(Reformatted(if domain then Some(domTab) else None, if stablefc then Some(fcTab) else None,
                        if domain then Some(domLists) else None, if stablefc then Some(fcLists) else None));
  }

  // ---- what the tables say ----

  /** Every row list and index list of `reformat_output`: one entry per distinct epsilon, in
      increasing order; the index list holds the matching indices in increasing order and the
      row counts them. */
  lemma RowsMeaning(output: map<nat, Matched>, s: Search, tsfiles: seq<string>, eps: seq<real>, numFC: Option<nat>, size: nat, t: string)
    requires t in TsKeys(tsfiles)
    ensures var rows, lists := TableOf(output, s, tsfiles, eps, numFC, size).values[t], ListsOf(output, s, tsfiles, eps).values[t];
      var sets, levels := FinalSets(output, s, tsfiles, t, EpsSetOf(eps)), Levels(eps);
      && |rows| == |lists| == |levels|
      && (forall k, j :: 0 <= k < j < |levels| ==> levels[k] < levels[j])
      && (forall e :: e in levels <==> e in eps)
      && forall k :: 0 <= k < |levels| ==>
           && rows[k] == MakeRow(levels[k], |lists[k].1|, numFC, size)
           && lists[k].0 == levels[k] && Increasing(lists[k].1)
           && forall x :: x in lists[k].1 <==> x in sets[levels[k]]
  {
    LevelsMeaning(eps);
  }

  /** With several datasets, every per-dataset set lies inside the "all" set, which lies inside
      the evaluated indices, so its count is between the largest per-dataset count and both the
      number of parameters and the sum of the per-dataset counts. */
  lemma AllIsUnion(output: map<nat, Matched>, s: Search, tsfiles: seq<string>, es: set<real>, e: real, u: string)
    requires |tsfiles| > 1 && e in es && u in tsfiles
    ensures var all := FinalSets(output, s, tsfiles, "all", es)[e];
      var own := MatchSets(output, output.Keys, s, u, es)[e];
      && (forall i :: i in all <==> i in output && exists v :: v in tsfiles && Hit(output[i], s, v, e))
      && own <= all <= output.Keys
      && |own| <= |all| <= |output.Keys|
      && |all| <= CountSum(output, s, tsfiles, e)
  {
    var all := FinalSets(output, s, tsfiles, "all", es)[e];
    var own := MatchSets(output, output.Keys, s, u, es)[e];
    assert own <= all;
    SubsetSize(own, all);
    SubsetSize(all, output.Keys);
    AcrossAtMostSum(output, s, tsfiles, e);
  }

  /** The sum over the datasets `ts` of their counts at level `e`. */
  function CountSum(output: map<nat, Matched>, s: Search, ts: seq<string>, e: real): nat {
    if ts == [] then 0 else CountSum(output, s, ts[..|ts| - 1], e) + |Among(output, output.Keys, s, ts[|ts| - 1], e)|
  }

  /** The indices matching for some dataset are no more than the per-dataset counts added up: an
      index matching several datasets is counted once in the union and once per dataset in the sum. */
  lemma {:induction false} AcrossAtMostSum(output: map<nat, Matched>, s: Search, ts: seq<string>, e: real)
    ensures |Across(output, s, ts, e)| <= CountSum(output, s, ts, e)
  {
    if ts != [] {
      var n := |ts| - 1;
      var init := ts[..n];
      AcrossAtMostSum(output, s, init, e);
      var a, b := Across(output, s, init, e), Among(output, output.Keys, s, ts[n], e);
      forall i | i in Across(output, s, ts, e) ensures i in a + b {
        var v :| v in ts && Hit(output[i], s, v, e);
        if v != ts[n] {
          var k :| 0 <= k < |ts| && ts[k] == v;
          assert init[k] == v;
        }
      }
      assert |a + b| + |a * b| == |a| + |b|;
      SubsetSize(Across(output, s, ts, e), a + b);
    }
  }

  /** The rows under key `t`. */
  lemma TableAt(output: map<nat, Matched>, s: Search, tsfiles: seq<string>, eps: seq<real>, numFC: Option<nat>, size: nat, t: string)
    requires t in TsKeys(tsfiles)
    ensures TableOf(output, s, tsfiles, eps, numFC, size).values[t] == CountRows(eps, FinalSets(output, s, tsfiles, t, EpsSetOf(eps)), numFC, size)
  {
  }

  /** Each row of a row list carries `numFC` when it is present, and the size. */
  lemma CountRowsShape(eps: seq<real>, sets: map<real, set<nat>>, numFC: Option<nat>, size: nat)
    requires sets.Keys == EpsSetOf(eps)
    ensures var rows := CountRows(eps, sets, numFC, size);
      forall k :: 0 <= k < |rows| ==> rows[k].FCRow? == numFC.Some? && (numFC.Some? ==> rows[k].numFC == numFC.value) && rows[k].size == size
  {
    LevelsMeaning(eps);
  }

  /** Every stable full-cycle row carries the "stablefc" total, the number of results whose flag
      is true, and every domain row the parameter graph size only. */
  lemma RowShapes(output: map<nat, Matched>, tsfiles: seq<string>, eps: seq<real>, size: nat, t: string)
    requires t in TsKeys(tsfiles)
    ensures var rows := TableOf(output, StableFCSearch, tsfiles, eps, Some(NumFC(output)), size).values[t];
      forall k :: 0 <= k < |rows| ==> rows[k].FCRow? && rows[k].numFC == NumFC(output) == |FCFlags(output, output.Keys)| && rows[k].size == size
    ensures var rows := TableOf(output, DomainSearch, tsfiles, eps, None, size).values[t];
      forall k :: 0 <= k < |rows| ==> rows[k].CountRow? && rows[k].size == size
  {
    TableAt(output, StableFCSearch, tsfiles, eps, Some(NumFC(output)), size, t);
    TableAt(output, DomainSearch, tsfiles, eps, None, size, t);
    CountRowsShape(eps, FinalSets(output, StableFCSearch, tsfiles, t, EpsSetOf(eps)), Some(NumFC(output)), size);
    CountRowsShape(eps, FinalSets(output, DomainSearch, tsfiles, t, EpsSetOf(eps)), None, size);
  }

  // ---- the results of `PathMatch` ----

  /** `parameter_list` when given, else every index of the parameter graph. */
  function Evaluated(paramList: Option<seq<nat>>, size: nat): (ix: seq<nat>)
    ensures paramList.None? ==> |ix| == size && forall k :: 0 <= k < size ==> ix[k] == k
    ensures paramList.Some? ==> ix == paramList.value
  {
    if paramList.Some? then paramList.value else seq(size, k requires 0 <= k < size => k)
  }

  /** `dict(executor.map(work_function, dsgrn_params))`: the result of `PathMatch` keyed by the
      index it returns, the stability taken from the Morse graph's own poset. */
  function OutputOf(params: seq<Parameter>, ds: Datasets, indices: seq<nat>, domain: bool, stablefc: bool): map<nat, Matched>
    requires forall k :: 0 <= k < |indices| ==> indices[k] < |params|
  {
    map p | p in indices :: Expected(params[p], ds, domain, stablefc, MorseGraphPoset)
  }

  /** The output holds one result per distinct evaluated index, whatever their order. */
  lemma OutputKeys(params: seq<Parameter>, ds: Datasets, indices: seq<nat>, domain: bool, stablefc: bool)
    requires forall k :: 0 <= k < |indices| ==> indices[k] < |params|
    ensures OutputOf(params, ds, indices, domain, stablefc).Keys == set p | p in indices
    ensures forall p :: p in indices ==> OutputOf(params, ds, indices, domain, stablefc)[p].domain.Some? == domain
    ensures forall p :: p in indices ==> OutputOf(params, ds, indices, domain, stablefc)[p].stablefc.Some? == stablefc
    ensures forall p :: p in indices ==> OutputOf(params, ds, indices, domain, stablefc)[p].matches.Some? == stablefc
  {
  }

  /** A true stable full-cycle answer comes with a true "stablefc" flag. */
  lemma HitHasFlag(params: seq<Parameter>, ds: Datasets, indices: seq<nat>, domain: bool, i: nat, u: string, e: real)
    requires forall k :: 0 <= k < |indices| ==> indices[k] < |params|
    requires i in OutputOf(params, ds, indices, domain, true)
    requires Hit(OutputOf(params, ds, indices, domain, true)[i], StableFCSearch, u, e)
    ensures OutputOf(params, ds, indices, domain, true)[i].stablefc == Some(true)
  {
    MatchImpliesFlag(params[i], ds, true, MorseGraphPoset, u, e);
  }

  /** Every stable full-cycle count of the query is at most the "stablefc" total beside it,
      which is at most the number of evaluated parameters. */
  lemma MatchesWithinFC(params: seq<Parameter>, ds: Datasets, indices: seq<nat>, domain: bool, tsfiles: seq<string>,
                        t: string, es: set<real>, e: real)
    requires forall k :: 0 <= k < |indices| ==> indices[k] < |params|
    requires e in es
    ensures var output := OutputOf(params, ds, indices, domain, true);
      var matched := FinalSets(output, StableFCSearch, tsfiles, t, es)[e];
      matched <= FCFlags(output, output.Keys) && |matched| <= NumFC(output) <= |output.Keys|
  {
    var output := OutputOf(params, ds, indices, domain, true);
    var matched := FinalSets(output, StableFCSearch, tsfiles, t, es)[e];
    forall i | i in matched ensures i in FCFlags(output, output.Keys) {
      if |tsfiles| > 1 && t == "all" {
        var v :| v in tsfiles && Hit(output[i], StableFCSearch, v, e);
        HitHasFlag(params, ds, indices, domain, i, v, e);
      } else {
        HitHasFlag(params, ds, indices, domain, i, t, e);
      }
    }
    SubsetSize(matched, FCFlags(output, output.Keys));
    SubsetSize(FCFlags(output, output.Keys), output.Keys);
  }

  /** When the epsilons take in every noise level of every dataset, no result of `PathMatch`
      makes `reformat_output` raise. */
  lemma CoveredReadable(params: seq<Parameter>, ds: Datasets, indices: seq<nat>, domain: bool, stablefc: bool, eps: seq<real>)
    requires forall k :: 0 <= k < |indices| ==> indices[k] < |params|
    requires Valid(ds)
    requires forall t :: t in ds.values ==> EpsSet(ds.values[t]) <= EpsSetOf(eps)
    ensures !Fails(OutputOf(params, ds, indices, domain, stablefc), ds.keys, domain, stablefc, EpsSetOf(eps))
  {
    var output := OutputOf(params, ds, indices, domain, stablefc);
    forall t, i | t in ds.keys && i in output ensures Readable(output[i], t, domain, stablefc, EpsSetOf(eps)) {
      ReadableAt(params, ds, indices, domain, stablefc, eps, t, i);
    }
  }

  /** One result read for one dataset. */
  lemma ReadableAt(params: seq<Parameter>, ds: Datasets, indices: seq<nat>, domain: bool, stablefc: bool, eps: seq<real>, t: string, i: nat)
    requires forall k :: 0 <= k < |indices| ==> indices[k] < |params|
    requires Valid(ds) && t in ds.keys && i in indices
    requires EpsSet(ds.values[t]) <= EpsSetOf(eps)
    ensures Readable(OutputOf(params, ds, indices, domain, stablefc)[i], t, domain, stablefc, EpsSetOf(eps))
  {
    var d := Expected(params[i], ds, domain, stablefc, MorseGraphPoset);
    assert OutputOf(params, ds, indices, domain, stablefc)[i] == d;
    var l := ds.values[t];
    MarksKeys(params[i], l);
    if domain {
      KnownLevels(d, DomainSearch, t, EpsSetOf(eps));
    }
    if stablefc {
      KnownLevels(d, StableFCSearch, t, EpsSetOf(eps));
    }
  }

  /** Answers present at known noise levels only can be read. */
  lemma KnownLevels(d: Matched, s: Search, t: string, es: set<real>)
    requires MarksOf(d, s).Some? && t in MarksOf(d, s).value && MarksOf(d, s).value[t].Keys <= es
    requires s == StableFCSearch ==> d.stablefc.Some?
    ensures !Unreadable(d, s, t, es)
  {
  }

  /** The answers of a dataset are at its own noise levels. */
  lemma MarksKeys(p: Parameter, l: PosetList)
    ensures DomainMarks(p, l).Keys == EpsSet(l) && FCMarks(p, l, MorseGraphPoset).Keys == EpsSet(l)
  {
  }

  // ---- the query ----

  /** The networks `get_posets` hands on are none at all. */
  predicate NoNetworks(kept: Kept) {
    match kept
    case InOrder(l) => l == []
    case Unordered(m) => m == {}
  }

  const NoExistenceSearch := "Existence of path match without counting is not yet implemented for large networks. Use CountPatternMatch.py."

  /** What the body of `query` computes after `sanity_check` and `get_posets`: nothing when there
      is no network, else for the first network specification its reformatted results.  The
      network is read by DSGRN as `graph(spec)`; `posets` and `kept` come from `get_posets`. */
  ghost function QuerySpec(specs: seq<string>, graph: string -> Network, posets: PosetTable, kept: Kept,
                           m: PatternDbSearch.Mode, paramList: Option<seq<nat>>, eps: seq<real>): Result<Option<Reformatted>>
  {
    if NoNetworks(kept) then Ok(None)
    else if !m.count then Err(ValueError(NoExistenceSearch))
    else if specs == [] then Err(IndexError)
    else
      var net := graph(specs[0]);
      var indices := Evaluated(paramList, |net.params|);
      if exists k :: 0 <= k < |indices| && indices[k] >= |net.params| then Err(OracleError)
      else if NameKey(net) !in posets then Err(KeyError)
      else
        var ds := posets[NameKey(net)];
        match ReformatSpec(OutputOf(net.params, ds, indices, m.domain, m.stablefc), ds.keys, m.domain, m.stablefc, eps, |net.params|)
        case Err(e) => Err(e)
        case Ok(v) => Ok(Some(v))
  }

  /** The results of `PathMatch` for each index in turn, a later result for a repeated index
      replacing the earlier one. */
  method CollectOutput(params: seq<Parameter>, ds: Datasets, indices: seq<nat>, domain: bool, stablefc: bool)
    returns (output: map<nat, Matched>)
    requires Valid(ds)
    requires forall k :: 0 <= k < |indices| ==> indices[k] < |params|
    ensures output == OutputOf(params, ds, indices, domain, stablefc)
  {
    output := map[];
    for k := 0 to |indices|
      invariant output == OutputOf(params, ds, indices[..k], domain, stablefc)
    {
      var r := PathMatch(params[indices[k]], ds, domain, stablefc, MorseGraphPoset);
      assert indices[..k + 1] == indices[..k] + [indices[k]];
      output := output[indices[k] := r];
    }
    assert indices[..|indices|] == indices;
  }

  /** `query` after `sanity_check` and `get_posets`: the first network specification is read,
      its parameters at the evaluated indices are matched and the results reformatted.  An
      index outside the parameter graph fails inside DSGRN. */
  method Query(specs: seq<string>, graph: string -> Network, posets: PosetTable, kept: Kept,
               m: PatternDbSearch.Mode, paramList: Option<seq<nat>>, eps: seq<real>)
    returns (r: Result<Option<Reformatted>>)
    requires PatternDbSearch.ValidTable(posets)
    ensures r == QuerySpec(specs, graph, posets, kept, m, paramList, eps)
  {
    if NoNetworks(kept) {
      return Ok(None);
    }
    if !m.count {
      return Err(ValueError(NoExistenceSearch));
    }
    if specs == [] {
      return Err(IndexError);
    }
    var net := graph(specs[0]);
    var indices := Evaluated(paramList, |net.params|);
    for k := 0 to |indices|
      invariant forall j :: 0 <= j < k ==> indices[j] < |net.params|
    {
      if indices[k] >= |net.params| {
        return Err(OracleError);
      }
    }
    var names := NameKey(net);
    if names !in posets {
      return Err(KeyError);
    }
    var ds := posets[names];
    var output := CollectOutput(net.params, ds, indices, m.domain, m.stablefc);
    var res := Reformat(output, ds.keys, m.domain, m.stablefc, eps, |net.params|);
    if res.Err? {
      return Err(res.error);
    }
    return Ok(Some(res.value));
  }
}
