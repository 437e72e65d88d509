/** Count mode of the `CountPatternMatch_DB` query (`PathMatches_with_count` and
    `PathMatches_with_count_stablefc_only`).

    For every parameter that is evaluated, every dataset and every (epsilon, poset) pair of that
    dataset, a counter per (dataset, epsilon) and search is raised when the parameter matches,
    and with more than one dataset the parameter's index is added to an "all" set per epsilon,
    so that a parameter matching several datasets is counted once there.  The counters and sets
    are `Tallies`; `Sweep` is the loop nest and the specification is `SpecTallies`. */
module PatternDbCount {
  import opened Wrappers
  import opened Dsgrn
  import opened Dicts
  import opened PosetTables
  import opened PatternChecks

  /** The two searches: anywhere in the domain graph, or within stable full cycles. */
  datatype Search = DomainSearch | StableFCSearch

  /** `domain_check`: a path match anywhere in the domain graph. */
  predicate DomainMatch(p: Parameter, pos: Poset) {
    p.domainPath(pos)
  }

  /** The first result of this file's `stableFC_check`: a path match in a stable full cycle,
      where the Morse graph's poset decides stability. */
  predicate FCMatch(p: Parameter, pos: Poset) {
    StableFCPathMatch(p, pos, MorseGraphPoset)
  }

  /** Whether the counter of search `s` is raised for parameter `p` and the pattern built from
      `pos`.  When both searches run, a stable full-cycle match also raises the domain counter,
      without the domain graph being searched. */
  predicate Counted(s: Search, p: Parameter, pos: Poset, domain: bool, stablefc: bool) {
    match s
    case DomainSearch => domain && (DomainMatch(p, pos) || (stablefc && FCMatch(p, pos)))
    case StableFCSearch => stablefc && FCMatch(p, pos)
  }

  /** How often parameter `p` raises the counter at noise level `eps` of a dataset: once per
      pair of the dataset at that level whose poset it matches. */
  function Hits(s: Search, p: Parameter, list: PosetList, eps: real, domain: bool, stablefc: bool): nat {
    if list == [] then 0
    else
      Hits(s, p, list[..|list| - 1], eps, domain, stablefc)
      + (if list[|list| - 1].0 == eps && Counted(s, p, list[|list| - 1].1, domain, stablefc) then 1 else 0)
  }

  /** The counter at noise level `eps` of a dataset after the parameters `ps` (index and
      parameter, in the order they are evaluated). */
  function Tally(s: Search, ps: seq<(nat, Parameter)>, list: PosetList, eps: real, domain: bool, stablefc: bool): nat {
    if ps == [] then 0
    else Tally(s, ps[..|ps| - 1], list, eps, domain, stablefc) + Hits(s, ps[|ps| - 1].1, list, eps, domain, stablefc)
  }

  /** Some pair of the dataset at noise level `eps` has a poset that `p` matches. */
  ghost predicate MatchesAt(s: Search, p: Parameter, list: PosetList, eps: real, domain: bool, stablefc: bool) {
    exists j :: 0 <= j < |list| && list[j].0 == eps && Counted(s, p, list[j].1, domain, stablefc)
  }

  /** The "all" set at noise level `eps`: the indices of the parameters that match some dataset
      at that level. */
  ghost function Union(s: Search, ps: seq<(nat, Parameter)>, ds: Datasets, eps: real, domain: bool, stablefc: bool): set<nat> {
    set k | 0 <= k < |ps| && exists t :: t in ds.values && MatchesAt(s, ps[k].1, ds.values[t], eps, domain, stablefc) :: ps[k].0
  }

  /** Some dataset holds at least one pair. */
  predicate SomePoset(ds: Datasets) {
    exists t :: t in ds.values && |ds.values[t]| > 0
  }

  /** `numFC`: the evaluated parameters with a stable full cycle, each once; it stays 0 when the
      stable search is off or there is no poset at all, since only a search raises it. */
  function FCCount(ps: seq<(nat, Parameter)>, ds: Datasets, stablefc: bool): (n: nat)
    ensures n <= |ps|
  {
    if ps == [] then 0
    else
      FCCount(ps[..|ps| - 1], ds, stablefc)
      + (if stablefc && HasStableFC(ps[|ps| - 1].1, MorseGraphPoset) && SomePoset(ds) then 1 else 0)
  }

  /** The counters per dataset and noise level, and the "all" sets per noise level. */
  datatype Tallies = Tallies(counts: map<string, map<real, nat>>, all: map<real, set<nat>>)

  /** More than one dataset, so that the "all" sets are kept. */
  predicate Multi(ds: Datasets) {
    |ds.keys| > 1
  }

  /** The noise levels the "all" sets are made for: those of the first dataset. */
  function FirstEps(ds: Datasets): set<real>
    requires Valid(ds)
  {
    if ds.keys == [] then {} else EpsSet(ds.values[ds.keys[0]])
  }

  /** Every dataset's noise levels are among the first dataset's, so that every increment of an
      "all" set finds its set. */
  ghost predicate SharedEps(ds: Datasets)
    requires Valid(ds)
  {
    forall t :: t in ds.values ==> EpsSet(ds.values[t]) <= FirstEps(ds)
  }

  /** A counter per dataset and noise level and, with several datasets, an "all" set per noise
      level of the first dataset. */
  predicate TallyShape(tl: Tallies, ds: Datasets)
    requires Valid(ds)
  {
    && tl.counts.Keys == ds.values.Keys
    && (forall t :: t in ds.values ==> tl.counts[t].Keys == EpsSet(ds.values[t]))
    && (!Multi(ds) ==> tl.all == map[])
    && (Multi(ds) ==> tl.all.Keys == FirstEps(ds))
  }

  /** The tallies of search `s` are those after the parameters `ps`. */
  ghost predicate Holds(tl: Tallies, s: Search, ps: seq<(nat, Parameter)>, ds: Datasets, domain: bool, stablefc: bool)
    requires Valid(ds)
  {
    && TallyShape(tl, ds)
    && (forall t, e :: t in ds.values && e in tl.counts[t] ==> tl.counts[t][e] == Tally(s, ps, ds.values[t], e, domain, stablefc))
    && (Multi(ds) ==> forall e :: e in tl.all ==> tl.all[e] == Union(s, ps, ds, e, domain, stablefc))
  }

  /** The counters after the parameters `ps`, as a value. */
  ghost function SpecCounts(s: Search, ps: seq<(nat, Parameter)>, ds: Datasets, domain: bool, stablefc: bool): (c: map<string, map<real, nat>>)
    ensures c.Keys == ds.values.Keys
    ensures forall t :: t in ds.values ==> c[t].Keys == EpsSet(ds.values[t])
    ensures forall t, e :: t in ds.values && e in c[t] ==> c[t][e] == Tally(s, ps, ds.values[t], e, domain, stablefc)
  {
    map t | t in ds.values :: map e | e in EpsSet(ds.values[t]) :: Tally(s, ps, ds.values[t], e, domain, stablefc)
  }

  /** The "all" sets after the parameters `ps`, as a value. */
  ghost function SpecAll(s: Search, ps: seq<(nat, Parameter)>, ds: Datasets, domain: bool, stablefc: bool): (a: map<real, set<nat>>)
    requires Valid(ds)
    ensures !Multi(ds) ==> a == map[]
    ensures Multi(ds) ==> a.Keys == FirstEps(ds)
    ensures Multi(ds) ==> forall e :: e in a ==> a[e] == Union(s, ps, ds, e, domain, stablefc)
  {
    if Multi(ds) then map e | e in FirstEps(ds) :: Union(s, ps, ds, e, domain, stablefc) else map[]
  }

  /** The tallies after the parameters `ps`, as a value. */
  ghost function SpecTallies(s: Search, ps: seq<(nat, Parameter)>, ds: Datasets, domain: bool, stablefc: bool): (tl: Tallies)
    requires Valid(ds)
    ensures Holds(tl, s, ps, ds, domain, stablefc)
  {
    Tallies(SpecCounts(s, ps, ds, domain, stablefc), SpecAll(s, ps, ds, domain, stablefc))
  }

  // ---- the loop nest ----

  /** The counters and sets before the first parameter: every counter 0 and every set empty. */
  function InitialTallies(ds: Datasets): (tl: Tallies)
    requires Valid(ds)
    ensures forall s, domain, stablefc :: Holds(tl, s, [], ds, domain, stablefc)
  {
    Tallies(map t | t in ds.values :: map e | e in EpsSet(ds.values[t]) :: 0,
            if Multi(ds) then map e | e in FirstEps(ds) :: {} else map[])
  }

  /** One increment: the counter of dataset `t` at `eps` goes up by one and, with several
      datasets, `idx` joins the "all" set at `eps`. */
  function Raise(tl: Tallies, t: string, eps: real, idx: nat, multi: bool): Tallies
    requires t in tl.counts && eps in tl.counts[t]
    requires multi ==> eps in tl.all
  {
    Tallies(tl.counts[t := tl.counts[t][eps := tl.counts[t][eps] + 1]],
            if multi then tl.all[eps := tl.all[eps] + {idx}] else tl.all)
  }

  /** The counters of `tl2` are those of `tl` after parameter `p` has been tested against the
      pairs `list` of dataset `t`. */
  ghost predicate CountsAdded(tl: Tallies, tl2: Tallies, s: Search, p: Parameter, t: string, list: PosetList,
                              domain: bool, stablefc: bool) {
    && t in tl.counts
    && tl2.counts.Keys == tl.counts.Keys
    && (forall u :: u in tl.counts && u != t ==> tl2.counts[u] == tl.counts[u])
    && tl2.counts[t].Keys == tl.counts[t].Keys
    && (forall e :: e in tl.counts[t] ==> tl2.counts[t][e] == tl.counts[t][e] + Hits(s, p, list, e, domain, stablefc))
  }

  /** The "all" sets of `tl2` are those of `tl` after parameter `p` (index `idx`) has been tested
      against the pairs `list` of a dataset. */
  ghost predicate AllAdded(tl: Tallies, tl2: Tallies, s: Search, idx: nat, p: Parameter, list: PosetList,
                           multi: bool, domain: bool, stablefc: bool) {
    && tl2.all.Keys == tl.all.Keys
    && (forall e :: e in tl.all ==>
         tl2.all[e] == if multi && MatchesAt(s, p, list, e, domain, stablefc) then tl.all[e] + {idx} else tl.all[e])
  }

  /** `tl2` is `tl` after parameter `p` (index `idx`) has been tested against the pairs `list` of
      dataset `t`. */
  ghost predicate Added(tl: Tallies, tl2: Tallies, s: Search, idx: nat, p: Parameter, t: string, list: PosetList,
                        multi: bool, domain: bool, stablefc: bool) {
    CountsAdded(tl, tl2, s, p, t, list, domain, stablefc) && AllAdded(tl, tl2, s, idx, p, list, multi, domain, stablefc)
  }

  /** A pair more on the list adds its match to the count at its noise level. */
  lemma HitsSnoc(s: Search, p: Parameter, list: PosetList, j: nat, eps: real, domain: bool, stablefc: bool)
    requires j < |list|
    ensures Hits(s, p, list[..j + 1], eps, domain, stablefc)
         == Hits(s, p, list[..j], eps, domain, stablefc) + (if list[j].0 == eps && Counted(s, p, list[j].1, domain, stablefc) then 1 else 0)
  {
    assert list[..j + 1][..j] == list[..j];
  }

  /** A pair more on the list matches at its noise level when the pair's poset is matched. */
  lemma MatchesAtSnoc(s: Search, p: Parameter, list: PosetList, j: nat, eps: real, domain: bool, stablefc: bool)
    requires j < |list|
    ensures MatchesAt(s, p, list[..j + 1], eps, domain, stablefc)
       <==> MatchesAt(s, p, list[..j], eps, domain, stablefc) || (list[j].0 == eps && Counted(s, p, list[j].1, domain, stablefc))
  {
    var l1, l2 := list[..j], list[..j + 1];
    if MatchesAt(s, p, l2, eps, domain, stablefc) {
      var k :| 0 <= k < |l2| && l2[k].0 == eps && Counted(s, p, l2[k].1, domain, stablefc);
      if k < j {
        assert l1[k] == l2[k];
      }
    }
    if MatchesAt(s, p, l1, eps, domain, stablefc) {
      var k :| 0 <= k < |l1| && l1[k].0 == eps && Counted(s, p, l1[k].1, domain, stablefc);
      assert l2[k] == l1[k];
    }
    if list[j].0 == eps && Counted(s, p, list[j].1, domain, stablefc) {
      assert l2[j] == list[j];
    }
  }

  /** Testing one more pair, for the counters. */
  lemma CountsStep(tl: Tallies, mid: Tallies, tl2: Tallies, s: Search, idx: nat, p: Parameter, t: string, list: PosetList, j: nat,
                   multi: bool, domain: bool, stablefc: bool)
    requires j < |list|
    requires CountsAdded(tl, mid, s, p, t, list[..j], domain, stablefc)
    requires list[j].0 in mid.counts[t] && (multi ==> list[j].0 in mid.all)
    requires tl2 == if Counted(s, p, list[j].1, domain, stablefc) then Raise(mid, t, list[j].0, idx, multi) else mid
    ensures CountsAdded(tl, tl2, s, p, t, list[..j + 1], domain, stablefc)
  {
    forall e | e in tl.counts[t]
      ensures tl2.counts[t][e] == tl.counts[t][e] + Hits(s, p, list[..j + 1], e, domain, stablefc)
    {
      HitsSnoc(s, p, list, j, e, domain, stablefc);
    }
  }

  /** Testing one more pair, for the "all" sets. */
  lemma AllStep(tl: Tallies, mid: Tallies, tl2: Tallies, s: Search, idx: nat, p: Parameter, t: string, list: PosetList, j: nat,
                multi: bool, domain: bool, stablefc: bool)
    requires j < |list|
    requires AllAdded(tl, mid, s, idx, p, list[..j], multi, domain, stablefc)
    requires t in mid.counts && list[j].0 in mid.counts[t] && (multi ==> list[j].0 in mid.all)
    requires tl2 == if Counted(s, p, list[j].1, domain, stablefc) then Raise(mid, t, list[j].0, idx, multi) else mid
    ensures AllAdded(tl, tl2, s, idx, p, list[..j + 1], multi, domain, stablefc)
  {
    forall e | e in tl.all
      ensures tl2.all[e] == if multi && MatchesAt(s, p, list[..j + 1], e, domain, stablefc) then tl.all[e] + {idx} else tl.all[e]
    {
      MatchesAtSnoc(s, p, list, j, e, domain, stablefc);
    }
  }

  /** Testing one more pair. */
  lemma AddedStep(tl: Tallies, mid: Tallies, tl2: Tallies, s: Search, idx: nat, p: Parameter, t: string, list: PosetList, j: nat,
                  multi: bool, domain: bool, stablefc: bool)
    requires j < |list|
    requires Added(tl, mid, s, idx, p, t, list[..j], multi, domain, stablefc)
    requires list[j].0 in mid.counts[t] && (multi ==> list[j].0 in mid.all)
    requires tl2 == if Counted(s, p, list[j].1, domain, stablefc) then Raise(mid, t, list[j].0, idx, multi) else mid
    ensures Added(tl, tl2, s, idx, p, t, list[..j + 1], multi, domain, stablefc)
  {
    CountsStep(tl, mid, tl2, s, idx, p, t, list, j, multi, domain, stablefc);
    AllStep(tl, mid, tl2, s, idx, p, t, list, j, multi, domain, stablefc);
  }

  /** The tests of one parameter against one poset, as the innermost loop body runs them:
      `stableFC_check` when the stable search is on, and `domain_check` when the domain search is
      on and no stable full-cycle match already settled it. */
  method TestPoset(p: Parameter, pos: Poset, domain: bool, stablefc: bool) returns (dom: bool, fc: bool, newFC: bool)
    ensures dom == Counted(DomainSearch, p, pos, domain, stablefc)
    ensures fc == Counted(StableFCSearch, p, pos, domain, stablefc)
    ensures newFC == (stablefc && HasStableFC(p, MorseGraphPoset))
  {
    dom, fc, newFC := false, false, false;
    if stablefc {
      var stabmatch, f := StableFCCheck(p, pos, MorseGraphPoset);
      newFC := f;
      if stabmatch {
        fc := true;
      }
      if stabmatch && domain {
        dom := true;
      } else if !stabmatch && domain {
        dom := p.domainPath(pos);
      }
    }
    if domain && !stablefc {
      dom := p.domainPath(pos);
    }
  }

  /** The loop over the pairs of dataset `t` for one parameter.  `flag` is the parameter's `FC`
      flag: `numFC` goes up the first time a test reports a stable full cycle. */
  method ScanList(dom: Tallies, fc: Tallies, flag: bool, numFC: nat, idx: nat, p: Parameter, t: string, list: PosetList,
                  multi: bool, domain: bool, stablefc: bool)
    returns (dom2: Tallies, fc2: Tallies, flag2: bool, numFC2: nat)
    requires t in dom.counts && EpsSet(list) <= dom.counts[t].Keys
    requires t in fc.counts && EpsSet(list) <= fc.counts[t].Keys
    requires multi ==> EpsSet(list) <= dom.all.Keys && EpsSet(list) <= fc.all.Keys
    ensures Added(dom, dom2, DomainSearch, idx, p, t, list, multi, domain, stablefc)
    ensures Added(fc, fc2, StableFCSearch, idx, p, t, list, multi, domain, stablefc)
    ensures flag2 == (flag || (stablefc && HasStableFC(p, MorseGraphPoset) && |list| > 0))
    ensures numFC2 == if flag2 && !flag then numFC + 1 else numFC
  {
    dom2, fc2, flag2, numFC2 := dom, fc, flag, numFC;
    var j := 0;
    while j < |list|
      invariant 0 <= j <= |list|
      invariant Added(dom, dom2, DomainSearch, idx, p, t, list[..j], multi, domain, stablefc)
      invariant Added(fc, fc2, StableFCSearch, idx, p, t, list[..j], multi, domain, stablefc)
      invariant flag2 == (flag || (stablefc && HasStableFC(p, MorseGraphPoset) && j > 0))
      invariant numFC2 == if flag2 && !flag then numFC + 1 else numFC
    {
      var (eps, pos) := list[j];
      assert eps in EpsSet(list);
      var d, f, newFC := TestPoset(p, pos, domain, stablefc);
      if newFC && !flag2 {
        numFC2 := numFC2 + 1;
        flag2 := true;
      }
      ghost var dmid, fmid := dom2, fc2;
      if f {
        fc2 := Raise(fc2, t, eps, idx, multi);
      }
      if d {
        dom2 := Raise(dom2, t, eps, idx, multi);
      }
      AddedStep(dom, dmid, dom2, DomainSearch, idx, p, t, list, j, multi, domain, stablefc);
      AddedStep(fc, fmid, fc2, StableFCSearch, idx, p, t, list, j, multi, domain, stablefc);
      j := j + 1;
    }
    assert list[..j] == list;
  }

  /** Some dataset among `done` has a pair at noise level `eps` whose poset `p` matches. */
  ghost predicate MatchesSome(s: Search, p: Parameter, ds: Datasets, done: seq<string>, eps: real, domain: bool, stablefc: bool) {
    exists t :: t in done && t in ds.values && MatchesAt(s, p, ds.values[t], eps, domain, stablefc)
  }

  /** The counters of `tl2` are those of `tl` after parameter `p` has been tested against the
      datasets `done`. */
  ghost predicate CountsAddedAll(tl: Tallies, tl2: Tallies, s: Search, p: Parameter, ds: Datasets, done: seq<string>,
                                 domain: bool, stablefc: bool) {
    && tl2.counts.Keys == tl.counts.Keys
    && (forall t :: t in tl.counts ==> tl2.counts[t].Keys == tl.counts[t].Keys)
    && (forall t, e :: t in tl.counts && e in tl.counts[t] ==>
         tl2.counts[t][e] == tl.counts[t][e] + (if t in done && t in ds.values then Hits(s, p, ds.values[t], e, domain, stablefc) else 0))
  }

  /** The "all" sets of `tl2` are those of `tl` after parameter `p` (index `idx`) has been tested
      against the datasets `done`. */
  ghost predicate AllAddedAll(tl: Tallies, tl2: Tallies, s: Search, idx: nat, p: Parameter, ds: Datasets, done: seq<string>,
                              multi: bool, domain: bool, stablefc: bool) {
    && tl2.all.Keys == tl.all.Keys
    && (forall e :: e in tl.all ==>
         tl2.all[e] == if multi && MatchesSome(s, p, ds, done, e, domain, stablefc) then tl.all[e] + {idx} else tl.all[e])
  }

  /** Testing one more dataset, for the counters. */
  lemma CountsAddedAllStep(tl: Tallies, mid: Tallies, tl2: Tallies, s: Search, p: Parameter, ds: Datasets, done: seq<string>, t: string,
                           domain: bool, stablefc: bool)
    requires t in ds.values && t !in done
    requires CountsAddedAll(tl, mid, s, p, ds, done, domain, stablefc)
    requires CountsAdded(mid, tl2, s, p, t, ds.values[t], domain, stablefc)
    ensures CountsAddedAll(tl, tl2, s, p, ds, done + [t], domain, stablefc)
  {
  }

  /** Testing one more dataset, for the "all" sets. */
  lemma AllAddedAllStep(tl: Tallies, mid: Tallies, tl2: Tallies, s: Search, idx: nat, p: Parameter, ds: Datasets, done: seq<string>, t: string,
                        multi: bool, domain: bool, stablefc: bool)
    requires t in ds.values
    requires AllAddedAll(tl, mid, s, idx, p, ds, done, multi, domain, stablefc)
    requires AllAdded(mid, tl2, s, idx, p, ds.values[t], multi, domain, stablefc)
    ensures AllAddedAll(tl, tl2, s, idx, p, ds, done + [t], multi, domain, stablefc)
  {
    forall e | e in tl.all
      ensures MatchesSome(s, p, ds, done + [t], e, domain, stablefc)
          <==> MatchesSome(s, p, ds, done, e, domain, stablefc) || MatchesAt(s, p, ds.values[t], e, domain, stablefc)
    {
      if MatchesSome(s, p, ds, done + [t], e, domain, stablefc) {
        var u :| u in done + [t] && u in ds.values && MatchesAt(s, p, ds.values[u], e, domain, stablefc);
      }
    }
  }

  /** The loop over the datasets for one parameter (index `idx`), with the parameter's `FC`
      flag cleared first. */
  method ScanParam(dom: Tallies, fc: Tallies, numFC: nat, idx: nat, p: Parameter, ds: Datasets,
                   multi: bool, domain: bool, stablefc: bool)
    returns (dom2: Tallies, fc2: Tallies, numFC2: nat)
    requires Valid(ds)
    requires dom.counts.Keys == ds.values.Keys && fc.counts.Keys == ds.values.Keys
    requires forall t :: t in ds.values ==> EpsSet(ds.values[t]) <= dom.counts[t].Keys && EpsSet(ds.values[t]) <= fc.counts[t].Keys
    requires multi ==> forall t :: t in ds.values ==> EpsSet(ds.values[t]) <= dom.all.Keys && EpsSet(ds.values[t]) <= fc.all.Keys
    ensures CountsAddedAll(dom, dom2, DomainSearch, p, ds, ds.keys, domain, stablefc)
    ensures AllAddedAll(dom, dom2, DomainSearch, idx, p, ds, ds.keys, multi, domain, stablefc)
    ensures CountsAddedAll(fc, fc2, StableFCSearch, p, ds, ds.keys, domain, stablefc)
    ensures AllAddedAll(fc, fc2, StableFCSearch, idx, p, ds, ds.keys, multi, domain, stablefc)
    ensures numFC2 == numFC + (if stablefc && HasStableFC(p, MorseGraphPoset) && SomePoset(ds) then 1 else 0)
  {
    dom2, fc2, numFC2 := dom, fc, numFC;
    var flag := false;
    for i := 0 to |ds.keys|
      invariant CountsAddedAll(dom, dom2, DomainSearch, p, ds, ds.keys[..i], domain, stablefc)
      invariant AllAddedAll(dom, dom2, DomainSearch, idx, p, ds, ds.keys[..i], multi, domain, stablefc)
      invariant CountsAddedAll(fc, fc2, StableFCSearch, p, ds, ds.keys[..i], domain, stablefc)
      invariant AllAddedAll(fc, fc2, StableFCSearch, idx, p, ds, ds.keys[..i], multi, domain, stablefc)
      invariant flag == (stablefc && HasStableFC(p, MorseGraphPoset) && exists u :: u in ds.keys[..i] && |ds.values[u]| > 0)
      invariant numFC2 == numFC + (if flag then 1 else 0)
    {
      var t := ds.keys[i];
      assert t !in ds.keys[..i];
      assert ds.keys[..i + 1] == ds.keys[..i] + [t];
      ghost var d0, f0, flag0 := dom2, fc2, flag;
      dom2, fc2, flag, numFC2 := ScanList(dom2, fc2, flag, numFC2, idx, p, t, ds.values[t], multi, domain, stablefc);
      CountsAddedAllStep(dom, d0, dom2, DomainSearch, p, ds, ds.keys[..i], t, domain, stablefc);
      AllAddedAllStep(dom, d0, dom2, DomainSearch, idx, p, ds, ds.keys[..i], t, multi, domain, stablefc);
      CountsAddedAllStep(fc, f0, fc2, StableFCSearch, p, ds, ds.keys[..i], t, domain, stablefc);
      AllAddedAllStep(fc, f0, fc2, StableFCSearch, idx, p, ds, ds.keys[..i], t, multi, domain, stablefc);
    }
    assert ds.keys[..|ds.keys|] == ds.keys;
  }

  /** One more parameter adds its hits to every counter. */
  lemma TallySnoc(s: Search, ps: seq<(nat, Parameter)>, i: nat, list: PosetList, eps: real, domain: bool, stablefc: bool)
    requires i < |ps|
    ensures Tally(s, ps[..i + 1], list, eps, domain, stablefc) == Tally(s, ps[..i], list, eps, domain, stablefc) + Hits(s, ps[i].1, list, eps, domain, stablefc)
  {
    assert ps[..i + 1][..i] == ps[..i];
  }

  /** One more parameter joins an "all" set exactly when it matches some dataset there. */
  lemma UnionSnoc(s: Search, ps: seq<(nat, Parameter)>, i: nat, ds: Datasets, eps: real, domain: bool, stablefc: bool)
    requires Valid(ds) && i < |ps|
    ensures Union(s, ps[..i + 1], ds, eps, domain, stablefc)
         == Union(s, ps[..i], ds, eps, domain, stablefc) + (if MatchesSome(s, ps[i].1, ds, ds.keys, eps, domain, stablefc) then {ps[i].0} else {})
  {
    var q1, q2 := ps[..i], ps[..i + 1];
    var u1, u2 := Union(s, q1, ds, eps, domain, stablefc), Union(s, q2, ds, eps, domain, stablefc);
    var m := MatchesSome(s, ps[i].1, ds, ds.keys, eps, domain, stablefc);
    forall x | x in u2 ensures x in u1 || (m && x == ps[i].0) {
      var k :| 0 <= k < |q2| && (exists t :: t in ds.values && MatchesAt(s, q2[k].1, ds.values[t], eps, domain, stablefc)) && q2[k].0 == x;
      var t :| t in ds.values && MatchesAt(s, q2[k].1, ds.values[t], eps, domain, stablefc);
      if k < i {
        assert q1[k] == q2[k];
      } else {
        assert t in ds.keys;
      }
    }
    forall x | x in u1 ensures x in u2 {
      var k :| 0 <= k < |q1| && (exists t :: t in ds.values && MatchesAt(s, q1[k].1, ds.values[t], eps, domain, stablefc)) && q1[k].0 == x;
      assert q2[k] == q1[k];
    }
    if m {
      var t :| t in ds.keys && t in ds.values && MatchesAt(s, ps[i].1, ds.values[t], eps, domain, stablefc);
      assert q2[i] == ps[i];
      assert ps[i].0 in u2;
    }
  }

  /** The loop over the datasets for parameter `ps[i]` extends the tallies of `ps[..i]` to those
      of `ps[..i + 1]`. */
  lemma HoldsStep(tl: Tallies, tl2: Tallies, s: Search, ps: seq<(nat, Parameter)>, i: nat, ds: Datasets, domain: bool, stablefc: bool)
    requires Valid(ds) && i < |ps|
    requires Holds(tl, s, ps[..i], ds, domain, stablefc)
    requires CountsAddedAll(tl, tl2, s, ps[i].1, ds, ds.keys, domain, stablefc)
    requires AllAddedAll(tl, tl2, s, ps[i].0, ps[i].1, ds, ds.keys, Multi(ds), domain, stablefc)
    ensures Holds(tl2, s, ps[..i + 1], ds, domain, stablefc)
  {
    forall t, e | t in ds.values && e in tl2.counts[t]
      ensures tl2.counts[t][e] == Tally(s, ps[..i + 1], ds.values[t], e, domain, stablefc)
    {
      TallySnoc(s, ps, i, ds.values[t], e, domain, stablefc);
    }
    if Multi(ds) {
      forall e | e in tl2.all
        ensures tl2.all[e] == Union(s, ps[..i + 1], ds, e, domain, stablefc)
      {
        UnionSnoc(s, ps, i, ds, e, domain, stablefc);
      }
    }
  }

  /** The loop nest of `PathMatches_with_count` over the parameters `ps` (index and parameter):
      the domain and stable full-cycle tallies, and `numFC`. */
  method Sweep(ps: seq<(nat, Parameter)>, ds: Datasets, domain: bool, stablefc: bool) returns (dom: Tallies, fc: Tallies, numFC: nat)
    requires Valid(ds) && SharedEps(ds)
    ensures Holds(dom, DomainSearch, ps, ds, domain, stablefc)
    ensures Holds(fc, StableFCSearch, ps, ds, domain, stablefc)
    ensures numFC == FCCount(ps, ds, stablefc)
  {
    dom := InitialTallies(ds);
    fc := InitialTallies(ds);
    numFC := 0;
    for i := 0 to |ps|
      invariant Holds(dom, DomainSearch, ps[..i], ds, domain, stablefc)
      invariant Holds(fc, StableFCSearch, ps[..i], ds, domain, stablefc)
      invariant numFC == FCCount(ps[..i], ds, stablefc)
    {
      assert ps[..i + 1][..i] == ps[..i];
      ghost var d0, f0 := dom, fc;
      dom, fc, numFC := ScanParam(dom, fc, numFC, ps[i].0, ps[i].1, ds, Multi(ds), domain, stablefc);
      HoldsStep(d0, dom, DomainSearch, ps, i, ds, domain, stablefc);
      HoldsStep(f0, fc, StableFCSearch, ps, i, ds, domain, stablefc);
    }
    assert ps[..|ps|] == ps;
  }

  /** Tallies that satisfy `Holds` are the specified ones. */
  lemma HoldsUnique(tl: Tallies, s: Search, ps: seq<(nat, Parameter)>, ds: Datasets, domain: bool, stablefc: bool)
    requires Valid(ds) && Holds(tl, s, ps, ds, domain, stablefc)
    ensures tl == SpecTallies(s, ps, ds, domain, stablefc)
  {
    var spec := SpecTallies(s, ps, ds, domain, stablefc);
    forall t | t in ds.values ensures tl.counts[t] == spec.counts[t] {
    }
    assert tl.counts == spec.counts;
    assert tl.all == spec.all;
  }

  // ---- the output ----

  /** An output row: `(eps, count, size)` for the domain search, `(eps, count, numFC, size)`
      for the stable full-cycle search. */
  datatype Row = CountRow(eps: real, count: nat, size: nat) | FCRow(eps: real, count: nat, numFC: nat, size: nat)

  /** Rows per dataset name, in the order of the datasets, with "all" last when it is new. */
  type Table = Dict<string, seq<Row>>

  /** The row for noise level `eps`; `numFC` is present for the stable full-cycle search. */
  function MakeRow(eps: real, count: nat, numFC: Option<nat>, size: nat): Row {
    if numFC.Some? then FCRow(eps, count, numFC.value, size) else CountRow(eps, count, size)
  }

  /** One dataset's rows, one per noise level in `keys` and in that order. */
  function RowsFor(keys: seq<real>, counts: map<real, nat>, numFC: Option<nat>, size: nat): (rows: seq<Row>)
    requires forall e :: e in keys ==> e in counts
    ensures |rows| == |keys|
    ensures forall k :: 0 <= k < |keys| ==> rows[k] == MakeRow(keys[k], counts[keys[k]], numFC, size)
  {
    seq(|keys|, k requires 0 <= k < |keys| => MakeRow(keys[k], counts[keys[k]], numFC, size))
  }

  /** The size of every "all" set. */
  function Sizes(all: map<real, set<nat>>): (m: map<real, nat>)
    ensures m.Keys == all.Keys
    ensures forall e :: e in all ==> m[e] == |all[e]|
  {
    map e | e in all :: |all[e]|
  }

  /** The tallies as the result dictionary: per dataset its rows and, with several datasets, the
      "all" rows (the sizes of the "all" sets) at the first dataset's noise levels. */
  function MakeTable(ds: Datasets, tl: Tallies, numFC: Option<nat>, size: nat): (r: Table)
    requires Valid(ds) && TallyShape(tl, ds)
    ensures Valid(r)
    ensures r.keys == if Multi(ds) && "all" !in ds.values then ds.keys + ["all"] else ds.keys
    ensures forall t :: t in ds.values && !(Multi(ds) && t == "all") ==>
      t in r.values && r.values[t] == RowsFor(EpsKeys(ds.values[t]), tl.counts[t], numFC, size)
    ensures Multi(ds) ==> "all" in r.values && r.values["all"] == RowsFor(EpsKeys(ds.values[ds.keys[0]]), Sizes(tl.all), numFC, size)
  {
    var base := Dict(ds.keys, map t | t in ds.values :: RowsFor(EpsKeys(ds.values[t]), tl.counts[t], numFC, size));
    if Multi(ds) then Put(base, "all", RowsFor(EpsKeys(ds.values[ds.keys[0]]), Sizes(tl.all), numFC, size)) else base
  }

  /** The parameters of a parameter graph with their indices, in index order. */
  function Indexed(params: seq<Parameter>): (ps: seq<(nat, Parameter)>)
    ensures |ps| == |params|
    ensures forall k :: 0 <= k < |params| ==> ps[k] == (k, params[k])
    ensures DistinctIndices(ps)
  {
    seq(|params|, k requires 0 <= k < |params| => (k, params[k]))
  }

  /** `PathMatches_with_count`: every parameter of the network's parameter graph is tested
      against every poset of every dataset. */
  method PathMatchesWithCount(net: Network, ds: Datasets, domain: bool, stablefc: bool) returns (dommatches: Table, fcmatches: Table)
    requires Valid(ds) && SharedEps(ds)
    ensures dommatches == MakeTable(ds, SpecTallies(DomainSearch, Indexed(net.params), ds, domain, stablefc), None, net.Size())
    ensures fcmatches == MakeTable(ds, SpecTallies(StableFCSearch, Indexed(net.params), ds, domain, stablefc),
                                   Some(FCCount(Indexed(net.params), ds, stablefc)), net.Size())
  {
    var dom, fc, numFC := Sweep(Indexed(net.params), ds, domain, stablefc);
    HoldsUnique(dom, DomainSearch, Indexed(net.params), ds, domain, stablefc);
    HoldsUnique(fc, StableFCSearch, Indexed(net.params), ds, domain, stablefc);
    dommatches := MakeTable(ds, dom, None, net.Size());
    fcmatches := MakeTable(ds, fc, Some(numFC), net.Size());
  }

  /** `PathMatches_with_count_stablefc_only`: only the parameters `fcParams` that the database
      query reports as having a stable full cycle are tested, for stable full-cycle matches alone;
      their number takes the place of `numFC`. */
  method PathMatchesStableFCOnly(net: Network, ds: Datasets, fcParams: seq<nat>) returns (dommatches: Table, fcmatches: Table)
    requires Valid(ds) && SharedEps(ds)
    requires forall k :: 0 <= k < |fcParams| ==> fcParams[k] < |net.params|
    ensures dommatches == Empty()
    ensures fcmatches == MakeTable(ds, SpecTallies(StableFCSearch, Selected(net.params, fcParams), ds, false, true),
                                   Some(|fcParams|), net.Size())
  {
    var dom, fc, numFC := Sweep(Selected(net.params, fcParams), ds, false, true);
    HoldsUnique(fc, StableFCSearch, Selected(net.params, fcParams), ds, false, true);
    dommatches := Empty();
    fcmatches := MakeTable(ds, fc, Some(|fcParams|), net.Size());
  }

  /** The parameters at the indices `indices`, with their indices, in that order. */
  function Selected(params: seq<Parameter>, indices: seq<nat>): (ps: seq<(nat, Parameter)>)
    requires forall k :: 0 <= k < |indices| ==> indices[k] < |params|
    ensures |ps| == |indices|
    ensures forall k :: 0 <= k < |indices| ==> ps[k] == (indices[k], params[indices[k]])
  {
    seq(|indices|, k requires 0 <= k < |indices| => (indices[k], params[indices[k]]))
  }

  // ---- properties of the counts ----

  /** A parameter raises a counter exactly when it matches some pair at that noise level, and at
      most once when the dataset has each noise level once. */
  lemma {:induction false} HitsMatches(s: Search, p: Parameter, list: PosetList, eps: real, domain: bool, stablefc: bool)
    ensures Hits(s, p, list, eps, domain, stablefc) > 0 <==> MatchesAt(s, p, list, eps, domain, stablefc)
    ensures DistinctEps(list) ==> Hits(s, p, list, eps, domain, stablefc) <= 1
  {
    if list != [] {
      var n := |list| - 1;
      var init := list[..n];
      HitsMatches(s, p, init, eps, domain, stablefc);
      MatchesAtSnoc(s, p, list, n, eps, domain, stablefc);
      assert list[..n + 1] == list;
      if DistinctEps(list) && list[n].0 == eps {
        forall j | 0 <= j < |init| ensures init[j].0 != eps {
          assert init[j] == list[j];
        }
      }
    }
  }

  /** With the same poset twice at one noise level, a matching parameter is counted twice there. */
  lemma DuplicateEpsCountsTwice(s: Search, p: Parameter, eps: real, pos: Poset, domain: bool, stablefc: bool)
    requires Counted(s, p, pos, domain, stablefc)
    ensures Hits(s, p, [(eps, pos), (eps, pos)], eps, domain, stablefc) == 2
  {
    var list := [(eps, pos), (eps, pos)];
    assert list[..1][..0] == [];
    assert Hits(s, p, list[..1], eps, domain, stablefc) == 1;
  }

  /** The indices of the parameters among `ps` that match dataset `list` at `eps`. */
  ghost function MatchSet(s: Search, ps: seq<(nat, Parameter)>, list: PosetList, eps: real, domain: bool, stablefc: bool): set<nat> {
    set k | 0 <= k < |ps| && MatchesAt(s, ps[k].1, list, eps, domain, stablefc) :: ps[k].0
  }

  /** No parameter index is evaluated twice. */
  predicate DistinctIndices(ps: seq<(nat, Parameter)>) {
    forall i, j :: 0 <= i < j < |ps| ==> ps[i].0 != ps[j].0
  }

  /** With distinct indices and each noise level once per dataset, a counter is the number of
      parameters that match the dataset there. */
  lemma {:induction false} TallyCountsMatches(s: Search, ps: seq<(nat, Parameter)>, list: PosetList, eps: real, domain: bool, stablefc: bool)
    requires DistinctIndices(ps) && DistinctEps(list)
    ensures Tally(s, ps, list, eps, domain, stablefc) == |MatchSet(s, ps, list, eps, domain, stablefc)|
  {
    if ps != [] {
      var n := |ps| - 1;
      var init := ps[..n];
      TallyCountsMatches(s, init, list, eps, domain, stablefc);
      HitsMatches(s, ps[n].1, list, eps, domain, stablefc);
      MatchSetSnoc(s, ps, list, eps, domain, stablefc);
    }
  }

  /** One more parameter, with an index not seen before, joins the match set when it matches. */
  lemma MatchSetSnoc(s: Search, ps: seq<(nat, Parameter)>, list: PosetList, eps: real, domain: bool, stablefc: bool)
    requires ps != [] && DistinctIndices(ps)
    ensures var n := |ps| - 1;
      && ps[n].0 !in MatchSet(s, ps[..n], list, eps, domain, stablefc)
      && MatchSet(s, ps, list, eps, domain, stablefc)
         == MatchSet(s, ps[..n], list, eps, domain, stablefc)
            + (if MatchesAt(s, ps[n].1, list, eps, domain, stablefc) then {ps[n].0} else {})
  {
    var n := |ps| - 1;
    var init := ps[..n];
    var m0, m := MatchSet(s, init, list, eps, domain, stablefc), MatchSet(s, ps, list, eps, domain, stablefc);
    var hit := MatchesAt(s, ps[n].1, list, eps, domain, stablefc);
    forall k | 0 <= k < |init| ensures init[k].0 != ps[n].0 {
      assert init[k] == ps[k];
    }
    forall x | x in m ensures x in m0 || (hit && x == ps[n].0) {
      var k :| 0 <= k < |ps| && MatchesAt(s, ps[k].1, list, eps, domain, stablefc) && ps[k].0 == x;
      if k < n {
        assert init[k] == ps[k];
      }
    }
    forall x | x in m0 ensures x in m {
      var k :| 0 <= k < |init| && MatchesAt(s, init[k].1, list, eps, domain, stablefc) && init[k].0 == x;
      assert ps[k] == init[k];
    }
  }

  /** Each noise level once per dataset: every counter is at most the number of parameters
      evaluated. */
  lemma {:induction false} TallyAtMostEvaluated(s: Search, ps: seq<(nat, Parameter)>, list: PosetList, eps: real, domain: bool, stablefc: bool)
    requires DistinctEps(list)
    ensures Tally(s, ps, list, eps, domain, stablefc) <= |ps|
  {
    if ps != [] {
      TallyAtMostEvaluated(s, ps[..|ps| - 1], list, eps, domain, stablefc);
      HitsMatches(s, ps[|ps| - 1].1, list, eps, domain, stablefc);
    }
  }

  /** When both searches run, a stable full-cycle match is also a domain match, so no stable
      full-cycle counter exceeds its domain counter. */
  lemma {:induction false} FCAtMostDomain(ps: seq<(nat, Parameter)>, list: PosetList, eps: real, stablefc: bool)
    ensures Tally(StableFCSearch, ps, list, eps, true, stablefc) <= Tally(DomainSearch, ps, list, eps, true, stablefc)
  {
    if ps != [] {
      FCAtMostDomain(ps[..|ps| - 1], list, eps, stablefc);
      HitsFCAtMostDomain(ps[|ps| - 1].1, list, eps, stablefc);
    }
  }

  lemma {:induction false} HitsFCAtMostDomain(p: Parameter, list: PosetList, eps: real, stablefc: bool)
    ensures Hits(StableFCSearch, p, list, eps, true, stablefc) <= Hits(DomainSearch, p, list, eps, true, stablefc)
  {
    if list != [] {
      HitsFCAtMostDomain(p, list[..|list| - 1], eps, stablefc);
    }
  }

  /** A parameter with a stable full-cycle match at some pair has a stable full cycle, so no
      stable full-cycle counter of a dataset with each noise level once exceeds `numFC`. */
  lemma {:induction false} FCMatchesAtMostNumFC(ps: seq<(nat, Parameter)>, ds: Datasets, t: string, eps: real, domain: bool, stablefc: bool)
    requires t in ds.values && DistinctEps(ds.values[t])
    ensures Tally(StableFCSearch, ps, ds.values[t], eps, domain, stablefc) <= FCCount(ps, ds, stablefc)
  {
    if ps != [] {
      var p := ps[|ps| - 1].1;
      FCMatchesAtMostNumFC(ps[..|ps| - 1], ds, t, eps, domain, stablefc);
      HitsMatches(StableFCSearch, p, ds.values[t], eps, domain, stablefc);
      if Hits(StableFCSearch, p, ds.values[t], eps, domain, stablefc) > 0 {
        var j :| 0 <= j < |ds.values[t]| && ds.values[t][j].0 == eps && Counted(StableFCSearch, p, ds.values[t][j].1, domain, stablefc);
        StableFCPathMatchHasFC(p, ds.values[t][j].1, MorseGraphPoset);
      }
    }
  }

  /** The "all" set at a noise level holds every parameter counted for any one dataset there, no
      more parameters than were evaluated, and no more than the datasets' counters there add up to. */
  lemma UnionBounds(s: Search, ps: seq<(nat, Parameter)>, ds: Datasets, t: string, eps: real, domain: bool, stablefc: bool)
    requires Valid(ds) && t in ds.values
    requires DistinctIndices(ps) && DistinctEps(ds.values[t])
    ensures Tally(s, ps, ds.values[t], eps, domain, stablefc) <= |Union(s, ps, ds, eps, domain, stablefc)| <= |ps|
    ensures |Union(s, ps, ds, eps, domain, stablefc)| <= TallySum(s, ps, ds, ds.keys, eps, domain, stablefc)
  {
    UnionAtMostSum(s, ps, ds, eps, domain, stablefc);
    TallyCountsMatches(s, ps, ds.values[t], eps, domain, stablefc);
    var m, u := MatchSet(s, ps, ds.values[t], eps, domain, stablefc), Union(s, ps, ds, eps, domain, stablefc);
    assert m <= u;
    SubsetSize(m, u);
    IndexImageSize(ps, u);
  }

  lemma SubsetSize(a: set<nat>, b: set<nat>)
    requires a <= b
    ensures |a| <= |b|
  {
    assert b == a + (b - a);
  }

  /** A set of indices taken from `ps` has at most `|ps|` elements. */
  lemma {:induction false} IndexImageSize(ps: seq<(nat, Parameter)>, u: set<nat>)
    requires forall x :: x in u ==> exists k :: 0 <= k < |ps| && ps[k].0 == x
    ensures |u| <= |ps|
  {
    if ps == [] {
      assert u == {};
    } else {
      var n := |ps| - 1;
      var rest := u - {ps[n].0};
      forall x | x in rest ensures exists k :: 0 <= k < |ps[..n]| && ps[..n][k].0 == x {
        var k :| 0 <= k < |ps| && ps[k].0 == x;
        assert k < n && ps[..n][k] == ps[k];
      }
      IndexImageSize(ps[..n], rest);
      assert u <= rest + {ps[n].0};
      SubsetSize(u, rest + {ps[n].0});
    }
  }

  /** The sum over the datasets `keys` of their counters at noise level `eps`. */
  function TallySum(s: Search, ps: seq<(nat, Parameter)>, ds: Datasets, keys: seq<string>, eps: real, domain: bool, stablefc: bool): nat
    requires forall i :: 0 <= i < |keys| ==> keys[i] in ds.values
  {
    if keys == [] then 0
    else TallySum(s, ps, ds, keys[..|keys| - 1], eps, domain, stablefc) + Tally(s, ps, ds.values[keys[|keys| - 1]], eps, domain, stablefc)
  }

  /** The indices matching at `eps` some dataset among `keys`. */
  ghost function MatchUnion(s: Search, ps: seq<(nat, Parameter)>, ds: Datasets, keys: seq<string>, eps: real, domain: bool, stablefc: bool): set<nat>
    requires forall i :: 0 <= i < |keys| ==> keys[i] in ds.values
  {
    if keys == [] then {}
    else MatchUnion(s, ps, ds, keys[..|keys| - 1], eps, domain, stablefc) + MatchSet(s, ps, ds.values[keys[|keys| - 1]], eps, domain, stablefc)
  }

  /** A counter is at least the number of distinct indices that match there, whatever repeats
      the indices or the noise levels hold. */
  lemma {:induction false} MatchSetAtMostTally(s: Search, ps: seq<(nat, Parameter)>, list: PosetList, eps: real, domain: bool, stablefc: bool)
    ensures |MatchSet(s, ps, list, eps, domain, stablefc)| <= Tally(s, ps, list, eps, domain, stablefc)
  {
    if ps != [] {
      var n := |ps| - 1;
      var init := ps[..n];
      MatchSetAtMostTally(s, init, list, eps, domain, stablefc);
      HitsMatches(s, ps[n].1, list, eps, domain, stablefc);
      var m0, m := MatchSet(s, init, list, eps, domain, stablefc), MatchSet(s, ps, list, eps, domain, stablefc);
      var extra: set<nat> := if MatchesAt(s, ps[n].1, list, eps, domain, stablefc) then {ps[n].0} else {};
      forall x | x in m ensures x in m0 + extra {
        var k :| 0 <= k < |ps| && MatchesAt(s, ps[k].1, list, eps, domain, stablefc) && ps[k].0 == x;
        if k < n {
          assert init[k] == ps[k];
        }
      }
      SubsetSize(m, m0 + extra);
    }
  }

  /** The union of the match sets is at most the sum of the counters. */
  lemma {:induction false} MatchUnionAtMostSum(s: Search, ps: seq<(nat, Parameter)>, ds: Datasets, keys: seq<string>, eps: real, domain: bool, stablefc: bool)
    requires forall i :: 0 <= i < |keys| ==> keys[i] in ds.values
    ensures |MatchUnion(s, ps, ds, keys, eps, domain, stablefc)| <= TallySum(s, ps, ds, keys, eps, domain, stablefc)
  {
    if keys != [] {
      var n := |keys| - 1;
      MatchUnionAtMostSum(s, ps, ds, keys[..n], eps, domain, stablefc);
      MatchSetAtMostTally(s, ps, ds.values[keys[n]], eps, domain, stablefc);
      var a, b := MatchUnion(s, ps, ds, keys[..n], eps, domain, stablefc), MatchSet(s, ps, ds.values[keys[n]], eps, domain, stablefc);
      assert |a + b| + |a * b| == |a| + |b|;
    }
  }

  /** An index is in the union iff it matches some dataset among `keys`. */
  lemma {:induction false} MatchUnionMeaning(s: Search, ps: seq<(nat, Parameter)>, ds: Datasets, keys: seq<string>, eps: real, domain: bool, stablefc: bool, x: nat)
    requires forall i :: 0 <= i < |keys| ==> keys[i] in ds.values
    ensures x in MatchUnion(s, ps, ds, keys, eps, domain, stablefc)
        <==> exists i :: 0 <= i < |keys| && x in MatchSet(s, ps, ds.values[keys[i]], eps, domain, stablefc)
  {
    if keys != [] {
      var n := |keys| - 1;
      MatchUnionMeaning(s, ps, ds, keys[..n], eps, domain, stablefc, x);
      if exists i :: 0 <= i < |keys| && x in MatchSet(s, ps, ds.values[keys[i]], eps, domain, stablefc) {
        var i :| 0 <= i < |keys| && x in MatchSet(s, ps, ds.values[keys[i]], eps, domain, stablefc);
        if i < n {
          assert keys[..n][i] == keys[i];
        }
      }
      if exists i :: 0 <= i < n && x in MatchSet(s, ps, ds.values[keys[..n][i]], eps, domain, stablefc) {
        var i :| 0 <= i < n && x in MatchSet(s, ps, ds.values[keys[..n][i]], eps, domain, stablefc);
        assert keys[..n][i] == keys[i];
      }
    }
  }

  /** The "all" set at a noise level is at most the sum of the datasets' counters there: a
      parameter matching several datasets is counted once in it but once per dataset in the sum. */
  lemma UnionAtMostSum(s: Search, ps: seq<(nat, Parameter)>, ds: Datasets, eps: real, domain: bool, stablefc: bool)
    requires Valid(ds)
    ensures |Union(s, ps, ds, eps, domain, stablefc)| <= TallySum(s, ps, ds, ds.keys, eps, domain, stablefc)
  {
    var u, mu := Union(s, ps, ds, eps, domain, stablefc), MatchUnion(s, ps, ds, ds.keys, eps, domain, stablefc);
    forall x | x in u ensures x in mu {
      var k, t :| 0 <= k < |ps| && t in ds.values && MatchesAt(s, ps[k].1, ds.values[t], eps, domain, stablefc) && ps[k].0 == x;
      var i :| 0 <= i < |ds.keys| && ds.keys[i] == t;
      assert x in MatchSet(s, ps, ds.values[ds.keys[i]], eps, domain, stablefc);
      MatchUnionMeaning(s, ps, ds, ds.keys, eps, domain, stablefc, x);
    }
    MatchUnionAtMostSum(s, ps, ds, ds.keys, eps, domain, stablefc);
    SubsetSize(u, mu);
  }
}
