/** Existence mode of the `CountPatternMatch_DB` query (`PathMatches_without_count`).

    Instead of counters there is a flag per (dataset, epsilon) and search, raised by the first
    parameter that matches there; a raised flag is not tested again, and the sweep over the
    parameters stops as soon as every flag of both searches is raised. */
module PatternDbExists {
  import opened Dsgrn
  import opened Dicts
  import opened PosetTables
  import opened PatternChecks
  import opened PatternDbCount

  /** Whether the flag of search `s` is raised for parameter `p` and the pattern built from
      `pos`.  Unlike the count mode, a stable full-cycle match does not raise the domain flag. */
  predicate Found(s: Search, p: Parameter, pos: Poset, domain: bool, stablefc: bool) {
    match s
    case DomainSearch => domain && DomainMatch(p, pos)
    case StableFCSearch => stablefc && FCMatch(p, pos)
  }

  /** Some pair of `list` at noise level `eps` has a poset that `p` matches. */
  function FoundAt(s: Search, p: Parameter, list: PosetList, eps: real, domain: bool, stablefc: bool): bool {
    list != [] &&
    (FoundAt(s, p, list[..|list| - 1], eps, domain, stablefc)
     || (list[|list| - 1].0 == eps && Found(s, p, list[|list| - 1].1, domain, stablefc)))
  }

  /** Some parameter among `ps` matches some pair of `list` at noise level `eps`. */
  function FoundBy(s: Search, ps: seq<Parameter>, list: PosetList, eps: real, domain: bool, stablefc: bool): bool {
    ps != [] &&
    (FoundBy(s, ps[..|ps| - 1], list, eps, domain, stablefc) || FoundAt(s, ps[|ps| - 1], list, eps, domain, stablefc))
  }

  lemma {:induction false} FoundAtIff(s: Search, p: Parameter, list: PosetList, eps: real, domain: bool, stablefc: bool)
    ensures FoundAt(s, p, list, eps, domain, stablefc)
        <==> exists j :: 0 <= j < |list| && list[j].0 == eps && Found(s, p, list[j].1, domain, stablefc)
  {
    if list != [] {
      var n := |list| - 1;
      var init := list[..n];
      FoundAtIff(s, p, init, eps, domain, stablefc);
      if exists j :: 0 <= j < |list| && list[j].0 == eps && Found(s, p, list[j].1, domain, stablefc) {
        var j :| 0 <= j < |list| && list[j].0 == eps && Found(s, p, list[j].1, domain, stablefc);
        if j < n {
          assert init[j] == list[j];
        }
      }
      if FoundAt(s, p, init, eps, domain, stablefc) {
        var j :| 0 <= j < |init| && init[j].0 == eps && Found(s, p, init[j].1, domain, stablefc);
        assert list[j] == init[j];
      }
    }
  }

  /** A flag ends raised exactly when some parameter matches some pair at its noise level. */
  lemma {:induction false} FoundByIff(s: Search, ps: seq<Parameter>, list: PosetList, eps: real, domain: bool, stablefc: bool)
    ensures FoundBy(s, ps, list, eps, domain, stablefc)
        <==> exists k :: 0 <= k < |ps| && FoundAt(s, ps[k], list, eps, domain, stablefc)
  {
    if ps != [] {
      var n := |ps| - 1;
      var init := ps[..n];
      FoundByIff(s, init, list, eps, domain, stablefc);
      if exists k :: 0 <= k < |ps| && FoundAt(s, ps[k], list, eps, domain, stablefc) {
        var k :| 0 <= k < |ps| && FoundAt(s, ps[k], list, eps, domain, stablefc);
        if k < n {
          assert init[k] == ps[k];
        }
      }
      if FoundBy(s, init, list, eps, domain, stablefc) {
        var k :| 0 <= k < |init| && FoundAt(s, init[k], list, eps, domain, stablefc);
        assert ps[k] == init[k];
      }
    }
  }

  /** A raised flag stays raised: what the first parameters find, all of them find. */
  lemma {:induction false} FoundByPrefix(s: Search, ps: seq<Parameter>, i: nat, list: PosetList, eps: real, domain: bool, stablefc: bool)
    requires i <= |ps|
    requires FoundBy(s, ps[..i], list, eps, domain, stablefc)
    ensures FoundBy(s, ps, list, eps, domain, stablefc)
  {
    if i < |ps| {
      var n := |ps| - 1;
      assert ps[..n][..i] == ps[..i];
      FoundByPrefix(s, ps[..n], i, list, eps, domain, stablefc);
    } else {
      assert ps[..i] == ps;
    }
  }

  /** The flags per dataset and noise level. */
  type Flags = map<string, map<real, bool>>

  /** A flag per dataset and noise level. */
  predicate FlagShape(f: Flags, ds: Datasets) {
    f.Keys == ds.values.Keys && forall t :: t in ds.values ==> f[t].Keys == EpsSet(ds.values[t])
  }

  /** The flags of search `s` are those after the parameters `ps`. */
  ghost predicate FlagsHold(f: Flags, s: Search, ps: seq<Parameter>, ds: Datasets, domain: bool, stablefc: bool) {
    && FlagShape(f, ds)
    && forall t, e :: t in ds.values && e in f[t] ==> f[t][e] == FoundBy(s, ps, ds.values[t], e, domain, stablefc)
  }

  /** The flags after the parameters `ps`, as a value. */
  function SpecFlags(s: Search, ps: seq<Parameter>, ds: Datasets, domain: bool, stablefc: bool): (f: Flags)
    ensures FlagsHold(f, s, ps, ds, domain, stablefc)
  {
    map t | t in ds.values :: map e | e in EpsSet(ds.values[t]) :: FoundBy(s, ps, ds.values[t], e, domain, stablefc)
  }

  /** Flags that satisfy `FlagsHold` are the specified ones. */
  lemma FlagsUnique(f: Flags, s: Search, ps: seq<Parameter>, ds: Datasets, domain: bool, stablefc: bool)
    requires FlagsHold(f, s, ps, ds, domain, stablefc)
    ensures f == SpecFlags(s, ps, ds, domain, stablefc)
  {
    var spec := SpecFlags(s, ps, ds, domain, stablefc);
    forall t | t in ds.values ensures f[t] == spec[t] {
    }
  }

  /** Every flag down. */
  function InitialFlags(ds: Datasets): (f: Flags)
    ensures forall s, domain, stablefc :: FlagsHold(f, s, [], ds, domain, stablefc)
  {
    map t | t in ds.values :: map e | e in EpsSet(ds.values[t]) :: false
  }

  /** `f2` is `f` after parameter `p` has been tested against the pairs `list` of dataset `t`. */
  ghost predicate FlagsAdded(f: Flags, f2: Flags, s: Search, p: Parameter, t: string, list: PosetList, domain: bool, stablefc: bool) {
    && t in f
    && f2.Keys == f.Keys
    && (forall u :: u in f && u != t ==> f2[u] == f[u])
    && f2[t].Keys == f[t].Keys
    && (forall e :: e in f[t] ==> f2[t][e] == (f[t][e] || FoundAt(s, p, list, e, domain, stablefc)))
  }

  /** Testing one more pair: only its own flag changes, and it is raised when the pair matches. */
  lemma FlagsStep(f: Flags, mid: Flags, f2: Flags, s: Search, p: Parameter, t: string, list: PosetList, j: nat, domain: bool, stablefc: bool)
    requires j < |list|
    requires FlagsAdded(f, mid, s, p, t, list[..j], domain, stablefc)
    requires f2.Keys == mid.Keys && (forall u :: u in mid && u != t ==> f2[u] == mid[u])
    requires f2[t].Keys == mid[t].Keys && (forall e :: e in mid[t] && e != list[j].0 ==> f2[t][e] == mid[t][e])
    requires list[j].0 in mid[t] && f2[t][list[j].0] == (mid[t][list[j].0] || Found(s, p, list[j].1, domain, stablefc))
    ensures FlagsAdded(f, f2, s, p, t, list[..j + 1], domain, stablefc)
  {
    assert list[..j + 1][..j] == list[..j];
  }

  /** The loop over the pairs of dataset `t` for one parameter; a raised flag is not tested. */
  method ScanFlags(domf: Flags, fcf: Flags, p: Parameter, t: string, list: PosetList, domain: bool, stablefc: bool)
    returns (domf2: Flags, fcf2: Flags)
    requires t in domf && EpsSet(list) <= domf[t].Keys
    requires t in fcf && EpsSet(list) <= fcf[t].Keys
    ensures FlagsAdded(domf, domf2, DomainSearch, p, t, list, domain, stablefc)
    ensures FlagsAdded(fcf, fcf2, StableFCSearch, p, t, list, domain, stablefc)
  {
    domf2, fcf2 := domf, fcf;
    for j := 0 to |list|
      invariant FlagsAdded(domf, domf2, DomainSearch, p, t, list[..j], domain, stablefc)
      invariant FlagsAdded(fcf, fcf2, StableFCSearch, p, t, list[..j], domain, stablefc)
    {
      var (eps, pos) := list[j];
      assert eps in EpsSet(list);
      ghost var dmid, fmid := domf2, fcf2;
      if domain && !domf2[t][eps] {
        var dommatch := p.domainPath(pos);
        if dommatch {
          domf2 := domf2[t := domf2[t][eps := true]];
        }
      }
      if stablefc && !fcf2[t][eps] {
        var stabmatch, _ := StableFCCheck(p, pos, MorseGraphPoset);
        if stabmatch {
          fcf2 := fcf2[t := fcf2[t][eps := true]];
        }
      }
      FlagsStep(domf, dmid, domf2, DomainSearch, p, t, list, j, domain, stablefc);
      FlagsStep(fcf, fmid, fcf2, StableFCSearch, p, t, list, j, domain, stablefc);
    }
    assert list[..|list|] == list;
  }

  /** `f2` is `f` after parameter `p` has been tested against the datasets `done`. */
  ghost predicate FlagsAddedAll(f: Flags, f2: Flags, s: Search, p: Parameter, ds: Datasets, done: seq<string>, domain: bool, stablefc: bool) {
    && f2.Keys == f.Keys
    && (forall t :: t in f ==> f2[t].Keys == f[t].Keys)
    && (forall t, e :: t in f && e in f[t] ==>
         f2[t][e] == (f[t][e] || (t in done && t in ds.values && FoundAt(s, p, ds.values[t], e, domain, stablefc))))
  }

  /** Testing one more dataset. */
  lemma FlagsAddedAllStep(f: Flags, mid: Flags, f2: Flags, s: Search, p: Parameter, ds: Datasets, done: seq<string>, t: string,
                          domain: bool, stablefc: bool)
    requires t in ds.values && t !in done
    requires FlagsAddedAll(f, mid, s, p, ds, done, domain, stablefc)
    requires FlagsAdded(mid, f2, s, p, t, ds.values[t], domain, stablefc)
    ensures FlagsAddedAll(f, f2, s, p, ds, done + [t], domain, stablefc)
  {
  }

  /** The loop over the datasets for one parameter. */
  method ScanParamFlags(domf: Flags, fcf: Flags, p: Parameter, ds: Datasets, domain: bool, stablefc: bool)
    returns (domf2: Flags, fcf2: Flags)
    requires Valid(ds) && FlagShape(domf, ds) && FlagShape(fcf, ds)
    ensures FlagsAddedAll(domf, domf2, DomainSearch, p, ds, ds.keys, domain, stablefc)
    ensures FlagsAddedAll(fcf, fcf2, StableFCSearch, p, ds, ds.keys, domain, stablefc)
  {
    domf2, fcf2 := domf, fcf;
    for i := 0 to |ds.keys|
      invariant FlagsAddedAll(domf, domf2, DomainSearch, p, ds, ds.keys[..i], domain, stablefc)
      invariant FlagsAddedAll(fcf, fcf2, StableFCSearch, p, ds, ds.keys[..i], domain, stablefc)
    {
      var t := ds.keys[i];
      assert t !in ds.keys[..i];
      assert ds.keys[..i + 1] == ds.keys[..i] + [t];
      ghost var d0, f0 := domf2, fcf2;
      domf2, fcf2 := ScanFlags(domf2, fcf2, p, t, ds.values[t], domain, stablefc);
      FlagsAddedAllStep(domf, d0, domf2, DomainSearch, p, ds, ds.keys[..i], t, domain, stablefc);
      FlagsAddedAllStep(fcf, f0, fcf2, StableFCSearch, p, ds, ds.keys[..i], t, domain, stablefc);
    }
    assert ds.keys[..|ds.keys|] == ds.keys;
  }

  /** The loop over the datasets for parameter `ps[i]` extends the flags of `ps[..i]` to those of
      `ps[..i + 1]`. */
  lemma FlagsHoldStep(f: Flags, f2: Flags, s: Search, ps: seq<Parameter>, i: nat, ds: Datasets, domain: bool, stablefc: bool)
    requires Valid(ds) && i < |ps|
    requires FlagsHold(f, s, ps[..i], ds, domain, stablefc)
    requires FlagsAddedAll(f, f2, s, ps[i], ds, ds.keys, domain, stablefc)
    ensures FlagsHold(f2, s, ps[..i + 1], ds, domain, stablefc)
  {
    assert ps[..i + 1][..i] == ps[..i];
  }

  /** Every flag of both searches is raised. */
  predicate Complete(ds: Datasets, domf: Flags, fcf: Flags)
    requires FlagShape(domf, ds) && FlagShape(fcf, ds)
  {
    forall t, j :: t in ds.values && 0 <= j < |ds.values[t]| ==> domf[t][ds.values[t][j].0] && fcf[t][ds.values[t][j].0]
  }

  /** `all([flags[str(eps[0])] for eps in poset_list])`. */
  predicate AllRaised(list: PosetList, flags: map<real, bool>)
    requires EpsSet(list) <= flags.Keys
  {
    forall j :: 0 <= j < |list| ==> flags[list[j].0]
  }

  /** The test after each parameter: `b` stays true while every dataset has every flag of both
      searches raised. */
  method AllFound(ds: Datasets, domf: Flags, fcf: Flags) returns (b: bool)
    requires Valid(ds) && FlagShape(domf, ds) && FlagShape(fcf, ds)
    ensures b == Complete(ds, domf, fcf)
  {
    b := true;
    for i := 0 to |ds.keys|
      invariant b == forall t, j :: t in ds.keys[..i] && 0 <= j < |ds.values[t]| ==> domf[t][ds.values[t][j].0] && fcf[t][ds.values[t][j].0]
    {
      var t := ds.keys[i];
      assert ds.keys[..i + 1] == ds.keys[..i] + [t];
      b := b && AllRaised(ds.values[t], domf[t]);
      b := b && AllRaised(ds.values[t], fcf[t]);
    }
    assert ds.keys[..|ds.keys|] == ds.keys;
  }

  /** Once every flag is raised, the remaining parameters change nothing. */
  lemma CompleteFinal(domf: Flags, fcf: Flags, ps: seq<Parameter>, i: nat, ds: Datasets, domain: bool, stablefc: bool)
    requires i <= |ps|
    requires FlagsHold(domf, DomainSearch, ps[..i], ds, domain, stablefc)
    requires FlagsHold(fcf, StableFCSearch, ps[..i], ds, domain, stablefc)
    requires Complete(ds, domf, fcf)
    ensures FlagsHold(domf, DomainSearch, ps, ds, domain, stablefc)
    ensures FlagsHold(fcf, StableFCSearch, ps, ds, domain, stablefc)
  {
    forall t, e | t in ds.values && e in domf[t]
      ensures FoundBy(DomainSearch, ps, ds.values[t], e, domain, stablefc)
      ensures FoundBy(StableFCSearch, ps, ds.values[t], e, domain, stablefc)
    {
      var j :| 0 <= j < |ds.values[t]| && ds.values[t][j].0 == e;
      FoundByPrefix(DomainSearch, ps, i, ds.values[t], e, domain, stablefc);
      FoundByPrefix(StableFCSearch, ps, i, ds.values[t], e, domain, stablefc);
    }
  }

  /** An output row `(eps, found, size)`. */
  datatype FoundRow = FoundRow(eps: real, found: bool, size: nat)

  /** Rows per dataset name, in the order of the datasets. */
  type FoundTable = Dict<string, seq<FoundRow>>

  /** `format`: per dataset a row per noise level, in order of first appearance. */
  function FormatFlags(ds: Datasets, f: Flags, size: nat): (r: FoundTable)
    requires Valid(ds) && FlagShape(f, ds)
    ensures Valid(r) && r.keys == ds.keys
    ensures forall t :: t in ds.values ==> t in r.values && |r.values[t]| == |EpsKeys(ds.values[t])|
    ensures forall t, k :: t in ds.values && 0 <= k < |EpsKeys(ds.values[t])| ==>
      r.values[t][k] == FoundRow(EpsKeys(ds.values[t])[k], f[t][EpsKeys(ds.values[t])[k]], size)
  {
    Dict(ds.keys, map t | t in ds.values ::
      seq(|EpsKeys(ds.values[t])|, k requires 0 <= k < |EpsKeys(ds.values[t])| =>
        FoundRow(EpsKeys(ds.values[t])[k], f[t][EpsKeys(ds.values[t])[k]], size)))
  }

  /** `PathMatches_without_count`: the parameters of the network's parameter graph in index
      order, stopping after the first parameter with which every flag is raised.  The result is
      that of testing every parameter. */
  method PathMatchesWithoutCount(net: Network, ds: Datasets, domain: bool, stablefc: bool)
    returns (dommatches: FoundTable, fcmatches: FoundTable)
    requires Valid(ds)
    ensures dommatches == FormatFlags(ds, SpecFlags(DomainSearch, net.params, ds, domain, stablefc), net.Size())
    ensures fcmatches == FormatFlags(ds, SpecFlags(StableFCSearch, net.params, ds, domain, stablefc), net.Size())
  {
    var params := net.params;
    var domf, fcf := InitialFlags(ds), InitialFlags(ds);
    var i := 0;
    while i < |params|
      invariant 0 <= i <= |params|
      invariant FlagsHold(domf, DomainSearch, params[..i], ds, domain, stablefc)
      invariant FlagsHold(fcf, StableFCSearch, params[..i], ds, domain, stablefc)
    {
      ghost var d0, f0 := domf, fcf;
      domf, fcf := ScanParamFlags(domf, fcf, params[i], ds, domain, stablefc);
      FlagsHoldStep(d0, domf, DomainSearch, params, i, ds, domain, stablefc);
      FlagsHoldStep(f0, fcf, StableFCSearch, params, i, ds, domain, stablefc);
      i := i + 1;
      var b := AllFound(ds, domf, fcf);
      if b {
        CompleteFinal(domf, fcf, params, i, ds, domain, stablefc);
        break;
      }
    }
    if i == |params| {
      assert params[..i] == params;
    }
    FlagsUnique(domf, DomainSearch, params, ds, domain, stablefc);
    FlagsUnique(fcf, StableFCSearch, params, ds, domain, stablefc);
    dommatches := FormatFlags(ds, domf, net.Size());
    fcmatches := FormatFlags(ds, fcf, net.Size());
  }

  // ---- agreement with the count mode ----

  lemma {:induction false} FoundAtHits(s: Search, p: Parameter, list: PosetList, eps: real, domain: bool, stablefc: bool)
    requires forall j :: 0 <= j < |list| ==> (Found(s, p, list[j].1, domain, stablefc) <==> Counted(s, p, list[j].1, domain, stablefc))
    ensures FoundAt(s, p, list, eps, domain, stablefc) <==> Hits(s, p, list, eps, domain, stablefc) > 0
  {
    if list != [] {
      var init := list[..|list| - 1];
      forall j | 0 <= j < |init|
        ensures Found(s, p, init[j].1, domain, stablefc) <==> Counted(s, p, init[j].1, domain, stablefc)
      {
        assert init[j] == list[j];
      }
      FoundAtHits(s, p, init, eps, domain, stablefc);
    }
  }

  lemma {:induction false} FoundByTally(s: Search, ps: seq<Parameter>, list: PosetList, eps: real, domain: bool, stablefc: bool)
    requires forall k, j :: 0 <= k < |ps| && 0 <= j < |list| ==>
      (Found(s, ps[k], list[j].1, domain, stablefc) <==> Counted(s, ps[k], list[j].1, domain, stablefc))
    ensures FoundBy(s, ps, list, eps, domain, stablefc) <==> Tally(s, Indexed(ps), list, eps, domain, stablefc) > 0
  {
    if ps != [] {
      var n := |ps| - 1;
      var init := ps[..n];
      assert Indexed(ps)[..n] == Indexed(init);
      forall k, j | 0 <= k < |init| && 0 <= j < |list|
        ensures Found(s, init[k], list[j].1, domain, stablefc) <==> Counted(s, init[k], list[j].1, domain, stablefc)
      {
        assert init[k] == ps[k];
      }
      FoundByTally(s, init, list, eps, domain, stablefc);
      FoundAtHits(s, ps[n], list, eps, domain, stablefc);
    }
  }

  /** The stable full-cycle flags say whether the count mode's counters are positive.  So do the
      domain flags, provided every stable full-cycle match is also a domain-graph match (a path
      within a stable full cycle is a path of the domain graph), since in count mode a stable
      full-cycle match raises the domain counter without a domain-graph search. */
  lemma ExistsAgreesWithCount(s: Search, ps: seq<Parameter>, list: PosetList, eps: real, domain: bool, stablefc: bool)
    requires s == DomainSearch && domain && stablefc ==>
      forall k, j :: 0 <= k < |ps| && 0 <= j < |list| && FCMatch(ps[k], list[j].1) ==> DomainMatch(ps[k], list[j].1)
    ensures FoundBy(s, ps, list, eps, domain, stablefc) <==> Tally(s, Indexed(ps), list, eps, domain, stablefc) > 0
  {
    FoundByTally(s, ps, list, eps, domain, stablefc);
  }
}
