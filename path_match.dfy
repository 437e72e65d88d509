/** `PathMatch` of the large-network queries (`CountPatternMatch_large_networks` and its
    parameter-indices variant): one parameter tested against every poset of every dataset, the
    answers kept per dataset and noise level.  A later pair with the same noise level replaces the
    answer of an earlier one.  The two queries differ only in the poset that decides stability
    (`src`) and in whether the noise level is keyed as itself or as its string, which the model
    does not distinguish. */
module LargePathMatch {
  import opened Wrappers
  import opened Dicts
  import opened Dsgrn
  import opened PosetTables
  import opened PatternChecks

  /** An answer per dataset name and noise level. */
  type Marks = map<string, map<real, bool>>

  /** The result dictionary of `PathMatch`: "domain" and "match" hold answers, "stablefc"
      whether the parameter has a stable full cycle; each is present only when its search was
      requested. */
  datatype Matched = Matched(domain: Option<Marks>, stablefc: Option<bool>, matches: Option<Marks>)

  lemma EpsSetSnoc(l: PosetList, x: (real, Poset))
    ensures EpsSet(l + [x]) == EpsSet(l) + {x.0}
  {
    var m := l + [x];
    assert m[|l|].0 == x.0;
    forall e | e in EpsSet(m) ensures e in EpsSet(l) + {x.0} {
      var j :| 0 <= j < |m| && m[j].0 == e;
      if j < |l| {
        assert l[j] == m[j];
      }
    }
    forall e | e in EpsSet(l) ensures e in EpsSet(m) {
      var j :| 0 <= j < |l| && l[j].0 == e;
      assert m[j] == l[j];
    }
  }

  /** The poset of the last pair at noise level `e`. */
  function LastAt(l: PosetList, e: real): Poset
    requires e in EpsSet(l)
  {
    var n := |l| - 1;
    assert l == l[..n] + [l[n]];
    EpsSetSnoc(l[..n], l[n]);
    if l[n].0 == e then l[n].1 else LastAt(l[..n], e)
  }

  /** The domain answers of one dataset: per noise level, a path match of the last poset there. */
  function DomainMarks(p: Parameter, l: PosetList): map<real, bool> {
    map e | e in EpsSet(l) :: p.domainPath(LastAt(l, e))
  }

  /** The stable full-cycle answers of one dataset, with stability decided by `src`. */
  function FCMarks(p: Parameter, l: PosetList, src: PosetSource): map<real, bool> {
    map e | e in EpsSet(l) :: StableFCPathMatch(p, LastAt(l, e), src)
  }

  /** Appending a pair sets the answer at its noise level and keeps the others. */
  lemma MarksSnoc(p: Parameter, l: PosetList, x: (real, Poset), src: PosetSource)
    ensures DomainMarks(p, l + [x]) == DomainMarks(p, l)[x.0 := p.domainPath(x.1)]
    ensures FCMarks(p, l + [x], src) == FCMarks(p, l, src)[x.0 := StableFCPathMatch(p, x.1, src)]
  {
    var m := l + [x];
    EpsSetSnoc(l, x);
    assert m[..|m| - 1] == l;
    forall e | e in EpsSet(m) ensures LastAt(m, e) == if e == x.0 then x.1 else LastAt(l, e) {
    }
  }

  /** The answers of one dataset's pairs, in order: the domain answers when `domain`, the stable
      full-cycle answers when `stablefc`, and the FC flag of the last stable full-cycle test. */
  method ScanDataset(p: Parameter, l: PosetList, domain: bool, stablefc: bool, src: PosetSource, fc: bool)
    returns (dm: map<real, bool>, fm: map<real, bool>, fc2: bool)
    ensures domain ==> dm == DomainMarks(p, l)
    ensures stablefc ==> fm == FCMarks(p, l, src)
    ensures fc2 == if stablefc && l != [] then HasStableFC(p, src) else fc
  {
    dm, fm, fc2 := map[], map[], fc;
    for j := 0 to |l|
      invariant domain ==> dm == DomainMarks(p, l[..j])
      invariant stablefc ==> fm == FCMarks(p, l[..j], src)
      invariant fc2 == if stablefc && j > 0 then HasStableFC(p, src) else fc
    {
      var (eps, pos) := l[j];
      assert l[..j + 1] == l[..j] + [l[j]];
      MarksSnoc(p, l[..j], l[j], src);
      if domain {
        dm := dm[eps := p.domainPath(pos)];
      }
      if stablefc {
        var ismatch, f := StableFCCheck(p, pos, src);
        fm := fm[eps := ismatch];
        fc2 := f;
      }
    }
    assert l[..|l|] == l;
  }

  /** Some dataset holds at least one pair. */
  predicate AnyPair(ds: Datasets) {
    exists t :: t in ds.values && ds.values[t] != []
  }

  /** What `PathMatch` returns for parameter `p`. */
  function Expected(p: Parameter, ds: Datasets, domain: bool, stablefc: bool, src: PosetSource): (r: Matched)
    ensures r.domain.Some? <==> domain
    ensures r.stablefc.Some? <==> stablefc
    ensures r.matches.Some? <==> stablefc
  {
    Matched(if domain then Some(map t | t in ds.values :: DomainMarks(p, ds.values[t])) else None,
            if stablefc then Some(HasStableFC(p, src) && AnyPair(ds)) else None,
            if stablefc then Some(map t | t in ds.values :: FCMarks(p, ds.values[t], src)) else None)
  }

  /** Some dataset among `ts` holds at least one pair. */
  predicate PairAmong(ds: Datasets, ts: seq<string>) {
    exists t :: t in ts && t in ds.values && ds.values[t] != []
  }

  /** The answers after the datasets `ts` have been scanned. */
  ghost predicate Scanned(p: Parameter, ds: Datasets, ts: seq<string>, domain: bool, stablefc: bool, src: PosetSource,
                          dom: Marks, fcm: Marks, fc: bool) {
    && dom.Keys == ds.values.Keys && fcm.Keys == ds.values.Keys
    && (domain ==> forall t :: t in ts && t in ds.values ==> dom[t] == DomainMarks(p, ds.values[t]))
    && (stablefc ==> forall t :: t in ts && t in ds.values ==> fcm[t] == FCMarks(p, ds.values[t], src))
    && fc == (stablefc && HasStableFC(p, src) && PairAmong(ds, ts))
  }

  /** The scan of the dataset `t`, one step of `PathMatch`. */
  method VisitDataset(p: Parameter, ds: Datasets, ts: seq<string>, t: string, domain: bool, stablefc: bool, src: PosetSource,
                      dom: Marks, fcm: Marks, fc: bool)
    returns (dom2: Marks, fcm2: Marks, fc2: bool)
    requires t in ds.values
    requires Scanned(p, ds, ts, domain, stablefc, src, dom, fcm, fc)
    ensures Scanned(p, ds, ts + [t], domain, stablefc, src, dom2, fcm2, fc2)
  {
    var dm, fm, f := ScanDataset(p, ds.values[t], domain, stablefc, src, fc);
    dom2 := dom[t := dm];
    fcm2 := fcm[t := fm];
    fc2 := f;
    assert PairAmong(ds, ts + [t]) <==> PairAmong(ds, ts) || ds.values[t] != [] by {
      if PairAmong(ds, ts) {
        var u :| u in ts && u in ds.values && ds.values[u] != [];
        assert u in ts + [t];
      }
    }
  }

  /** `PathMatch`: every dataset's pairs are scanned in order.  The "stablefc" flag is that of
      the last stable full-cycle test, and every test gives the parameter's own flag, so it says
      whether the parameter has a stable full cycle, or stays false when there is no pair at
      all. */
  method PathMatch(p: Parameter, ds: Datasets, domain: bool, stablefc: bool, src: PosetSource) returns (r: Matched)
    requires Valid(ds)
    ensures r == Expected(p, ds, domain, stablefc, src)
  {
    var dom: Marks := map t | t in ds.values :: map[];
    var fcm: Marks := map t | t in ds.values :: map[];
    var fc := false;
    for i := 0 to |ds.keys|
      invariant Scanned(p, ds, ds.keys[..i], domain, stablefc, src, dom, fcm, fc)
    {
      assert ds.keys[..i + 1] == ds.keys[..i] + [ds.keys[i]];
      dom, fcm, fc := VisitDataset(p, ds, ds.keys[..i], ds.keys[i], domain, stablefc, src, dom, fcm, fc);
    }
    assert ds.keys[..|ds.keys|] == ds.keys;
    ScannedAll(p, ds, domain, stablefc, src, dom, fcm, fc);
    r := Matched(if domain then Some(dom) else None, if stablefc then Some(fc) else None, if stablefc then Some(fcm) else None);
  }

  lemma ScannedAll(p: Parameter, ds: Datasets, domain: bool, stablefc: bool, src: PosetSource, dom: Marks, fcm: Marks, fc: bool)
    requires Valid(ds) && Scanned(p, ds, ds.keys, domain, stablefc, src, dom, fcm, fc)
    ensures domain ==> dom == map t | t in ds.values :: DomainMarks(p, ds.values[t])
    ensures stablefc ==> fcm == map t | t in ds.values :: FCMarks(p, ds.values[t], src)
    ensures fc == (stablefc && HasStableFC(p, src) && AnyPair(ds))
  {
  }

  /** A stable full-cycle answer implies the "stablefc" flag. */
  lemma MatchImpliesFlag(p: Parameter, ds: Datasets, stablefc: bool, src: PosetSource, t: string, e: real)
    requires stablefc && t in ds.values && e in EpsSet(ds.values[t])
    requires FCMarks(p, ds.values[t], src)[e]
    ensures Expected(p, ds, false, stablefc, src).stablefc == Some(true)
  {
    StableFCPathMatchHasFC(p, LastAt(ds.values[t], e), src);
  }
}
