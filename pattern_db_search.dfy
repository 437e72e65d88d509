/** `search_over_networks` of the `CountPatternMatch_DB` query: the work done for one network.
    The network's posets are looked up under its sorted names, one of the three sweeps runs,
    and the answers of the requested searches are returned under "domain" and "stablefc". */
module PatternDbSearch {
  import opened Wrappers
  import opened Dicts
  import opened Dsgrn
  import opened PosetTables
  import opened PatternDbCount
  import opened PatternDbExists

  /** The answer of one search: count rows, or existence rows. */
  datatype Answer = Counts(table: Table) | Founds(found: FoundTable)

  /** The three mode keys of the parameter file. */
  datatype Mode = Mode(domain: bool, stablefc: bool, count: bool)

  /** `ER`: "domain" when the domain search was requested, then "stablefc" when the stable
      full-cycle search was. */
  function Requested(m: Mode, dom: Answer, fc: Answer): (er: Dict<string, Answer>)
    ensures Valid(er)
    ensures "domain" in er.values <==> m.domain
    ensures "stablefc" in er.values <==> m.stablefc
    ensures m.domain ==> er.values["domain"] == dom
    ensures m.stablefc ==> er.values["stablefc"] == fc
    ensures forall k :: k in er.values ==> k == "domain" || k == "stablefc"
  {
    var er := if m.domain then Put(Empty(), "domain", dom) else Empty();
    if m.stablefc then Put(er, "stablefc", fc) else er
  }

  /** What each of the three sweeps returns, by mode: with `count` and without `domain` only the
      parameters `fcParams` that the database reports as having a stable full cycle are
      counted; with `count` every parameter is counted; otherwise existence is decided. */
  ghost function Sweeps(m: Mode, net: Network, ds: Datasets, fcParams: seq<nat>): (Answer, Answer)
    requires Valid(ds)
    requires forall k :: 0 <= k < |fcParams| ==> fcParams[k] < |net.params|
  {
    if m.count && !m.domain then
      (Counts(Empty()),
       Counts(MakeTable(ds, SpecTallies(StableFCSearch, Selected(net.params, fcParams), ds, false, true), Some(|fcParams|), net.Size())))
    else if m.count then
      (Counts(MakeTable(ds, SpecTallies(DomainSearch, Indexed(net.params), ds, m.domain, m.stablefc), None, net.Size())),
       Counts(MakeTable(ds, SpecTallies(StableFCSearch, Indexed(net.params), ds, m.domain, m.stablefc),
                        Some(FCCount(Indexed(net.params), ds, m.stablefc)), net.Size())))
    else
      (Founds(FormatFlags(ds, SpecFlags(DomainSearch, net.params, ds, m.domain, m.stablefc), net.Size())),
       Founds(FormatFlags(ds, SpecFlags(StableFCSearch, net.params, ds, m.domain, m.stablefc), net.Size())))
  }

  /** Every dataset dictionary of the table is well formed. */
  ghost predicate ValidTable(posets: PosetTable) {
    forall k :: k in posets ==> Valid(posets[k])
  }

  /** Every dataset dictionary of the table is well formed and its noise levels are those of its
      first dataset. */
  ghost predicate WellFormedTable(posets: PosetTable) {
    forall k :: k in posets ==> Valid(posets[k]) && SharedEps(posets[k])
  }

  /** `search_over_networks` for the network `netspec`, which DSGRN reads as `graph(netspec)`;
      `fcQuery(netspec)` is the database's list of the parameters with a stable full cycle.  A
      network whose names key no posets raises `KeyError`. */
  method SearchOverNetworks(m: Mode, posets: PosetTable, netspec: string, graph: string -> Network,
                            fcQuery: string -> seq<nat>)
    returns (r: Result<(string, Dict<string, Answer>)>)
    requires WellFormedTable(posets)
    requires forall k :: 0 <= k < |fcQuery(netspec)| ==> fcQuery(netspec)[k] < |graph(netspec).params|
    ensures NameKey(graph(netspec)) !in posets ==> r == Err(KeyError)
    ensures NameKey(graph(netspec)) in posets ==>
      var sw := Sweeps(m, graph(netspec), posets[NameKey(graph(netspec))], fcQuery(netspec));
      r == Ok((netspec, Requested(m, sw.0, sw.1)))
  {
    var net := graph(netspec);
    var names := NameKey(net);
    if names !in posets {
      return Err(KeyError);
    }
    var ds := posets[names];
    var dom: Answer, fc: Answer;
    if m.count && !m.domain {
      var d, f := PathMatchesStableFCOnly(net, ds, fcQuery(netspec));
      dom, fc := Counts(d), Counts(f);
    } else if m.count {
      var d, f := PathMatchesWithCount(net, ds, m.domain, m.stablefc);
      dom, fc := Counts(d), Counts(f);
    } else {
      var d, f := PathMatchesWithoutCount(net, ds, m.domain, m.stablefc);
      dom, fc := Founds(d), Founds(f);
    }
    return Ok((netspec, Requested(m, dom, fc)));
  }

  // ---- the stable full-cycle shortcut ----

  /** The indices below `n` of the parameters with a stable full cycle, in increasing order: what
      the database query reports. */
  function FCIndices(params: seq<Parameter>, n: nat): (ix: seq<nat>)
    requires n <= |params|
    ensures forall k :: 0 <= k < |ix| ==> ix[k] < n
  {
    if n == 0 then []
    else FCIndices(params, n - 1) + (if HasStableFC(params[n - 1], MorseGraphPoset) then [n - 1] else [])
  }

  /** A parameter without a stable full cycle never raises a stable full-cycle counter. */
  lemma {:induction false} NoFCNoHits(p: Parameter, list: PosetList, eps: real, domain: bool, stablefc: bool)
    requires !HasStableFC(p, MorseGraphPoset)
    ensures Hits(StableFCSearch, p, list, eps, domain, stablefc) == 0
  {
    if list != [] {
      NoFCNoHits(p, list[..|list| - 1], eps, domain, stablefc);
      if FCMatch(p, list[|list| - 1].1) {
        StableFCPathMatchHasFC(p, list[|list| - 1].1, MorseGraphPoset);
      }
    }
  }

  /** The stable full-cycle counter does not depend on whether the domain search is on. */
  lemma {:induction false} HitsIgnoreDomain(p: Parameter, list: PosetList, eps: real, domain: bool)
    ensures Hits(StableFCSearch, p, list, eps, domain, true) == Hits(StableFCSearch, p, list, eps, false, true)
  {
    if list != [] {
      HitsIgnoreDomain(p, list[..|list| - 1], eps, domain);
    }
  }

  /** The evaluated parameters that have a stable full cycle, in order. */
  function FCOnly(ps: seq<(nat, Parameter)>): seq<(nat, Parameter)> {
    if ps == [] then []
    else FCOnly(ps[..|ps| - 1]) + (if HasStableFC(ps[|ps| - 1].1, MorseGraphPoset) then [ps[|ps| - 1]] else [])
  }

  /** Leaving out the parameters without a stable full cycle keeps every stable full-cycle
      counter. */
  lemma {:induction false} FCOnlyTally(ps: seq<(nat, Parameter)>, list: PosetList, eps: real, domain: bool)
    ensures Tally(StableFCSearch, FCOnly(ps), list, eps, false, true) == Tally(StableFCSearch, ps, list, eps, domain, true)
  {
    if ps != [] {
      var n := |ps| - 1;
      FCOnlyTally(ps[..n], list, eps, domain);
      HitsIgnoreDomain(ps[n].1, list, eps, domain);
      if HasStableFC(ps[n].1, MorseGraphPoset) {
        var f := FCOnly(ps[..n]) + [ps[n]];
        assert f[..|f| - 1] == FCOnly(ps[..n]);
      } else {
        assert FCOnly(ps) == FCOnly(ps[..n]) + [] == FCOnly(ps[..n]);
        NoFCNoHits(ps[n].1, list, eps, domain, true);
      }
    }
  }

  /** The parameters at the reported indices are those of the first `n` with a stable full cycle. */
  lemma {:induction false} SelectedFCIndices(params: seq<Parameter>, n: nat)
    requires n <= |params|
    ensures Selected(params, FCIndices(params, n)) == FCOnly(Indexed(params)[..n])
  {
    if n > 0 {
      SelectedFCIndices(params, n - 1);
      var all := Indexed(params)[..n];
      assert all[..n - 1] == Indexed(params)[..n - 1];
      var prev := FCIndices(params, n - 1);
      if HasStableFC(params[n - 1], MorseGraphPoset) {
        var sel := Selected(params, prev + [n - 1]);
        assert sel == Selected(params, prev) + [(n - 1, params[n - 1])];
      } else {
        assert FCIndices(params, n) == prev + [] == prev;
      }
    }
  }

  /** When the database reports exactly the parameters with a stable full cycle, counting only
      those gives every stable full-cycle counter of the full sweep. */
  lemma StableFCOnlyAgrees(params: seq<Parameter>, list: PosetList, eps: real, domain: bool)
    ensures Tally(StableFCSearch, Selected(params, FCIndices(params, |params|)), list, eps, false, true)
         == Tally(StableFCSearch, Indexed(params), list, eps, domain, true)
  {
    SelectedFCIndices(params, |params|);
    assert Indexed(params)[..|params|] == Indexed(params);
    FCOnlyTally(Indexed(params), list, eps, domain);
  }

  /** In the counting shortcut (count without domain) with the stable full-cycle search on, the
      results hold the stable full-cycle answer alone. */
  lemma ShortcutDropsDomain(m: Mode, dom: Answer, fc: Answer)
    requires m.count && !m.domain && m.stablefc
    ensures Requested(m, dom, fc).keys == ["stablefc"]
  {
  }
}
