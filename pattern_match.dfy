/** The `patternmatch` query: four matching functions, each sweeping the parameter graph of a
    network against the pattern graph of one poset of extrema, either counting the parameters
    with a match or stopping at the first one. */
module PatternMatch {
  import opened Wrappers
  import opened Dsgrn
  import opened Sweeps
  import opened PatternChecks

  /** The four matching functions, in the order Python's `getmembers` lists them (by name). */
  datatype Matcher = CycleDomain | CycleStable | PathDomain | PathStableFC

  const Matchers: seq<Matcher> := [CycleDomain, CycleStable, PathDomain, PathStableFC]

  /** The name of the Python function. */
  function Name(m: Matcher): string {
    match m
    case CycleDomain => "CycleMatchInDomainGraph"
    case CycleStable => "CycleMatchInStableMorseSet"
    case PathDomain => "PathMatchInDomainGraph"
    case PathStableFC => "PathMatchInStableFullCycle"
  }

  /** The position of a matching function in `Matchers`. */
  function Rank(m: Matcher): nat {
    match m
    case CycleDomain => 0
    case CycleStable => 1
    case PathDomain => 2
    case PathStableFC => 3
  }

  /** Whether a matching function finds a match for one parameter.  The stable searches read
      stability from the Morse decomposition's poset. */
  predicate Matches(m: Matcher, p: Parameter, pos: Poset) {
    match m
    case CycleDomain => p.domainCycle(pos)
    case CycleStable => StableCycleMatch(p, pos)
    case PathDomain => p.domainPath(pos)
    case PathStableFC => StableFCPathMatch(p, pos, DecompositionPoset)
  }

  /** The matching function's answer for each parameter, in index order. */
  function MatchFlags(m: Matcher, params: seq<Parameter>, pos: Poset): (bs: seq<bool>)
    ensures |bs| == |params|
    ensures forall i {:trigger Matches(m, params[i], pos)} :: 0 <= i < |bs| ==> bs[i] == Matches(m, params[i], pos)
  {
    if params == [] then []
    else
      assert forall i :: 1 <= i < |params| ==> params[i] == params[1..][i - 1];
      [Matches(m, params[0], pos)] + MatchFlags(m, params[1..], pos)
  }

  /** Which parameters have a stable full cycle (decomposition poset). */
  function FCFlags(params: seq<Parameter>): (bs: seq<bool>)
    ensures |bs| == |params|
    ensures forall i {:trigger HasStableFC(params[i], DecompositionPoset)} :: 0 <= i < |bs| ==> bs[i] == HasStableFC(params[i], DecompositionPoset)
  {
    if params == [] then []
    else
      assert forall i :: 1 <= i < |params| ==> params[i] == params[1..][i - 1];
      [HasStableFC(params[0], DecompositionPoset)] + FCFlags(params[1..])
  }

  /** A matching function's return value: a count, a boolean, or for the stable full-cycle
      path search in count mode the pair `(numparams, numFC)`. */
  datatype MatchAnswer = Count(n: nat) | Found(b: bool) | CountFC(numparams: nat, numFC: nat)

  /** The answer of matching function `m` over the parameters `params`. */
  function Answer(m: Matcher, params: seq<Parameter>, pos: Poset, count: bool): MatchAnswer {
    var flags := MatchFlags(m, params, pos);
    if !count then Found(true in flags)
    else if m == PathStableFC then CountFC(CountTrue(flags), CountTrue(FCFlags(params)))
    else Count(CountTrue(flags))
  }

  /** The number of parameters a count-mode answer reports as matching. */
  function Matched(a: MatchAnswer): nat {
    match a
    case Count(n) => n
    case CountFC(n, _) => n
    case Found(b) => if b then 1 else 0
  }

  /** The parameter indices with a match. */
  function MatchingIndices(m: Matcher, params: seq<Parameter>, pos: Poset): set<nat> {
    set i: nat | i < |params| && Matches(m, params[i], pos)
  }

  /** Count mode counts exactly the parameters with a match (each once); `numFC` counts exactly
      the parameters with a stable full cycle. */
  lemma CountIsNumberOfMatches(m: Matcher, params: seq<Parameter>, pos: Poset)
    ensures Matched(Answer(m, params, pos, true)) == |MatchingIndices(m, params, pos)|
    ensures Answer(m, params, pos, true).CountFC? <==> m == PathStableFC
    ensures m == PathStableFC ==>
      Answer(m, params, pos, true).numFC == |set i: nat | i < |params| && HasStableFC(params[i], DecompositionPoset)|
  {
    var flags := MatchFlags(m, params, pos);
    CountTrueIsCardinality(flags);
    assert TrueIndices(flags) == MatchingIndices(m, params, pos);
    var fcs := FCFlags(params);
    CountTrueIsCardinality(fcs);
    assert TrueIndices(fcs) == set i: nat | i < |params| && HasStableFC(params[i], DecompositionPoset);
  }

  /** Existence mode answers whether some parameter matches, which is whether count mode counts
      at least one. */
  lemma FoundIsCountPositive(m: Matcher, params: seq<Parameter>, pos: Poset)
    ensures Answer(m, params, pos, false) == Found(exists i :: 0 <= i < |params| && Matches(m, params[i], pos))
    ensures Answer(m, params, pos, false) == Found(Matched(Answer(m, params, pos, true)) > 0)
  {
    var flags := MatchFlags(m, params, pos);
    if exists i :: 0 <= i < |params| && Matches(m, params[i], pos) {
      var i :| 0 <= i < |params| && Matches(m, params[i], pos);
      assert flags[i];
    } else {
      forall j | 0 <= j < |flags| ensures !flags[j] {
        assert flags[j] == Matches(m, params[j], pos);
      }
    }
  }

  /** No count exceeds the size of the parameter graph, and a stable full-cycle match is only
      counted for a parameter that has a stable full cycle: `numparams <= numFC <= size`. */
  lemma CountsBounded(m: Matcher, params: seq<Parameter>, pos: Poset)
    ensures Matched(Answer(m, params, pos, true)) <= |params|
    ensures m == PathStableFC ==>
      Answer(m, params, pos, true).numparams <= Answer(m, params, pos, true).numFC <= |params|
  {
    if m == PathStableFC {
      var flags := MatchFlags(m, params, pos);
      var fcs := FCFlags(params);
      forall i | 0 <= i < |flags| ensures flags[i] ==> fcs[i] {
        assert flags[i] == Matches(m, params[i], pos);
        assert fcs[i] == HasStableFC(params[i], DecompositionPoset);
        if flags[i] {
          StableFCPathMatchHasFC(params[i], pos, DecompositionPoset);
        }
      }
      CountTrueMonotone(flags, fcs);
    }
  }

  /** The inner scan of `CycleMatchInStableMorseSet`: is there a Morse set labelled "FC" or "XC",
      childless in the decomposition's poset, whose search graph cycle-matches? */
  method ScanStableCycles(p: Parameter, pos: Poset) returns (found: bool)
    ensures found == StableCycleMatch(p, pos)
  {
    var i := 0;
    while i < |p.morse|
      invariant 0 <= i <= |p.morse|
      invariant forall j :: 0 <= j < i && IsStableCycle(p.morse[j]) ==> !p.morse[j].cycleMatch(pos)
    {
      var node := p.morse[i];
      if (node.annotation == "FC" || node.annotation == "XC") && node.decompChildren == 0 {
        if node.cycleMatch(pos) {
          return true;
        }
      }
      i := i + 1;
    }
    return false;
  }

  /** `CycleMatchInStableMorseSet` */
  method CycleMatchInStableMorseSet(params: seq<Parameter>, pos: Poset, count: bool) returns (r: MatchAnswer)
    ensures r == Answer(CycleStable, params, pos, count)
  {
    ghost var flags := MatchFlags(CycleStable, params, pos);
    var numparams := 0;
    var paramind := 0;
    while paramind < |params|
      invariant 0 <= paramind <= |params|
      invariant numparams == CountTrue(flags[..paramind])
      invariant !count ==> forall j :: 0 <= j < paramind ==> !flags[j]
    {
      CountTrueSnoc(flags, paramind);
      var matched := ScanStableCycles(params[paramind], pos);
      assert Matches(CycleStable, params[paramind], pos) == matched;
      if matched {
        if count {
          numparams := numparams + 1;
        } else {
          return Found(true);
        }
      }
      paramind := paramind + 1;
    }
    assert flags[..paramind] == flags;
    return if count then Count(numparams) else Found(false);
  }

  /** `CycleMatchInDomainGraph` */
  method CycleMatchInDomainGraph(params: seq<Parameter>, pos: Poset, count: bool) returns (r: MatchAnswer)
    ensures r == Answer(CycleDomain, params, pos, count)
  {
    ghost var flags := MatchFlags(CycleDomain, params, pos);
    var numparams := 0;
    var paramind := 0;
    while paramind < |params|
      invariant 0 <= paramind <= |params|
      invariant numparams == CountTrue(flags[..paramind])
      invariant !count ==> forall j :: 0 <= j < paramind ==> !flags[j]
    {
      CountTrueSnoc(flags, paramind);
      assert Matches(CycleDomain, params[paramind], pos) == params[paramind].domainCycle(pos);
      if params[paramind].domainCycle(pos) {
        if count {
          numparams := numparams + 1;
        } else {
          return Found(true);
        }
      }
      paramind := paramind + 1;
    }
    assert flags[..paramind] == flags;
    return if count then Count(numparams) else Found(false);
  }

  /** `PathMatchInDomainGraph` */
  method PathMatchInDomainGraph(params: seq<Parameter>, pos: Poset, count: bool) returns (r: MatchAnswer)
    ensures r == Answer(PathDomain, params, pos, count)
  {
    ghost var flags := MatchFlags(PathDomain, params, pos);
    var numparams := 0;
    var paramind := 0;
    while paramind < |params|
      invariant 0 <= paramind <= |params|
      invariant numparams == CountTrue(flags[..paramind])
      invariant !count ==> forall j :: 0 <= j < paramind ==> !flags[j]
    {
      CountTrueSnoc(flags, paramind);
      assert Matches(PathDomain, params[paramind], pos) == params[paramind].domainPath(pos);
      if params[paramind].domainPath(pos) {
        if count {
          numparams := numparams + 1;
        } else {
          return Found(true);
        }
      }
      paramind := paramind + 1;
    }
    assert flags[..paramind] == flags;
    return if count then Count(numparams) else Found(false);
  }

  /** A tally of the first `i` flags, moved past flag `i`. */
  lemma TallyStep(bs: seq<bool>, i: nat, n: nat, b: bool)
    requires i < |bs| && n == CountTrue(bs[..i]) && bs[i] == b
    ensures CountTrue(bs[..i + 1]) == if b then n + 1 else n
  {
    CountTrueSnoc(bs, i);
  }

  /** `PathMatchInStableFullCycle`: the scan of one parameter's Morse sets is `stableFC_check`
      on the decomposition's poset, whose FC flag feeds `numFC`. */
  method PathMatchInStableFullCycle(params: seq<Parameter>, pos: Poset, count: bool) returns (r: MatchAnswer)
    ensures r == Answer(PathStableFC, params, pos, count)
  {
    ghost var flags := MatchFlags(PathStableFC, params, pos);
    ghost var fcs := FCFlags(params);
    var numparams := 0;
    var numFC := 0;
    var paramind := 0;
    while paramind < |params|
      invariant 0 <= paramind <= |params|
      invariant numparams == CountTrue(flags[..paramind])
      invariant numFC == CountTrue(fcs[..paramind])
      invariant !count ==> forall j :: 0 <= j < paramind ==> !flags[j]
    {
      var ismatch, fc := StableFCCheck(params[paramind], pos, DecompositionPoset);
      assert Matches(PathStableFC, params[paramind], pos) == ismatch;
      assert flags[paramind] == ismatch && fcs[paramind] == fc;
      TallyStep(fcs, paramind, numFC, fc);
      if fc {
        numFC := numFC + 1;
      }
      TallyStep(flags, paramind, numparams, ismatch);
      if ismatch {
        if count {
          numparams := numparams + 1;
        } else {
          return Found(true);
        }
      }
      paramind := paramind + 1;
    }
    assert flags[..paramind] == flags;
    assert fcs[..paramind] == fcs;
    return if count then CountFC(numparams, numFC) else Found(false);
  }

  /** Calling the matching function `m`, as `search_over_networks` does through the mapping
      `extract_queries` built. */
  method Run(m: Matcher, params: seq<Parameter>, pos: Poset, count: bool) returns (r: MatchAnswer)
    ensures r == Answer(m, params, pos, count)
  {
    match m
    case CycleDomain => r := CycleMatchInDomainGraph(params, pos, count);
    case CycleStable => r := CycleMatchInStableMorseSet(params, pos, count);
    case PathDomain => r := PathMatchInDomainGraph(params, pos, count);
    case PathStableFC => r := PathMatchInStableFullCycle(params, pos, count);
  }
}
