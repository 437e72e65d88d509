/** The fixed-point count query (`CountFPMatch`): for each network, the parameters whose stable
    fixed points meet every included bound and no excluded bound are counted, or the first one
    is looked for.

    The parameter graph of a network and the neighbour expansion of a network specification are
    library computations; both are inputs here, as functions of the specification text. */
module FixedPointCount {
  import opened Wrappers
  import opened Dsgrn
  import opened FixedPoints
  import opened Sweeps
  import opened FixedPointSweep

  /** The query's parameters: the bounds, "count", and the optional "neighbors" value. */
  datatype Settings = Settings(bounds: Bounds, count: bool, neighbors: Option<bool>)

  /** The value recorded for a network: `(numparams, len(paramlist))` in count mode,
      `(found, total)` in existence mode. */
  datatype Answer = Count(matches: nat, total: nat) | Exists(found: bool, total: nat)

  const RequiredKeys: set<string> := {"included_bounds", "excluded_bounds", "count"}

  /** The query refuses a parameter file that lacks a required key. */
  const MissingKeys := "The parameter file must contain keys 'included_bounds', 'excluded_bounds', and 'count'."

  function SanityCheck(keys: set<string>): (r: Option<Error>)
    ensures r.None? <==> RequiredKeys <= keys
    ensures r.Some? ==> r.value == ValueError(MissingKeys)
  {
    if RequiredKeys <= keys then None
    else Some(ValueError(MissingKeys))
  }

  /** Neighbours are searched only when "neighbors" is present and is `True`. */
  predicate UseNeighbors(s: Settings) {
    s.neighbors == Some(true)
  }

  /** The network searched and the indices tried: the neighbour expansion's network and
      parameter list, or the network itself and all of its parameters. */
  function Scope(netspec: string, graph: string -> Network, neighbors: string -> (string, seq<nat>), s: Settings): (Network, seq<nat>)
  {
    if UseNeighbors(s) then (graph(neighbors(netspec).0), neighbors(netspec).1)
    else (graph(netspec), Indices(|graph(netspec).params|))
  }

  /** Every index tried lies inside the parameter graph; outside it the library throws. */
  predicate ValidScope(netspec: string, graph: string -> Network, neighbors: string -> (string, seq<nat>), s: Settings) {
    InRange(Scope(netspec, graph, neighbors, s).0, Scope(netspec, graph, neighbors, s).1)
  }

  /** The answer for a network of `size` parameters, from the outcomes of the parameters tried. */
  function Tally(outs: seq<Result<bool>>, size: nat, count: bool): Result<Answer>
  {
    if count then
      var c :- CountOk(outs);
      Ok(Count(c, |outs|))
    else
      var f :- FirstOk(outs);
      Ok(Exists(f, if f then size else |outs|))
  }

  function SearchResult(netspec: string, graph: string -> Network, neighbors: string -> (string, seq<nat>), s: Settings): Result<(string, Answer)>
  {
    var (net, pl) := Scope(netspec, graph, neighbors, s);
    var a :- Tally(Outcomes(net, s.bounds, None, pl), |net.params|, s.count);
    Ok((netspec, a))
  }

  /** `search_over_networks`: the network and parameter list are chosen, then tallied. */
  method SearchOverNetworks(netspec: string, graph: string -> Network, neighbors: string -> (string, seq<nat>), s: Settings)
    returns (r: Result<(string, Answer)>)
    ensures r == SearchResult(netspec, graph, neighbors, s)
  {
    var network: Network, paramlist: seq<nat>;
    if UseNeighbors(s) {
      var (noness, pl) := neighbors(netspec);
      network, paramlist := graph(noness), pl;
    } else {
      network := graph(netspec);
      paramlist := Indices(|network.params|);
    }
    var a := TallyParameters(Outcomes(network, s.bounds, None, paramlist), |network.params|, s.count);
    if a.Err? {
      return Err(a.error);
    }
    return Ok((netspec, a.value));
  }

  /** The loop of `search_over_networks`: one pass over the outcomes of the parameter list,
      counting matches or returning at the first one.  `have_match` is pure, so taking its
      answers from `outs` instead of computing them inside the loop changes nothing. */
  method TallyParameters(outs: seq<Result<bool>>, size: nat, count: bool) returns (r: Result<Answer>)
    ensures r == Tally(outs, size, count)
  {
    var numparams := 0;
    var i := 0;
    while i < |outs|
      invariant 0 <= i <= |outs|
      invariant count ==> CountOk(outs[..i]) == Ok(numparams)
      invariant !count ==> FirstOk(outs) == FirstOk(outs[i..])
    {
      var m := outs[i];
      if !count {
        FirstOkStep(outs, i);
      }
      if m.Err? {
        if count {
          assert outs[..i + 1][..i] == outs[..i];
          CountOkKeepsFirstError(outs, i + 1);
        }
        return Err(m.error);
      }
      if count {
        CountOkSnoc(outs, i);
      }
      if m.value {
        if count {
          numparams := numparams + 1;
        } else {
          return Ok(Exists(true, size));
        }
      }
      i := i + 1;
    }
    assert outs[..i] == outs;
    if count {
      return Ok(Count(numparams, |outs|));
    } else {
      return Ok(Exists(false, |outs|));
    }
  }

  /** Every count lies between 0 and the number of parameters tried. */
  lemma CountAtMostTotal(netspec: string, graph: string -> Network, neighbors: string -> (string, seq<nat>), s: Settings)
    requires SearchResult(netspec, graph, neighbors, s).Ok?
    ensures var a := SearchResult(netspec, graph, neighbors, s).value.1;
      a.Count? ==> a.matches <= a.total && a.total == |Scope(netspec, graph, neighbors, s).1|
  {
  }

  /** Existence mode answers `count > 0` whenever count mode succeeds. */
  lemma ExistenceIsCountPositive(netspec: string, graph: string -> Network, neighbors: string -> (string, seq<nat>), s: Settings)
    requires s.count
    requires SearchResult(netspec, graph, neighbors, s).Ok?
    ensures var e := SearchResult(netspec, graph, neighbors, s.(count := false));
      e.Ok? && e.value.1.found == (SearchResult(netspec, graph, neighbors, s).value.1.matches > 0)
  {
    var (net, pl) := Scope(netspec, graph, neighbors, s);
    ExistenceIsPositiveCount(Outcomes(net, s.bounds, None, pl));
  }

  /** The total reported in existence mode: the parameter graph's size after a success, the
      length of the parameter list otherwise.  Without neighbours the two coincide. */
  lemma ExistenceTotal(netspec: string, graph: string -> Network, neighbors: string -> (string, seq<nat>), s: Settings)
    requires !s.count
    requires SearchResult(netspec, graph, neighbors, s).Ok?
    ensures var a := SearchResult(netspec, graph, neighbors, s).value.1;
      var (net, pl) := Scope(netspec, graph, neighbors, s);
      a.Exists? && a.total == (if a.found then |net.params| else |pl|)
    ensures !UseNeighbors(s) ==> SearchResult(netspec, graph, neighbors, s).value.1.total == |graph(netspec).params|
  {
  }

  /** With both bound lists empty every parameter tried is counted, whether or not it has a
      fixed point. */
  lemma EmptyBoundsCountEverything(netspec: string, graph: string -> Network, neighbors: string -> (string, seq<nat>), s: Settings)
    requires s.count && s.bounds == Bounds([], [])
    ensures SearchResult(netspec, graph, neighbors, s).Ok? <==> ValidScope(netspec, graph, neighbors, s)
    ensures var pl := Scope(netspec, graph, neighbors, s).1;
      ValidScope(netspec, graph, neighbors, s) ==> SearchResult(netspec, graph, neighbors, s) == Ok((netspec, Count(|pl|, |pl|)))
  {
    var (net, pl) := Scope(netspec, graph, neighbors, s);
    var outs := Outcomes(net, s.bounds, None, pl);
    if ValidScope(netspec, graph, neighbors, s) {
      forall i | 0 <= i < |outs| ensures outs[i] == Ok(true) {
        EmptyBoundsMatchEveryParameter(net.names, net.params[pl[i]]);
      }
      CountAllTrue(outs);
    } else {
      CountModeOutOfRangeRaises(netspec, graph, neighbors, s);
    }
  }

  /** In count mode every listed index is visited, so the sweep fails exactly when the outcome
      of some listed index fails, and an index outside the parameter graph is one such. */
  lemma CountFailsIff(net: Network, q: Bounds, pl: seq<nat>)
    ensures CountOk(Outcomes(net, q, None, pl)).Err? <==>
      exists i :: 0 <= i < |pl| && Outcome(net, q, None, pl[i]).Err?
    ensures !InRange(net, pl) ==> CountOk(Outcomes(net, q, None, pl)).Err?
  {
    var outs := Outcomes(net, q, None, pl);
    if !InRange(net, pl) {
      var i :| 0 <= i < |pl| && pl[i] >= |net.params|;
      assert outs[i] == Err(OracleError);
    }
  }

  /** An index outside the parameter graph makes a count-mode search raise (the library's
      error, or an earlier `have_match` one). */
  lemma CountModeOutOfRangeRaises(netspec: string, graph: string -> Network, neighbors: string -> (string, seq<nat>), s: Settings)
    requires s.count
    ensures !ValidScope(netspec, graph, neighbors, s) ==> SearchResult(netspec, graph, neighbors, s).Err?
  {
    var (net, pl) := Scope(netspec, graph, neighbors, s);
    CountFailsIff(net, s.bounds, pl);
  }

  /** With neighbours, a success reports a different total from a failure: here the parameter
      graph has two parameters, only parameter 0 is listed, and it matches. */
  lemma NeighborTotalExample(p: Parameter)
    ensures var net := Network("X", ["X"], [p, p]);
      var s := Settings(Bounds([], []), false, Some(true));
      SearchResult("X", _ => net, _ => ("X", [0]), s) == Ok(("X", Exists(true, 2)))
  {
    var net := Network("X", ["X"], [p, p]);
    EmptyBoundsMatchEveryParameter(["X"], p);
    assert Outcomes(net, Bounds([], []), None, [0]) == [Ok(true)];
  }
}
