/** The multistability query (`MultistabilityExists`): the networks having at least one
    parameter whose stable fixed points meet the bounds and, optionally, whose logic meets a
    hex-code table.  Each network's parameter graph is an input, as a function of its
    specification text.  The table is keyed by node types, as intended; the table the program
    reads from JSON has string keys and gates nothing (`HexConstraints.LoadedFromJsonAcceptsAll`). */
module Multistability {
  import opened Wrappers
  import opened Dsgrn
  import opened FixedPoints
  import opened HexConstraints
  import opened Sweeps
  import opened FixedPointSweep

  /** The constrained sweep is chosen only when "hex_constraints" is present and non-empty. */
  function ChooseGate(hexConstraints: Option<HexTable>): (gate: Option<HexTable>)
    ensures gate.Some? <==> hexConstraints.Some? && hexConstraints.value != map[]
    ensures gate.Some? ==> gate == hexConstraints
  {
    if hexConstraints.Some? && hexConstraints.value != map[] then hexConstraints else None
  }

  /** Choosing the unconstrained sweep for an empty table gives the answers the constrained sweep
      would have given. */
  lemma ChooseGateKeepsAnswers(net: Network, q: Bounds, hexConstraints: Option<HexTable>, pl: seq<nat>)
    ensures Outcomes(net, q, ChooseGate(hexConstraints), pl) == Outcomes(net, q, hexConstraints, pl)
  {
    if hexConstraints == Some(map[]) {
      EmptyGateIsNoGate(net, q, pl);
    }
  }

  /** The answer for one network: its specification if some parameter matches, else nothing. */
  function NetworkResult(netspec: string, net: Network, q: Bounds, gate: Option<HexTable>): Result<Option<string>> {
    var found :- FirstOk(Outcomes(net, q, gate, Indices(|net.params|)));
    Ok(if found then Some(netspec) else None)
  }

  /** With a table, a network is reported only if some parameter meets the table and matches. */
  lemma ReportedNetworkHasMatch(netspec: string, net: Network, q: Bounds, gate: Option<HexTable>)
    requires NetworkResult(netspec, net, q, gate) == Ok(Some(netspec))
    ensures exists p ::
      0 <= p < |net.params| && Outcome(net, q, None, p) == Ok(true) &&
      (gate.Some? ==> SatisfiesHexConstraints(net.params[p].logic, gate.value))
  {
    var outs := Outcomes(net, q, gate, Indices(|net.params|));
    var i :| 0 <= i < |outs| && outs[i] == Ok(true);
    assert Outcome(net, q, gate, i) == Ok(true);
    GateOnlyRemovesMatchesAt(net, q, gate, i);
  }

  /** A network none of whose parameters matches is not reported. */
  lemma UnmatchedNetworkNotReported(netspec: string, net: Network, q: Bounds, gate: Option<HexTable>)
    requires forall p :: 0 <= p < |net.params| ==> Outcome(net, q, gate, p) == Ok(false)
    ensures NetworkResult(netspec, net, q, gate) == Ok(None)
  {
    var outs := Outcomes(net, q, gate, Indices(|net.params|));
    assert forall i :: 0 <= i < |outs| ==> outs[i] == Outcome(net, q, gate, i);
  }

  lemma GateOnlyRemovesMatchesAt(net: Network, q: Bounds, gate: Option<HexTable>, p: nat)
    requires p < |net.params| && Outcome(net, q, gate, p) == Ok(true)
    ensures Outcome(net, q, None, p) == Ok(true)
    ensures gate.Some? ==> SatisfiesHexConstraints(net.params[p].logic, gate.value)
  {
    if gate.Some? {
      GateOnlyRemovesMatches(net, q, gate.value, p);
    }
  }

  /** `compute_for_network_without_constraints` */
  method ComputeWithoutConstraints(netspec: string, graph: string -> Network, q: Bounds) returns (r: Result<Option<string>>)
    ensures r == NetworkResult(netspec, graph(netspec), q, None)
  {
    var network := graph(netspec);
    var found := FindMatch(network, q, None, Indices(|network.params|));
    if found.Err? {
      return Err(found.error);
    }
    return Ok(if found.value then Some(netspec) else None);
  }

  /** `compute_for_network_with_constraints`: a parameter is tried only if its logic meets the table. */
  method ComputeWithConstraints(netspec: string, graph: string -> Network, q: Bounds, table: HexTable) returns (r: Result<Option<string>>)
    ensures r == NetworkResult(netspec, graph(netspec), q, Some(table))
  {
    var network := graph(netspec);
    var found := FindMatch(network, q, Some(table), Indices(|network.params|));
    if found.Err? {
      return Err(found.error);
    }
    return Ok(if found.value then Some(netspec) else None);
  }

  /** `filter(None, output)`: the outputs that are present and non-empty, in order. */
  function KeepTruthy(outputs: seq<Option<string>>): (kept: seq<string>)
    ensures |kept| <= |outputs|
    ensures forall s :: s in kept <==> s != "" && Some(s) in outputs
  {
    if outputs == [] then []
    else
      assert forall i :: 1 <= i < |outputs| ==> outputs[i] == outputs[1..][i - 1];
      (if outputs[0].Some? && outputs[0].value != "" then [outputs[0].value] else []) + KeepTruthy(outputs[1..])
  }

  /** The filter keeps the order of its input: filtering a concatenation concatenates the parts. */
  lemma {:induction false} KeepTruthyAppend(a: seq<Option<string>>, b: seq<Option<string>>)
    ensures KeepTruthy(a + b) == KeepTruthy(a) + KeepTruthy(b)
  {
    if a == [] {
      assert a + b == b;
    } else {
      assert (a + b)[1..] == a[1..] + b;
      KeepTruthyAppend(a[1..], b);
    }
  }

  /** The per-network answers, in network order. */
  function Answers(networks: seq<string>, graph: string -> Network, q: Bounds, gate: Option<HexTable>): (rs: seq<Result<Option<string>>>)
    ensures |rs| == |networks|
    ensures forall k :: 0 <= k < |networks| ==> rs[k] == NetworkResult(networks[k], graph(networks[k]), q, gate)
  {
    if networks == [] then []
    else [NetworkResult(networks[0], graph(networks[0]), q, gate)] + Answers(networks[1..], graph, q, gate)
  }

  /** `query`: the work function is mapped over the networks in order (the first failing network
      raises), then the empty answers are dropped. */
  function QueryResult(networks: seq<string>, graph: string -> Network,
                       included: Option<seq<Bound>>, excluded: Option<seq<Bound>>,
                       hexConstraints: Option<HexTable>): Result<seq<string>>
  {
    if included.None? || excluded.None? then Err(KeyError)
    else
      var outs :- CollectAll(Answers(networks, graph, Bounds(included.value, excluded.value), ChooseGate(hexConstraints)));
      Ok(KeepTruthy(outs))
  }

  /** The networks reported are exactly the (non-empty) specifications that have a match. */
  lemma QueryResultMeaning(networks: seq<string>, graph: string -> Network,
                           included: seq<Bound>, excluded: seq<Bound>, hexConstraints: Option<HexTable>)
    requires QueryResult(networks, graph, Some(included), Some(excluded), hexConstraints).Ok?
    ensures var found := QueryResult(networks, graph, Some(included), Some(excluded), hexConstraints).value;
      forall s :: s in found <==> s != "" && exists k ::
        0 <= k < |networks| && networks[k] == s &&
        NetworkResult(s, graph(s), Bounds(included, excluded), ChooseGate(hexConstraints)) == Ok(Some(s))
  {
    var q := Bounds(included, excluded);
    var gate := ChooseGate(hexConstraints);
    var outs := CollectAll(Answers(networks, graph, q, gate)).value;
    forall s ensures Some(s) in outs <==> exists k ::
        0 <= k < |networks| && networks[k] == s && NetworkResult(s, graph(s), q, gate) == Ok(Some(s)) {
      AnswerPresent(networks, graph, q, gate, s);
    }
  }

  lemma AnswerPresent(networks: seq<string>, graph: string -> Network, q: Bounds, gate: Option<HexTable>, s: string)
    requires CollectAll(Answers(networks, graph, q, gate)).Ok?
    ensures Some(s) in CollectAll(Answers(networks, graph, q, gate)).value <==> exists k ::
      0 <= k < |networks| && networks[k] == s && NetworkResult(s, graph(s), q, gate) == Ok(Some(s))
  {
    var rs := Answers(networks, graph, q, gate);
    var outs := CollectAll(rs).value;
    if Some(s) in outs {
      var k :| 0 <= k < |outs| && outs[k] == Some(s);
      assert rs[k] == Ok(Some(s));
      NetworkResultNames(networks[k], graph(networks[k]), q, gate);
    }
    if exists k :: 0 <= k < |networks| && networks[k] == s && NetworkResult(s, graph(s), q, gate) == Ok(Some(s)) {
      var k :| 0 <= k < |networks| && networks[k] == s && NetworkResult(s, graph(s), q, gate) == Ok(Some(s));
      assert rs[k] == Ok(outs[k]);
      assert outs[k] == Some(s);
    }
  }

  /** A network's answer, when present, is its own specification. */
  lemma NetworkResultNames(netspec: string, net: Network, q: Bounds, gate: Option<HexTable>)
    ensures NetworkResult(netspec, net, q, gate).Ok? && NetworkResult(netspec, net, q, gate).value.Some? ==>
      NetworkResult(netspec, net, q, gate).value.value == netspec
  {
  }
}
