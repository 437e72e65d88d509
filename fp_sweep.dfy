/** The fixed-point test of one parameter, as the fixed-point count query and the
    multistability query apply it to a list of parameter indices.

    `Outcome` fails with the error `have_match` raises, or with `OracleError` for an index outside
    the parameter graph, where `parametergraph.parameter(p)` throws.  An optional hex table gates it: when the
    gate rejects the parameter, `have_match` is not evaluated (Python's `and` short-circuits), so
    that parameter cannot raise. */
module FixedPointSweep {
  import opened Wrappers
  import opened Dsgrn
  import opened FixedPoints
  import opened HexConstraints
  import opened Sweeps

  /** The fixed-point query: bounds every match must satisfy and bounds no match may satisfy. */
  datatype Bounds = Bounds(included: seq<Bound>, excluded: seq<Bound>)

  predicate InRange(net: Network, pl: seq<nat>) {
    forall i :: 0 <= i < |pl| ==> pl[i] < |net.params|
  }

  function Outcome(net: Network, q: Bounds, gate: Option<HexTable>, p: nat): Result<bool>
  {
    if p >= |net.params| then Err(OracleError)
    else
    var param := net.params[p];
    if gate.Some? && !SatisfiesHexConstraints(param.logic, gate.value) then Ok(false)
    else HaveMatch(net.names, param, q.included, q.excluded)
  }

  /** The answers for the indices of `pl`, in order. */
  function Outcomes(net: Network, q: Bounds, gate: Option<HexTable>, pl: seq<nat>): (outs: seq<Result<bool>>)
    ensures |outs| == |pl|
    ensures forall i :: 0 <= i < |pl| ==> outs[i] == Outcome(net, q, gate, pl[i])
  {
    if pl == [] then [] else [Outcome(net, q, gate, pl[0])] + Outcomes(net, q, gate, pl[1..])
  }

  /** An empty hex table gates nothing: it is the same as no table. */
  lemma EmptyGateIsNoGate(net: Network, q: Bounds, pl: seq<nat>)
    ensures Outcomes(net, q, Some(map[]), pl) == Outcomes(net, q, None, pl)
  {
    forall i | 0 <= i < |pl| ensures Outcome(net, q, Some(map[]), pl[i]) == Outcome(net, q, None, pl[i]) {
      if pl[i] < |net.params| {
        Unconstrained(net.params[pl[i]].logic, map[]);
      }
    }
  }

  /** A gate never adds a match: whatever an ungated sweep rejects, the gated one rejects too. */
  lemma GateOnlyRemovesMatches(net: Network, q: Bounds, table: HexTable, p: nat)
    requires p < |net.params|
    ensures Outcome(net, q, Some(table), p) == Ok(true) <==>
      SatisfiesHexConstraints(net.params[p].logic, table) && Outcome(net, q, None, p) == Ok(true)
  {
  }

  /** The early-exit sweep, as the multistability query runs it over `range(size)`. */
  method FindMatch(net: Network, q: Bounds, gate: Option<HexTable>, pl: seq<nat>) returns (r: Result<bool>)
    ensures r == FirstOk(Outcomes(net, q, gate, pl))
  {
    var i := 0;
    while i < |pl|
      invariant 0 <= i <= |pl|
      invariant FirstOk(Outcomes(net, q, gate, pl)) == FirstOk(Outcomes(net, q, gate, pl)[i..])
    {
      var outs := Outcomes(net, q, gate, pl);
      assert outs[i..][1..] == outs[i + 1..];
      var m := Outcome(net, q, gate, pl[i]);
      if m.Err? {
        return Err(m.error);
      }
      if m.value {
        return Ok(true);
      }
      i := i + 1;
    }
    return Ok(false);
  }
}
