/** The stable full-cycle count queries: `CountStableFC` tallies, per network, the parameters
    having a stable Morse set whose first annotation starts with "FC"; the large-network variant
    takes the same count from a signatures database. */
module StableFullCycles {
  import opened Wrappers
  import opened Strings
  import opened Dsgrn
  import opened FixedPoints
  import opened Sweeps

  predicate IsFC(annotation: string) {
    StartsWith(annotation, "FC")
  }

  /** The test `check_FC` applies to one parameter: some childless node's first annotation
      starts with "FC". */
  predicate HasStableFCPrefix(p: Parameter) {
    exists i :: 0 <= i < |p.morse| && IsFC(p.morse[i].annotation) && IsStable(p.morse[i])
  }

  /** `stable_FC_annotations` is non-empty exactly when the parameter passes the test. */
  lemma StableFCAnnotationsNonEmpty(p: Parameter)
    ensures |StableLabels(p.morse, "FC")| > 0 <==> HasStableFCPrefix(p)
  {
    var labels := StableLabels(p.morse, "FC");
    if |labels| > 0 {
      assert labels[0] in labels;
    }
    if HasStableFCPrefix(p) {
      var i :| 0 <= i < |p.morse| && IsFC(p.morse[i].annotation) && IsStable(p.morse[i]);
      assert p.morse[i].annotation in labels;
    }
  }

  function FCFlags(params: seq<Parameter>): (bs: seq<bool>)
    ensures |bs| == |params|
    ensures forall i :: 0 <= i < |params| ==> bs[i] == HasStableFCPrefix(params[i])
  {
    if params == [] then [] else [HasStableFCPrefix(params[0])] + FCFlags(params[1..])
  }

  /** The parameter indices `check_FC` counts. */
  function StableFCIndices(net: Network): set<nat> {
    set p: nat | p < |net.params| && HasStableFCPrefix(net.params[p])
  }

  lemma FlagsCountIndices(net: Network)
    ensures CountTrue(FCFlags(net.params)) == |StableFCIndices(net)|
  {
    var flags := FCFlags(net.params);
    CountTrueIsCardinality(flags);
    assert TrueIndices(flags) == StableFCIndices(net);
  }

  /** `check_FC`: `(count, size)`, where count is the number of parameters with a stable FC. */
  method CheckFC(netspec: string, graph: string -> Network) returns (r: (string, (nat, nat)))
    ensures r == (netspec, (|StableFCIndices(graph(netspec))|, |graph(netspec).params|))
    ensures r.1.0 <= r.1.1
  {
    var parametergraph := graph(netspec);
    ghost var flags := FCFlags(parametergraph.params);
    var count := 0;
    var p := 0;
    while p < |parametergraph.params|
      invariant 0 <= p <= |parametergraph.params|
      invariant count == CountTrue(flags[..p])
    {
      var parameter := parametergraph.params[p];
      var stableFCAnnotations := StableLabels(parameter.morse, "FC");
      StableFCAnnotationsNonEmpty(parameter);
      CountTrueSnoc(flags, p);
      assert flags[p] == (|stableFCAnnotations| > 0);
      if |stableFCAnnotations| > 0 {
        count := count + 1;
      }
      p := p + 1;
    }
    assert flags[..p] == flags;
    FlagsCountIndices(parametergraph);
    return (netspec, (count, |parametergraph.params|));
  }

  // ---- CountStableFC_large_networks ----

  /** The "num_proc" and "count" entries of the parameter file, when present. */
  datatype LargeSettings = LargeSettings(numProc: Option<nat>, count: Option<bool>)

  /** `sanity_check` returns both entries, or refuses a file lacking either. */
  const MissingNumProcOrCount := "The keys 'num_proc' and 'count' must be specified in the parameter file."

  function SanityCheck(s: LargeSettings): (r: Result<(nat, bool)>)
    ensures r.Ok? <==> s.numProc.Some? && s.count.Some?
    ensures r.Ok? ==> r.value == (s.numProc.value, s.count.value)
    ensures r.Err? ==> r.error == ValueError(MissingNumProcOrCount)
  {
    if s.numProc.None? || s.count.None? then Err(ValueError(MissingNumProcOrCount))
    else Ok((s.numProc.value, s.count.value))
  }

  /** A network's entry: `(matches, N)` in count mode, `(matches > 0, N)` otherwise. */
  datatype FCEntry = Counted(matches: nat, size: nat) | Found(found: bool, size: nat)

  /** `matches` is the length of the database's stable-FC query result for the network. */
  function Entry(netspec: string, graph: string -> Network, stableFCQuery: string -> seq<nat>, count: bool): FCEntry {
    var n := |graph(netspec).params|;
    var matches := |stableFCQuery(netspec)|;
    if count then Counted(matches, n) else Found(matches > 0, n)
  }

  /** The entries for every network; a specification listed twice is overwritten by the same value. */
  function LargeResults(networks: seq<string>, graph: string -> Network, stableFCQuery: string -> seq<nat>, count: bool): map<string, FCEntry> {
    map s | s in networks :: Entry(s, graph, stableFCQuery, count)
  }

  /** The query refuses an empty network list. */
  const NoNetworks := "No networks available for analysis. Make sure network file is in the correct format."

  /** `query`: an empty network list is refused before the parameter file is checked; then every
      network is looked up in its own database and its entry recorded. */
  method LargeQuery(networks: seq<string>, s: LargeSettings, graph: string -> Network, stableFCQuery: string -> seq<nat>)
    returns (r: Result<map<string, FCEntry>>)
    ensures networks == [] ==> r == Err(ValueError(NoNetworks))
    ensures networks != [] ==> (r.Ok? <==> SanityCheck(s).Ok?)
    ensures r.Ok? ==> r.value == LargeResults(networks, graph, stableFCQuery, SanityCheck(s).value.1)
    ensures r.Ok? ==> r.value.Keys == set n | n in networks
  {
    if networks == [] {
      return Err(ValueError(NoNetworks));
    }
    var checked := SanityCheck(s);
    if checked.Err? {
      return Err(checked.error);
    }
    var (_, count) := checked.value;
    var results: map<string, FCEntry> := map[];
    var k := 0;
    while k < |networks|
      invariant 0 <= k <= |networks|
      invariant results == LargeResults(networks[..k], graph, stableFCQuery, count)
    {
      assert networks[..k + 1] == networks[..k] + [networks[k]];
      var netspec := networks[k];
      var n := |graph(netspec).params|;
      var matches := |stableFCQuery(netspec)|;
      if count {
        results := results[netspec := Counted(matches, n)];
      } else {
        results := results[netspec := Found(matches > 0, n)];
      }
      k := k + 1;
    }
    assert networks[..k] == networks;
    return Ok(results);
  }

  /** Existence mode reports `matches > 0` for the count count mode reports. */
  lemma FoundIsCountPositive(netspec: string, graph: string -> Network, stableFCQuery: string -> seq<nat>)
    ensures Entry(netspec, graph, stableFCQuery, false).found == (Entry(netspec, graph, stableFCQuery, true).matches > 0)
    ensures Entry(netspec, graph, stableFCQuery, false).size == Entry(netspec, graph, stableFCQuery, true).size
  {
  }
}
