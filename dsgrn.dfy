/** What the queries see of the DSGRN library, as plain data.

    A network is its specification text, its variable names (in DSGRN's index order) and its
    parameter graph.  A parameter carries what DSGRN would compute for it: the nodes of its Morse
    graph (first annotation, number of children in the Morse graph's poset and in the Morse
    decomposition's poset, and whether the search graph of that Morse set path- or cycle-matches
    a given pattern), its logic nodes, whether the whole domain graph
    path- or cycle-matches a given pattern, and the stringified Morse graph.  The match answers are
    functions of the poset of extrema from which the pattern graph is built. */
module Dsgrn {

  /** A poset of extrema in DSGRN format: event labels and the ordering relation. */
  datatype Poset = Poset(events: seq<string>, ordering: seq<(nat, nat)>)

  datatype MorseNode = MorseNode(
    annotation: string,
    children: nat,
    decompChildren: nat,
    pathMatch: Poset -> bool,
    cycleMatch: Poset -> bool)

  datatype LogicNode = LogicNode(numInputs: nat, numOutputs: nat, hex: string)

  datatype Parameter = Parameter(
    morse: seq<MorseNode>,
    logic: seq<LogicNode>,
    domainPath: Poset -> bool,
    domainCycle: Poset -> bool,
    morseGraph: string)

  datatype Network = Network(spec: string, names: seq<string>, params: seq<Parameter>)
  {
    /** The size of the parameter graph. */
    function Size(): nat { |params| }
  }

  /** The poset whose children decide stability: the Morse graph's or the Morse decomposition's.
      The queries differ in which one they read. */
  datatype PosetSource = MorseGraphPoset | DecompositionPoset

  /** A Morse set with no children is stable. */
  predicate IsStable(n: MorseNode) {
    n.children == 0
  }

  predicate IsStableIn(n: MorseNode, src: PosetSource) {
    if src == MorseGraphPoset then n.children == 0 else n.decompChildren == 0
  }

  /** A stable Morse set whose first annotation is exactly "FC": a stable full cycle. */
  predicate IsStableFC(n: MorseNode, src: PosetSource) {
    n.annotation == "FC" && IsStableIn(n, src)
  }

  /** A Morse set labelled "FC" or "XC" that is stable in the decomposition's poset. */
  predicate IsStableCycle(n: MorseNode) {
    (n.annotation == "FC" || n.annotation == "XC") && IsStableIn(n, DecompositionPoset)
  }

  predicate HasStableFC(p: Parameter, src: PosetSource) {
    exists i :: 0 <= i < |p.morse| && IsStableFC(p.morse[i], src)
  }

  /** Some stable full cycle of `p` path-matches the pattern built from `pos`. */
  predicate StableFCPathMatch(p: Parameter, pos: Poset, src: PosetSource) {
    exists i :: 0 <= i < |p.morse| && IsStableFC(p.morse[i], src) && p.morse[i].pathMatch(pos)
  }

  /** Some stable "FC"/"XC" Morse set of `p` cycle-matches the pattern built from `pos`. */
  predicate StableCycleMatch(p: Parameter, pos: Poset) {
    exists i :: 0 <= i < |p.morse| && IsStableCycle(p.morse[i]) && p.morse[i].cycleMatch(pos)
  }

  lemma StableFCPathMatchHasFC(p: Parameter, pos: Poset, src: PosetSource)
    requires StableFCPathMatch(p, pos, src)
    ensures HasStableFC(p, src)
  {
    var i :| 0 <= i < |p.morse| && IsStableFC(p.morse[i], src) && p.morse[i].pathMatch(pos);
  }
}
