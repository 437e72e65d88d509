/** The hex-code constraint on a parameter's logic nodes.  A table maps a node type
    (number of in-edges, number of out-edges) to the hex codes allowed for nodes of that type;
    node types missing from the table are unconstrained.

    The multistability query reads its table with `json.load`, whose objects have string keys
    only, while the scan looks each node type up as a tuple.  `SatisfiesLoaded` is the scan over
    a dictionary with keys of either kind; `SatisfiesHexConstraints` is the intended check over a
    table keyed by node types. */
module HexConstraints {
  import opened Dsgrn

  type HexTable = map<(nat, nat), seq<string>>

  function NodeType(v: LogicNode): (nat, nat) {
    (v.numInputs, v.numOutputs)
  }

  predicate Allowed(v: LogicNode, table: HexTable) {
    NodeType(v) in table ==> v.hex in table[NodeType(v)]
  }

  /** Nodes are inspected in order and the first one with a forbidden code stops the scan. */
  function SatisfiesHexConstraints(logic: seq<LogicNode>, table: HexTable): (ok: bool)
    ensures ok <==> forall i :: 0 <= i < |logic| ==> Allowed(logic[i], table)
  {
    if logic == [] then true
    else if NodeType(logic[0]) in table && logic[0].hex !in table[NodeType(logic[0])] then false
    else
      assert forall i :: 1 <= i < |logic| ==> logic[i] == logic[1..][i - 1];
      SatisfiesHexConstraints(logic[1..], table)
  }

  /** The answer does not depend on the order of the logic nodes. */
  lemma OrderIndependent(l1: seq<LogicNode>, l2: seq<LogicNode>, table: HexTable)
    requires multiset(l1) == multiset(l2)
    ensures SatisfiesHexConstraints(l1, table) == SatisfiesHexConstraints(l2, table)
  {
    forall i | 0 <= i < |l2| ensures exists j :: 0 <= j < |l1| && l1[j] == l2[i] {
      assert l2[i] in multiset(l2);
      assert l2[i] in l1;
    }
    forall i | 0 <= i < |l1| ensures exists j :: 0 <= j < |l2| && l2[j] == l1[i] {
      assert l1[i] in multiset(l1);
      assert l1[i] in l2;
    }
  }

  /** An empty table, or a parameter without logic nodes, always satisfies the constraints. */
  lemma Unconstrained(logic: seq<LogicNode>, table: HexTable)
    ensures SatisfiesHexConstraints(logic, map[])
    ensures SatisfiesHexConstraints([], table)
  {
  }

  /** `weaker` constrains no more node types than `stronger`, and allows at least its codes. */
  predicate Weaker(weaker: HexTable, stronger: HexTable) {
    forall t :: t in weaker ==> t in stronger && forall h :: h in stronger[t] ==> h in weaker[t]
  }

  /** Removing a node type or allowing more codes never turns an accepted parameter into a rejected one. */
  lemma WeakerAccepts(logic: seq<LogicNode>, weaker: HexTable, stronger: HexTable)
    requires Weaker(weaker, stronger)
    requires SatisfiesHexConstraints(logic, stronger)
    ensures SatisfiesHexConstraints(logic, weaker)
  {
    forall i | 0 <= i < |logic| ensures Allowed(logic[i], weaker) {
      assert Allowed(logic[i], stronger);
    }
  }

  lemma RemovingTypeAccepts(logic: seq<LogicNode>, table: HexTable, t: (nat, nat))
    requires SatisfiesHexConstraints(logic, table)
    ensures SatisfiesHexConstraints(logic, table - {t})
  {
    WeakerAccepts(logic, table - {t}, table);
  }

  lemma AllowingCodesAccepts(logic: seq<LogicNode>, table: HexTable, t: (nat, nat), extra: seq<string>)
    requires t in table
    requires SatisfiesHexConstraints(logic, table)
    ensures SatisfiesHexConstraints(logic, table[t := table[t] + extra])
  {
    WeakerAccepts(logic, table[t := table[t] + extra], table);
  }

  // ---- the table as `dict(params["hex_constraints"])` holds it ----

  /** A dictionary key: a JSON object key is a string; a node type is a tuple, which equals no
      string. */
  datatype PyKey = Str(text: string) | Tuple(numInputs: nat, numOutputs: nat)

  type LoadedTable = map<PyKey, seq<string>>

  /** The dictionary made from a JSON object: the same entries under string keys. */
  function Loaded(obj: map<string, seq<string>>): (t: LoadedTable)
    ensures forall k :: k in t <==> k.Str? && k.text in obj
    ensures forall s :: s in obj ==> t[Str(s)] == obj[s]
  {
    map s | s in obj :: Str(s) := obj[s]
  }

  /** The same table with every node type as a tuple key. */
  function TupleKeyed(table: HexTable): (t: LoadedTable)
    ensures forall k :: k in t <==> k.Tuple? && (k.numInputs, k.numOutputs) in table
    ensures forall n :: n in table ==> t[Tuple(n.0, n.1)] == table[n]
  {
    map n | n in table :: Tuple(n.0, n.1) := table[n]
  }

  predicate AllowedLoaded(v: LogicNode, table: LoadedTable) {
    Tuple(v.numInputs, v.numOutputs) in table ==> v.hex in table[Tuple(v.numInputs, v.numOutputs)]
  }

  /** `satisfies_hex_constraints` as written, over whatever dictionary it is given: a node is
      looked up under the tuple of its in- and out-degree. */
  function SatisfiesLoaded(logic: seq<LogicNode>, table: LoadedTable): (ok: bool)
    ensures ok <==> forall i :: 0 <= i < |logic| ==> AllowedLoaded(logic[i], table)
  {
    if logic == [] then true
    else
      var n := Tuple(logic[0].numInputs, logic[0].numOutputs);
      if n in table && logic[0].hex !in table[n] then false
      else
        assert forall i :: 1 <= i < |logic| ==> logic[i] == logic[1..][i - 1];
        SatisfiesLoaded(logic[1..], table)
  }

  /** As written, a table read from a JSON object constrains nothing: no tuple is one of its
      keys, so every parameter is accepted. */
  lemma {:induction false} LoadedFromJsonAcceptsAll(logic: seq<LogicNode>, obj: map<string, seq<string>>)
    ensures SatisfiesLoaded(logic, Loaded(obj))
  {
    if logic != [] {
      assert Tuple(logic[0].numInputs, logic[0].numOutputs) !in Loaded(obj);
      assert forall i :: 1 <= i < |logic| ==> logic[i] == logic[1..][i - 1];
      LoadedFromJsonAcceptsAll(logic[1..], obj);
    }
  }

  /** The configuration example: nodes of type (1,2) may only carry code "C".  Read from JSON
      the table lets a (1,2) node with code "8" through. */
  lemma JsonTableLetsViolationThrough()
    ensures SatisfiesLoaded([LogicNode(1, 2, "8")], Loaded(map["(1,2)" := ["C"]]))
  {
    LoadedFromJsonAcceptsAll([LogicNode(1, 2, "8")], map["(1,2)" := ["C"]]);
  }

  /** Keyed by node types, the same table rejects that node. */
  lemma TupleTableRejectsViolation()
    ensures !SatisfiesHexConstraints([LogicNode(1, 2, "8")], map[(1, 2) := ["C"]])
  {
    var v := LogicNode(1, 2, "8");
    var table: HexTable := map[(1, 2) := ["C"]];
    assert v.hex != "C" by { assert v.hex[0] != "C"[0]; }
    assert !Allowed([v][0], table);
  }

  /** With node types as tuple keys, the scan as written is the intended check. */
  lemma TupleKeyedIsIntended(logic: seq<LogicNode>, table: HexTable)
    ensures SatisfiesLoaded(logic, TupleKeyed(table)) == SatisfiesHexConstraints(logic, table)
  {
    forall i | 0 <= i < |logic| ensures AllowedLoaded(logic[i], TupleKeyed(table)) == Allowed(logic[i], table) {
      assert NodeType(logic[i]) == (logic[i].numInputs, logic[i].numOutputs);
    }
  }
}
