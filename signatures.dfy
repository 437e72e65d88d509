/** `SaveDatabase` and `make_db` of `signatures_no_mpi`: the Morse graph of every parameter is
    computed as a string, equal strings are interned to one dense index in order of first
    appearance, and the database stores the pairs (parameter index, Morse graph index) under the
    file name without its ".db" suffix.  Parsing the interned strings back into Morse graphs and
    the sqlite tables built from them are not modelled. */
module Signatures {
  import opened Dicts

  /** The Morse graph strings of `data`, in order. */
  function Graphs(data: seq<(nat, string)>): (gs: seq<string>)
    ensures |gs| == |data|
    ensures forall i :: 0 <= i < |data| ==> gs[i] == data[i].1
  {
    seq(|data|, i requires 0 <= i < |data| => data[i].1)
  }

  /** The position of `x` in `l`. */
  function IndexOf<T(==)>(l: seq<T>, x: T): (i: nat)
    requires x in l
    ensures i < |l| && l[i] == x
  {
    if l[0] == x then 0 else 1 + IndexOf(l[1..], x)
  }

  /** In a list without repeats, the position of an element is the only one holding it. */
  lemma IndexOfUnique<T>(l: seq<T>, x: T, k: nat)
    requires NoDuplicates(l) && k < |l| && l[k] == x
    ensures IndexOf(l, x) == k
  {
  }

  /** `morsegraphs` once every pair is in: the distinct strings in order of first appearance. */
  function MorseGraphs(data: seq<(nat, string)>): seq<string> {
    Distinct(Graphs(data))
  }

  /** The pairs `signatures_table` yields: each parameter index with the position of its string
      among the distinct strings. */
  function Interned(data: seq<(nat, string)>): (t: seq<(nat, nat)>)
    ensures |t| == |data|
  {
    seq(|data|, i requires 0 <= i < |data| => (data[i].0, IndexOf(MorseGraphs(data), data[i].1)))
  }

  lemma DistinctSnoc(l: seq<string>, i: nat)
    requires i < |l|
    ensures Distinct(l[..i + 1]) == if l[i] in Distinct(l[..i]) then Distinct(l[..i]) else Distinct(l[..i]) + [l[i]]
  {
    assert l[..i + 1][..i] == l[..i];
  }

  /** The distinct elements of a prefix come first among those of the whole list. */
  lemma {:induction false} DistinctPrefix(l: seq<string>, i: nat)
    requires i <= |l|
    ensures Distinct(l[..i]) <= Distinct(l)
    decreases |l| - i
  {
    if i == |l| {
      assert l[..i] == l;
    } else {
      DistinctSnoc(l, i);
      DistinctPrefix(l, i + 1);
    }
  }

  /** `indices` holds each string of `morsegraphs` and gives its position. */
  ghost predicate Registered(indices: map<string, nat>, morsegraphs: seq<string>) {
    && (forall k :: 0 <= k < |morsegraphs| ==> morsegraphs[k] in indices)
    && |indices| == |morsegraphs|
    && forall g :: g in indices ==> indices[g] < |morsegraphs| && morsegraphs[indices[g]] == g
  }

  /** The first `i` pairs of `table` carry the parameter indices of `data` and indices naming
      their strings. */
  ghost predicate Tabled(data: seq<(nat, string)>, i: nat, table: seq<(nat, nat)>, morsegraphs: seq<string>) {
    && i <= |data| && |table| == i
    && forall j :: 0 <= j < i ==> table[j].0 == data[j].0 && table[j].1 < |morsegraphs| && morsegraphs[table[j].1] == data[j].1
  }

  /** The state of the interning loop after the first `i` pairs: `morsegraphs` holds the
      distinct strings met so far, `indices` the position of each, and `table` a pair per input. */
  ghost predicate Interning(data: seq<(nat, string)>, i: nat, indices: map<string, nat>, table: seq<(nat, nat)>, morsegraphs: seq<string>) {
    && i <= |data|
    && morsegraphs == Distinct(Graphs(data)[..i])
    && Registered(indices, morsegraphs)
    && Tabled(data, i, table, morsegraphs)
  }

  /** One pair of `signatures_table`: a string already met keeps its index, a new string gets
      the number of strings met so far and is appended to `morsegraphs`. */
  method InternNext(data: seq<(nat, string)>, i: nat, indices: map<string, nat>, table: seq<(nat, nat)>, morsegraphs: seq<string>)
    returns (indices2: map<string, nat>, table2: seq<(nat, nat)>, morsegraphs2: seq<string>)
    requires i < |data| && Interning(data, i, indices, table, morsegraphs)
    ensures Interning(data, i + 1, indices2, table2, morsegraphs2)
  {
    var (pi, mg) := data[i];
    DistinctSnoc(Graphs(data), i);
    var mgi: nat;
    if mg in indices {
      mgi := indices[mg];
      indices2, morsegraphs2 := indices, morsegraphs;
      TabledGrow(data, i, table, morsegraphs, [], mgi);
      assert morsegraphs + [] == morsegraphs;
    } else {
      mgi := |indices|;
      indices2 := indices[mg := mgi];
      morsegraphs2 := morsegraphs + [mg];
      RegisterNew(indices, morsegraphs, mg);
      TabledGrow(data, i, table, morsegraphs, [mg], mgi);
    }
    table2 := table + [(pi, mgi)];
  }

  lemma RegisterNew(indices: map<string, nat>, morsegraphs: seq<string>, mg: string)
    requires Registered(indices, morsegraphs) && mg !in indices
    ensures Registered(indices[mg := |indices|], morsegraphs + [mg])
  {
    var m2 := morsegraphs + [mg];
    forall k | 0 <= k < |m2| ensures m2[k] in indices[mg := |indices|] {
      if k < |morsegraphs| {
        assert m2[k] == morsegraphs[k];
      }
    }
  }

  lemma TabledGrow(data: seq<(nat, string)>, i: nat, table: seq<(nat, nat)>, morsegraphs: seq<string>, more: seq<string>, mgi: nat)
    requires i < |data| && Tabled(data, i, table, morsegraphs)
    requires mgi < |morsegraphs + more| && (morsegraphs + more)[mgi] == data[i].1
    ensures Tabled(data, i + 1, table + [(data[i].0, mgi)], morsegraphs + more)
  {
    var m2 := morsegraphs + more;
    forall j | 0 <= j < i ensures m2[table[j].1] == morsegraphs[table[j].1] {
    }
  }

  /** The interning loop over `data`. */
  method SignaturesTable(data: seq<(nat, string)>) returns (table: seq<(nat, nat)>, morsegraphs: seq<string>)
    ensures morsegraphs == MorseGraphs(data)
    ensures table == Interned(data)
  {
    var indices: map<string, nat> := map[];
    morsegraphs, table := [], [];
    for i := 0 to |data|
      invariant Interning(data, i, indices, table, morsegraphs)
    {
      indices, table, morsegraphs := InternNext(data, i, indices, table, morsegraphs);
    }
    assert Graphs(data)[..|data|] == Graphs(data);
    forall j | 0 <= j < |data| ensures table[j] == Interned(data)[j] {
      IndexOfUnique(morsegraphs, data[j].1, table[j].1);
    }
  }

  /** Equal strings get equal indices, and different strings different ones. */
  lemma SameIndexIffSameGraph(data: seq<(nat, string)>, i: nat, j: nat)
    requires i < |data| && j < |data|
    ensures Interned(data)[i].1 == Interned(data)[j].1 <==> data[i].1 == data[j].1
  {
    assert data[i].1 in Graphs(data) && data[j].1 in Graphs(data);
  }

  /** Every interned index names its pair's string, and the indices are dense: each position of
      `morsegraphs` is the index of some pair. */
  lemma InternedDense(data: seq<(nat, string)>, k: nat)
    requires k < |MorseGraphs(data)|
    ensures exists i :: 0 <= i < |data| && Interned(data)[i].1 == k
  {
    var g := MorseGraphs(data)[k];
    assert g in Graphs(data);
    var i :| 0 <= i < |data| && Graphs(data)[i] == g;
    IndexOfUnique(MorseGraphs(data), g, k);
    assert Interned(data)[i].1 == k;
  }

  /** The interned index names the pair's own string. */
  lemma InternedNames(data: seq<(nat, string)>, i: nat)
    requires i < |data|
    ensures Interned(data)[i].0 == data[i].0
    ensures Interned(data)[i].1 < |MorseGraphs(data)| && MorseGraphs(data)[Interned(data)[i].1] == data[i].1
  {
    assert data[i].1 in Graphs(data);
  }

  /** A string not met before gets the number of distinct strings met before it. */
  lemma NewGraphIndex(data: seq<(nat, string)>, i: nat)
    requires i < |data| && data[i].1 !in Graphs(data[..i])
    ensures Interned(data)[i].1 == |Distinct(Graphs(data[..i]))|
  {
    var gs := Graphs(data);
    assert Graphs(data[..i]) == gs[..i];
    DistinctSnoc(gs, i);
    DistinctPrefix(gs, i + 1);
    var before := Distinct(gs[..i]);
    assert gs[i] !in before;
    assert Distinct(gs[..i + 1])[|before|] == data[i].1;
    assert MorseGraphs(data)[|before|] == data[i].1;
    assert data[i].1 in gs;
    IndexOfUnique(MorseGraphs(data), data[i].1, |before|);
  }

  // ---- the database ----

  /** `filename[-3:] == '.db'` */
  predicate EndsWithDb(f: string) {
    |f| >= 3 && f[|f| - 3..] == ".db"
  }

  /** The database's name: the file name without a trailing ".db". */
  function DbName(f: string): string {
    if EndsWithDb(f) then f[..|f| - 3] else f
  }

  /** The suffix is removed once, and putting it back gives the file name. */
  lemma DbNameRoundTrip(name: string, f: string)
    ensures DbName(name + ".db") == name
    ensures EndsWithDb(f) ==> DbName(f) + ".db" == f
    ensures !EndsWithDb(f) ==> DbName(f) == f
  {
    var g := name + ".db";
    assert g[|g| - 3..] == ".db";
    assert g[..|g| - 3] == name;
    if EndsWithDb(f) {
      assert f == f[..|f| - 3] + f[|f| - 3..];
    }
  }

  /** What `SaveDatabase` stores of the model: the network's name, the Signatures table and the
      interned Morse graph strings from which the other tables are parsed. */
  datatype Database = Database(name: string, signatures: seq<(nat, nat)>, morsegraphs: seq<string>)

  method SaveDatabase(filename: string, data: seq<(nat, string)>) returns (db: Database)
    ensures db == Database(DbName(filename), Interned(data), MorseGraphs(data))
  {
    var name := filename;
    if |filename| >= 3 && filename[|filename| - 3..] == ".db" {
      name := filename[..|filename| - 3];
    }
    var table, morsegraphs := SignaturesTable(data);
    db := Database(name, table, morsegraphs);
  }

  /** `results` of `make_db`: every parameter index of a parameter graph of `size` parameters, in
      order, with the string of its Morse graph. */
  method MakeResults(size: nat, morseGraphOf: nat -> string) returns (results: seq<(nat, string)>)
    ensures |results| == size
    ensures forall i :: 0 <= i < size ==> results[i] == (i, morseGraphOf(i))
  {
    results := [];
    for pi := 0 to size
      invariant |results| == pi
      invariant forall i :: 0 <= i < pi ==> results[i] == (i, morseGraphOf(i))
    {
      results := results + [(pi, morseGraphOf(pi))];
    }
  }

  /** `make_db(specfile, outfile)`, with `size` and `morseGraphOf` the parameter graph's size and
      the stringified Morse graph of each parameter. */
  method MakeDb(outfile: string, size: nat, morseGraphOf: nat -> string) returns (db: Database)
    ensures db.name == DbName(outfile)
    ensures |db.signatures| == size
    ensures forall i :: 0 <= i < size ==>
      db.signatures[i].0 == i && db.signatures[i].1 < |db.morsegraphs| && db.morsegraphs[db.signatures[i].1] == morseGraphOf(i)
    ensures NoDuplicates(db.morsegraphs)
    ensures forall g :: g in db.morsegraphs <==> exists i :: 0 <= i < size && morseGraphOf(i) == g
  {
    var results := MakeResults(size, morseGraphOf);
    db := SaveDatabase(outfile, results);
    forall i | 0 <= i < size
      ensures db.signatures[i].0 == i && db.signatures[i].1 < |db.morsegraphs| && db.morsegraphs[db.signatures[i].1] == morseGraphOf(i)
    {
      InternedNames(results, i);
    }
    forall g | g in db.morsegraphs ensures exists i :: 0 <= i < size && morseGraphOf(i) == g {
      assert g in Graphs(results);
      var i :| 0 <= i < size && Graphs(results)[i] == g;
    }
    forall g | exists i :: 0 <= i < size && morseGraphOf(i) == g ensures g in db.morsegraphs {
      var i :| 0 <= i < size && morseGraphOf(i) == g;
      assert Graphs(results)[i] == g;
    }
  }
}
