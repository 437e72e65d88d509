/** The fixed-point bound predicates shared by the fixed-point count query and the multistability
    query: reading the coordinates out of an "FP { a, b, c }" annotation, checking them against
    per-variable integer ranges, and combining the "included" and "excluded" bound lists.

    A bound is a JSON object from variable names to `[lo, hi]`; it is modelled as the list of its
    (name, range) entries in the object's order, with distinct names. */
module FixedPoints {
  import opened Wrappers
  import opened Strings
  import opened Dsgrn

  datatype Range = Range(lo: int, hi: int)

  predicate Within(d: int, r: Range) {
    r.lo <= d <= r.hi
  }

  type Bound = seq<(string, Range)>

  /** A bound after its names have been replaced by network indices. */
  type IndexBound = seq<(nat, Range)>

  predicate IsFP(annotation: string) {
    StartsWith(annotation, "FP")
  }

  /** The labels that start with `prefix` on stable Morse nodes, in node order. */
  function StableLabels(nodes: seq<MorseNode>, prefix: string): (labels: seq<string>)
    ensures |labels| <= |nodes|
    ensures forall a :: a in labels <==>
      exists i :: 0 <= i < |nodes| && nodes[i].annotation == a && StartsWith(a, prefix) && IsStable(nodes[i])
  {
    if nodes == [] then []
    else
      var rest := StableLabels(nodes[1..], prefix);
      assert forall a :: a in rest <==>
        exists i :: 1 <= i < |nodes| && nodes[i].annotation == a && StartsWith(a, prefix) && IsStable(nodes[i]) by {
        forall a | a in rest ensures
          exists i :: 1 <= i < |nodes| && nodes[i].annotation == a && StartsWith(a, prefix) && IsStable(nodes[i]) {
          var i :| 0 <= i < |nodes[1..]| && nodes[1..][i].annotation == a && StartsWith(a, prefix) && IsStable(nodes[1..][i]);
          assert nodes[i + 1] == nodes[1..][i];
        }
        forall a, i | 1 <= i < |nodes| && nodes[i].annotation == a && StartsWith(a, prefix) && IsStable(nodes[i])
          ensures a in rest {
          assert nodes[1..][i - 1] == nodes[i];
        }
      }
      if StartsWith(nodes[0].annotation, prefix) && IsStable(nodes[0]) then [nodes[0].annotation] + rest else rest
  }

  /** The annotations of the stable fixed points of a parameter. */
  function StableFPAnnotations(p: Parameter): seq<string> {
    StableLabels(p.morse, "FP")
  }

  /** The all-digit tokens of `ws`, in order, as numbers. */
  function DigitTokens(ws: seq<string>): (ds: seq<nat>)
    ensures |ds| <= |ws|
    ensures (forall i :: 0 <= i < |ws| ==> IsDigitToken(ws[i])) ==> |ds| == |ws|
  {
    if ws == [] then []
    else (if IsDigitToken(ws[0]) then [ParseNat(ws[0])] else []) + DigitTokens(ws[1..])
  }

  /** The fixed point's coordinates: commas deleted, split at white space, all-digit tokens kept. */
  function Digits(annotation: string): seq<nat> {
    DigitTokens(Split(Remove(annotation, ',')))
  }

  /** The bound check of one fixed point.  The entries are tried in order; the first one whose
      index is beyond the coordinates raises IndexError unless an earlier entry has already
      failed its range.  Indices that the bound does not name are not looked at. */
  function IsFPMatch(ib: IndexBound, annotation: string): (r: Result<bool>)
    ensures r == Ok(true) <==> forall j :: 0 <= j < |ib| ==>
      ib[j].0 < |Digits(annotation)| && Within(Digits(annotation)[ib[j].0], ib[j].1)
    ensures (forall j :: 0 <= j < |ib| ==> ib[j].0 < |Digits(annotation)|) ==> r.Ok?
    ensures r.Err? ==> r.error == IndexError
  {
    var ds := Digits(annotation);
    if ib == [] then Ok(true)
    else if ib[0].0 >= |ds| then Err(IndexError)
    else if !Within(ds[ib[0].0], ib[0].1) then Ok(false)
    else IsFPMatch(ib[1..], annotation)
  }

  /** `network.index(name)`: the position of `name` among the network's variables. */
  function IndexOf(names: seq<string>, name: string): (r: Option<nat>)
    ensures r.Some? <==> name in names
    ensures r.Some? ==> r.value < |names| && names[r.value] == name
  {
    if names == [] then None
    else if names[0] == name then Some(0)
    else match IndexOf(names[1..], name)
      case None => None
      case Some(i) => Some(i + 1)
  }

  /** Replaces each variable name of a bound by its network index; an unknown name is an error. */
  function TranslateBound(names: seq<string>, b: Bound): (r: Result<IndexBound>)
    ensures r.Ok? <==> forall j :: 0 <= j < |b| ==> b[j].0 in names
    ensures r.Ok? ==> |r.value| == |b| && forall j :: 0 <= j < |b| ==>
      r.value[j].0 < |names| && names[r.value[j].0] == b[j].0 && r.value[j].1 == b[j].1
  {
    if b == [] then Ok([])
    else
      var k := IndexOf(names, b[0].0);
      if k.None? then Err(KeyError)
      else
        assert forall j :: 1 <= j < |b| ==> b[j] == b[1..][j - 1];
        var rest :- TranslateBound(names, b[1..]);
        Ok([(k.value, b[0].1)] + rest)
  }

  /** `any([is_FP_match(ib, a) for a in annotations])`: every annotation is checked, in order. */
  function AnyMatch(ib: IndexBound, annotations: seq<string>): (r: Result<bool>)
    ensures r.Ok? <==> forall i :: 0 <= i < |annotations| ==> IsFPMatch(ib, annotations[i]).Ok?
    ensures r.Ok? ==> (r.value <==> exists i :: 0 <= i < |annotations| && IsFPMatch(ib, annotations[i]) == Ok(true))
  {
    if annotations == [] then Ok(false)
    else
      assert forall i :: 1 <= i < |annotations| ==> annotations[i] == annotations[1..][i - 1];
      var h :- IsFPMatch(ib, annotations[0]);
      var t :- AnyMatch(ib, annotations[1..]);
      Ok(h || t)
  }

  /** Does some stable fixed point satisfy bound `b`? */
  function IsMultistableMatch(names: seq<string>, b: Bound, annotations: seq<string>): (r: Result<bool>)
    ensures annotations == [] && TranslateBound(names, b).Ok? ==> r == Ok(false)
    ensures r.Ok? <==> (TranslateBound(names, b).Ok? &&
      forall i :: 0 <= i < |annotations| ==> IsFPMatch(TranslateBound(names, b).value, annotations[i]).Ok?)
    ensures r == Ok(true) <==> (r.Ok? &&
      exists i :: 0 <= i < |annotations| && IsFPMatch(TranslateBound(names, b).value, annotations[i]) == Ok(true))
  {
    var ib :- TranslateBound(names, b);
    AnyMatch(ib, annotations)
  }

  /** Every included bound is matched by some stable fixed point; stops at the first one that is not. */
  function AllIncluded(names: seq<string>, bounds: seq<Bound>, annotations: seq<string>): (r: Result<bool>)
    ensures r == Ok(true) <==> forall j :: 0 <= j < |bounds| ==> IsMultistableMatch(names, bounds[j], annotations) == Ok(true)
    ensures bounds == [] ==> r == Ok(true)
  {
    if bounds == [] then Ok(true)
    else
      assert forall j :: 1 <= j < |bounds| ==> bounds[j] == bounds[1..][j - 1];
      var m :- IsMultistableMatch(names, bounds[0], annotations);
      if !m then Ok(false) else AllIncluded(names, bounds[1..], annotations)
  }

  /** No excluded bound is matched by any stable fixed point; stops at the first one that is. */
  function AllExcluded(names: seq<string>, bounds: seq<Bound>, annotations: seq<string>): (r: Result<bool>)
    ensures r == Ok(true) <==> forall j :: 0 <= j < |bounds| ==> IsMultistableMatch(names, bounds[j], annotations) == Ok(false)
    ensures bounds == [] ==> r == Ok(true)
  {
    if bounds == [] then Ok(true)
    else
      assert forall j :: 1 <= j < |bounds| ==> bounds[j] == bounds[1..][j - 1];
      var m :- IsMultistableMatch(names, bounds[0], annotations);
      if m then Ok(false) else AllExcluded(names, bounds[1..], annotations)
  }

  /** Both halves are evaluated (included first); the parameter matches iff both hold. */
  function HaveMatch(names: seq<string>, p: Parameter, included: seq<Bound>, excluded: seq<Bound>): (r: Result<bool>)
    ensures r == Ok(true) <==>
      (forall j :: 0 <= j < |included| ==> IsMultistableMatch(names, included[j], StableFPAnnotations(p)) == Ok(true)) &&
      (forall j :: 0 <= j < |excluded| ==> IsMultistableMatch(names, excluded[j], StableFPAnnotations(p)) == Ok(false))
    ensures r.Ok? <==> AllIncluded(names, included, StableFPAnnotations(p)).Ok? && AllExcluded(names, excluded, StableFPAnnotations(p)).Ok?
  {
    var annotations := StableFPAnnotations(p);
    var inc :- AllIncluded(names, included, annotations);
    var exc :- AllExcluded(names, excluded, annotations);
    Ok(inc && exc)
  }

  /** With both bound lists empty every parameter matches, whether or not it has a fixed point. */
  lemma EmptyBoundsMatchEveryParameter(names: seq<string>, p: Parameter)
    ensures HaveMatch(names, p, [], []) == Ok(true)
  {
  }

  /** A parameter without any Morse set, hence without a fixed point, still matches empty bounds. */
  lemma NoFixedPointStillMatches(names: seq<string>, domainPath: Poset -> bool, domainCycle: Poset -> bool)
    ensures var p := Parameter([], [], domainPath, domainCycle, "");
      StableFPAnnotations(p) == [] && HaveMatch(names, p, [], []) == Ok(true)
  {
  }

  /** Coordinates the bound does not name are wildcards: changing them does not change the answer. */
  lemma {:induction false} UnnamedCoordinatesAreWildcards(ib: IndexBound, a1: string, a2: string)
    requires |Digits(a1)| == |Digits(a2)|
    requires forall j :: 0 <= j < |ib| && ib[j].0 < |Digits(a1)| ==> Digits(a1)[ib[j].0] == Digits(a2)[ib[j].0]
    ensures IsFPMatch(ib, a1) == IsFPMatch(ib, a2)
  {
    if ib != [] {
      assert forall j :: 1 <= j < |ib| ==> ib[j] == ib[1..][j - 1];
      UnnamedCoordinatesAreWildcards(ib[1..], a1, a2);
    }
  }

  // ---- The annotation format DSGRN prints for a fixed point, and reading it back ----

  function Numerals(ds: seq<nat>): (ws: seq<string>)
    ensures |ws| == |ds|
    ensures forall i :: 0 <= i < |ws| ==> ws[i] == NatToString(ds[i])
  {
    if ds == [] then [] else [NatToString(ds[0])] + Numerals(ds[1..])
  }

  /** "FP { d0, d1, ..., dn }" */
  function FPAnnotation(ds: seq<nat>): string {
    Join(["FP", "{", Join(Numerals(ds), ", "), "}"], " ")
  }

  lemma {:induction false} DigitTokensAppend(a: seq<string>, b: seq<string>)
    ensures DigitTokens(a + b) == DigitTokens(a) + DigitTokens(b)
  {
    if a == [] {
      assert a + b == b;
    } else {
      assert (a + b)[1..] == a[1..] + b;
      DigitTokensAppend(a[1..], b);
    }
  }

  /** Read from the end: the last token is appended when it is all digits, and dropped
      otherwise. */
  lemma DigitTokensSnoc(ws: seq<string>)
    requires ws != []
    ensures DigitTokens(ws) == DigitTokens(ws[..|ws| - 1])
      + (if IsDigitToken(ws[|ws| - 1]) then [ParseNat(ws[|ws| - 1])] else [])
  {
    var last := ws[|ws| - 1];
    assert ws == ws[..|ws| - 1] + [last];
    DigitTokensAppend(ws[..|ws| - 1], [last]);
    assert [last][1..] == [];
  }

  /** When every token is all digits, token `i` becomes coordinate `i`. */
  lemma {:induction false} DigitTokensAllDigits(ws: seq<string>)
    requires forall i :: 0 <= i < |ws| ==> IsDigitToken(ws[i])
    ensures |DigitTokens(ws)| == |ws|
    ensures forall i :: 0 <= i < |ws| ==> DigitTokens(ws)[i] == ParseNat(ws[i])
  {
    if ws != [] {
      DigitTokensAllDigits(ws[1..]);
      forall i | 1 <= i < |ws| ensures DigitTokens(ws)[i] == ParseNat(ws[i]) {
        assert ws[1..][i - 1] == ws[i];
      }
    }
  }

  /** A number is a coordinate exactly when some all-digit token reads as it. */
  lemma {:induction false} DigitTokensMembers(ws: seq<string>, n: nat)
    ensures n in DigitTokens(ws) <==> exists i :: 0 <= i < |ws| && IsDigitToken(ws[i]) && ParseNat(ws[i]) == n
  {
    if ws != [] {
      DigitTokensMembers(ws[1..], n);
      if n in DigitTokens(ws) && !(IsDigitToken(ws[0]) && ParseNat(ws[0]) == n) {
        var i :| 0 <= i < |ws[1..]| && IsDigitToken(ws[1..][i]) && ParseNat(ws[1..][i]) == n;
        assert ws[i + 1] == ws[1..][i];
      }
      if exists i :: 0 <= i < |ws| && IsDigitToken(ws[i]) && ParseNat(ws[i]) == n {
        var i :| 0 <= i < |ws| && IsDigitToken(ws[i]) && ParseNat(ws[i]) == n;
        if i > 0 {
          assert ws[1..][i - 1] == ws[i];
        }
      }
    }
  }

  lemma {:induction false} DigitTokensOfNumerals(ds: seq<nat>)
    ensures DigitTokens(Numerals(ds)) == ds
  {
    if ds != [] {
      ParseNatToString(ds[0]);
      assert Numerals(ds)[1..] == Numerals(ds[1..]);
      DigitTokensOfNumerals(ds[1..]);
    }
  }

  lemma NumeralIsWord(n: nat)
    ensures IsWord(NatToString(n)) && ',' !in NatToString(n)
  {
    var s := NatToString(n);
    assert forall i :: 0 <= i < |s| ==> IsDigit(s[i]);
  }

  lemma RemoveCommaBlank()
    ensures Remove(", ", ',') == " "
  {
    assert ", "[1..] == " ";
    assert " "[1..] == [];
  }

  lemma {:induction false} RemoveCommaJoin(ws: seq<string>)
    requires forall i :: 0 <= i < |ws| ==> ',' !in ws[i]
    ensures Remove(Join(ws, ", "), ',') == Join(ws, " ")
  {
    if |ws| == 1 {
      RemoveAbsent(ws[0], ',');
    } else if |ws| > 1 {
      var rest := Join(ws[1..], ", ");
      RemoveAppend(ws[0], ", " + rest, ',');
      RemoveAppend(", ", rest, ',');
      RemoveCommaBlank();
      RemoveAbsent(ws[0], ',');
      assert forall i :: 0 <= i < |ws[1..]| ==> ws[1..][i] == ws[i + 1];
      RemoveCommaJoin(ws[1..]);
    }
  }

  lemma RemoveCommaFrame(j: string)
    ensures Remove(Join(["FP", "{", j, "}"], " "), ',') == Join(["FP", "{", Remove(j, ','), "}"], " ")
  {
    var r := Remove(j, ',');
    JoinFour("FP", "{", j, "}", " ");
    JoinFour("FP", "{", r, "}", " ");
    RemoveAppend(j, " " + "}", ',');
    RemoveAppend(" ", j + (" " + "}"), ',');
    RemoveAppend("{", " " + (j + (" " + "}")), ',');
    RemoveAppend(" ", "{" + (" " + (j + (" " + "}"))), ',');
    RemoveAppend("FP", " " + ("{" + (" " + (j + (" " + "}")))), ',');
    RemoveAbsent("FP", ',');
    RemoveAbsent("{", ',');
    RemoveAbsent(" ", ',');
    RemoveAbsent(" " + "}", ',');
  }

  lemma SplitFrame(j: string)
    ensures Split(Join(["FP", "{", j, "}"], " ")) == ["FP", "{"] + Split(j) + ["}"]
  {
    assert IsWord("FP") && IsWord("{") && IsWord("}");
    SplitBetweenWords("FP", "{", j, "}");
  }

  /** Text between two leading words and a trailing one, joined with spaces, splits into those
      words around the text's own words. */
  lemma SplitBetweenWords(a: string, b: string, j: string, c: string)
    requires IsWord(a) && IsWord(b) && IsWord(c)
    ensures Split(Join([a, b, j, c], " ")) == [a, b] + Split(j) + [c]
  {
    JoinFour(a, b, j, c, " ");
    var t3 := j + ([' '] + c);
    var t2 := b + ([' '] + t3);
    var t1 := a + ([' '] + t2);
    assert Join([a, b, j, c], " ") == t1;
    SplitThenWord(j, c);
    SplitWordThen(b, t3);
    SplitWordThen(a, t2);
  }

  lemma DigitTokensFrame(ws: seq<string>)
    ensures DigitTokens(["FP", "{"] + ws + ["}"]) == DigitTokens(ws)
  {
    DigitTokensAppend(["FP", "{"], ws);
    DigitTokensAppend(["FP", "{"] + ws, ["}"]);
    assert DigitTokens(["FP", "{"]) == [] by {
      assert !IsDigitToken("FP") && !IsDigitToken("{");
      assert ["FP", "{"][1..] == ["{"];
    }
    assert DigitTokens(["}"]) == [] by {
      assert !IsDigitToken("}");
    }
  }

  /** Reading the coordinates back from DSGRN's fixed-point annotation gives the coordinates. */
  lemma DigitsOfFPAnnotation(ds: seq<nat>)
    ensures Digits(FPAnnotation(ds)) == ds
  {
    var ws := Numerals(ds);
    forall i | 0 <= i < |ws| ensures IsWord(ws[i]) && ',' !in ws[i] {
      NumeralIsWord(ds[i]);
    }
    RemoveCommaFrame(Join(ws, ", "));
    RemoveCommaJoin(ws);
    assert Remove(FPAnnotation(ds), ',') == Join(["FP", "{", Join(ws, " "), "}"], " ");
    SplitFrame(Join(ws, " "));
    SplitJoin(ws);
    DigitTokensFrame(ws);
    DigitTokensOfNumerals(ds);
  }

  /** The docstring's example: over variables X1..X4, the bound {X1: [2,2], X2: [1,1], X3: [0,1]}
      accepts a fixed point with coordinates (2, 1, 0, d) whatever d is. */
  lemma WildcardExample(a: string, d: nat)
    requires Digits(a) == [2, 1, 0, d]
    ensures var names := ["X1", "X2", "X3", "X4"];
      var b := [("X1", Range(2, 2)), ("X2", Range(1, 1)), ("X3", Range(0, 1))];
      IsMultistableMatch(names, b, [a]) == Ok(true)
  {
    WildcardBound();
    WildcardRanges(a, d);
    MatchOfOne(["X1", "X2", "X3", "X4"], [("X1", Range(2, 2)), ("X2", Range(1, 1)), ("X3", Range(0, 1))],
               [(0, Range(2, 2)), (1, Range(1, 1)), (2, Range(0, 1))], a);
  }

  /** The example's bound, translated to the indices of X1, X2 and X3. */
  lemma WildcardBound()
    ensures TranslateBound(["X1", "X2", "X3", "X4"], [("X1", Range(2, 2)), ("X2", Range(1, 1)), ("X3", Range(0, 1))])
      == Ok([(0, Range(2, 2)), (1, Range(1, 1)), (2, Range(0, 1))])
  {
    var names := ["X1", "X2", "X3", "X4"];
    var b := [("X1", Range(2, 2)), ("X2", Range(1, 1)), ("X3", Range(0, 1))];
    var ib: IndexBound := [(0, Range(2, 2)), (1, Range(1, 1)), (2, Range(0, 1))];
    assert IndexOf(names, "X1") == Some(0);
    assert IndexOf(names, "X2") == Some(1);
    assert IndexOf(names, "X3") == Some(2);
    var tb := TranslateBound(names, b);
    assert tb.Ok? && |tb.value| == 3;
    assert tb.value[0] == ib[0] && tb.value[1] == ib[1] && tb.value[2] == ib[2];
    assert tb.value == ib;
  }

  /** Coordinates (2, 1, 0, d) lie in the translated ranges. */
  lemma WildcardRanges(a: string, d: nat)
    requires Digits(a) == [2, 1, 0, d]
    ensures IsFPMatch([(0, Range(2, 2)), (1, Range(1, 1)), (2, Range(0, 1))], a) == Ok(true)
  {
    var ib: IndexBound := [(0, Range(2, 2)), (1, Range(1, 1)), (2, Range(0, 1))];
    forall j | 0 <= j < |ib| ensures ib[j].0 < |Digits(a)| && Within(Digits(a)[ib[j].0], ib[j].1) {
    }
  }

  /** A bound that translates and matches the only fixed point is a multistable match. */
  lemma MatchOfOne(names: seq<string>, b: Bound, ib: IndexBound, a: string)
    requires TranslateBound(names, b) == Ok(ib) && IsFPMatch(ib, a) == Ok(true)
    ensures IsMultistableMatch(names, b, [a]) == Ok(true)
  {
    assert [a][0] == a;
  }

  /** The same, for the annotation DSGRN prints for that fixed point. */
  lemma WildcardAnnotationExample(d: nat)
    ensures var names := ["X1", "X2", "X3", "X4"];
      var b := [("X1", Range(2, 2)), ("X2", Range(1, 1)), ("X3", Range(0, 1))];
      IsMultistableMatch(names, b, [FPAnnotation([2, 1, 0, d])]) == Ok(true)
  {
    DigitsOfFPAnnotation([2, 1, 0, d]);
    WildcardExample(FPAnnotation([2, 1, 0, d]), d);
  }
}
