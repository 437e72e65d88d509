/** The two ways the queries fold per-parameter answers: count mode tests every parameter and
    counts the successes, existence mode stops at the first success.  An answer may be an error
    (the exception the per-parameter test raised); an error ends either sweep. */
module Sweeps {
  import opened Wrappers

  /** Count mode over answers that may fail. */
  function CountOk(outs: seq<Result<bool>>): (r: Result<nat>)
    ensures r.Ok? <==> forall i :: 0 <= i < |outs| ==> outs[i].Ok?
    ensures r.Ok? ==> r.value <= |outs|
    ensures r.Ok? ==> (r.value > 0 <==> exists i :: 0 <= i < |outs| && outs[i] == Ok(true))
  {
    if outs == [] then Ok(0)
    else
      var init := outs[..|outs| - 1];
      assert forall i :: 0 <= i < |init| ==> init[i] == outs[i];
      var c :- CountOk(init);
      var m :- outs[|outs| - 1];
      Ok(if m then c + 1 else c)
  }

  /** Existence mode over answers that may fail: answers after the first success are never
      looked at, so an error there does not surface. */
  function FirstOk(outs: seq<Result<bool>>): (r: Result<bool>)
    ensures r == Ok(true) <==>
      exists i :: 0 <= i < |outs| && outs[i] == Ok(true) && forall j :: 0 <= j < i ==> outs[j] == Ok(false)
    ensures r == Ok(false) <==> forall i :: 0 <= i < |outs| ==> outs[i] == Ok(false)
  {
    if outs == [] then Ok(false)
    else
      var rest := outs[1..];
      assert forall i :: 1 <= i < |outs| ==> outs[i] == rest[i - 1];
      var m :- outs[0];
      if m then Ok(true) else FirstOk(rest)
  }

  /** The earliest success at or before `i`, when no answer up to `i` is an error. */
  lemma {:induction false} EarliestSuccess(outs: seq<Result<bool>>, i: nat) returns (k: nat)
    requires i < |outs| && outs[i] == Ok(true)
    requires forall j :: 0 <= j < i ==> outs[j].Ok?
    ensures k <= i && outs[k] == Ok(true)
    ensures forall j :: 0 <= j < k ==> outs[j] == Ok(false)
    decreases i
  {
    if exists j :: 0 <= j < i && outs[j] == Ok(true) {
      var j :| 0 <= j < i && outs[j] == Ok(true);
      k := EarliestSuccess(outs, j);
    } else {
      k := i;
      forall j | 0 <= j < k ensures outs[j] == Ok(false) {
        assert outs[j].Ok?;
        assert outs[j] != Ok(true);
        assert !outs[j].value;
      }
    }
  }

  /** Whenever the exhaustive count succeeds, the early-exit sweep answers `count > 0`. */
  lemma ExistenceIsPositiveCount(outs: seq<Result<bool>>)
    requires CountOk(outs).Ok?
    ensures FirstOk(outs) == Ok(CountOk(outs).value > 0)
  {
    if CountOk(outs).value > 0 {
      var i :| 0 <= i < |outs| && outs[i] == Ok(true);
      var k := EarliestSuccess(outs, i);
    }
  }

  /** One more successful answer adds one to the count iff it is `true`. */
  lemma CountOkSnoc(outs: seq<Result<bool>>, i: nat)
    requires i < |outs| && CountOk(outs[..i]).Ok? && outs[i].Ok?
    ensures CountOk(outs[..i + 1]) == Ok(CountOk(outs[..i]).value + if outs[i].value then 1 else 0)
  {
    assert outs[..i + 1][..i] == outs[..i];
  }

  /** Existence mode at answer `i`: an error or a success ends it there, a failure moves on. */
  lemma FirstOkStep(outs: seq<Result<bool>>, i: nat)
    requires i < |outs|
    ensures FirstOk(outs[i..]) == match outs[i]
      case Err(e) => Err(e)
      case Ok(m) => if m then Ok(true) else FirstOk(outs[i + 1..])
  {
    assert outs[i..][1..] == outs[i + 1..];
  }

  /** Count mode reports the first error: once a prefix fails, later answers do not matter. */
  lemma {:induction false} CountOkKeepsFirstError(outs: seq<Result<bool>>, k: nat)
    requires k <= |outs| && CountOk(outs[..k]).Err?
    ensures CountOk(outs) == CountOk(outs[..k])
  {
    if k < |outs| {
      var init := outs[..|outs| - 1];
      assert init[..k] == outs[..k];
      CountOkKeepsFirstError(init, k);
    } else {
      assert outs[..k] == outs;
    }
  }

  /** When every answer is a success, the count is the number of answers. */
  lemma {:induction false} CountAllTrue(outs: seq<Result<bool>>)
    requires forall i :: 0 <= i < |outs| ==> outs[i] == Ok(true)
    ensures CountOk(outs) == Ok(|outs|)
  {
    if outs != [] {
      CountAllTrue(outs[..|outs| - 1]);
    }
  }

  /** Count mode over answers that cannot fail. */
  function CountTrue(bs: seq<bool>): (n: nat)
    ensures n <= |bs|
    ensures n > 0 <==> exists i :: 0 <= i < |bs| && bs[i]
  {
    if bs == [] then 0
    else
      var init := bs[..|bs| - 1];
      assert forall i :: 0 <= i < |init| ==> init[i] == bs[i];
      CountTrue(init) + (if bs[|bs| - 1] then 1 else 0)
  }

  /** One more answer adds one to the count exactly when it is `true`. */
  lemma CountTrueSnoc(bs: seq<bool>, i: nat)
    requires i < |bs|
    ensures CountTrue(bs[..i + 1]) == CountTrue(bs[..i]) + if bs[i] then 1 else 0
  {
    assert bs[..i + 1][..i] == bs[..i];
  }

  /** The positions holding `true`. */
  function TrueIndices(bs: seq<bool>): set<nat> {
    set i: nat | i < |bs| && bs[i]
  }

  /** The count is the number of positions holding `true`. */
  lemma {:induction false} CountTrueIsCardinality(bs: seq<bool>)
    ensures CountTrue(bs) == |TrueIndices(bs)|
  {
    if bs != [] {
      var init := bs[..|bs| - 1];
      CountTrueIsCardinality(init);
      var last: nat := |bs| - 1;
      if bs[last] {
        assert TrueIndices(bs) == TrueIndices(init) + {last};
      } else {
        assert TrueIndices(bs) == TrueIndices(init);
      }
    }
  }

  /** Counting is monotone: successes only where `ys` has them cannot outnumber those of `ys`. */
  lemma {:induction false} CountTrueMonotone(xs: seq<bool>, ys: seq<bool>)
    requires |xs| == |ys|
    requires forall i :: 0 <= i < |xs| ==> xs[i] ==> ys[i]
    ensures CountTrue(xs) <= CountTrue(ys)
  {
    if xs != [] {
      CountTrueMonotone(xs[..|xs| - 1], ys[..|ys| - 1]);
    }
  }

  /** Results gathered in order, as `list(map(...))` gathers them: the first error is raised. */
  function CollectAll<T>(rs: seq<Result<T>>): (r: Result<seq<T>>)
    ensures r.Ok? <==> forall k :: 0 <= k < |rs| ==> rs[k].Ok?
    ensures r.Ok? ==> |r.value| == |rs| && forall k :: 0 <= k < |rs| ==> rs[k] == Ok(r.value[k])
  {
    if rs == [] then Ok([])
    else
      var init := rs[..|rs| - 1];
      assert forall k :: 0 <= k < |init| ==> init[k] == rs[k];
      var vs :- CollectAll(init);
      var v :- rs[|rs| - 1];
      Ok(vs + [v])
  }

  /** Once a prefix fails, the whole list fails with the same error. */
  lemma {:induction false} CollectAllKeepsFirstError<T>(rs: seq<Result<T>>, k: nat)
    requires k <= |rs| && CollectAll(rs[..k]).Err?
    ensures CollectAll(rs) == CollectAll(rs[..k])
  {
    if k < |rs| {
      var init := rs[..|rs| - 1];
      assert init[..k] == rs[..k];
      CollectAllKeepsFirstError(init, k);
    } else {
      assert rs[..k] == rs;
    }
  }

  /** `range(n)` */
  function Indices(n: nat): (s: seq<nat>)
    ensures |s| == n
    ensures forall i :: 0 <= i < n ==> s[i] == i
  {
    if n == 0 then [] else Indices(n - 1) + [n - 1]
  }
}
