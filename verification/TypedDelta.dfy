/** The delta algebra of fabric-core/typeddelta.go: signed amounts, checked folding, invariants. */
module TypedDelta {
  import opened Prelude
  import opened Int64

  /** Go's `Op uint8`. */
  type Op = x: int | 0 <= x < 256
  const OP_ADD: Op := 1
  const OP_SUB: Op := 2

  datatype Delta = Delta(op: Op, arg: int64)

  datatype DeltaError = NegativeArg | UnknownOp | Overflow | BadCanonical | EmptyDeltaSet

  function SignedAmount(d: Delta): (r: Result<int64, DeltaError>)
    ensures r.Ok? <==> ProperDelta(d)
    ensures r.Ok? ==> r.value == Amount(d)
    ensures r.Err? ==> r.error == if d.arg < 0 then NegativeArg else UnknownOp
  {
    if d.arg < 0 then Err(NegativeArg)
    else if d.op == OP_ADD then Ok(d.arg)
    else if d.op == OP_SUB then Ok(-d.arg)
    else Err(UnknownOp)
  }

  predicate ProperDelta(d: Delta) {
    d.arg >= 0 && (d.op == OP_ADD || d.op == OP_SUB)
  }

  /** What a proper delta adds, as an unbounded integer. */
  function Amount(d: Delta): int {
    if d.op == OP_ADD then d.arg as int else if d.op == OP_SUB then -(d.arg as int) else 0
  }

  function Sum(ds: seq<Delta>): int {
    if |ds| == 0 then 0 else Sum(ds[..|ds| - 1]) + Amount(ds[|ds| - 1])
  }

  lemma {:induction false} SumCons(d: Delta, ds: seq<Delta>)
    ensures Sum([d] + ds) == Amount(d) + Sum(ds)
  {
    if |ds| == 0 {
      assert [d] + ds == [d] && [d][..0] == [];
    } else {
      SumCons(d, ds[..|ds| - 1]);
      assert ([d] + ds)[..|ds|] == [d] + ds[..|ds| - 1];
    }
  }

  /** In unbounded integers: every delta is proper and no prefix sum leaves the int64 range. */
  predicate Foldable(ds: seq<Delta>) {
    |ds| == 0 || (Foldable(ds[..|ds| - 1]) && ProperDelta(ds[|ds| - 1]) && InRange(Sum(ds)))
  }

  lemma {:induction false} FoldableMeans(ds: seq<Delta>)
    ensures Foldable(ds) <==>
              && (forall d :: d in ds ==> ProperDelta(d))
              && (forall j :: 0 <= j <= |ds| ==> InRange(Sum(ds[..j])))
  {
    if |ds| > 0 {
      var n := |ds| - 1;
      FoldableMeans(ds[..n]);
      assert forall j :: 0 <= j <= n ==> ds[..n][..j] == ds[..j];
      assert ds[..n + 1] == ds;
      assert forall d :: d in ds <==> d in ds[..n] || d == ds[n];
    }
  }

  /** The checked left fold, first error wins. */
  function FoldPrefix(ds: seq<Delta>): Result<int64, DeltaError> {
    if |ds| == 0 then Ok(0)
    else
      match FoldPrefix(ds[..|ds| - 1])
      case Err(e) => Err(e)
      case Ok(net) =>
        match SignedAmount(ds[|ds| - 1])
        case Err(e) => Err(e)
        case Ok(a) =>
          match AddChecked(net, a)
          case None => Err(Overflow)
          case Some(sum) => Ok(sum)
  }

  function ApplyResult(cur: int64, ds: seq<Delta>): Result<int64, DeltaError> {
    if |ds| == 0 then Err(EmptyDeltaSet)
    else
      match FoldPrefix(ds)
      case Err(e) => Err(e)
      case Ok(net) =>
        match AddChecked(cur, net)
        case None => Err(Overflow)
        case Some(sum) => Ok(sum)
  }

  /** The checked fold succeeds exactly when the unbounded one stays in range, and then agrees with it. */
  lemma {:induction false} FoldExact(ds: seq<Delta>)
    ensures FoldPrefix(ds).Ok? <==> Foldable(ds)
    ensures FoldPrefix(ds).Ok? ==> FoldPrefix(ds).value == Sum(ds)
  {
    if |ds| > 0 {
      FoldExact(ds[..|ds| - 1]);
    }
  }

  lemma ApplyExact(cur: int64, ds: seq<Delta>)
    ensures ApplyResult(cur, ds).Ok? <==> |ds| > 0 && Foldable(ds) && InRange(cur + Sum(ds))
    ensures ApplyResult(cur, ds).Ok? ==> ApplyResult(cur, ds).value == cur + Sum(ds)
  {
    FoldExact(ds);
  }

  method FoldNet(ds: seq<Delta>) returns (r: Result<int64, DeltaError>)
    ensures |ds| == 0 ==> r == Err(EmptyDeltaSet)
    ensures |ds| > 0 ==> r == FoldPrefix(ds)
  {
    if |ds| == 0 {
      return Err(EmptyDeltaSet);
    }
    var net: int64 := 0;
    for i := 0 to |ds|
      invariant FoldPrefix(ds[..i]) == Ok(net)
    {
      assert ds[..i + 1][..i] == ds[..i];
      var s := SignedAmount(ds[i]);
      if s.Err? {
        ErrorPersists(ds, i + 1);
        return Err(s.error);
      }
      var sum := AddChecked(net, s.value);
      if sum.None? {
        ErrorPersists(ds, i + 1);
        return Err(Overflow);
      }
      net := sum.value;
    }
    assert ds[..|ds|] == ds;
    r := Ok(net);
  }

  lemma {:induction false} ErrorPersists(ds: seq<Delta>, i: nat)
    requires i <= |ds| && FoldPrefix(ds[..i]).Err?
    ensures FoldPrefix(ds) == FoldPrefix(ds[..i])
    decreases |ds|
  {
    if i == |ds| {
      assert ds[..i] == ds;
    } else {
      assert ds[..|ds| - 1][..i] == ds[..i];
      ErrorPersists(ds[..|ds| - 1], i);
    }
  }

  /** Which error the fold reports: that of the first delta that is improper or takes the sum out of range. */
  lemma FoldErrorAt(ds: seq<Delta>, i: nat)
    requires i < |ds| && Foldable(ds[..i]) && !Foldable(ds[..i + 1])
    ensures FoldPrefix(ds) == Err(if ds[i].arg < 0 then NegativeArg else if ds[i].op != OP_ADD && ds[i].op != OP_SUB then UnknownOp else Overflow)
  {
    FoldExact(ds[..i]);
    FoldExact(ds[..i + 1]);
    assert ds[..i + 1][..i] == ds[..i];
    ErrorPersists(ds, i + 1);
  }

  method Apply(cur: int64, ds: seq<Delta>) returns (r: Result<int64, DeltaError>)
    ensures r == ApplyResult(cur, ds)
    ensures r.Ok? <==> |ds| > 0 && Foldable(ds) && InRange(cur + Sum(ds))
    ensures r.Ok? ==> r.value == cur + Sum(ds)
    ensures |ds| == 0 ==> r == Err(EmptyDeltaSet)
    ensures |ds| > 0 && Foldable(ds) && !InRange(cur + Sum(ds)) ==> r == Err(Overflow)
  {
    FoldExact(ds);
    ApplyExact(cur, ds);
    var net := FoldNet(ds);
    if net.Err? {
      return Err(net.error);
    }
    var sum := AddChecked(cur, net.value);
    r := if sum.None? then Err(Overflow) else Ok(sum.value);
  }

  datatype Invariant = NonNeg | Range(lo: int64, hi: int64)

  predicate Holds(inv: Invariant, v: int) {
    match inv
    case NonNeg => v >= 0
    case Range(lo, hi) => lo <= v <= hi
  }
}
