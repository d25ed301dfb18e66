/** JavaScript numbers as the server's parsers produce them: `parseInt`
    yields an integer or NaN, and NaN spreads through every sum and product
    (an out-of-range array read yields `undefined`, which arithmetic also
    turns into NaN). Fractions never arise from `parseInt`, so a number here
    is an unbounded integer or NaN. */
module JsNumbers {
  import opened Wrappers
  import opened Text
  import opened Lists

  datatype Number = Finite(v: int) | NaN {

    function Plus(other: Number): (r: Number)
      ensures r.Finite? <==> Finite? && other.Finite?
      ensures r.Finite? ==> r.v == v + other.v
    {
      if Finite? && other.Finite? then Finite(v + other.v) else NaN
    }

    function Minus(other: Number): (r: Number)
      ensures r.Finite? <==> Finite? && other.Finite?
      ensures r.Finite? ==> r.v == v - other.v
    {
      if Finite? && other.Finite? then Finite(v - other.v) else NaN
    }

    function Times(k: int): (r: Number)
      ensures r.Finite? <==> Finite?
      ensures r.Finite? ==> r.v == v * k
    {
      if Finite? then Finite(v * k) else NaN
    }

    /** `x === k` (false for NaN). */
    predicate Is(k: int) {
      Finite? && v == k
    }

    /** Truthiness: NaN and 0 are falsy. */
    predicate Truthy() {
      Finite? && v != 0
    }
  }

  /** `parseInt(s, 10)`. */
  function ParseInt(s: string): (r: Number)
    ensures r.Finite? <==> ParseIntPrefix(s).Some?
    ensures r.Finite? ==> r.v == ParseIntPrefix(s).value
  {
    match ParseIntPrefix(s)
    case None => NaN
    case Some(n) => Finite(n)
  }

  /** `Number(s)` for text holding an integer: surrounding whitespace is
      ignored, blank text is 0, and anything but an optionally signed run of
      digits is NaN (fractions, exponents and hexadecimal are not modelled). */
  function NumberOf(s: string): (r: Number)
    ensures Trim(s) == "" ==> r == Finite(0)
  {
    if Trim(s) == "" then Finite(0)
    else
      match ParseIntStrict(s)
      case None => NaN
      case Some(n) => Finite(n)
  }

  /** `a[k]` used as a number: `undefined` (hence NaN) past the end. */
  function At(a: seq<Number>, k: nat): (r: Number)
    ensures k >= |a| ==> r == NaN
  {
    if k < |a| then a[k] else NaN
  }

  /** `a.reduce((acc, x) => acc + x, 0)`. */
  function NumSum(a: seq<Number>): Number {
    if |a| == 0 then Finite(0) else NumSum(a[..|a| - 1]).Plus(a[|a| - 1])
  }

  predicate AllFinite(a: seq<Number>) {
    forall k :: 0 <= k < |a| ==> a[k].Finite?
  }

  function Values(a: seq<Number>): (r: seq<int>)
    requires AllFinite(a)
    ensures |r| == |a| && forall k :: 0 <= k < |a| ==> a[k] == Finite(r[k])
  {
    seq(|a|, k requires 0 <= k < |a| => a[k].v)
  }

  /** The sum is NaN exactly when some addend is, and otherwise the integer
      sum of the addends. */
  lemma {:induction false} NumSumSpec(a: seq<Number>)
    ensures NumSum(a).Finite? <==> AllFinite(a)
    ensures AllFinite(a) ==> NumSum(a) == Finite(Sum(Values(a)))
  {
    if |a| > 0 {
      var init := a[..|a| - 1];
      NumSumSpec(init);
      assert forall k :: 0 <= k < |init| ==> init[k] == a[k];
      if AllFinite(a) {
        assert Values(a)[..|a| - 1] == Values(init);
      }
    }
  }
}
