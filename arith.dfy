/** Integer sums and absolute values shared by the judge and the solutions. */
module Arith {
  /** `Σ s[i]`. */
  function Sum(s: seq<int>): int
  {
    if |s| == 0 then 0 else Sum(s[..|s| - 1]) + s[|s| - 1]
  }

  lemma {:induction false} SumUpdate(s: seq<int>, i: nat, v: int)
    requires i < |s|
    ensures Sum(s[i := v]) == Sum(s) - s[i] + v
    decreases |s|
  {
    var u := s[i := v];
    if i < |s| - 1 {
      assert u[..|u| - 1] == s[..|s| - 1][i := v];
      SumUpdate(s[..|s| - 1], i, v);
    } else {
      assert u[..|u| - 1] == s[..|s| - 1];
    }
  }

  function Zeros(n: nat): (z: seq<int>)
    ensures |z| == n && Sum(z) == 0
    ensures forall i :: 0 <= i < n ==> z[i] == 0
  {
    if n == 0 then []
    else
      var z := Zeros(n - 1) + [0];
      assert z[..n - 1] == Zeros(n - 1);
      z
  }

  function Abs(x: int): nat
  {
    if x < 0 then -x else x
  }
}
