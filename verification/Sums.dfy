/** Sums over the first elements of a list: code offsets are sums of sizes, and places among the
    valid instructions are sums of ones. */
module Sums {
  function Sum(s: seq<nat>, i: nat): nat
    requires i <= |s|
  {
    if i == 0 then 0 else Sum(s, i - 1) + s[i - 1]
  }

  function Bit(b: bool): nat { if b then 1 else 0 }

  lemma {:induction false} SumGrows(s: seq<nat>, i: nat, j: nat)
    requires i <= j <= |s|
    ensures Sum(s, i) <= Sum(s, j)
    ensures i < j && 0 < s[i] ==> Sum(s, i) < Sum(s, j)
  {
    if i < j {
      SumGrows(s, i, j - 1);
    }
  }

  lemma {:induction false} BitsWithin(s: seq<nat>, i: nat)
    requires i <= |s| && forall k :: 0 <= k < |s| ==> s[k] <= 1
    ensures Sum(s, i) <= i
  {
    if i > 0 {
      BitsWithin(s, i - 1);
    }
  }
}
