/** Small shared vocabulary: optional values, and sums over sequences. */
module Basics {

  datatype Option<+T> = None | Some(value: T)

  /** The sum of `f` over all elements of `s`. */
  ghost function Sum<T>(s: seq<T>, f: T -> nat): nat
  {
    if s == [] then 0 else Sum(s[..|s| - 1], f) + f(s[|s| - 1])
  }

  /** Replacing one element changes the sum by the difference of the two values. */
  lemma {:induction false} SumUpdate<T>(s: seq<T>, i: nat, t: T, f: T -> nat)
    requires i < |s|
    ensures Sum(s[i := t], f) + f(s[i]) == Sum(s, f) + f(t)
  {
    var n := |s| - 1;
    if i == n {
      assert s[i := t][..n] == s[..n];
    } else {
      assert s[i := t][..n] == s[..n][i := t];
      SumUpdate(s[..n], i, t, f);
    }
  }

  /** A sum in which every element contributes the same amount. */
  lemma {:induction false} SumConstant<T>(s: seq<T>, c: nat, f: T -> nat)
    requires forall i :: 0 <= i < |s| ==> f(s[i]) == c
    ensures Sum(s, f) == |s| * c
  {
    if s != [] {
      SumConstant(s[..|s| - 1], c, f);
    }
  }

  /** Every element contributes at most `c`. */
  lemma {:induction false} SumAtMost<T>(s: seq<T>, c: nat, f: T -> nat)
    requires forall i :: 0 <= i < |s| ==> f(s[i]) <= c
    ensures Sum(s, f) <= |s| * c
  {
    if s != [] {
      SumAtMost(s[..|s| - 1], c, f);
    }
  }

  /** No element contributes more than the whole sum. */
  lemma {:induction false} SumAtLeast<T>(s: seq<T>, i: nat, f: T -> nat)
    requires i < |s|
    ensures f(s[i]) <= Sum(s, f)
  {
    if i < |s| - 1 {
      SumAtLeast(s[..|s| - 1], i, f);
    }
  }

  /** Two different elements contribute at most the whole sum together. */
  lemma {:induction false} SumAtLeastTwo<T>(s: seq<T>, i: nat, j: nat, f: T -> nat)
    requires i < j < |s|
    ensures f(s[i]) + f(s[j]) <= Sum(s, f)
  {
    var n := |s| - 1;
    if j == n {
      SumAtLeast(s[..n], i, f);
    } else {
      SumAtLeastTwo(s[..n], i, j, f);
    }
  }

  /** A positive sum has a positive element. */
  lemma {:induction false} SumPositive<T>(s: seq<T>, f: T -> nat) returns (i: nat)
    requires Sum(s, f) > 0
    ensures i < |s| && f(s[i]) > 0
  {
    i := |s| - 1;
    if f(s[i]) == 0 {
      i := SumPositive(s[..|s| - 1], f);
    }
  }

  /** Sums are monotone. */
  lemma {:induction false} SumMonotone<T>(s: seq<T>, f: T -> nat, g: T -> nat)
    requires forall i :: 0 <= i < |s| ==> f(s[i]) <= g(s[i])
    ensures Sum(s, f) <= Sum(s, g)
  {
    if s != [] {
      SumMonotone(s[..|s| - 1], f, g);
    }
  }

  /** `k` rows of width `w`, added up one by one. */
  function Rows(w: nat, k: nat): nat
  {
    if k == 0 then 0 else Rows(w, k - 1) + w
  }

  lemma {:induction false} RowsAreMultiples(w: nat, k: nat)
    ensures Rows(w, k) == k * w
  {
    if k > 0 {
      RowsAreMultiples(w, k - 1);
      assert k * w == (k - 1) * w + w;
    }
  }

  /** 1, 2, ..., k */
  function Ramp(k: nat): (r: seq<int>)
    ensures |r| == k
  {
    seq(k, j => j + 1)
  }

  lemma RampExtends(k: nat)
    ensures Ramp(k + 1) == Ramp(k) + [k + 1]
  {
  }
}
