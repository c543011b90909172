/** Bin-content vectors: finite sequences of exact reals, with the sums and
    group sums that histogram projection and rebinning are built from. */
module Vectors {

  /** Absolute value, as Python's abs on a float. */
  function Abs(x: real): real
  {
    if x < 0.0 then -x else x
  }

  /** Sum of all entries. */
  function Total(x: seq<real>): real
  {
    if |x| == 0 then 0.0 else x[0] + Total(x[1..])
  }

  function Zeros(n: nat): (z: seq<real>)
    ensures |z| == n
    ensures forall j :: 0 <= j < n ==> z[j] == 0.0
  {
    seq(n, j => 0.0)
  }

  /** Entry-wise sum. */
  function Plus(x: seq<real>, y: seq<real>): (z: seq<real>)
    requires |x| == |y|
    ensures |z| == |x|
    ensures forall j :: 0 <= j < |z| ==> z[j] == x[j] + y[j]
  {
    seq(|x|, j requires 0 <= j < |x| => x[j] + y[j])
  }

  predicate AllNonNegative(x: seq<real>)
  {
    forall j :: 0 <= j < |x| ==> x[j] >= 0.0
  }

  predicate AllPositive(x: seq<real>)
  {
    forall j :: 0 <= j < |x| ==> x[j] > 0.0
  }

  /** Sums of consecutive groups of `f` entries, starting at the first entry;
      a trailing group shorter than `f` contributes no entry. */
  function GroupSums(x: seq<real>, f: nat): seq<real>
    requires f >= 1
    decreases |x|
  {
    if |x| < f then [] else [Total(x[..f])] + GroupSums(x[f..], f)
  }

  /** Two pairwise sums may be regrouped. */
  lemma PlusInterchange(a: seq<real>, b: seq<real>, c: seq<real>, d: seq<real>)
    requires |a| == |b| == |c| == |d|
    ensures Plus(Plus(a, b), Plus(c, d)) == Plus(Plus(a, c), Plus(b, d))
  {
    assert forall j :: 0 <= j < |a| ==> Plus(Plus(a, b), Plus(c, d))[j] == Plus(Plus(a, c), Plus(b, d))[j];
  }

  lemma {:induction false} TotalAppend(x: seq<real>, y: seq<real>)
    ensures Total(x + y) == Total(x) + Total(y)
    decreases |x|
  {
    if |x| == 0 {
      assert x + y == y;
    } else {
      assert (x + y)[1..] == x[1..] + y;
      TotalAppend(x[1..], y);
    }
  }

  lemma {:induction false} TotalPlus(x: seq<real>, y: seq<real>)
    requires |x| == |y|
    ensures Total(Plus(x, y)) == Total(x) + Total(y)
    decreases |x|
  {
    if |x| > 0 {
      assert Plus(x, y)[1..] == Plus(x[1..], y[1..]);
      TotalPlus(x[1..], y[1..]);
    }
  }

  lemma {:induction false} TotalOfZeros(x: seq<real>)
    requires forall j :: 0 <= j < |x| ==> x[j] == 0.0
    ensures Total(x) == 0.0
    decreases |x|
  {
    if |x| > 0 {
      TotalOfZeros(x[1..]);
    }
  }

  /** A vector that is zero except at one entry sums to that entry. */
  lemma {:induction false} TotalOfSingle(x: seq<real>, k: int)
    requires 0 <= k < |x|
    requires forall j :: 0 <= j < |x| && j != k ==> x[j] == 0.0
    ensures Total(x) == x[k]
    decreases |x|
  {
    if k == 0 {
      TotalOfZeros(x[1..]);
    } else {
      TotalOfSingle(x[1..], k - 1);
    }
  }

  lemma {:induction false} TotalNonNegative(x: seq<real>)
    requires AllNonNegative(x)
    ensures Total(x) >= 0.0
    decreases |x|
  {
    if |x| > 0 {
      TotalNonNegative(x[1..]);
    }
  }

  lemma {:induction false} TotalPositive(x: seq<real>)
    requires |x| >= 1
    requires AllPositive(x)
    ensures Total(x) > 0.0
    decreases |x|
  {
    if |x| > 1 {
      TotalPositive(x[1..]);
    } else {
      assert x[1..] == [];
    }
  }

  lemma {:induction false} GroupSumsLength(x: seq<real>, f: nat)
    requires f >= 1
    ensures |GroupSums(x, f)| == |x| / f
    decreases |x|
  {
    if |x| >= f {
      GroupSumsLength(x[f..], f);
      DivStep(|x|, f);
    }
  }

  /** Grouping commutes with entry-wise addition. */
  lemma {:induction false} GroupSumsPlus(x: seq<real>, y: seq<real>, f: nat)
    requires f >= 1
    requires |x| == |y|
    ensures |GroupSums(x, f)| == |GroupSums(y, f)|
    ensures GroupSums(Plus(x, y), f) == Plus(GroupSums(x, f), GroupSums(y, f))
    decreases |x|
  {
    GroupSumsLength(x, f);
    GroupSumsLength(y, f);
    GroupSumsLength(Plus(x, y), f);
    if |x| >= f {
      assert Plus(x, y)[..f] == Plus(x[..f], y[..f]);
      assert Plus(x, y)[f..] == Plus(x[f..], y[f..]);
      TotalPlus(x[..f], y[..f]);
      GroupSumsPlus(x[f..], y[f..], f);
    }
  }

  /** Grouping keeps every entry when `f` divides the length, so the total is unchanged. */
  lemma {:induction false} GroupSumsTotal(x: seq<real>, f: nat)
    requires f >= 1
    requires |x| % f == 0
    ensures Total(GroupSums(x, f)) == Total(x)
    decreases |x|
  {
    if |x| >= f {
      assert x == x[..f] + x[f..];
      TotalAppend(x[..f], x[f..]);
      DivStep(|x|, f);
      GroupSumsTotal(x[f..], f);
    } else {
      assert |x| == 0;
    }
  }

  /** Over non-negative entries, dropping the trailing partial group can only lower the total. */
  lemma {:induction false} GroupSumsTotalAtMost(x: seq<real>, f: nat)
    requires f >= 1
    requires AllNonNegative(x)
    ensures Total(GroupSums(x, f)) <= Total(x)
    decreases |x|
  {
    if |x| >= f {
      assert x == x[..f] + x[f..];
      TotalAppend(x[..f], x[f..]);
      GroupSumsTotalAtMost(x[f..], f);
    } else {
      TotalNonNegative(x);
    }
  }

  lemma {:induction false} GroupSumsNonNegative(x: seq<real>, f: nat)
    requires f >= 1
    requires AllNonNegative(x)
    ensures AllNonNegative(GroupSums(x, f))
    decreases |x|
  {
    if |x| >= f {
      TotalNonNegative(x[..f]);
      GroupSumsNonNegative(x[f..], f);
    }
  }

  lemma {:induction false} GroupSumsPositive(x: seq<real>, f: nat)
    requires f >= 1
    requires AllPositive(x)
    ensures AllPositive(GroupSums(x, f))
    decreases |x|
  {
    if |x| >= f {
      TotalPositive(x[..f]);
      GroupSumsPositive(x[f..], f);
    }
  }

  /** Groups of one entry are the entries themselves. */
  lemma {:induction false} GroupSumsByOne(x: seq<real>)
    ensures GroupSums(x, 1) == x
    decreases |x|
  {
    if |x| >= 1 {
      assert x[..1][1..] == [];
      assert Total(x[..1]) == x[0];
      GroupSumsByOne(x[1..]);
      assert x == [x[0]] + x[1..];
    }
  }

  /** Removing one group of `f` lowers the quotient by one and keeps the remainder. */
  lemma DivStep(n: int, f: int)
    requires n >= f >= 1
    ensures (n - f) % f == n % f
    ensures (n - f) / f == n / f - 1
  {
    var q := n / f;
    var r := n % f;
    assert n == q * f + r;
    assert n - f == (q - 1) * f + r;
    DivUnique(n - f, f, q - 1, r);
  }

  lemma DivUnique(n: int, f: int, q: int, r: int)
    requires f >= 1 && 0 <= r < f && n == q * f + r
    ensures n / f == q && n % f == r
  {
    var q' := n / f;
    var r' := n % f;
    assert n == q' * f + r';
    assert (q - q') * f == r' - r by {
      assert q * f - q' * f == (q - q') * f;
    }
    if q > q' {
      MulAtLeast(q - q', f);
    } else if q < q' {
      MulAtLeast(q' - q, f);
    }
  }

  lemma {:induction false} MulAtLeast(a: int, f: int)
    requires a >= 1 && f >= 1
    ensures a * f >= f
    decreases a
  {
    if a > 1 {
      MulAtLeast(a - 1, f);
      assert a * f == (a - 1) * f + f;
    }
  }
}
