/**
 * Python's `range(lo, hi)` and `itertools.combinations(xs, k)`: the
 * k-element selections of `xs`, in the lexicographic order of positions.
 */
module Combinatorics {

  /** `range(lo, hi)`. */
  function Range(lo: int, hi: int): (r: seq<int>)
    ensures |r| == if lo < hi then hi - lo else 0
    ensures forall i :: 0 <= i < |r| ==> r[i] == lo + i
    decreases hi - lo
  {
    if lo >= hi then [] else [lo] + Range(lo + 1, hi)
  }

  predicate Increasing(s: seq<int>) {
    forall i, j :: 0 <= i < j < |s| ==> s[i] < s[j]
  }

  /** Pascal's rule. */
  function Binomial(n: nat, k: nat): nat {
    if k == 0 then 1
    else if n == 0 then 0
    else Binomial(n - 1, k - 1) + Binomial(n - 1, k)
  }

  function Factorial(n: nat): (r: nat)
    ensures r >= 1
  {
    if n == 0 then 1 else n * Factorial(n - 1)
  }

  /** Each selection in `cs`, with `x` put in front. */
  function Prepend(x: int, cs: seq<seq<int>>): (r: seq<seq<int>>)
    ensures |r| == |cs|
    ensures forall i :: 0 <= i < |r| ==> r[i] == [x] + cs[i]
  {
    seq(|cs|, i requires 0 <= i < |cs| => [x] + cs[i])
  }

  /**
   * `itertools.combinations(xs, k)`: first every selection that takes
   * `xs[0]`, then every selection that leaves it out.
   */
  function Combinations(xs: seq<int>, k: nat): (r: seq<seq<int>>)
    ensures |r| == Binomial(|xs|, k)
    ensures forall i :: 0 <= i < |r| ==> |r[i]| == k
  {
    if k == 0 then [[]]
    else if xs == [] then []
    else Prepend(xs[0], Combinations(xs[1..], k - 1)) + Combinations(xs[1..], k)
  }

  /** Strict lexicographic order on integer sequences. */
  predicate LexLess(a: seq<int>, b: seq<int>) {
    0 < |a| && 0 < |b| && (a[0] < b[0] || (a[0] == b[0] && LexLess(a[1..], b[1..])))
  }

  lemma {:induction false} LexLessIrreflexive(a: seq<int>)
    ensures !LexLess(a, a)
  {
    if 0 < |a| {
      LexLessIrreflexive(a[1..]);
    }
  }

  lemma {:induction false} TailIncreasing(xs: seq<int>)
    requires Increasing(xs) && 0 < |xs|
    ensures Increasing(xs[1..])
    ensures forall j :: 0 <= j < |xs[1..]| ==> xs[0] < xs[1..][j]
  {
  }

  /** The binomial coefficient counts the same thing as the factorial formula. */
  lemma {:induction false} BinomialFactorials(n: nat, k: nat)
    requires k <= n
    ensures Binomial(n, k) * Factorial(k) * Factorial(n - k) == Factorial(n)
  {
    if k == 0 {
    } else if k == n {
      BinomialDiagonal(n);
      assert Factorial(n - k) == 1;
    } else {
      BinomialFactorials(n - 1, k - 1);
      BinomialFactorials(n - 1, k);
      var a, b := Binomial(n - 1, k - 1), Binomial(n - 1, k);
      var x, y, f := Factorial(k - 1), Factorial(n - 1 - k), Factorial(n - 1);
      assert Binomial(n, k) == a + b;
      assert Factorial(k) == k * x;
      assert Factorial(n - k) == (n - k) * y;
      assert Factorial(n) == n * f;
      assert Factorial(n - 1 - (k - 1)) == Factorial(n - k);
      PascalStep(a, b, k, n - k, x, y, f, Binomial(n, k), Factorial(k), Factorial(n - k), Factorial(n));
    }
  }

  /** The arithmetic of one step of BinomialFactorials, over plain integers. */
  lemma PascalStep(a: int, b: int, k: int, m: int, x: int, y: int, f: int, c: int, fk: int, fm: int, fn: int)
    requires fm == m * y && fk == k * x && c == a + b && fn == (k + m) * f
    requires a * x * fm == f
    requires b * fk * y == f
    ensures c * fk * fm == fn
  {
    calc {
      c * fk * fm;
      (a + b) * (k * x) * (m * y);
      a * (k * x) * (m * y) + b * (k * x) * (m * y);
      { assert a * (k * x) * (m * y) == k * (a * x * (m * y)); }
      k * f + b * (k * x) * (m * y);
      { assert b * (k * x) * (m * y) == m * (b * (k * x) * y); }
      k * f + m * f;
    }
  }

  /** There is exactly one way to choose everything. */
  lemma {:induction false} BinomialDiagonal(n: nat)
    ensures Binomial(n, n) == 1
  {
    if n > 0 {
      BinomialDiagonal(n - 1);
      BinomialAbove(n - 1, n);
    }
  }

  /** There is no way to choose more elements than there are. */
  lemma {:induction false} BinomialAbove(n: nat, k: nat)
    requires n < k
    ensures Binomial(n, k) == 0
  {
    if n > 0 {
      BinomialAbove(n - 1, k - 1);
      BinomialAbove(n - 1, k);
    }
  }

  /** Every selection is made of elements of `xs`. */
  lemma {:induction false} CombinationsElements(xs: seq<int>, k: nat)
    ensures forall i, j :: 0 <= i < |Combinations(xs, k)| && 0 <= j < |Combinations(xs, k)[i]| ==>
      Combinations(xs, k)[i][j] in xs
  {
    if k > 0 && xs != [] {
      CombinationsElements(xs[1..], k - 1);
      CombinationsElements(xs[1..], k);
      var p := Prepend(xs[0], Combinations(xs[1..], k - 1));
      var q := Combinations(xs[1..], k);
      assert Combinations(xs, k) == p + q;
      forall i, j | 0 <= i < |p + q| && 0 <= j < |(p + q)[i]|
        ensures (p + q)[i][j] in xs
      {
        if i < |p| {
          if j > 0 {
            assert p[i][j] == Combinations(xs[1..], k - 1)[i][j - 1];
          }
        } else {
          assert (p + q)[i] == q[i - |p|];
        }
      }
    }
  }

  /** Over an ascending `xs`, every selection is ascending. */
  lemma {:induction false} CombinationsIncreasing(xs: seq<int>, k: nat)
    requires Increasing(xs)
    ensures forall i :: 0 <= i < |Combinations(xs, k)| ==> Increasing(Combinations(xs, k)[i])
  {
    if k > 0 && xs != [] {
      TailIncreasing(xs);
      CombinationsIncreasing(xs[1..], k - 1);
      CombinationsIncreasing(xs[1..], k);
      CombinationsElements(xs[1..], k - 1);
      var c := Combinations(xs[1..], k - 1);
      var p := Prepend(xs[0], c);
      var q := Combinations(xs[1..], k);
      assert Combinations(xs, k) == p + q;
      forall i | 0 <= i < |p + q|
        ensures Increasing((p + q)[i])
      {
        if i < |p| {
          assert (p + q)[i] == [xs[0]] + c[i];
          forall j | 0 <= j < |c[i]|
            ensures xs[0] < c[i][j]
          {
            assert c[i][j] in xs[1..];
          }
        } else {
          assert (p + q)[i] == q[i - |p|];
        }
      }
    }
  }

  /** Over an ascending `xs`, the selections come in strictly ascending lexicographic order. */
  lemma {:induction false} CombinationsSorted(xs: seq<int>, k: nat)
    requires Increasing(xs)
    ensures forall i, j :: 0 <= i < j < |Combinations(xs, k)| ==>
      LexLess(Combinations(xs, k)[i], Combinations(xs, k)[j])
  {
    if k > 0 && xs != [] {
      TailIncreasing(xs);
      CombinationsSorted(xs[1..], k - 1);
      CombinationsSorted(xs[1..], k);
      CombinationsElements(xs[1..], k);
      var c := Combinations(xs[1..], k - 1);
      var p := Prepend(xs[0], c);
      var q := Combinations(xs[1..], k);
      assert Combinations(xs, k) == p + q;
      forall i, j | 0 <= i < j < |p + q|
        ensures LexLess((p + q)[i], (p + q)[j])
      {
        if j < |p| {
          assert (p + q)[i] == [xs[0]] + c[i] && (p + q)[j] == [xs[0]] + c[j];
          assert ([xs[0]] + c[i])[1..] == c[i] && ([xs[0]] + c[j])[1..] == c[j];
        } else if i < |p| {
          var b := q[j - |p|];
          assert (p + q)[i] == [xs[0]] + c[i] && (p + q)[j] == b;
          assert b[0] in xs[1..];
        } else {
          assert (p + q)[i] == q[i - |p|] && (p + q)[j] == q[j - |p|];
        }
      }
    }
  }

  /** No selection is produced twice. */
  lemma CombinationsDistinct(xs: seq<int>, k: nat)
    requires Increasing(xs)
    ensures forall i, j :: 0 <= i < j < |Combinations(xs, k)| ==>
      Combinations(xs, k)[i] != Combinations(xs, k)[j]
  {
    CombinationsSorted(xs, k);
    forall i, j | 0 <= i < j < |Combinations(xs, k)|
      ensures Combinations(xs, k)[i] != Combinations(xs, k)[j]
    {
      LexLessIrreflexive(Combinations(xs, k)[i]);
    }
  }

  /** Every ascending selection of `k` elements of an ascending `xs` is produced. */
  lemma {:induction false} CombinationsComplete(xs: seq<int>, k: nat, c: seq<int>)
    requires Increasing(xs) && Increasing(c) && |c| == k
    requires forall j :: 0 <= j < |c| ==> c[j] in xs
    ensures c in Combinations(xs, k)
  {
    if k == 0 {
      assert c == [];
    } else {
      assert c[0] in xs;
      TailIncreasing(xs);
      var rest := xs[1..];
      var p := Prepend(xs[0], Combinations(rest, k - 1));
      assert Combinations(xs, k) == p + Combinations(rest, k);
      if c[0] == xs[0] {
        TakeFirst(xs, c);
        CombinationsComplete(rest, k - 1, c[1..]);
        InPrepend(xs[0], Combinations(rest, k - 1), Combinations(rest, k), c);
      } else {
        SkipFirst(xs, c);
        CombinationsComplete(rest, k, c);
      }
    }
  }

  /** A selection that starts with `xs[0]` continues with a selection of `xs[1..]`. */
  lemma TakeFirst(xs: seq<int>, c: seq<int>)
    requires Increasing(c) && 0 < |c| && Increasing(xs) && 0 < |xs| && c[0] == xs[0]
    requires forall j :: 0 <= j < |c| ==> c[j] in xs
    ensures Increasing(c[1..])
    ensures forall j :: 0 <= j < |c[1..]| ==> c[1..][j] in xs[1..]
  {
    var t := c[1..];
    forall j | 0 <= j < |t|
      ensures t[j] in xs[1..]
    {
      assert c[j + 1] in xs;
      var i :| 0 <= i < |xs| && xs[i] == c[j + 1];
      assert c[0] < c[j + 1];
      assert i != 0;
      assert xs[1..][i - 1] == t[j];
    }
  }

  /** A selection that does not start with `xs[0]` is a selection of `xs[1..]`. */
  lemma SkipFirst(xs: seq<int>, c: seq<int>)
    requires Increasing(c) && 0 < |c| && Increasing(xs) && 0 < |xs| && c[0] != xs[0]
    requires forall j :: 0 <= j < |c| ==> c[j] in xs
    ensures forall j :: 0 <= j < |c| ==> c[j] in xs[1..]
  {
    assert xs[0] < c[0] by {
      var i :| 0 <= i < |xs| && xs[i] == c[0];
      assert i != 0;
    }
    forall j | 0 <= j < |c|
      ensures c[j] in xs[1..]
    {
      var i :| 0 <= i < |xs| && xs[i] == c[j];
      assert c[0] <= c[j];
      assert i != 0;
      assert xs[1..][i - 1] == c[j];
    }
  }

  lemma InPrepend(x: int, cs: seq<seq<int>>, ds: seq<seq<int>>, c: seq<int>)
    requires 0 < |c| && c[0] == x && c[1..] in cs
    ensures c in Prepend(x, cs) + ds
  {
    var i :| 0 <= i < |cs| && cs[i] == c[1..];
    assert c == [x] + c[1..];
    assert (Prepend(x, cs) + ds)[i] == c;
  }
}
