/**
 * `chunks(iterable, n)` of calc.py: cut a sequence into consecutive pieces
 * of `n` items (the last piece may be shorter), stopping at the first empty
 * piece that `islice` returns.
 */
module Chunks {
  import opened Wrappers
  import opened Numerals

  /** `islice` refuses a stop outside `0..sys.maxsize` with ValueError. */
  datatype ChunkError = StopOutOfRange

  /** `sys.maxsize` on a 64-bit CPython: the largest `Py_ssize_t`. */
  const MaxSize: int := 0x7fff_ffff_ffff_ffff

  /** Concatenation of a sequence of sequences (`''.join` on strings). */
  function Flatten<T>(xss: seq<seq<T>>): seq<T> {
    if xss == [] then [] else xss[0] + Flatten(xss[1..])
  }

  lemma FlattenAppend<T>(a: seq<seq<T>>, b: seq<seq<T>>)
    ensures Flatten(a + b) == Flatten(a) + Flatten(b)
  {
    if a == [] {
      assert a + b == b;
    } else {
      assert (a + b)[0] == a[0] && (a + b)[1..] == a[1..] + b;
      FlattenAppend(a[1..], b);
    }
  }

  /**
   * What the generator yields: each `islice(iterable, n)` takes the next
   * `Min(n, remaining)` items; an empty slice ends the generator, so a size
   * of 0 or an empty input yields nothing.
   */
  function ChunksOf<T>(xs: seq<T>, n: nat): seq<seq<T>>
    decreases |xs|
  {
    if n == 0 || xs == [] then []
    else
      var k := Min(n, |xs|);
      [xs[..k]] + ChunksOf(xs[k..], n)
  }

  /** One `islice` step: the piece up to `end`, then the pieces of what is left. */
  lemma ChunksStep<T>(xs: seq<T>, pos: nat, n: nat, end: nat)
    requires pos < end == Min(pos + n, |xs|)
    ensures ChunksOf(xs[pos..], n) == [xs[pos..end]] + ChunksOf(xs[end..], n)
  {
    var k := end - pos;
    assert k == Min(n, |xs[pos..]|);
    assert xs[pos..][..k] == xs[pos..end];
    assert xs[pos..][k..] == xs[end..];
  }

  /** An empty slice: nothing is left, or the size is 0. */
  lemma ChunksDone<T>(xs: seq<T>, pos: nat, n: nat)
    requires pos <= |xs| && Min(pos + n, |xs|) == pos
    ensures ChunksOf(xs[pos..], n) == []
  {
  }

  /** The generator driven to exhaustion, one `islice` per iteration. */
  method Chunks<T>(xs: seq<T>, n: int) returns (r: Result<seq<seq<T>>, ChunkError>)
    ensures n < 0 || n > MaxSize <==> r == Failure(StopOutOfRange)
    ensures 0 <= n <= MaxSize ==> r == Success(ChunksOf(xs, n))
  {
    if n < 0 || n > MaxSize {
      return Failure(StopOutOfRange);
    }
    var out: seq<seq<T>> := [];
    var pos: nat := 0;
    while true
      invariant pos <= |xs|
      invariant out + ChunksOf(xs[pos..], n) == ChunksOf(xs, n)
      decreases |xs| - pos
    {
      var end := Min(pos + n, |xs|);
      var chunk := xs[pos..end];
      if chunk == [] {
        break;
      }
      ChunksStep(xs, pos, n, end);
      assert out + [chunk] + ChunksOf(xs[end..], n) == out + ChunksOf(xs[pos..], n);
      out := out + [chunk];
      pos := end;
    }
    ChunksDone(xs, pos, n);
    assert out + [] == out;
    return Success(out);
  }

  /** The pieces put back together give the input. */
  lemma {:induction false} FlattenChunks<T>(xs: seq<T>, n: nat)
    requires n >= 1
    ensures Flatten(ChunksOf(xs, n)) == xs
    decreases |xs|
  {
    if xs != [] {
      var k := Min(n, |xs|);
      FlattenChunks(xs[k..], n);
      assert ChunksOf(xs, n)[1..] == ChunksOf(xs[k..], n);
      assert xs == xs[..k] + xs[k..];
    }
  }

  /** Every piece holds between 1 and `n` items. */
  lemma {:induction false} ChunkSizes<T>(xs: seq<T>, n: nat)
    ensures forall c :: c in ChunksOf(xs, n) ==> 0 < |c| <= n
    decreases |xs|
  {
    if n != 0 && xs != [] {
      ChunkSizes(xs[Min(n, |xs|)..], n);
    }
  }

  /** Piece `i` is the slice starting at `n*i`; only the last piece can be short. */
  lemma {:induction false} ChunkAt<T>(xs: seq<T>, n: nat, i: nat)
    requires n >= 1 && i < |ChunksOf(xs, n)|
    ensures n * i < |xs|
    ensures ChunksOf(xs, n)[i] == xs[n * i..Min(n * i + n, |xs|)]
    ensures i + 1 < |ChunksOf(xs, n)| ==> |ChunksOf(xs, n)[i]| == n
    decreases |xs|
  {
    var k := Min(n, |xs|);
    var rest := ChunksOf(xs[k..], n);
    assert ChunksOf(xs, n) == [xs[..k]] + rest;
    if i == 0 {
      if 1 < |ChunksOf(xs, n)| {
        assert xs[k..] != [];
      }
    } else {
      ChunkAt(xs[k..], n, i - 1);
      assert xs[k..] != [] && k == n;
      var j := n * (i - 1);
      MulStep(n, i, j);
      ChunkShift(xs, n, j);
      assert ChunksOf(xs, n)[i] == rest[i - 1];
    }
  }

  /** A slice of `xs[n..]` is the slice of `xs` shifted by `n`. */
  lemma ChunkShift<T>(xs: seq<T>, n: nat, j: nat)
    requires n <= |xs| && j < |xs| - n
    ensures xs[n..][j..Min(j + n, |xs| - n)] == xs[j + n..Min(j + n + n, |xs|)]
  {
    SliceOfSlice(xs, n, j, Min(j + n, |xs| - n));
  }

  lemma SliceOfSlice<T>(xs: seq<T>, a: nat, lo: nat, hi: nat)
    requires a <= |xs| && lo <= hi <= |xs| - a
    ensures xs[a..][lo..hi] == xs[a + lo..a + hi]
  {
  }

  lemma MulStep(n: int, i: int, j: int)
    requires j == n * (i - 1)
    ensures n * i == j + n && n * i + n == j + n + n
  {
  }

  /** There are `ceil(|xs| / n)` pieces: `n` times the count just covers `xs`. */
  lemma {:induction false} ChunkCount<T>(xs: seq<T>, n: nat)
    requires n >= 1
    ensures |xs| <= n * |ChunksOf(xs, n)| < |xs| + n
    decreases |xs|
  {
    if xs != [] {
      var k := Min(n, |xs|);
      ChunkCount(xs[k..], n);
      var m := |ChunksOf(xs[k..], n)|;
      assert |ChunksOf(xs, n)| == m + 1;
      assert n * (m + 1) == n * m + n;
    }
  }
}
