/** The training data set of consecutive section pairs (`StackDataset` in
    `training/stack_dataset.py`): a stack of `N + 1` sections yields `2N`
    samples, the first N pairing each section with its successor and the
    last N the same pairs in mirrored order. A section is abstract. */
module StackData {
  import opened Slices
  import opened Arith

  /** `self.N = stack.shape[1] - 1`. */
  function PairCount(depth: nat): int {
    depth - 1
  }

  /** `__len__`: `2 * self.N`. */
  function Length(depth: nat): (r: int)
    ensures depth >= 1 ==> r >= 0 && r % 2 == 0
  {
    2 * PairCount(depth)
  }

  /** `i, j = sorted((N - abs(k - N), N - abs(k + 1 - N)))`: every index of
      the data set names two consecutive sections of the stack, `k < N` giving
      `(k, k+1)` and `k >= N` giving `(2N-k-1, 2N-k)`. */
  function PairIndices(n: int, k: int): (r: (int, int))
    ensures 0 <= k < 2 * n ==>
      && 0 <= r.0 && r.1 == r.0 + 1 && r.1 <= n
      && (k < n ==> r.0 == k)
      && (k >= n ==> r.0 == 2 * n - k - 1)
  {
    var i := n - Abs(k - n);
    var j := n - Abs(k + 1 - n);
    if i <= j then (i, j) else (j, i)
  }

  /** `__getitem__` before the transform: `stack[0, i:j+1]`. */
  function Sample<S>(stack: seq<S>, k: int): seq<S> {
    var p := PairIndices(|stack| - 1, k);
    Slice(stack, p.0, p.1 + 1)
  }

  /** `Split`: `src = X[0:1]`, `tgt = X[1:2]`. */
  function Split<S>(x: seq<S>): (seq<S>, seq<S>) {
    (Slice(x, 0, 1), Slice(x, 1, 2))
  }

  /** Indices k and `2N - 1 - k` are the same pair, matched in both directions. */
  lemma PairIndicesMirror(n: int, k: int)
    requires 0 <= k < 2 * n
    ensures PairIndices(n, k) == PairIndices(n, 2 * n - 1 - k)
  {
  }

  /** A sample of a stack with at least two sections is the two consecutive
      sections its index names, and `Split` makes the first the source and the
      second the target. */
  lemma SampleSplit<S>(stack: seq<S>, k: int)
    requires 0 <= k < Length(|stack|)
    ensures var (i, j) := PairIndices(|stack| - 1, k);
      && 0 <= i && j < |stack|
      && Sample(stack, k) == [stack[i], stack[j]]
      && Split(Sample(stack, k)) == ([stack[i]], [stack[j]])
  {
    var n := |stack| - 1;
    var (i, j) := PairIndices(n, k);
    var x := Sample(stack, k);
    assert x == stack[i..i + 2];
    assert Slice(x, 0, 1) == x[0..1] == [stack[i]];
    assert Slice(x, 1, 2) == x[1..2] == [stack[j]];
  }
}
