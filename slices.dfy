/** Python's slice semantics with step 1 (`s[lo:hi]`): negative bounds count from
    the end, and out-of-range bounds are clipped instead of failing. Several
    parts of the pipeline depend on these rules at their edges (`x[-1:]` on an
    empty list, `x[c:-c]` with `c == 0`). */
module Slices {
  /** The position a Python slice bound denotes in a sequence of length n. */
  function Bound(i: int, n: nat): (r: nat)
    ensures r <= n
    ensures 0 <= i <= n ==> r == i
    ensures i < 0 && 0 <= i + n ==> r == n + i
    ensures i + n < 0 ==> r == 0
    ensures i > n ==> r == n
  {
    if i < 0 then (if i + n < 0 then 0 else i + n) else if i > n then n else i
  }

  /** `s[lo:hi]` in Python. */
  function Slice<T>(s: seq<T>, lo: int, hi: int): (r: seq<T>)
    ensures |r| <= |s|
    ensures 0 <= lo <= hi <= |s| ==> r == s[lo..hi]
    ensures Bound(hi, |s|) <= Bound(lo, |s|) ==> r == []
    ensures Bound(lo, |s|) <= Bound(hi, |s|) ==> r == s[Bound(lo, |s|)..Bound(hi, |s|)]
  {
    var a := Bound(lo, |s|);
    var b := Bound(hi, |s|);
    if a <= b then s[a..b] else []
  }

  /** `s[lo:]` in Python. */
  function From<T>(s: seq<T>, lo: int): (r: seq<T>)
    ensures r == s[Bound(lo, |s|)..]
  {
    Slice(s, lo, |s|)
  }

  /** `s[:hi]` in Python. */
  function Upto<T>(s: seq<T>, hi: int): (r: seq<T>)
    ensures r == s[..Bound(hi, |s|)]
  {
    Slice(s, 0, hi)
  }

  /** `s[::-1]` in Python. */
  function Reverse<T>(s: seq<T>): (r: seq<T>)
    ensures |r| == |s|
    ensures forall i :: 0 <= i < |s| ==> r[i] == s[|s| - 1 - i]
  {
    if s == [] then [] else Reverse(s[1..]) + [s[0]]
  }

  /** `list(range(lo, hi))` in Python. */
  function Range(lo: int, hi: int): (r: seq<int>)
    decreases hi - lo
    ensures |r| == if lo < hi then hi - lo else 0
    ensures forall i :: 0 <= i < |r| ==> r[i] == lo + i
    ensures forall x :: x in r <==> lo <= x < hi
  {
    if lo < hi then [lo] + Range(lo + 1, hi) else []
  }

  /** `list(range(lo, hi, step))` in Python for a positive step: from lo in
      steps of `step`, the last element the one whose successor reaches hi. */
  function StepRange(lo: int, hi: int, step: int): (r: seq<int>)
    requires step > 0
    decreases hi - lo
    ensures r == [] <==> lo >= hi
    ensures r != [] ==> r[0] == lo
  {
    if lo < hi then [lo] + StepRange(lo + step, hi, step) else []
  }

  /** Consecutive elements of `range(lo, hi, step)` are `step` apart, all lie
      in `[lo, hi)`, and the successor of the last one reaches `hi`. */
  lemma {:induction false} StepRangeShape(lo: int, hi: int, step: int)
    requires step > 0
    ensures var r := StepRange(lo, hi, step);
      && (r != [] ==> r[|r| - 1] < hi <= r[|r| - 1] + step)
      && (forall i :: 0 <= i < |r| - 1 ==> r[i + 1] == r[i] + step)
      && (forall i :: 0 <= i < |r| ==> lo <= r[i] < hi)
    decreases hi - lo
  {
    if lo < hi {
      var r, t := StepRange(lo, hi, step), StepRange(lo + step, hi, step);
      assert r == [lo] + t;
      StepRangeShape(lo + step, hi, step);
      forall i | 0 <= i < |r| - 1 ensures r[i + 1] == r[i] + step {
        if i > 0 {
          assert r[i + 1] == t[i] && r[i] == t[i - 1];
        }
      }
    }
  }
}
