/** `make_range`: splitting a list of sections into contiguous pieces, one per
    worker process. The same function appears in the block-alignment scripts
    and in the render script. */
module Partition {
  import opened Slices

  /** The pieces concatenated in order. */
  function Flatten<T>(parts: seq<seq<T>>): seq<T> {
    if parts == [] then [] else parts[0] + Flatten(parts[1..])
  }

  lemma {:induction false} FlattenSnoc<T>(parts: seq<seq<T>>, x: seq<T>)
    ensures Flatten(parts + [x]) == Flatten(parts) + x
  {
    if parts == [] {
      assert [x][1..] == [];
    } else {
      assert (parts + [x])[1..] == parts[1..] + [x];
      FlattenSnoc(parts[1..], x);
    }
  }

  /** Length of every piece but the last. */
  function PieceLength(n: nat, partNum: int): (q: nat)
    requires partNum >= 1
    ensures n > 0 ==> q >= 1
  {
    if n < partNum then 1 else n / partNum
  }

  /** Number of pieces for a non-empty list. */
  function PieceCount(n: nat, partNum: int): (p: nat)
    requires partNum >= 1
    ensures p <= n && p <= partNum
    ensures n > 0 ==> p >= 1
  {
    if n < partNum then n else partNum
  }

  lemma PiecesFit(n: nat, partNum: int, i: int)
    requires partNum >= 1
    requires 0 <= i <= PieceCount(n, partNum)
    ensures i * PieceLength(n, partNum) <= n
  {
    var p, q := PieceCount(n, partNum), PieceLength(n, partNum);
    if n >= partNum {
      assert p * q <= n;
      assert i * q <= p * q;
    }
  }

  /** `make_range(block_range, part_num)`: at most `partNum` contiguous pieces
      covering the list in order; all pieces but the last have the same length
      and the last takes the remainder. An empty list yields a single empty
      piece (the source's `block_range[-1:]`). */
  method MakeRange<T>(s: seq<T>, partNum: int) returns (parts: seq<seq<T>>)
    requires partNum >= 1
    ensures Flatten(parts) == s
    ensures |s| == 0 ==> parts == [[]]
    ensures |s| > 0 ==> |parts| == PieceCount(|s|, partNum)
    ensures forall k :: 0 <= k < |parts| - 1 ==> |parts[k]| == PieceLength(|s|, partNum)
    ensures |s| > 0 ==> |parts[|parts| - 1]| >= PieceLength(|s|, partNum)
  {
    var rangeLen := |s|;
    var part, srange;
    if rangeLen < partNum {
      srange := 1;
      part := rangeLen;
    } else {
      part := partNum;
      srange := rangeLen / part;
    }
    assert part == PieceCount(rangeLen, partNum) && srange == PieceLength(rangeLen, partNum);
    if rangeLen > 0 {
      PiecesFit(rangeLen, partNum, part);
    }
    parts := Chop(s, part, srange);
  }

  /** The loop of `make_range` once the piece count and length are fixed. */
  method Chop<T>(s: seq<T>, part: int, srange: nat) returns (parts: seq<seq<T>>)
    requires |s| > 0 ==> part >= 1 && srange >= 1 && part * srange <= |s|
    requires |s| == 0 ==> part == 0 && srange == 1
    ensures Flatten(parts) == s
    ensures |s| == 0 ==> parts == [[]]
    ensures |s| > 0 ==> |parts| == part
    ensures forall k :: 0 <= k < |parts| - 1 ==> |parts[k]| == srange
    ensures |s| > 0 ==> |parts[|parts| - 1]| >= srange
  {
    var lastLo := (part - 1) * srange;
    LastFits(|s|, part, srange);
    parts := [];
    var i, lo := 0, 0;
    while i < part - 1
      invariant 0 <= i && (part >= 1 ==> i <= part - 1)
      invariant |parts| == i && lo == i * srange
      invariant 0 <= lo <= |s| && (part >= 1 ==> lo <= lastLo) && (part < 1 ==> lo == 0)
      invariant forall k :: 0 <= k < i ==> |parts[k]| == srange
      invariant Flatten(parts) == s[..lo]
    {
      Step(part, i, srange, lo);
      Extend(s, parts, lo, lo + srange);
      parts := parts + [s[lo..lo + srange]];
      i, lo := i + 1, lo + srange;
    }
    var last := From(s, lastLo);
    LastPiece(s, parts, part, srange, lo);
    parts := parts + [last];
  }

  /** The last piece starts `srange` or more before the end of the list. */
  lemma LastFits(n: nat, part: int, srange: nat)
    requires n > 0 ==> part >= 1 && srange >= 1 && part * srange <= n
    ensures n > 0 ==> 0 <= (part - 1) * srange && (part - 1) * srange + srange <= n
  {
    if n > 0 {
      assert (part - 1) * srange + srange == part * srange;
    }
  }

  lemma Step(part: int, i: int, srange: nat, lo: int)
    requires lo == i * srange && 0 <= i < part - 1
    ensures lo + srange == (i + 1) * srange
    ensures lo + srange <= (part - 1) * srange
  {
    assert (i + 1) * srange == i * srange + srange;
    MulMono(i + 1, part - 1, srange);
  }

  lemma {:induction false} MulMono(a: int, b: int, c: nat)
    requires 0 <= a <= b
    ensures a * c <= b * c
    decreases b - a
  {
    if a < b {
      MulMono(a, b - 1, c);
      assert b * c == (b - 1) * c + c;
    }
  }

  lemma Extend<T>(s: seq<T>, parts: seq<seq<T>>, lo: int, hi: int)
    requires 0 <= lo <= hi <= |s| && Flatten(parts) == s[..lo]
    ensures Flatten(parts + [s[lo..hi]]) == s[..hi]
  {
    FlattenSnoc(parts, s[lo..hi]);
    assert s[..lo] + s[lo..hi] == s[..hi];
  }

  lemma LastPiece<T>(s: seq<T>, parts: seq<seq<T>>, part: int, srange: nat, lo: int)
    requires |s| > 0 ==> part >= 1 && lo == (part - 1) * srange && lo + srange <= |s| && 0 <= lo
    requires |s| == 0 ==> part == 0 && srange == 1 && lo == 0
    requires Flatten(parts) == s[..lo]
    ensures Flatten(parts + [From(s, (part - 1) * srange)]) == s
    ensures |s| > 0 ==> |From(s, (part - 1) * srange)| >= srange
    ensures |s| == 0 ==> From(s, (part - 1) * srange) == []
  {
    var last := From(s, (part - 1) * srange);
    FlattenSnoc(parts, last);
    if |s| > 0 {
      assert Bound(lo, |s|) == lo;
      assert last == s[lo..];
      assert s[..lo] + s[lo..] == s;
    }
  }
}
