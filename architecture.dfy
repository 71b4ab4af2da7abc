/** The level bookkeeping of the aligner network in
    `models/inverter_v7/architecture.py`: which levels a sub-module view
    selects, the pixel-size ratio of a view, and the copies and shifts of
    trained weights between the per-level modules. A module's weights are
    abstract (type parameter W); the convolutions themselves are not part of
    this model. */
module Architecture {
  import opened Wrappers
  import opened Slices
  import opened Arith

  /** The argument of `submodule`: None, an int, or a slice with step 1 whose
      bounds may be absent. */
  datatype Index = Whole | Level(i: int) | Levels(lo: Option<int>, hi: Option<int>)

  datatype ArchError = IndexError | AttributeError

  /** `submodule`: None and an int at or above the height become
      `slice(height)`; anything else is passed to the view unchanged. */
  function Submodule(height: nat, index: Index): (r: Index)
    ensures r.Whole? == false
    ensures (index.Whole? || (index.Level? && index.i >= height)) ==> r == Levels(None, Some(height))
    ensures index.Levels? || (index.Level? && index.i < height) ==> r == index
  {
    if index.Whole? || (index.Level? && index.i >= height) then Levels(None, Some(height)) else index
  }

  /** The slice bounds `_SubmoduleView` uses: an int i becomes
      `slice(i, i + 1)`, and an absent bound is the start or the end. */
  function SliceBounds(index: Index, n: int): (int, int) {
    match index
    case Whole => (0, n)
    case Level(i) => (i, i + 1)
    case Levels(lo, hi) => (if lo.Some? then lo.value else 0, if hi.Some? then hi.value else n)
  }

  /** `self.levels = range(model.height)[index]`. */
  function ViewLevels(height: nat, index: Index): seq<int> {
    var (lo, hi) := SliceBounds(Submodule(height, index), height);
    Slice(Range(0, height), lo, hi)
  }

  /** `self.aligners = model.align.list[index]`: the same module objects, not
      copies. */
  function ViewAligners<W>(aligners: seq<W>, index: Index): seq<W> {
    var (lo, hi) := SliceBounds(Submodule(|aligners|, index), |aligners|);
    Slice(aligners, lo, hi)
  }

  /** A view's aligners are the model's aligners at the view's levels, in
      order, and the levels are levels of the model. */
  lemma ViewMatchesLevels<W>(aligners: seq<W>, index: Index)
    ensures var levels, view := ViewLevels(|aligners|, index), ViewAligners(aligners, index);
      && |view| == |levels|
      && (forall n :: 0 <= n < |levels| ==> 0 <= levels[n] < |aligners| && view[n] == aligners[levels[n]])
      && (forall n :: 0 <= n < |levels| - 1 ==> levels[n + 1] == levels[n] + 1)
  {
    var h := |aligners|;
    var (lo, hi) := SliceBounds(Submodule(h, index), h);
    var a, b := Bound(lo, h), Bound(hi, h);
    var levels := ViewLevels(h, index);
    if a <= b {
      assert levels == Range(0, h)[a..b];
      assert forall n :: 0 <= n < |levels| ==> levels[n] == a + n;
    }
  }

  /** None, and any int at or above the height, select every level; an int
      inside the height selects just that level. */
  lemma SubmoduleLevels(height: nat, i: int)
    ensures ViewLevels(height, Whole) == Range(0, height)
    ensures i >= height ==> ViewLevels(height, Level(i)) == Range(0, height)
    ensures 0 <= i < height ==> ViewLevels(height, Level(i)) == [i]
    ensures i == -1 ==> ViewLevels(height, Level(i)) == []
  {
    var r := Range(0, height);
    assert Slice(r, 0, height) == r[0..height];
    assert r[0..height] == r;
    if 0 <= i < height {
      assert Slice(r, i, i + 1) == r[i..i + 1];
    }
  }

  /** `pixel_size_ratio`: `2 ** self.levels[-1]`, an `IndexError` on a view
      with no level. The levels come from `range(model.height)`, so the
      exponent is never negative. */
  function PixelSizeRatio(height: nat, index: Index): (r: Result<nat, ArchError>)
    ensures r.Err? <==> ViewLevels(height, index) == []
  {
    var levels := ViewLevels(height, index);
    if levels == [] then Err(IndexError)
    else
      ViewMatchesLevels(Range(0, height), index);
      Ok(Pow2(levels[|levels| - 1]))
  }

  /** The whole network's ratio is `2 ** (height - 1)`, a single level's is
      `2 ** i`, and the view of `submodule(-1)` has no level and no ratio. */
  lemma PixelSizeRatios(height: nat, i: int)
    ensures height >= 1 ==> PixelSizeRatio(height, Whole) == Ok(Pow2(height - 1))
    ensures 0 <= i < height ==> PixelSizeRatio(height, Level(i)) == Ok(Pow2(i))
    ensures PixelSizeRatio(height, Level(-1)).Err?
  {
    SubmoduleLevels(height, i);
    SubmoduleLevels(height, -1);
  }

  /** `copy_aligner` / `copy_encoder` on a list of weights: an `IndexError`
      unless both ids lie in `[0, height)`, and otherwise only the target
      slot changes, to the source slot's weights. */
  function CopySlot<W>(slots: seq<W>, from: int, to: int): (r: Result<seq<W>, ArchError>)
    ensures r.Ok? <==> 0 <= from < |slots| && 0 <= to < |slots|
    ensures r.Ok? ==>
      && |r.value| == |slots| && r.value[to] == slots[from]
      && forall j :: 0 <= j < |slots| && j != to ==> r.value[j] == slots[j]
  {
    if Min(from, to) < 0 || Max(from, to) >= |slots| then Err(IndexError)
    else Ok(slots[to := slots[from]])
  }

  function Min(a: int, b: int): int {
    if a <= b then a else b
  }

  function Max(a: int, b: int): int {
    if a >= b then a else b
  }

  /** The list after `shift_aligners`: slot 0 keeps its weights, slot 1 is a
      copy of the old slot 0, every later slot i holds the old slot i - 1, and
      the old last slot is gone. */
  function Shifted<W>(slots: seq<W>): (r: seq<W>)
    requires |slots| >= 2
    ensures |r| == |slots| && r[0] == slots[0]
    ensures forall i :: 1 <= i < |slots| ==> r[i] == slots[i - 1]
  {
    [slots[0]] + slots[..|slots| - 1]
  }

  /** `init_level` of a view with more than one level: its lowest level takes
      the weights of the next one for `'lowest'`, its highest level those of
      the one before for `'highest'`; with one level, or another word,
      nothing changes. The slots are the model's, since the view shares its
      modules. */
  function InitLevel<W>(slots: seq<W>, levels: seq<int>, level: string): (r: seq<W>)
    requires forall n :: 0 <= n < |levels| ==> 0 <= levels[n] < |slots|
    ensures |r| == |slots|
    ensures |levels| > 1 && level == "lowest" ==>
      r[levels[0]] == slots[levels[1]] && forall j :: 0 <= j < |slots| && j != levels[0] ==> r[j] == slots[j]
    ensures |levels| > 1 && level == "highest" ==>
      var last := levels[|levels| - 1];
      r[last] == slots[levels[|levels| - 2]] && forall j :: 0 <= j < |slots| && j != last ==> r[j] == slots[j]
    ensures (|levels| <= 1 || (level != "lowest" && level != "highest")) ==> r == slots
  {
    if |levels| > 1 then
      if level == "lowest" then slots[levels[0] := slots[levels[1]]]
      else if level == "highest" then slots[levels[|levels| - 1] := slots[levels[|levels| - 2]]]
      else slots
    else slots
  }

  /** The network's per-level modules: one aligner per level, and one encoder
      per level when the network was built with encodings. */
  class Network<W> {
    const height: nat
    var aligners: seq<W>
    var encoders: Option<seq<W>>

    ghost predicate Valid()
      reads this
    {
      |aligners| == height && (encoders.Some? ==> |encoders.value| == height)
    }

    constructor (alignerWeights: seq<W>, encoderWeights: Option<seq<W>>)
      requires encoderWeights.Some? ==> |encoderWeights.value| == |alignerWeights|
      ensures Valid() && height == |alignerWeights|
      ensures aligners == alignerWeights && encoders == encoderWeights
    {
      height := |alignerWeights|;
      aligners := alignerWeights;
      encoders := encoderWeights;
    }

    /** `copy_aligner(id_from, id_to)`. */
    method CopyAligner(from: int, to: int) returns (err: Option<ArchError>)
      requires Valid()
      modifies this
      ensures Valid() && encoders == old(encoders)
      ensures var r := CopySlot(old(aligners), from, to);
        && (err.None? <==> r.Ok?)
        && aligners == (if r.Ok? then r.value else old(aligners))
    {
      var r := CopySlot(aligners, from, to);
      if r.Err? {
        return Some(r.error);
      }
      aligners := r.value;
      return None;
    }

    /** `copy_encoder(id_from, id_to)`: the bounds are checked first; a
        network without encodings then fails on `self.encode.list`. */
    method CopyEncoder(from: int, to: int) returns (err: Option<ArchError>)
      requires Valid()
      modifies this
      ensures Valid() && aligners == old(aligners)
      ensures !(0 <= from < height && 0 <= to < height) ==> err == Some(IndexError) && encoders == old(encoders)
      ensures 0 <= from < height && 0 <= to < height && old(encoders).None? ==>
        err == Some(AttributeError) && encoders == old(encoders)
      ensures 0 <= from < height && 0 <= to < height && old(encoders).Some? ==>
        err.None? && encoders == Some(CopySlot(old(encoders).value, from, to).value)
    {
      if Min(from, to) < 0 || Max(from, to) >= height {
        return Some(IndexError);
      }
      if encoders.None? {
        return Some(AttributeError);
      }
      encoders := Some(CopySlot(encoders.value, from, to).value);
      return None;
    }

    /** `shift_aligners`: slots `height-1` down to 2 each take the module of
        the slot below, then slot 1 takes a copy of slot 0. A network of
        height 0 fails reading slot 0, one of height 1 assigning slot 1. */
    method ShiftAligners() returns (err: Option<ArchError>)
      requires Valid()
      modifies this
      ensures Valid() && encoders == old(encoders)
      ensures err.Some? <==> height < 2
      ensures err.Some? ==> aligners == old(aligners)
      ensures err.None? ==> aligners == Shifted(old(aligners))
    {
      if height < 2 {
        return Some(IndexError);
      }
      ghost var before := aligners;
      var i := height - 1;
      while i > 1
        invariant 1 <= i <= height - 1
        invariant |aligners| == height && encoders == old(encoders)
        invariant aligners[..i + 1] == before[..i + 1]
        invariant forall j :: i < j < height ==> aligners[j] == before[j - 1]
      {
        aligners := aligners[i := aligners[i - 1]];
        i := i - 1;
      }
      aligners := aligners[1 := aligners[0]];
      return None;
    }

    /** `init_level(level)` of the view `submodule(index)`. */
    method InitViewLevel(index: Index, level: string)
      requires Valid()
      modifies this
      ensures Valid() && encoders == old(encoders)
      ensures aligners == InitLevel(old(aligners), ViewLevels(height, index), level)
    {
      ViewMatchesLevels(aligners, index);
      aligners := InitLevel(aligners, ViewLevels(height, index), level);
    }
  }
}
