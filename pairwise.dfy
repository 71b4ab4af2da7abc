/** The pairwise field store and its vector vote (`inference/pairwisetensors.py`).
    A pairwise object `f_{tgt <- src}` is kept under the key
    `(offset, src)` with `offset = tgt - src`, one volume per registered
    offset. A field of a longer path is the composition of its hops. The
    vote corrects each `f_{z+k <- z}` from the direct estimate and two
    estimates through the nearest other offsets.

    Stored values are abstract (type parameter V). So are the field
    composition `compose` and the voting weights `vote`. A volume with no
    data at a key reads as `blank`, as `fill_missing` does. */
module Pairwise {
  import opened Wrappers
  import opened Arith

  datatype PairError = ValueError | KeyError

  /** Where `f_{tgt <- src}` is kept: volume `tgt - src`, section `src`. */
  function KeyOf(tgt: int, src: int): (int, int) {
    (tgt - src, src)
  }

  /** What a volume holds at a key: `blank` where it has no data. */
  function Slot<V>(data: map<(int, int), V>, blank: V, key: (int, int)): V {
    if key in data then data[key] else blank
  }

  /** `PairwiseTensors.__getitem__(key)`: the key must be a pair. */
  function Read<V>(offsets: set<int>, data: map<(int, int), V>, blank: V, pair: seq<int>): Result<V, PairError> {
    if |pair| != 2 then Err(ValueError) else ReadPair(offsets, data, blank, pair[0], pair[1])
  }

  /** The read of `(tgt, src)`: a `ValueError` unless its offset is registered. */
  function ReadPair<V>(offsets: set<int>, data: map<(int, int), V>, blank: V, tgt: int, src: int): Result<V, PairError> {
    if tgt - src !in offsets then Err(ValueError) else Ok(Slot(data, blank, KeyOf(tgt, src)))
  }

  /** `PairwiseTensors.__setitem__((tgt, src), v)`: the offset must have a
      volume (`self.cvs[offset]`, a `KeyError` otherwise). */
  function Write<V>(offsets: set<int>, data: map<(int, int), V>, pair: seq<int>, v: V): Result<map<(int, int), V>, PairError> {
    if |pair| != 2 then Err(ValueError)
    else if pair[0] - pair[1] !in offsets then Err(KeyError)
    else Ok(data[KeyOf(pair[0], pair[1]) := v])
  }

  /** A key that is not a pair fails both ways with `ValueError`. An
      unregistered offset fails a read with `ValueError` and a write with
      `KeyError`. */
  lemma AccessErrors<V>(offsets: set<int>, data: map<(int, int), V>, blank: V, pair: seq<int>, v: V)
    ensures |pair| != 2 ==> Read(offsets, data, blank, pair) == Err(ValueError) && Write(offsets, data, pair, v) == Err(ValueError)
    ensures |pair| == 2 ==>
      && (Read(offsets, data, blank, pair).Ok? <==> pair[0] - pair[1] in offsets)
      && (pair[0] - pair[1] !in offsets ==> Read(offsets, data, blank, pair) == Err(ValueError) && Write(offsets, data, pair, v) == Err(KeyError))
  {
  }

  /** A value written at `(tgt, src)` is read back there. Every pair with
      another key reads as before. */
  lemma ReadAfterWrite<V>(offsets: set<int>, data: map<(int, int), V>, blank: V, pair: seq<int>, v: V, other: seq<int>)
    requires Write(offsets, data, pair, v).Ok?
    ensures var d := Write(offsets, data, pair, v).value;
      && Read(offsets, d, blank, pair) == Ok(v)
      && (|other| == 2 && KeyOf(other[0], other[1]) != KeyOf(pair[0], pair[1]) ==>
            Read(offsets, d, blank, other) == Read(offsets, data, blank, other))
  {
  }

  /** Pairs with the same offset and source share one slot: `(z + k, z)` is
      the slot `(k, z)`, whatever z. */
  lemma KeyOfPair(z: int, k: int)
    ensures KeyOf(z + k, z) == (k, z)
  {
  }

  // Multi-hop reads

  /** `[t - s for t, s in zip(p[:-1], p[1:])]`. */
  function PathOffsets(p: seq<int>): (r: seq<int>)
    ensures |r| == if |p| == 0 then 0 else |p| - 1
  {
    if p == [] then [] else seq(|p| - 1, i requires 0 <= i < |p| - 1 => p[i] - p[i + 1])
  }

  /** The composition of fields, outermost first: `fs[0] o fs[1] o ...`. */
  function ComposeAll<V>(fs: seq<V>, compose: (V, V) -> V): V
    requires fs != []
  {
    if |fs| == 1 then fs[0] else compose(fs[0], ComposeAll(fs[1..], compose))
  }

  /** The hops of path p: offset `p[i] - p[i+1]` read at section `p[i+1]`. */
  function Hops<V>(data: map<(int, int), V>, blank: V, p: seq<int>): (r: seq<V>)
    requires |p| >= 1
    ensures |r| == |p| - 1
  {
    seq(|p| - 1, i requires 0 <= i < |p| - 1 => Slot(data, blank, (p[i] - p[i + 1], p[i + 1])))
  }

  predicate AllIn(xs: seq<int>, offsets: set<int>) {
    forall i :: 0 <= i < |xs| ==> xs[i] in offsets
  }

  /** `PairwiseFields.__getitem__(p)`: a pair or shorter is a plain read. A
      longer path fails with `ValueError` before any read if one of its
      offsets has no volume, and is otherwise the composition of its hops. */
  function ReadPath<V>(offsets: set<int>, data: map<(int, int), V>, blank: V, p: seq<int>, compose: (V, V) -> V): Result<V, PairError> {
    if |p| <= 2 then Read(offsets, data, blank, p)
    else if !AllIn(PathOffsets(p), offsets) then Err(ValueError)
    else Ok(ComposeAll(Hops(data, blank, p), compose))
  }

  lemma ReadPathOk<V>(offsets: set<int>, data: map<(int, int), V>, blank: V, p: seq<int>, compose: (V, V) -> V)
    requires |p| >= 3
    ensures ReadPath(offsets, data, blank, p, compose).Ok? == AllIn(PathOffsets(p), offsets)
  {
  }

  lemma HopsReadable<V>(offsets: set<int>, data: map<(int, int), V>, blank: V, p: seq<int>)
    requires |p| >= 3
    ensures AllIn(PathOffsets(p), offsets) <==>
      forall i :: 0 <= i < |p| - 1 ==> ReadPair(offsets, data, blank, p[i], p[i + 1]).Ok?
  {
  }

  lemma HopsRead<V>(offsets: set<int>, data: map<(int, int), V>, blank: V, p: seq<int>)
    requires |p| >= 3 && AllIn(PathOffsets(p), offsets)
    ensures forall i :: 0 <= i < |p| - 1 ==> ReadPair(offsets, data, blank, p[i], p[i + 1]) == Ok(Hops(data, blank, p)[i])
  {
    forall i | 0 <= i < |p| - 1
      ensures ReadPair(offsets, data, blank, p[i], p[i + 1]) == Ok(Hops(data, blank, p)[i])
    {
      assert PathOffsets(p)[i] == p[i] - p[i + 1];
    }
  }

  /** A path's field is the composition of the pair reads along it: it
      exists exactly when every hop `(p[i], p[i+1])` can be read, and each hop
      reads as the field composed at its place. */
  lemma ReadPathHops<V>(offsets: set<int>, data: map<(int, int), V>, blank: V, p: seq<int>, compose: (V, V) -> V)
    requires |p| >= 3
    ensures ReadPath(offsets, data, blank, p, compose).Ok? <==>
      forall i :: 0 <= i < |p| - 1 ==> ReadPair(offsets, data, blank, p[i], p[i + 1]).Ok?
    ensures ReadPath(offsets, data, blank, p, compose).Ok? ==>
      forall i :: 0 <= i < |p| - 1 ==> ReadPair(offsets, data, blank, p[i], p[i + 1]) == Ok(Hops(data, blank, p)[i])
  {
    ReadPathOk(offsets, data, blank, p, compose);
    HopsReadable(offsets, data, blank, p);
    if AllIn(PathOffsets(p), offsets) {
      HopsRead(offsets, data, blank, p);
    }
  }

  /** `F[(z+k, z+j, z)]` is `f_{z+k <- z+j} o f_{z+j <- z}`. The first hop is
      volume `k - j` at section `z + j`, the second volume `j` at z. */
  lemma ReadThree<V>(offsets: set<int>, data: map<(int, int), V>, blank: V, z: int, k: int, j: int, compose: (V, V) -> V)
    ensures var r := ReadPath(offsets, data, blank, [z + k, z + j, z], compose);
      && (r.Ok? <==> (k - j in offsets && j in offsets))
      && (r.Ok? ==> r.value == Through(data, blank, z, k, j, compose))
  {
    var p := [z + k, z + j, z];
    var o := PathOffsets(p);
    assert o[0] == k - j && o[1] == j;
    assert AllIn(o, offsets) <==> k - j in offsets && j in offsets;
    var h := Hops(data, blank, p);
    assert h[0] == Slot(data, blank, (k - j, z + j)) && h[1] == Slot(data, blank, (j, z));
    assert h[1..] == [h[1]];
    assert ComposeAll(h, compose) == compose(h[0], h[1]);
  }

  /** One set of pairwise volumes: `PairwiseTensors`, and `PairwiseFields` when
      read through `ReadPath`. `offsets` are the volumes `self.cvs` holds. */
  class PairwiseTensors<V> {
    const offsets: set<int>
    const blank: V
    var data: map<(int, int), V>

    /** The volumes of `offsets` with their present contents. */
    constructor (offsets: set<int>, blank: V, data: map<(int, int), V>)
      ensures this.offsets == offsets && this.blank == blank && this.data == data
    {
      this.offsets := offsets;
      this.blank := blank;
      this.data := data;
    }

    function Get(pair: seq<int>): Result<V, PairError>
      reads this
    {
      Read(offsets, data, blank, pair)
    }

    function GetPath(p: seq<int>, compose: (V, V) -> V): Result<V, PairError>
      reads this
    {
      ReadPath(offsets, data, blank, p, compose)
    }

    /** `__setitem__`. */
    method Set(pair: seq<int>, v: V) returns (err: Option<PairError>)
      modifies this
      ensures var w := Write(offsets, old(data), pair, v);
        && (err.None? <==> w.Ok?)
        && (w.Err? ==> err == Some(w.error) && data == old(data))
        && (w.Ok? ==> data == w.value)
    {
      var w := Write(offsets, data, pair, v);
      if w.Err? {
        return Some(w.error);
      }
      data := w.value;
      return None;
    }
  }

  // The vote

  /** `random_offsets[np.argsort(abs(random_offsets - k))[1:3]]`. Here `perm`
      is the random permutation and `order` the argsort. */
  function Intermediaries(perm: seq<int>, order: seq<int>, k: int): (r: seq<int>)
    requires forall q :: 0 <= q < |order| ==> 0 <= order[q] < |perm|
    ensures |r| == if |order| >= 3 then 2 else if |order| == 2 then 1 else 0
    ensures forall n :: 0 <= n < |r| ==> r[n] == perm[order[n + 1]]
  {
    if |order| >= 3 then [perm[order[1]], perm[order[2]]]
    else if |order| == 2 then [perm[order[1]]]
    else []
  }

  function Dist(x: int, k: int): nat {
    Abs(x - k)
  }

  /** `order` is what argsort may return on the distances of `perm` from k: a
      permutation of `perm`'s indices, ascending in distance. Ties may come in
      any order. */
  ghost predicate SortsByDistance(perm: seq<int>, order: seq<int>, k: int) {
    && |order| == |perm|
    && (forall q :: 0 <= q < |order| ==> 0 <= order[q] < |perm|)
    && (forall q, q' :: 0 <= q < q' < |order| ==> order[q] != order[q'])
    && (forall i :: 0 <= i < |perm| ==> i in order)
    && (forall q, q' :: 0 <= q < q' < |order| ==> Dist(perm[order[q]], k) <= Dist(perm[order[q']], k))
  }

  predicate Distinct(s: seq<int>) {
    forall i, j :: 0 <= i < j < |s| ==> s[i] != s[j]
  }

  lemma FirstIsNearest(perm: seq<int>, order: seq<int>, k: int, q: int)
    requires SortsByDistance(perm, order, k) && 0 <= q < |order|
    ensures Dist(perm[order[0]], k) <= Dist(perm[order[q]], k)
  {
    if q > 0 {
      assert Dist(perm[order[0]], k) <= Dist(perm[order[q]], k);
    }
  }

  /** With distinct offsets containing k, k sorts first. The intermediaries
      are then the two offsets nearest to k other than k, or all others when
      fewer: none of them is k, and no unchosen offset is nearer to k than a
      chosen one. */
  lemma IntermediariesNearest(perm: seq<int>, order: seq<int>, k: int)
    requires Distinct(perm) && k in perm && SortsByDistance(perm, order, k)
    ensures var inter := Intermediaries(perm, order, k);
      && |inter| == (if |perm| >= 3 then 2 else |perm| - 1)
      && (forall n :: 0 <= n < |inter| ==> inter[n] != k && inter[n] in perm)
      && (forall i, n :: 0 <= i < |perm| && 0 <= n < |inter| && perm[i] != k && perm[i] !in inter ==>
            Dist(inter[n], k) <= Dist(perm[i], k))
  {
    var inter := Intermediaries(perm, order, k);
    var i0 :| 0 <= i0 < |perm| && perm[i0] == k;
    assert i0 in order;
    var q0 :| 0 <= q0 < |order| && order[q0] == i0;
    FirstIsNearest(perm, order, k, q0);
    assert perm[order[0]] == k;
    forall n | 0 <= n < |inter| ensures inter[n] != k && inter[n] in perm {
      assert order[n + 1] != order[0];
    }
    forall i, n | 0 <= i < |perm| && 0 <= n < |inter| && perm[i] != k && perm[i] !in inter
      ensures Dist(inter[n], k) <= Dist(perm[i], k)
    {
      UnchosenFarther(perm, order, k, i, n);
    }
  }

  lemma UnchosenFarther(perm: seq<int>, order: seq<int>, k: int, i: int, n: int)
    requires SortsByDistance(perm, order, k) && 0 <= i < |perm| && perm[order[0]] == k
    requires var inter := Intermediaries(perm, order, k);
      0 <= i < |perm| && 0 <= n < |inter| && perm[i] != k && perm[i] !in inter
    ensures Dist(Intermediaries(perm, order, k)[n], k) <= Dist(perm[i], k)
  {
    var inter := Intermediaries(perm, order, k);
    assert i in order;
    var q :| 0 <= q < |order| && order[q] == i;
    assert q != 0;
    assert |inter| >= 1 ==> inter[0] in inter;
    assert |inter| >= 2 ==> inter[1] in inter;
    assert q > 2;
  }

  /** The candidates for offset k: the direct estimate `F[(z+k, z)]`, then
      `F[(z+k, z+j, z)]` for each intermediary j. The first failed read is
      the task's error. */
  function Candidates<V>(offsets: set<int>, data: map<(int, int), V>, blank: V, z: int, k: int, inter: seq<int>,
                         compose: (V, V) -> V): Result<seq<V>, PairError>
    decreases |inter|
  {
    if inter == [] then
      var d := ReadPair(offsets, data, blank, z + k, z);
      if d.Err? then Err(d.error) else Ok([d.value])
    else
      Extend(Candidates(offsets, data, blank, z, k, inter[..|inter| - 1], compose),
             ReadPath(offsets, data, blank, [z + k, z + inter[|inter| - 1], z], compose))
  }

  /** The estimates so far with one more read appended, or the first error. */
  function Extend<V>(rest: Result<seq<V>, PairError>, f: Result<V, PairError>): Result<seq<V>, PairError> {
    if rest.Err? then rest else if f.Err? then Err(f.error) else Ok(rest.value + [f.value])
  }

  /** `f_{z+k <- z+j} o f_{z+j <- z}` from the stored hops. */
  function Through<V>(data: map<(int, int), V>, blank: V, z: int, k: int, j: int, compose: (V, V) -> V): V {
    compose(Slot(data, blank, (k - j, z + j)), Slot(data, blank, (j, z)))
  }

  /** When k and every hop offset through the intermediaries are registered,
      the candidates are the direct field and one composed field per
      intermediary, in order. */
  lemma {:induction false} CandidatesShape<V>(offsets: set<int>, data: map<(int, int), V>, blank: V, z: int, k: int,
                                               inter: seq<int>, compose: (V, V) -> V)
    requires k in offsets && forall n :: 0 <= n < |inter| ==> inter[n] in offsets && k - inter[n] in offsets
    decreases |inter|
    ensures var c := Candidates(offsets, data, blank, z, k, inter, compose);
      && c.Ok? && |c.value| == |inter| + 1
      && c.value[0] == Slot(data, blank, (k, z))
      && forall n :: 0 <= n < |inter| ==> c.value[n + 1] == Through(data, blank, z, k, inter[n], compose)
  {
    if inter != [] {
      var init, j := inter[..|inter| - 1], inter[|inter| - 1];
      CandidatesShape(offsets, data, blank, z, k, init, compose);
      ReadThree(offsets, data, blank, z, k, j, compose);
      var c := Candidates(offsets, data, blank, z, k, inter, compose);
      var r := Candidates(offsets, data, blank, z, k, init, compose);
      assert c == Extend(r, Ok(Through(data, blank, z, k, j, compose)));
      forall n | 0 <= n < |inter| ensures c.value[n + 1] == Through(data, blank, z, k, inter[n], compose) {
        if n < |init| {
          assert inter[n] == init[n];
        }
      }
    }
  }

  /** The corrected field and its partition for offset k, from the
      candidates `vote` weighs. */
  function VoteOne<V, P>(offsets: set<int>, data: map<(int, int), V>, blank: V, z: int, k: int, inter: seq<int>,
                         compose: (V, V) -> V, vote: seq<V> -> (V, P)): Result<(V, P), PairError> {
    var c := Candidates(offsets, data, blank, z, k, inter, compose);
    if c.Err? then Err(c.error) else Ok(vote(c.value))
  }

  /** The permutation and the argsort drawn for each target offset are
      well formed. */
  ghost predicate Draws(ks: seq<int>, perms: seq<seq<int>>, orders: seq<seq<int>>) {
    && |perms| == |ks| && |orders| == |ks|
    && forall n :: 0 <= n < |ks| ==> multiset(perms[n]) == multiset(ks) && SortsByDistance(perms[n], orders[n], ks[n])
  }

  function InterOf(ks: seq<int>, perms: seq<seq<int>>, orders: seq<seq<int>>, n: int): seq<int>
    requires 0 <= n < |ks| && |perms| == |ks| && |orders| == |ks|
    requires forall q :: 0 <= q < |orders[n]| ==> 0 <= orders[n][q] < |perms[n]|
  {
    Intermediaries(perms[n], orders[n], ks[n])
  }

  /** What the vote of each target offset comes to, in order. */
  ghost function Outcomes<V, P>(offsets: set<int>, data: map<(int, int), V>, blank: V, z: int, ks: seq<int>,
                                perms: seq<seq<int>>, orders: seq<seq<int>>, compose: (V, V) -> V, vote: seq<V> -> (V, P))
    : (r: seq<Result<(V, P), PairError>>)
    requires Draws(ks, perms, orders)
    ensures |r| == |ks|
    ensures forall n :: 0 <= n < |ks| ==> r[n] == VoteOne(offsets, data, blank, z, ks[n], InterOf(ks, perms, orders, n), compose, vote)
  {
    seq(|ks|, n requires 0 <= n < |ks| => VoteOne(offsets, data, blank, z, ks[n], InterOf(ks, perms, orders, n), compose, vote))
  }

  /** The error and the two written volumes after the first n target
      offsets: each offset's vote is written under `(z + k, z)` in both, and
      the first failed read stops the task with what was written so far. */
  function WriteFrom<V, P>(ks: seq<int>, z: int, outs: seq<Result<(V, P), PairError>>,
                           corrected: map<(int, int), V>, weights: map<(int, int), P>, n: nat)
    : (Option<PairError>, map<(int, int), V>, map<(int, int), P>)
    requires |outs| == |ks| && n <= |ks|
  {
    if n == 0 then (None, corrected, weights)
    else
      var (e, c, w) := WriteFrom(ks, z, outs, corrected, weights, n - 1);
      if e.Some? then (e, c, w)
      else if outs[n - 1].Err? then (Some(outs[n - 1].error), c, w)
      else (None, c[(ks[n - 1], z) := outs[n - 1].value.0], w[(ks[n - 1], z) := outs[n - 1].value.1])
  }

  /** Once a read has failed the task stops: later offsets change nothing. */
  lemma {:induction false} WriteFromStops<V, P>(ks: seq<int>, z: int, outs: seq<Result<(V, P), PairError>>,
                                                corrected: map<(int, int), V>, weights: map<(int, int), P>, n: nat, m: nat)
    requires |outs| == |ks| && n <= m <= |ks|
    requires WriteFrom(ks, z, outs, corrected, weights, n).0.Some?
    decreases m
    ensures WriteFrom(ks, z, outs, corrected, weights, m) == WriteFrom(ks, z, outs, corrected, weights, n)
  {
    if m > n {
      WriteFromStops(ks, z, outs, corrected, weights, n, m - 1);
    }
  }

  /** The task succeeds exactly when every offset's candidates can be read,
      and it fails with the error of the first offset that cannot. */
  lemma {:induction false} WriteFromOk<V, P>(ks: seq<int>, z: int, outs: seq<Result<(V, P), PairError>>,
                                             corrected: map<(int, int), V>, weights: map<(int, int), P>, m: nat)
    requires |outs| == |ks| && m <= |ks|
    decreases m
    ensures var e := WriteFrom(ks, z, outs, corrected, weights, m).0;
      && (e.None? <==> forall n :: 0 <= n < m ==> outs[n].Ok?)
      && (e.Some? ==> exists n :: 0 <= n < m && outs[n].Err? && e == Some(outs[n].error) && forall n' :: 0 <= n' < n ==> outs[n'].Ok?)
  {
    if m > 0 {
      WriteFromOk(ks, z, outs, corrected, weights, m - 1);
    }
  }

  /** With distinct target offsets, a task that succeeds leaves offset k's
      vote under `(k, z)` in both volumes (the slot of the pair `(z + k, z)`)
      and every other slot as it was. */
  lemma {:induction false} WriteFromWrites<V, P>(ks: seq<int>, z: int, outs: seq<Result<(V, P), PairError>>,
                                                 corrected: map<(int, int), V>, weights: map<(int, int), P>, m: nat, key: (int, int))
    requires |outs| == |ks| && m <= |ks| && Distinct(ks)
    requires WriteFrom(ks, z, outs, corrected, weights, m).0.None?
    decreases m
    ensures var (_, c, w) := WriteFrom(ks, z, outs, corrected, weights, m);
      && (forall n :: 0 <= n < m ==>
            outs[n].Ok? && (ks[n], z) in c && c[(ks[n], z)] == outs[n].value.0 && (ks[n], z) in w && w[(ks[n], z)] == outs[n].value.1)
      && ((forall n :: 0 <= n < m ==> key != (ks[n], z)) ==>
            (key in c <==> key in corrected) && (key in c ==> c[key] == corrected[key])
            && (key in w <==> key in weights) && (key in w ==> w[key] == weights[key]))
  {
    if m > 0 {
      WriteFromWrites(ks, z, outs, corrected, weights, m - 1, key);
      forall n | 0 <= n < m - 1 ensures ks[n] != ks[m - 1] {
      }
    }
  }

  /** A failed prefix of the intermediaries fails the whole list the same
      way, and the candidates exist only when the direct pair is registered. */
  lemma {:induction false} CandidatesPrefix<V>(offsets: set<int>, data: map<(int, int), V>, blank: V, z: int, k: int,
                                                inter: seq<int>, i: int, compose: (V, V) -> V)
    requires 0 <= i <= |inter|
    decreases |inter|
    ensures Candidates(offsets, data, blank, z, k, inter[..i], compose).Err? ==>
      Candidates(offsets, data, blank, z, k, inter, compose) == Candidates(offsets, data, blank, z, k, inter[..i], compose)
    ensures Candidates(offsets, data, blank, z, k, inter, compose).Ok? ==> k in offsets
  {
    if i == |inter| {
      assert inter[..i] == inter;
    }
    if inter != [] {
      var init := inter[..|inter| - 1];
      if i < |inter| {
        assert init[..i] == inter[..i];
        CandidatesPrefix(offsets, data, blank, z, k, init, i, compose);
      } else {
        CandidatesPrefix(offsets, data, blank, z, k, init, 0, compose);
      }
    }
  }

  lemma CandidatesSnoc<V>(offsets: set<int>, data: map<(int, int), V>, blank: V, z: int, k: int,
                          inter: seq<int>, i: int, compose: (V, V) -> V)
    requires 0 <= i < |inter|
    ensures Candidates(offsets, data, blank, z, k, inter[..i + 1], compose) ==
      Extend(Candidates(offsets, data, blank, z, k, inter[..i], compose), ReadPath(offsets, data, blank, [z + k, z + inter[i], z], compose))
  {
    assert inter[..i + 1][..i] == inter[..i];
  }

  /** The estimates for offset k: the direct read first, then one composed
      read per intermediary, stopping at the first that fails. */
  method GatherCandidates<V>(estimated: PairwiseTensors<V>, z: int, k: int, inter: seq<int>, compose: (V, V) -> V)
    returns (c: Result<seq<V>, PairError>)
    ensures c == Candidates(estimated.offsets, estimated.data, estimated.blank, z, k, inter, compose)
  {
    var d := estimated.Get([z + k, z]);
    assert [z + k, z][0] == z + k && [z + k, z][1] == z;
    if d.Err? {
      assert inter[..0] == [];
      CandidatesPrefix(estimated.offsets, estimated.data, estimated.blank, z, k, inter, 0, compose);
      return Err(d.error);
    }
    var estimates := [d.value];
    var i := 0;
    while i < |inter|
      invariant 0 <= i <= |inter|
      invariant Ok(estimates) == Candidates(estimated.offsets, estimated.data, estimated.blank, z, k, inter[..i], compose)
    {
      CandidatesSnoc(estimated.offsets, estimated.data, estimated.blank, z, k, inter, i, compose);
      var f := estimated.GetPath([z + k, z + inter[i], z], compose);
      if f.Err? {
        CandidatesPrefix(estimated.offsets, estimated.data, estimated.blank, z, k, inter, i + 1, compose);
        return Err(f.error);
      }
      estimates := estimates + [f.value];
      i := i + 1;
    }
    assert inter[..i] == inter;
    return Ok(estimates);
  }

  lemma WritePair<V>(offsets: set<int>, data: map<(int, int), V>, z: int, k: int, v: V)
    requires k in offsets
    ensures Write(offsets, data, [z + k, z], v) == Ok(data[(k, z) := v])
  {
    var pair := [z + k, z];
    assert |pair| == 2 && pair[0] - pair[1] == k && KeyOf(pair[0], pair[1]) == (k, z);
  }


  /** `PairwiseVoteTask.execute` for section z: for each target offset k in
      turn, gather the candidates, vote, and write the field under `(z + k, z)`
      of the corrected volumes and the partition under the same key of the
      weight volumes. `perms[n]` and `orders[n]` are the permutation and the
      argsort drawn for the n-th offset. */
  method Vote<V, P>(estimated: PairwiseTensors<V>, corrected: PairwiseTensors<V>, weights: PairwiseTensors<P>,
                    z: int, ks: seq<int>, perms: seq<seq<int>>, orders: seq<seq<int>>,
                    compose: (V, V) -> V, vote: seq<V> -> (V, P))
    returns (err: Option<PairError>)
    requires Draws(ks, perms, orders)
    requires corrected.offsets == estimated.offsets && weights.offsets == estimated.offsets
    requires estimated != corrected && (weights as object) != (estimated as object) && (weights as object) != (corrected as object)
    modifies corrected, weights
    ensures estimated.data == old(estimated.data)
    ensures (err, corrected.data, weights.data) ==
      WriteFrom(ks, z, Outcomes(estimated.offsets, estimated.data, estimated.blank, z, ks, perms, orders, compose, vote),
                old(corrected.data), old(weights.data), |ks|)
  {
    ghost var outs := Outcomes(estimated.offsets, estimated.data, estimated.blank, z, ks, perms, orders, compose, vote);
    var n := 0;
    while n < |ks|
      invariant 0 <= n <= |ks|
      invariant estimated.data == old(estimated.data)
      invariant (None, corrected.data, weights.data) == WriteFrom(ks, z, outs, old(corrected.data), old(weights.data), n)
    {
      var k := ks[n];
      var inter := Intermediaries(perms[n], orders[n], k);
      var c := GatherCandidates(estimated, z, k, inter, compose);
      if c.Err? {
        WriteFromStops(ks, z, outs, old(corrected.data), old(weights.data), n + 1, |ks|);
        return Some(c.error);
      }
      CandidatesPrefix(estimated.offsets, estimated.data, estimated.blank, z, k, inter, 0, compose);
      var (field, partition) := vote(c.value);
      ghost var c0, w0 := corrected.data, weights.data;
      WritePair(estimated.offsets, c0, z, k, field);
      WritePair(estimated.offsets, w0, z, k, partition);
      var e1 := corrected.Set([z + k, z], field);
      var e2 := weights.Set([z + k, z], partition);
      n := n + 1;
    }
    return None;
  }

  // Weight normalisation, one pixel at a time

  function Sum(ws: seq<real>): real {
    if ws == [] then 0.0 else Sum(ws[..|ws| - 1]) + ws[|ws| - 1]
  }

  /** `weights / partition`, with the partition `weights.sum(dim=0)`. */
  function Normalise(ws: seq<real>): (r: seq<real>)
    requires Sum(ws) != 0.0
    ensures |r| == |ws|
  {
    seq(|ws|, i requires 0 <= i < |ws| => ws[i] / Sum(ws))
  }

  /** `(estimates * weights).sum(dim=0)`. */
  function WeightedSum(es: seq<real>, ws: seq<real>): real
    requires |es| == |ws|
  {
    if es == [] then 0.0 else WeightedSum(es[..|es| - 1], ws[..|ws| - 1]) + es[|es| - 1] * ws[|ws| - 1]
  }

  function Scale(ws: seq<real>, c: real): (r: seq<real>)
    ensures |r| == |ws| && forall i :: 0 <= i < |ws| ==> r[i] == ws[i] * c
  {
    seq(|ws|, i requires 0 <= i < |ws| => ws[i] * c)
  }

  lemma {:induction false} SumScale(ws: seq<real>, c: real)
    decreases |ws|
    ensures Sum(Scale(ws, c)) == Sum(ws) * c
  {
    if ws != [] {
      var s := Scale(ws, c);
      var t := Scale(ws[..|ws| - 1], c);
      assert |s[..|s| - 1]| == |t|;
      assert forall i :: 0 <= i < |t| ==> s[..|s| - 1][i] == t[i];
      assert s[..|s| - 1] == t;
      SumScale(ws[..|ws| - 1], c);
    }
  }

  lemma {:induction false} WeightedSumConst(es: seq<real>, ws: seq<real>, c: real)
    requires |es| == |ws| && forall i :: 0 <= i < |es| ==> es[i] == c
    decreases |es|
    ensures WeightedSum(es, ws) == c * Sum(ws)
  {
    if es != [] {
      WeightedSumConst(es[..|es| - 1], ws[..|ws| - 1], c);
    }
  }

  lemma DivAsMul(x: real, p: real)
    requires p != 0.0
    ensures x / p == x * (1.0 / p)
  {
  }

  lemma NormaliseIsScale(ws: seq<real>)
    requires Sum(ws) != 0.0
    ensures Normalise(ws) == Scale(ws, 1.0 / Sum(ws))
  {
    var n, s := Normalise(ws), Scale(ws, 1.0 / Sum(ws));
    forall i | 0 <= i < |ws| ensures n[i] == s[i] {
      DivAsMul(ws[i], Sum(ws));
    }
  }

  /** The normalised weights of a pixel sum to 1. */
  lemma NormaliseSumsToOne(ws: seq<real>)
    requires Sum(ws) != 0.0
    ensures Sum(Normalise(ws)) == 1.0
  {
    var p := Sum(ws);
    NormaliseIsScale(ws);
    SumScale(ws, 1.0 / p);
    DivAsMul(p, p);
  }

  /** Where every candidate has the same value c, the vote is c. */
  lemma VoteOfEqual(es: seq<real>, ws: seq<real>, c: real)
    requires Sum(ws) != 0.0 && |es| == |ws|
    requires forall i :: 0 <= i < |es| ==> es[i] == c
    ensures WeightedSum(es, Normalise(ws)) == c
  {
    WeightedSumConst(es, Normalise(ws), c);
    NormaliseSumsToOne(ws);
  }
}
