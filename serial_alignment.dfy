/** The dispatch script of `inference/serial_block_alignment.py`: every block
    of `range(z_start, z_stop, block_size)` is aligned offset by offset, one
    batch of chunk tasks per phase, and after each batch the script waits
    until the completion markers it expects have been written. The model
    records both in one log: the marker each dispatched chunk task promises
    (its kind, the volume it is written to and its prefix) and every wait with
    the count it expects. */
module SerialAlignment {
  import opened Wrappers
  import opened Slices
  import opened AlignBlocks
  import opened OffsetRanges

  /** The task kinds, named after their markers `copy_done`,
      `compute_field_done`, `render_done` and `vector_vote_done`. */
  datatype Kind = Copy | ComputeField | Render | VectorVote

  /** The volume a marker is written to: the image volume of the block's type
      (`block_types[i % 2]`, 0 for even, 1 for odd), a serial field, a
      pairwise field, or the voted field. */
  datatype Volume = Blocks(parity: int) | SerialField(zOffset: int) | PairField(zOffset: int) | VoteField

  datatype Event =
    | Task(kind: Kind, vol: Volume, prefix: int, z: int, chunk: int)  // one chunk task and the marker it writes
    | Wait(kind: Kind, vol: Volume, prefix: int, count: int)         // `wait_for_queue_empty(vol, kind_done/prefix, count)`

  /** The tasks one call such as `a.copy(...)` returns: one per chunk of
      the box. */
  function Chunks(kind: Kind, vol: Volume, prefix: int, z: int, n: nat): (r: seq<Event>)
    ensures |r| == n
    ensures forall c :: 0 <= c < n ==> r[c] == Task(kind, vol, prefix, z, c)
  {
    if n == 0 then [] else Chunks(kind, vol, prefix, z, n - 1) + [Task(kind, vol, prefix, z, n - 1)]
  }

  /** The volume block i writes its marker to: the given field, or else the
      image volume `dsts[block_types[i % 2]]`. */
  function VolumeOf(field: Option<Volume>, i: int): Volume {
    if field.Some? then field.value else Blocks(i % 2)
  }

  /** One batch of a block loop, `for i, block_start in enumerate(block_range)`,
      at section `block_start + block_offset`. */
  function BlockTasks(kind: Kind, prefix: int, blocks: seq<int>, field: Option<Volume>, n: nat): (r: seq<Event>)
    ensures forall i :: 0 <= i < |r| ==> r[i].Task? && r[i].kind == kind && r[i].prefix == prefix
    ensures field.Some? ==> forall i :: 0 <= i < |r| ==> r[i].vol == field.value
  {
    if blocks == [] then []
    else
      var k := |blocks| - 1;
      BlockTasks(kind, prefix, blocks[..k], field, n) + Chunks(kind, VolumeOf(field, k), prefix, blocks[k] + prefix, n)
  }

  /** The compute batch of a vote offset: for every block, one field towards
      each of `vvote_offsets`, written to `pair_fields[z_offset]`. */
  function PairTasks(prefix: int, voteOffsets: seq<int>, blocks: seq<int>, n: nat): (r: seq<Event>)
    ensures forall i :: 0 <= i < |r| ==> r[i].Task? && r[i].kind == ComputeField && r[i].prefix == prefix
  {
    if blocks == [] then []
    else
      var k := |blocks| - 1;
      PairTasks(prefix, voteOffsets, blocks[..k], n) + PairBlock(prefix, voteOffsets, blocks[k] + prefix, n)
  }

  function PairBlock(prefix: int, voteOffsets: seq<int>, z: int, n: nat): (r: seq<Event>)
    ensures forall i :: 0 <= i < |r| ==> r[i].Task? && r[i].kind == ComputeField && r[i].prefix == prefix
  {
    if voteOffsets == [] then []
    else
      var k := |voteOffsets| - 1;
      PairBlock(prefix, voteOffsets[..k], z, n) + Chunks(ComputeField, PairField(voteOffsets[k]), prefix, z, n)
  }

  /** `int(math.ceil(len(block_range) / 2))`. */
  function CeilHalf(b: nat): nat {
    if b % 2 == 0 then b / 2 else b / 2 + 1
  }

  /** The waits on both block types: `n_chunks * ceil(B/2)` markers on the
      even volume and `n_chunks * (B // 2)` on the odd one. */
  function TypeWaits(kind: Kind, prefix: int, b: nat, n: nat): seq<Event> {
    [Wait(kind, Blocks(0), prefix, n * CeilHalf(b)), Wait(kind, Blocks(1), prefix, n * (b / 2))]
  }

  /** The waits on every pairwise field, each for `len(block_range) * n_chunks`. */
  function PairWaits(prefix: int, voteOffsets: seq<int>, count: int): (r: seq<Event>)
    ensures |r| == |voteOffsets|
    ensures forall j :: 0 <= j < |r| ==> r[j] == Wait(ComputeField, PairField(voteOffsets[j]), prefix, count)
  {
    seq(|voteOffsets|, j requires 0 <= j < |voteOffsets| => Wait(ComputeField, PairField(voteOffsets[j]), prefix, count))
  }

  /** The copy phase: one batch over the copy range and every block, then the
      waits for each copied offset. */
  function CopyBatch(copyRange: seq<int>, blocks: seq<int>, n: nat): seq<Event> {
    if copyRange == [] then []
    else
      var k := |copyRange| - 1;
      CopyBatch(copyRange[..k], blocks, n) + BlockTasks(Copy, copyRange[k], blocks, None, n)
  }

  function CopyWaits(copyRange: seq<int>, b: nat, n: nat): seq<Event> {
    if copyRange == [] then []
    else
      var k := |copyRange| - 1;
      CopyWaits(copyRange[..k], b, n) + TypeWaits(Copy, copyRange[k], b, n)
  }

  /** One serial offset: compute the fields towards `z + z_offset`, wait for
      all of them, render, wait for both block types. */
  function SerialStep(offset: int, zOffset: int, blocks: seq<int>, n: nat): seq<Event> {
    var compute := BlockTasks(ComputeField, offset, blocks, Some(SerialField(zOffset)), n);
    compute + [Wait(ComputeField, SerialField(zOffset), offset, |compute|)]
      + BlockTasks(Render, offset, blocks, None, n) + TypeWaits(Render, offset, |blocks|, n)
  }

  /** One vote offset: compute the pairwise fields, wait on each, vote, wait,
      render, wait for both block types. */
  function VoteStep(offset: int, voteOffsets: seq<int>, blocks: seq<int>, n: nat): seq<Event> {
    var votes := BlockTasks(VectorVote, offset, blocks, Some(VoteField), n);
    PairTasks(offset, voteOffsets, blocks, n) + PairWaits(offset, voteOffsets, |blocks| * n)
      + votes + [Wait(VectorVote, VoteField, offset, |votes|)]
      + BlockTasks(Render, offset, blocks, None, n) + TypeWaits(Render, offset, |blocks|, n)
  }

  function SerialPhase(serialRange: seq<int>, serialOffsets: map<int, int>, blocks: seq<int>, n: nat): seq<Event>
    requires forall i :: 0 <= i < |serialRange| ==> serialRange[i] in serialOffsets
  {
    if serialRange == [] then []
    else
      var k := |serialRange| - 1;
      SerialPhase(serialRange[..k], serialOffsets, blocks, n)
        + SerialStep(serialRange[k], serialOffsets[serialRange[k]], blocks, n)
  }

  function VotePhase(voteRange: seq<int>, voteOffsets: seq<int>, blocks: seq<int>, n: nat): seq<Event> {
    if voteRange == [] then []
    else
      var k := |voteRange| - 1;
      VotePhase(voteRange[..k], voteOffsets, blocks, n) + VoteStep(voteRange[k], voteOffsets, blocks, n)
  }

  /** The restart-filtered ranges of the script. */
  function CopyRangeFrom(blockSize: int, overlap: int, restart: int): seq<int> {
    AtLeast(CopyOffsets(blockSize, overlap), restart)
  }

  function SerialRangeFrom(blockSize: int, overlap: int, restart: int): seq<int> {
    AtLeast(SerialOffsets(blockSize, overlap), restart)
  }

  function VoteRangeFrom(blockSize: int, overlap: int, restart: int): seq<int> {
    AtLeast(VoteRange(blockSize, overlap), restart)
  }

  /** The index of the first serial offset with no entry in `serial_offsets`,
      where the script stops with a `KeyError`. */
  function FirstMissing(serialRange: seq<int>, serialOffsets: map<int, int>): (r: Option<nat>)
    ensures r.None? ==> forall i :: 0 <= i < |serialRange| ==> serialRange[i] in serialOffsets
    ensures r.Some? ==> (r.value < |serialRange| && serialRange[r.value] !in serialOffsets
      && forall i :: 0 <= i < r.value ==> serialRange[i] in serialOffsets)
  {
    if serialRange == [] then None
    else if serialRange[0] !in serialOffsets then Some(0)
    else
      var r := FirstMissing(serialRange[1..], serialOffsets);
      if r.None? then None else Some(r.value + 1)
  }

  // ---------------------------------------------------------------------------
  // The script

  /** The aligner as the script drives it: the number of chunks of the box
      (`len(a.break_into_chunks(...))`) and the log of tasks and waits. */
  class SerialAligner {
    const nChunks: nat
    var log: seq<Event>

    constructor (nChunks: nat)
      ensures this.nChunks == nChunks && log == []
    {
      this.nChunks := nChunks;
      log := [];
    }

    /** `run(a, batch)`. */
    method Run(batch: seq<Event>)
      modifies this
      ensures log == old(log) + batch
    {
      log := log + batch;
    }

    /** `a.wait_for_queue_empty(vol.path, 'kind_done/prefix', count)`. */
    method WaitFor(kind: Kind, vol: Volume, prefix: int, count: int)
      modifies this
      ensures log == old(log) + [Wait(kind, vol, prefix, count)]
    {
      log := log + [Wait(kind, vol, prefix, count)];
    }

    /** A block loop: `for i, block_start in enumerate(block_range)`, one call
        per block at `z = block_start + block_offset`, each extending the
        batch by its chunk tasks. */
    method BlockBatch(kind: Kind, prefix: int, blocks: seq<int>, field: Option<Volume>) returns (batch: seq<Event>)
      ensures batch == BlockTasks(kind, prefix, blocks, field, nChunks)
    {
      batch := [];
      var i := 0;
      while i < |blocks|
        invariant 0 <= i <= |blocks|
        invariant batch == BlockTasks(kind, prefix, blocks[..i], field, nChunks)
      {
        assert blocks[..i + 1][..i] == blocks[..i];
        batch := batch + Chunks(kind, VolumeOf(field, i), prefix, blocks[i] + prefix, nChunks);
        i := i + 1;
      }
      assert blocks[..i] == blocks;
    }

    /** The compute loop of a vote offset: per block, one call per vote offset. */
    method PairBatch(prefix: int, voteOffsets: seq<int>, blocks: seq<int>) returns (batch: seq<Event>)
      ensures batch == PairTasks(prefix, voteOffsets, blocks, nChunks)
    {
      batch := [];
      var i := 0;
      while i < |blocks|
        invariant 0 <= i <= |blocks|
        invariant batch == PairTasks(prefix, voteOffsets, blocks[..i], nChunks)
      {
        var z := blocks[i] + prefix;
        ghost var before := batch;
        var j := 0;
        while j < |voteOffsets|
          invariant 0 <= j <= |voteOffsets|
          invariant batch == before + PairBlock(prefix, voteOffsets[..j], z, nChunks)
        {
          assert voteOffsets[..j + 1][..j] == voteOffsets[..j];
          batch := batch + Chunks(ComputeField, PairField(voteOffsets[j]), prefix, z, nChunks);
          j := j + 1;
        }
        assert voteOffsets[..j] == voteOffsets;
        assert blocks[..i + 1][..i] == blocks[..i];
        i := i + 1;
      }
      assert blocks[..i] == blocks;
    }

    /** The wait on both block types. */
    method WaitTypes(kind: Kind, prefix: int, b: nat)
      modifies this
      ensures log == old(log) + TypeWaits(kind, prefix, b, nChunks)
    {
      var n := nChunks * CeilHalf(b);
      WaitFor(kind, Blocks(0), prefix, n);
      n := nChunks * (b / 2);
      WaitFor(kind, Blocks(1), prefix, n);
    }

    /** "Copy first section": one batch for every copy offset and block, then
        the waits. */
    method CopyPhase(copyRange: seq<int>, blocks: seq<int>)
      modifies this
      ensures log == old(log) + CopyBatch(copyRange, blocks, nChunks) + CopyWaits(copyRange, |blocks|, nChunks)
    {
      var batch := CopyTasks(copyRange, blocks);
      Run(batch);
      CopyWaitAll(copyRange, |blocks|);
    }

    /** The copy batch: for each copy offset, one copy per block. */
    method CopyTasks(copyRange: seq<int>, blocks: seq<int>) returns (batch: seq<Event>)
      ensures batch == CopyBatch(copyRange, blocks, nChunks)
    {
      batch := [];
      var k := 0;
      while k < |copyRange|
        invariant 0 <= k <= |copyRange|
        invariant batch == CopyBatch(copyRange[..k], blocks, nChunks)
      {
        var t := BlockBatch(Copy, copyRange[k], blocks, None);
        assert copyRange[..k + 1][..k] == copyRange[..k];
        batch := batch + t;
        k := k + 1;
      }
      assert copyRange[..k] == copyRange;
    }

    /** The copy waits: both block types of each copy offset. */
    method CopyWaitAll(copyRange: seq<int>, b: nat)
      modifies this
      ensures log == old(log) + CopyWaits(copyRange, b, nChunks)
    {
      ghost var l0 := log;
      var k := 0;
      while k < |copyRange|
        invariant 0 <= k <= |copyRange|
        invariant log == l0 + CopyWaits(copyRange[..k], b, nChunks)
      {
        assert copyRange[..k + 1][..k] == copyRange[..k];
        WaitTypes(Copy, copyRange[k], b);
        k := k + 1;
      }
      assert copyRange[..k] == copyRange;
    }

    /** One serial offset, "Align without vector voting". */
    method SerialOffset(offset: int, zOffset: int, blocks: seq<int>)
      modifies this
      ensures log == old(log) + SerialStep(offset, zOffset, blocks, nChunks)
    {
      ghost var l0 := log;
      var batch := BlockBatch(ComputeField, offset, blocks, Some(SerialField(zOffset)));
      Run(batch);
      WaitFor(ComputeField, SerialField(zOffset), offset, |batch|);
      ghost var compute := batch;
      batch := BlockBatch(Render, offset, blocks, None);
      Run(batch);
      WaitTypes(Render, offset, |blocks|);
      Assoc4(l0, compute, [Wait(ComputeField, SerialField(zOffset), offset, |compute|)], batch, TypeWaits(Render, offset, |blocks|, nChunks));
    }

    /** One vote offset, "Align with vector voting". */
    method VoteOffset(offset: int, voteOffsets: seq<int>, blocks: seq<int>)
      modifies this
      ensures log == old(log) + VoteStep(offset, voteOffsets, blocks, nChunks)
    {
      ghost var l0 := log;
      var n := |blocks| * nChunks;
      var batch := PairBatch(offset, voteOffsets, blocks);
      Run(batch);
      PairWaitAll(offset, voteOffsets, n);
      batch := BlockBatch(VectorVote, offset, blocks, Some(VoteField));
      Run(batch);
      WaitFor(VectorVote, VoteField, offset, |batch|);
      ghost var votes := batch;
      batch := BlockBatch(Render, offset, blocks, None);
      Run(batch);
      WaitTypes(Render, offset, |blocks|);
      Assoc6(l0, PairTasks(offset, voteOffsets, blocks, nChunks), PairWaits(offset, voteOffsets, n),
        votes, [Wait(VectorVote, VoteField, offset, |votes|)], batch, TypeWaits(Render, offset, |blocks|, nChunks));
    }

    /** The waits on every pairwise field volume of one vote offset. */
    method PairWaitAll(offset: int, voteOffsets: seq<int>, n: int)
      modifies this
      ensures log == old(log) + PairWaits(offset, voteOffsets, n)
    {
      ghost var l0 := log;
      var j := 0;
      while j < |voteOffsets|
        invariant 0 <= j <= |voteOffsets|
        invariant log == l0 + PairWaits(offset, voteOffsets[..j], n)
      {
        WaitFor(ComputeField, PairField(voteOffsets[j]), offset, n);
        assert PairWaits(offset, voteOffsets[..j + 1], n) == PairWaits(offset, voteOffsets[..j], n) + [Wait(ComputeField, PairField(voteOffsets[j]), offset, n)];
        j := j + 1;
      }
      assert voteOffsets[..j] == voteOffsets;
    }

    /** "Align without vector voting": the serial offsets in order, up to
        the first one with no entry in `serial_offsets`, whose index it
        returns. */
    method SerialRun(serialRange: seq<int>, serialOffsets: map<int, int>, blocks: seq<int>) returns (missing: Option<nat>)
      modifies this
      ensures missing == FirstMissing(serialRange, serialOffsets)
      ensures missing.None? ==> log == old(log) + SerialPhase(serialRange, serialOffsets, blocks, nChunks)
      ensures missing.Some? ==> log == old(log) + SerialPhase(serialRange[..missing.value], serialOffsets, blocks, nChunks)
    {
      ghost var l0 := log;
      var k := 0;
      while k < |serialRange|
        invariant 0 <= k <= |serialRange|
        invariant forall i :: 0 <= i < k ==> serialRange[i] in serialOffsets
        invariant log == l0 + SerialPhase(serialRange[..k], serialOffsets, blocks, nChunks)
      {
        if serialRange[k] !in serialOffsets {
          FirstMissingAt(serialRange, serialOffsets, k);
          return Some(k);
        }
        SerialPhaseSnoc(serialRange, serialOffsets, blocks, nChunks, k);
        SerialOffset(serialRange[k], serialOffsets[serialRange[k]], blocks);
        Assoc(l0, SerialPhase(serialRange[..k], serialOffsets, blocks, nChunks),
          SerialStep(serialRange[k], serialOffsets[serialRange[k]], blocks, nChunks));
        k := k + 1;
      }
      assert serialRange[..k] == serialRange;
      FirstMissingNone(serialRange, serialOffsets);
      return None;
    }

    /** "Align with vector voting": the vote offsets in order. */
    method VoteRun(voteRange: seq<int>, voteOffsets: seq<int>, blocks: seq<int>)
      modifies this
      ensures log == old(log) + VotePhase(voteRange, voteOffsets, blocks, nChunks)
    {
      ghost var l0 := log;
      var k := 0;
      while k < |voteRange|
        invariant 0 <= k <= |voteRange|
        invariant log == l0 + VotePhase(voteRange[..k], voteOffsets, blocks, nChunks)
      {
        VotePhaseSnoc(voteRange, voteOffsets, blocks, nChunks, k);
        ghost var before := log;
        VoteOffset(voteRange[k], voteOffsets, blocks);
        Assoc(l0, VotePhase(voteRange[..k], voteOffsets, blocks, nChunks), VoteStep(voteRange[k], voteOffsets, blocks, nChunks));
        k := k + 1;
      }
      assert voteRange[..k] == voteRange;
    }

    /** The script from the compiled ranges on: block starts
        `range(z_start, z_stop, block_size)`, the offset ranges, the restart
        filter, the copy phase, the serial offsets and the vote offsets. It
        returns the serial offset whose `serial_offsets` lookup raises
        `KeyError`, if any. */
    method Align(zStart: int, zStop: int, blockSize: int, overlap: int, restart: int) returns (err: Option<int>)
      requires blockSize >= 1
      modifies this
      ensures var sr, m := SerialRangeFrom(blockSize, overlap, restart), SerialFieldOffsets(blockSize, overlap);
        var missing := FirstMissing(sr, m);
        err == if missing.None? then None else Some(sr[missing.value])
      ensures log == old(log) + Script(CopyRangeFrom(blockSize, overlap, restart), SerialRangeFrom(blockSize, overlap, restart),
        SerialFieldOffsets(blockSize, overlap), VoteRangeFrom(blockSize, overlap, restart), VoteOffsets(overlap),
        StepRange(zStart, zStop, blockSize), nChunks)
    {
      var blocks := StepRange(zStart, zStop, blockSize);
      var serialOffsets := SerialFieldOffsets(blockSize, overlap);
      var voteOffsets := VoteOffsets(overlap);
      var copyRange := CopyRangeFrom(blockSize, overlap, restart);
      var serialRange := SerialRangeFrom(blockSize, overlap, restart);
      var voteRange := VoteRangeFrom(blockSize, overlap, restart);
      ghost var l0 := log;
      CopyPhase(copyRange, blocks);
      ghost var c := CopyBatch(copyRange, blocks, nChunks) + CopyWaits(copyRange, |blocks|, nChunks);
      Assoc(l0, CopyBatch(copyRange, blocks, nChunks), CopyWaits(copyRange, |blocks|, nChunks));
      var missing := SerialRun(serialRange, serialOffsets, blocks);
      if missing.Some? {
        Assoc(l0, c, SerialPhase(serialRange[..missing.value], serialOffsets, blocks, nChunks));
        return Some(serialRange[missing.value]);
      }
      ghost var sp := SerialPhase(serialRange, serialOffsets, blocks, nChunks);
      VoteRun(voteRange, voteOffsets, blocks);
      ScriptAssoc(l0, c, sp, VotePhase(voteRange, voteOffsets, blocks, nChunks));
      err := None;
    }
  }

  lemma {:induction false} FirstMissingAt(rs: seq<int>, m: map<int, int>, k: int)
    requires 0 <= k < |rs| && rs[k] !in m
    requires forall i :: 0 <= i < k ==> rs[i] in m
    ensures FirstMissing(rs, m) == Some(k)
  {
    if k > 0 {
      FirstMissingAt(rs[1..], m, k - 1);
    }
  }

  lemma {:induction false} FirstMissingNone(rs: seq<int>, m: map<int, int>)
    requires forall i :: 0 <= i < |rs| ==> rs[i] in m
    ensures FirstMissing(rs, m) == None
    decreases |rs|
  {
    if rs != [] {
      FirstMissingNone(rs[1..], m);
    }
  }

  lemma ScriptAssoc(l0: seq<Event>, c: seq<Event>, sp: seq<Event>, vp: seq<Event>)
    ensures l0 + c + sp + vp == l0 + (c + (sp + vp))
  {
  }

  // ---------------------------------------------------------------------------
  // Counting markers

  /** The markers in `log` a wait on `(kind, vol, prefix)` counts. */
  function Count(log: seq<Event>, kind: Kind, vol: Volume, prefix: int): nat {
    if log == [] then 0
    else
      var e := log[|log| - 1];
      Count(log[..|log| - 1], kind, vol, prefix)
        + if e.Task? && e.kind == kind && e.vol == vol && e.prefix == prefix then 1 else 0
  }

  /** Every wait in `log` expects exactly the number of markers promised by
      the tasks dispatched before it: no wait is left short and none is
      released early. */
  predicate WaitsMatch(log: seq<Event>) {
    if log == [] then true
    else
      var e := log[|log| - 1];
      && WaitsMatch(log[..|log| - 1])
      && (e.Wait? ==> Count(log[..|log| - 1], e.kind, e.vol, e.prefix) == e.count)
  }

  lemma {:induction false} CountConcat(a: seq<Event>, b: seq<Event>, kind: Kind, vol: Volume, prefix: int)
    ensures Count(a + b, kind, vol, prefix) == Count(a, kind, vol, prefix) + Count(b, kind, vol, prefix)
    decreases |b|
  {
    if b == [] {
      assert a + b == a;
    } else {
      var k := |b| - 1;
      assert (a + b)[..|a + b| - 1] == a + b[..k];
      assert (a + b)[|a + b| - 1] == b[k];
      CountConcat(a, b[..k], kind, vol, prefix);
    }
  }

  lemma {:induction false} CountNone(s: seq<Event>, kind: Kind, vol: Volume, prefix: int)
    requires forall i :: 0 <= i < |s| ==> !(s[i].Task? && s[i].kind == kind && s[i].vol == vol && s[i].prefix == prefix)
    ensures Count(s, kind, vol, prefix) == 0
    decreases |s|
  {
    if s != [] {
      CountNone(s[..|s| - 1], kind, vol, prefix);
    }
  }

  lemma {:induction false} CountAll(s: seq<Event>, kind: Kind, vol: Volume, prefix: int)
    requires forall i :: 0 <= i < |s| ==> s[i].Task? && s[i].kind == kind && s[i].vol == vol && s[i].prefix == prefix
    ensures Count(s, kind, vol, prefix) == |s|
    decreases |s|
  {
    if s != [] {
      CountAll(s[..|s| - 1], kind, vol, prefix);
    }
  }

  /** The number of blocks among the first b with parity t:
      `ceil(b/2)` even ones and `b // 2` odd ones. */
  function ParityCount(b: nat, t: int): nat {
    if t == 0 then CeilHalf(b) else b / 2
  }

  lemma ParityStep(c0: nat, c1: nat, n: nat, k: nat, t: int)
    requires t == 0 || t == 1
    requires c0 == n * ParityCount(k, t)
    requires c1 == if k % 2 == t then n else 0
    ensures c0 + c1 == n * ParityCount(k + 1, t)
  {
    if k % 2 == t {
      assert ParityCount(k + 1, t) == ParityCount(k, t) + 1;
      MulStep(n, ParityCount(k, t));
    } else {
      assert ParityCount(k + 1, t) == ParityCount(k, t);
    }
  }

  lemma MulStep(n: nat, x: nat)
    ensures n * (x + 1) == n * x + n
  {
  }

  lemma AddStep(c0: nat, c1: nat, n: nat, k: nat)
    requires c0 == n * k && c1 == n
    ensures c0 + c1 == n * (k + 1)
  {
    MulStep(n, k);
  }

  /** Block i writes to the even volume iff i is even, so the image markers
      of one block batch split as `n_chunks * ceil(B/2)` and
      `n_chunks * (B // 2)`, the counts the script waits for. */
  lemma {:induction false} CountBlockTasks(kind: Kind, prefix: int, blocks: seq<int>, n: nat, t: int)
    requires t == 0 || t == 1
    ensures Count(BlockTasks(kind, prefix, blocks, None, n), kind, Blocks(t), prefix) == n * ParityCount(|blocks|, t)
    decreases |blocks|
  {
    if blocks != [] {
      var k := |blocks| - 1;
      var init := BlockTasks(kind, prefix, blocks[..k], None, n);
      var chunk := Chunks(kind, Blocks(k % 2), prefix, blocks[k] + prefix, n);
      assert BlockTasks(kind, prefix, blocks, None, n) == init + chunk;
      CountBlockTasks(kind, prefix, blocks[..k], n, t);
      CountConcat(init, chunk, kind, Blocks(t), prefix);
      if k % 2 == t {
        CountAll(chunk, kind, Blocks(t), prefix);
      } else {
        CountNone(chunk, kind, Blocks(t), prefix);
      }
      ParityStep(Count(init, kind, Blocks(t), prefix), Count(chunk, kind, Blocks(t), prefix), n, k, t);
    }
  }

  /** A block sends the field towards each vote offset once. */
  lemma {:induction false} CountPairBlock(prefix: int, voteOffsets: seq<int>, z: int, n: nat, j: int)
    requires 0 <= j < |voteOffsets|
    requires forall a, b :: 0 <= a < b < |voteOffsets| ==> voteOffsets[a] != voteOffsets[b]
    ensures Count(PairBlock(prefix, voteOffsets, z, n), ComputeField, PairField(voteOffsets[j]), prefix) == n
    decreases |voteOffsets|
  {
    var k := |voteOffsets| - 1;
    if j == k {
      CountPairBlockLast(prefix, voteOffsets, z, n);
    } else {
      var key := PairField(voteOffsets[j]);
      var init := PairBlock(prefix, voteOffsets[..k], z, n);
      var chunk := Chunks(ComputeField, PairField(voteOffsets[k]), prefix, z, n);
      CountConcat(init, chunk, ComputeField, key, prefix);
      CountPairBlock(prefix, voteOffsets[..k], z, n, j);
      CountNone(chunk, ComputeField, key, prefix);
    }
  }

  /** The last vote offset's field gets only its own chunk tasks. */
  lemma CountPairBlockLast(prefix: int, voteOffsets: seq<int>, z: int, n: nat)
    requires voteOffsets != []
    requires forall a, b :: 0 <= a < b < |voteOffsets| ==> voteOffsets[a] != voteOffsets[b]
    ensures Count(PairBlock(prefix, voteOffsets, z, n), ComputeField, PairField(voteOffsets[|voteOffsets| - 1]), prefix) == n
  {
    var k := |voteOffsets| - 1;
    var key := PairField(voteOffsets[k]);
    var init := PairBlock(prefix, voteOffsets[..k], z, n);
    var chunk := Chunks(ComputeField, key, prefix, z, n);
    CountConcat(init, chunk, ComputeField, key, prefix);
    CountAll(chunk, ComputeField, key, prefix);
    PairBlockAvoids(prefix, voteOffsets[..k], z, n, voteOffsets[k]);
    CountNone(init, ComputeField, key, prefix);
  }

  lemma {:induction false} PairBlockAvoids(prefix: int, voteOffsets: seq<int>, z: int, n: nat, o: int)
    requires forall a :: 0 <= a < |voteOffsets| ==> voteOffsets[a] != o
    ensures forall i :: 0 <= i < |PairBlock(prefix, voteOffsets, z, n)| ==> PairBlock(prefix, voteOffsets, z, n)[i].vol != PairField(o)
    decreases |voteOffsets|
  {
    if voteOffsets != [] {
      var k := |voteOffsets| - 1;
      PairBlockAvoids(prefix, voteOffsets[..k], z, n, o);
    }
  }

  /** Each pairwise field gets `len(block_range) * n_chunks` markers. */
  lemma {:induction false} CountPairTasks(prefix: int, voteOffsets: seq<int>, blocks: seq<int>, n: nat, j: int)
    requires 0 <= j < |voteOffsets|
    requires forall a, b :: 0 <= a < b < |voteOffsets| ==> voteOffsets[a] != voteOffsets[b]
    ensures Count(PairTasks(prefix, voteOffsets, blocks, n), ComputeField, PairField(voteOffsets[j]), prefix) == n * |blocks|
    decreases |blocks|
  {
    if blocks != [] {
      var k := |blocks| - 1;
      var init, last := PairTasks(prefix, voteOffsets, blocks[..k], n), PairBlock(prefix, voteOffsets, blocks[k] + prefix, n);
      var key := PairField(voteOffsets[j]);
      CountPairTasks(prefix, voteOffsets, blocks[..k], n, j);
      CountConcat(init, last, ComputeField, key, prefix);
      CountPairBlock(prefix, voteOffsets, blocks[k] + prefix, n, j);
      AddStep(Count(init, ComputeField, key, prefix), Count(last, ComputeField, key, prefix), n, k);
    }
  }

  /** The expected counts of both block types add up to one marker per block
      and chunk. */
  lemma MarkerCountsSum(b: nat, n: nat)
    ensures n * CeilHalf(b) + n * (b / 2) == n * b
  {
    assert CeilHalf(b) + b / 2 == b;
  }

  // ---------------------------------------------------------------------------
  // Every wait expects what its batch promises

  lemma {:induction false} AppendTasks(a: seq<Event>, b: seq<Event>)
    requires WaitsMatch(a)
    requires forall i :: 0 <= i < |b| ==> b[i].Task?
    ensures WaitsMatch(a + b)
    decreases |b|
  {
    if b == [] {
      assert a + b == a;
    } else {
      var k := |b| - 1;
      AppendTasks(a, b[..k]);
      assert (a + b)[..|a + b| - 1] == a + b[..k];
    }
  }

  /** A run of waits after `a`, each expecting what `a` promises. */
  lemma {:induction false} AppendWaits(a: seq<Event>, ws: seq<Event>)
    requires WaitsMatch(a)
    requires forall j :: 0 <= j < |ws| ==> ws[j].Wait? && Count(a, ws[j].kind, ws[j].vol, ws[j].prefix) == ws[j].count
    ensures WaitsMatch(a + ws)
    decreases |ws|
  {
    if ws == [] {
      assert a + ws == a;
    } else {
      var k := |ws| - 1;
      var w := ws[k];
      AppendWaits(a, ws[..k]);
      assert (a + ws)[..|a + ws| - 1] == a + ws[..k];
      CountConcat(a, ws[..k], w.kind, w.vol, w.prefix);
      CountNone(ws[..k], w.kind, w.vol, w.prefix);
    }
  }

  /** Joining two logs whose prefixes differ keeps every wait's count: the
      markers of `a` are not counted by the waits of `b`. */
  lemma {:induction false} Join(a: seq<Event>, b: seq<Event>, o: int)
    requires WaitsMatch(a) && WaitsMatch(b)
    requires forall i :: 0 <= i < |b| ==> b[i].prefix == o
    requires forall i :: 0 <= i < |a| ==> a[i].prefix != o
    ensures WaitsMatch(a + b)
    decreases |b|
  {
    if b == [] {
      assert a + b == a;
    } else {
      var k := |b| - 1;
      var w := b[k];
      Join(a, b[..k], o);
      assert (a + b)[..|a + b| - 1] == a + b[..k];
      CountConcat(a, b[..k], w.kind, w.vol, w.prefix);
      CountNone(a, w.kind, w.vol, w.prefix);
    }
  }

  /** After a render (or copy) batch the two type waits expect exactly its
      markers, when nothing before it wrote such markers. */
  lemma TypeWaitsMatch(a: seq<Event>, kind: Kind, o: int, blocks: seq<int>, n: nat)
    requires WaitsMatch(a)
    requires forall i :: 0 <= i < |a| ==> !(a[i].Task? && a[i].kind == kind)
    ensures WaitsMatch(a + BlockTasks(kind, o, blocks, None, n) + TypeWaits(kind, o, |blocks|, n))
  {
    var t := BlockTasks(kind, o, blocks, None, n);
    AppendTasks(a, t);
    TypeCount(a, kind, o, blocks, n, 0);
    TypeCount(a, kind, o, blocks, n, 1);
    AppendTypeWaits(a + t, kind, o, |blocks|, n);
  }

  lemma TypeCount(a: seq<Event>, kind: Kind, o: int, blocks: seq<int>, n: nat, p: int)
    requires p == 0 || p == 1
    requires forall i :: 0 <= i < |a| ==> !(a[i].Task? && a[i].kind == kind)
    ensures Count(a + BlockTasks(kind, o, blocks, None, n), kind, Blocks(p), o) == n * ParityCount(|blocks|, p)
  {
    var t := BlockTasks(kind, o, blocks, None, n);
    CountConcat(a, t, kind, Blocks(p), o);
    CountNone(a, kind, Blocks(p), o);
    CountBlockTasks(kind, o, blocks, n, p);
  }

  /** The two type waits after a log holding the markers they expect. */
  lemma AppendTypeWaits(a: seq<Event>, kind: Kind, o: int, b: nat, n: nat)
    requires WaitsMatch(a)
    requires Count(a, kind, Blocks(0), o) == n * CeilHalf(b) && Count(a, kind, Blocks(1), o) == n * (b / 2)
    ensures WaitsMatch(a + TypeWaits(kind, o, b, n))
  {
    var w0, w1 := Wait(kind, Blocks(0), o, n * CeilHalf(b)), Wait(kind, Blocks(1), o, n * (b / 2));
    var a0 := a + [w0];
    assert a0[..|a0| - 1] == a;
    assert WaitsMatch(a0);
    var a1 := a0 + [w1];
    assert a1[..|a1| - 1] == a0;
    CountConcat(a, [w0], kind, Blocks(1), o);
    assert Count([w0], kind, Blocks(1), o) == 0;
    assert a + TypeWaits(kind, o, b, n) == a1;
  }

  /** One serial offset on its own: the compute wait expects one marker per
      task of the batch, and the render waits one per block of each type. */
  lemma SerialStepMatch(o: int, zOffset: int, blocks: seq<int>, n: nat)
    ensures WaitsMatch(SerialStep(o, zOffset, blocks, n))
  {
    var compute := BlockTasks(ComputeField, o, blocks, Some(SerialField(zOffset)), n);
    var w := Wait(ComputeField, SerialField(zOffset), o, |compute|);
    assert WaitsMatch(compute + [w]) by {
      assert [] + compute == compute;
      BatchThenWait([], compute, ComputeField, SerialField(zOffset), o);
    }
    TypeWaitsMatch(compute + [w], Render, o, blocks, n);
  }

  /** A batch whose every task writes a marker counted by the wait after it,
      following a log that writes none: the wait expects `len(batch)`. */
  lemma BatchThenWait(a: seq<Event>, batch: seq<Event>, kind: Kind, vol: Volume, o: int)
    requires WaitsMatch(a)
    requires forall i :: 0 <= i < |a| ==> !(a[i].Task? && a[i].kind == kind && a[i].vol == vol && a[i].prefix == o)
    requires forall i :: 0 <= i < |batch| ==> batch[i].Task? && batch[i].kind == kind && batch[i].vol == vol && batch[i].prefix == o
    ensures WaitsMatch(a + batch + [Wait(kind, vol, o, |batch|)])
  {
    AppendTasks(a, batch);
    CountConcat(a, batch, kind, vol, o);
    CountNone(a, kind, vol, o);
    CountAll(batch, kind, vol, o);
    var l := a + batch + [Wait(kind, vol, o, |batch|)];
    assert l[..|l| - 1] == a + batch;
  }

  lemma SerialStepPrefix(o: int, zOffset: int, blocks: seq<int>, n: nat)
    ensures forall i :: 0 <= i < |SerialStep(o, zOffset, blocks, n)| ==> SerialStep(o, zOffset, blocks, n)[i].prefix == o
  {
  }

  /** The compute part of a vote offset: each pairwise field wait expects
      `len(block_range) * n_chunks` markers. */
  lemma PairStepMatch(o: int, voteOffsets: seq<int>, blocks: seq<int>, n: nat)
    requires forall a, b :: 0 <= a < b < |voteOffsets| ==> voteOffsets[a] != voteOffsets[b]
    ensures WaitsMatch(PairTasks(o, voteOffsets, blocks, n) + PairWaits(o, voteOffsets, |blocks| * n))
  {
    var pairs := PairTasks(o, voteOffsets, blocks, n);
    var pw := PairWaits(o, voteOffsets, |blocks| * n);
    AppendTasks([], pairs);
    assert [] + pairs == pairs;
    forall j | 0 <= j < |pw| ensures Count(pairs, pw[j].kind, pw[j].vol, pw[j].prefix) == pw[j].count {
      CountPairTasks(o, voteOffsets, blocks, n, j);
    }
    AppendWaits(pairs, pw);
  }

  /** One vote offset on its own: the pairwise field waits as above, the vote
      wait expects the vote batch, and the render waits one marker per block
      of each type. */
  lemma VoteStepMatch(o: int, voteOffsets: seq<int>, blocks: seq<int>, n: nat)
    requires forall a, b :: 0 <= a < b < |voteOffsets| ==> voteOffsets[a] != voteOffsets[b]
    ensures WaitsMatch(VoteStep(o, voteOffsets, blocks, n))
  {
    var pre := PairTasks(o, voteOffsets, blocks, n) + PairWaits(o, voteOffsets, |blocks| * n);
    var votes := BlockTasks(VectorVote, o, blocks, Some(VoteField), n);
    var w := Wait(VectorVote, VoteField, o, |votes|);
    assert WaitsMatch(pre + votes + [w]) by {
      assert forall i :: 0 <= i < |pre| ==> !(pre[i].Task? && pre[i].kind == VectorVote);
      PairStepMatch(o, voteOffsets, blocks, n);
      BatchThenWait(pre, votes, VectorVote, VoteField, o);
    }
    assert forall i :: 0 <= i < |pre + votes + [w]| ==> !((pre + votes + [w])[i].Task? && (pre + votes + [w])[i].kind == Render) by {
      assert forall i :: 0 <= i < |pre| ==> !(pre[i].Task? && pre[i].kind == Render);
    }
    TypeWaitsMatch(pre + votes + [w], Render, o, blocks, n);
  }

  lemma VoteStepPrefix(o: int, voteOffsets: seq<int>, blocks: seq<int>, n: nat)
    ensures forall i :: 0 <= i < |VoteStep(o, voteOffsets, blocks, n)| ==> VoteStep(o, voteOffsets, blocks, n)[i].prefix == o
  {
  }

  // ---------------------------------------------------------------------------
  // The whole script

  /** The log of the script: the copy phase, the serial offsets, the vote
      offsets; or, when a serial offset has no entry in `serial_offsets`, the
      serial offsets before it and then the `KeyError`. */
  function Script(copyRange: seq<int>, serialRange: seq<int>, serialOffsets: map<int, int>, voteRange: seq<int>,
                  voteOffsets: seq<int>, blocks: seq<int>, n: nat): seq<Event>
  {
    var missing := FirstMissing(serialRange, serialOffsets);
    CopyBatch(copyRange, blocks, n) + CopyWaits(copyRange, |blocks|, n)
      + if missing.None? then SerialPhase(serialRange, serialOffsets, blocks, n) + VotePhase(voteRange, voteOffsets, blocks, n)
        else SerialPhase(serialRange[..missing.value], serialOffsets, blocks, n)
  }

  lemma {:induction false} SerialPhasePrefixes(rs: seq<int>, m: map<int, int>, blocks: seq<int>, n: nat, lo: int, hi: int)
    requires forall i :: 0 <= i < |rs| ==> rs[i] in m
    requires forall j :: 0 <= j < |rs| ==> lo <= rs[j] <= hi
    ensures forall i :: 0 <= i < |SerialPhase(rs, m, blocks, n)| ==> lo <= SerialPhase(rs, m, blocks, n)[i].prefix <= hi
    decreases |rs|
  {
    if rs != [] {
      var k := |rs| - 1;
      SerialPhasePrefixes(rs[..k], m, blocks, n, lo, hi);
      SerialStepPrefix(rs[k], m[rs[k]], blocks, n);
    }
  }

  lemma {:induction false} VotePhasePrefixes(rs: seq<int>, offs: seq<int>, blocks: seq<int>, n: nat, lo: int, hi: int)
    requires forall j :: 0 <= j < |rs| ==> lo <= rs[j] <= hi
    ensures forall i :: 0 <= i < |VotePhase(rs, offs, blocks, n)| ==> lo <= VotePhase(rs, offs, blocks, n)[i].prefix <= hi
    decreases |rs|
  {
    if rs != [] {
      var k := |rs| - 1;
      VotePhasePrefixes(rs[..k], offs, blocks, n, lo, hi);
      VoteStepPrefix(rs[k], offs, blocks, n);
    }
  }

  /** What the step from `rs` to `rs[..k]` keeps of the phase lemmas'
      preconditions. */
  lemma DecreasingInit(pre: seq<Event>, rs: seq<int>)
    requires rs != [] && StrictlyDecreasing(rs)
    requires forall i, j :: 0 <= i < |pre| && 0 <= j < |rs| ==> pre[i].prefix > rs[j]
    ensures var k := |rs| - 1;
      && StrictlyDecreasing(rs[..k])
      && (forall i, j :: 0 <= i < |pre| && 0 <= j < k ==> pre[i].prefix > rs[..k][j])
      && (forall i :: 0 <= i < |pre| ==> pre[i].prefix != rs[k])
      && (forall j :: 0 <= j < k ==> rs[k] + 1 <= rs[..k][j] <= rs[0])
  {
    var k := |rs| - 1;
    forall j | 0 <= j < k ensures rs[k] + 1 <= rs[..k][j] <= rs[0] {
      assert rs[..k][j] == rs[j];
    }
  }

  lemma IncreasingInit(pre: seq<Event>, rs: seq<int>)
    requires rs != [] && StrictlyIncreasing(rs)
    requires forall i, j :: 0 <= i < |pre| && 0 <= j < |rs| ==> pre[i].prefix < rs[j]
    ensures var k := |rs| - 1;
      && StrictlyIncreasing(rs[..k])
      && (forall i, j :: 0 <= i < |pre| && 0 <= j < k ==> pre[i].prefix < rs[..k][j])
      && (forall i :: 0 <= i < |pre| ==> pre[i].prefix != rs[k])
      && (forall j :: 0 <= j < k ==> rs[0] <= rs[..k][j] <= rs[k] - 1)
  {
    var k := |rs| - 1;
    forall j | 0 <= j < k ensures rs[0] <= rs[..k][j] <= rs[k] - 1 {
      assert rs[..k][j] == rs[j];
    }
  }

  lemma Assoc(a: seq<Event>, b: seq<Event>, c: seq<Event>)
    ensures a + (b + c) == a + b + c
  {
  }

  lemma Assoc4(l: seq<Event>, a: seq<Event>, b: seq<Event>, c: seq<Event>, d: seq<Event>)
    ensures l + a + b + c + d == l + (a + b + c + d)
  {
    Assoc(l, a + b + c, d);
    Assoc(l, a + b, c);
    Assoc(l, a, b);
  }

  lemma SerialPhaseSnoc(rs: seq<int>, m: map<int, int>, blocks: seq<int>, n: nat, k: int)
    requires 0 <= k < |rs| && forall i :: 0 <= i <= k ==> rs[i] in m
    ensures SerialPhase(rs[..k + 1], m, blocks, n) == SerialPhase(rs[..k], m, blocks, n) + SerialStep(rs[k], m[rs[k]], blocks, n)
  {
    assert rs[..k + 1][..k] == rs[..k];
  }

  lemma VotePhaseSnoc(rs: seq<int>, offs: seq<int>, blocks: seq<int>, n: nat, k: int)
    requires 0 <= k < |rs|
    ensures VotePhase(rs[..k + 1], offs, blocks, n) == VotePhase(rs[..k], offs, blocks, n) + VoteStep(rs[k], offs, blocks, n)
  {
    assert rs[..k + 1][..k] == rs[..k];
  }

  lemma Assoc6(l: seq<Event>, a: seq<Event>, b: seq<Event>, c: seq<Event>, d: seq<Event>, e: seq<Event>, f: seq<Event>)
    ensures l + a + b + c + d + e + f == l + (a + b + c + d + e + f)
  {
    Assoc(l, a + b + c + d + e, f);
    Assoc(l, a + b + c + d, e);
    Assoc(l, a + b + c, d);
    Assoc(l, a + b, c);
    Assoc(l, a, b);
  }

  lemma PrefixesDiffer(a: seq<Event>, b: seq<Event>, o: int)
    requires forall i :: 0 <= i < |a| ==> a[i].prefix != o
    requires forall i :: 0 <= i < |b| ==> b[i].prefix != o
    ensures forall i :: 0 <= i < |a + b| ==> (a + b)[i].prefix != o
  {
  }

  /** The serial offsets, run after a log whose prefixes are all above them,
      each in descending order: no wait counts another offset's markers. */
  lemma {:induction false} SerialPhaseMatch(pre: seq<Event>, rs: seq<int>, m: map<int, int>, blocks: seq<int>, n: nat)
    requires forall i :: 0 <= i < |rs| ==> rs[i] in m
    requires WaitsMatch(pre) && StrictlyDecreasing(rs)
    requires forall i, j :: 0 <= i < |pre| && 0 <= j < |rs| ==> pre[i].prefix > rs[j]
    ensures WaitsMatch(pre + SerialPhase(rs, m, blocks, n))
    decreases |rs|
  {
    if rs == [] {
      assert pre + [] == pre;
    } else {
      var k := |rs| - 1;
      var init := SerialPhase(rs[..k], m, blocks, n);
      var step := SerialStep(rs[k], m[rs[k]], blocks, n);
      assert forall i :: 0 <= i < k ==> rs[..k][i] in m;
      DecreasingInit(pre, rs);
      SerialPhaseMatch(pre, rs[..k], m, blocks, n);
      SerialStepMatch(rs[k], m[rs[k]], blocks, n);
      SerialStepPrefix(rs[k], m[rs[k]], blocks, n);
      SerialPhasePrefixes(rs[..k], m, blocks, n, rs[k] + 1, rs[0]);
      PrefixesDiffer(pre, init, rs[k]);
      Join(pre + init, step, rs[k]);
      assert SerialPhase(rs, m, blocks, n) == init + step;
      Assoc(pre, init, step);
    }
  }

  /** The vote offsets, run after a log whose prefixes are all below them,
      in ascending order. */
  lemma {:induction false} VotePhaseMatch(pre: seq<Event>, rs: seq<int>, offs: seq<int>, blocks: seq<int>, n: nat)
    requires forall a, b :: 0 <= a < b < |offs| ==> offs[a] != offs[b]
    requires WaitsMatch(pre) && StrictlyIncreasing(rs)
    requires forall i, j :: 0 <= i < |pre| && 0 <= j < |rs| ==> pre[i].prefix < rs[j]
    ensures WaitsMatch(pre + VotePhase(rs, offs, blocks, n))
    decreases |rs|
  {
    if rs == [] {
      assert pre + [] == pre;
    } else {
      var k := |rs| - 1;
      var init := VotePhase(rs[..k], offs, blocks, n);
      var step := VoteStep(rs[k], offs, blocks, n);
      IncreasingInit(pre, rs);
      VotePhaseMatch(pre, rs[..k], offs, blocks, n);
      VoteStepMatch(rs[k], offs, blocks, n);
      VoteStepPrefix(rs[k], offs, blocks, n);
      VotePhasePrefixes(rs[..k], offs, blocks, n, rs[0], rs[k] - 1);
      PrefixesDiffer(pre, init, rs[k]);
      Join(pre + init, step, rs[k]);
      assert VotePhase(rs, offs, blocks, n) == init + step;
      Assoc(pre, init, step);
    }
  }

  /** A copy range of at most one offset: the copy waits expect one marker
      per block of each type. */
  lemma CopyPhaseMatch(copyRange: seq<int>, blocks: seq<int>, n: nat)
    requires |copyRange| <= 1
    ensures WaitsMatch(CopyBatch(copyRange, blocks, n) + CopyWaits(copyRange, |blocks|, n))
    ensures forall i :: 0 <= i < |CopyBatch(copyRange, blocks, n) + CopyWaits(copyRange, |blocks|, n)| ==>
      (CopyBatch(copyRange, blocks, n) + CopyWaits(copyRange, |blocks|, n))[i].prefix == copyRange[0]
  {
    if copyRange != [] {
      var o := copyRange[0];
      assert copyRange[..0] == [];
      var t := BlockTasks(Copy, o, blocks, None, n);
      assert CopyBatch(copyRange, blocks, n) == [] + t;
      assert CopyWaits(copyRange, |blocks|, n) == [] + TypeWaits(Copy, o, |blocks|, n);
      TypeWaitsMatch([], Copy, o, blocks, n);
      assert [] + t + TypeWaits(Copy, o, |blocks|, n) == CopyBatch(copyRange, blocks, n) + CopyWaits(copyRange, |blocks|, n);
    }
  }

  /** Where the restart-filtered ranges lie: the copy range is at most
      `[overlap-1]`, the serial offsets are below it and descend, the vote
      offsets are above it and ascend, and every serial offset has its
      `serial_offsets` entry. */
  lemma FilteredRanges(blockSize: int, overlap: int, restart: int)
    requires blockSize >= 0 && overlap >= 1
    ensures var cr := CopyRangeFrom(blockSize, overlap, restart);
      |cr| <= 1 && forall i :: 0 <= i < |cr| ==> cr[i] == overlap - 1
    ensures var sr := SerialRangeFrom(blockSize, overlap, restart);
      && StrictlyDecreasing(sr)
      && (forall j :: 0 <= j < |sr| ==> 0 <= sr[j] <= overlap - 2)
      && FirstMissing(sr, SerialFieldOffsets(blockSize, overlap)).None?
    ensures var vr := VoteRangeFrom(blockSize, overlap, restart);
      StrictlyIncreasing(vr) && forall j :: 0 <= j < |vr| ==> overlap <= vr[j]
  {
    OffsetRangeValues(blockSize, overlap);
    RestartKeepsOrder(blockSize, overlap, restart);
    SerialFieldsReachCopy(blockSize, overlap);
    var serial, vote := SerialOffsets(blockSize, overlap), VoteRange(blockSize, overlap);
    var sr, vr := SerialRangeFrom(blockSize, overlap, restart), VoteRangeFrom(blockSize, overlap, restart);
    var m := SerialFieldOffsets(blockSize, overlap);
    assert AtLeast(CopyOffsets(blockSize, overlap), restart) == AtLeast([overlap - 1], restart);
    forall j | 0 <= j < |sr| ensures 0 <= sr[j] <= overlap - 2 && sr[j] in m {
      assert sr[j] in serial;
      var i :| 0 <= i < |serial| && serial[i] == sr[j];
    }
    forall j | 0 <= j < |vr| ensures overlap <= vr[j] {
      assert vr[j] in vote;
      var i :| 0 <= i < |vote| && vote[i] == vr[j];
    }
  }

  /** With `tgt_radius >= 1`, no serial offset misses its entry, and every
      wait of the script expects exactly the markers its batch promises:
      `n_chunks * ceil(B/2)` and `n_chunks * (B // 2)` per block type,
      `len(batch)` for a serial field or the voted field, and
      `len(block_range) * n_chunks` for each pairwise field. */
  lemma ScriptWaitsMatch(blockSize: int, overlap: int, restart: int, blocks: seq<int>, n: nat)
    requires blockSize >= 0 && overlap >= 1
    ensures var sr, m := SerialRangeFrom(blockSize, overlap, restart), SerialFieldOffsets(blockSize, overlap);
      FirstMissing(sr, m).None?
    ensures WaitsMatch(Script(CopyRangeFrom(blockSize, overlap, restart), SerialRangeFrom(blockSize, overlap, restart),
      SerialFieldOffsets(blockSize, overlap), VoteRangeFrom(blockSize, overlap, restart), VoteOffsets(overlap), blocks, n))
  {
    var cr, sr, vr := CopyRangeFrom(blockSize, overlap, restart), SerialRangeFrom(blockSize, overlap, restart), VoteRangeFrom(blockSize, overlap, restart);
    var m, offs := SerialFieldOffsets(blockSize, overlap), VoteOffsets(overlap);
    FilteredRanges(blockSize, overlap, restart);
    var c: seq<Event> := CopyBatch(cr, blocks, n) + CopyWaits(cr, |blocks|, n);
    var sp: seq<Event> := SerialPhase(sr, m, blocks, n);
    CopySerialMatch(blockSize, overlap, restart, blocks, n);
    assert forall i, j :: 0 <= i < |c + sp| && 0 <= j < |vr| ==> (c + sp)[i].prefix < vr[j];
    VotePhaseMatch(c + sp, vr, offs, blocks, n);
    Assoc(c, sp, VotePhase(vr, offs, blocks, n));
  }

  /** The copy phase and the serial offsets: their waits match and their
      prefixes lie below every vote offset. */
  lemma CopySerialMatch(blockSize: int, overlap: int, restart: int, blocks: seq<int>, n: nat)
    requires blockSize >= 0 && overlap >= 1
    requires var sr, m := SerialRangeFrom(blockSize, overlap, restart), SerialFieldOffsets(blockSize, overlap);
      forall i :: 0 <= i < |sr| ==> sr[i] in m
    ensures var cr, sr, m := CopyRangeFrom(blockSize, overlap, restart), SerialRangeFrom(blockSize, overlap, restart), SerialFieldOffsets(blockSize, overlap);
      var log := CopyBatch(cr, blocks, n) + CopyWaits(cr, |blocks|, n) + SerialPhase(sr, m, blocks, n);
      WaitsMatch(log) && forall i :: 0 <= i < |log| ==> log[i].prefix <= overlap - 1
  {
    var cr, sr := CopyRangeFrom(blockSize, overlap, restart), SerialRangeFrom(blockSize, overlap, restart);
    var m := SerialFieldOffsets(blockSize, overlap);
    FilteredRanges(blockSize, overlap, restart);
    var c := CopyBatch(cr, blocks, n) + CopyWaits(cr, |blocks|, n);
    CopyPhaseMatch(cr, blocks, n);
    assert forall i :: 0 <= i < |c| ==> c[i].prefix == overlap - 1;
    SerialPhaseMatch(c, sr, m, blocks, n);
    SerialPhasePrefixes(sr, m, blocks, n, 0, overlap - 2);
  }

  /** With `tgt_radius == 0` and `block_size >= 2`, `serial_offsets` is empty
      while the serial range is not, and the script stops with a `KeyError`
      at the first serial offset. */
  lemma NoRadiusKeyError(blockSize: int, restart: int)
    requires blockSize >= 2 && restart <= 0
    ensures FirstMissing(SerialRangeFrom(blockSize, 0, restart), SerialFieldOffsets(blockSize, 0)) == Some(0)
  {
    var full := FullRange(blockSize, 0);
    var serial := SerialOffsets(blockSize, 0);
    assert Upto(full, -1) == full[..blockSize - 1];
    assert serial[0] == blockSize - 2;
    assert SerialRangeFrom(blockSize, 0, restart)[0] == blockSize - 2;
  }

  /** A serial offset aligns to `overlap - 1`, the offset the copy phase
      wrote (unless the restart skipped it). */
  lemma SerialTargetsReady(blockSize: int, overlap: int, restart: int)
    requires blockSize >= 0 && overlap >= 1
    ensures var sr, m := SerialRangeFrom(blockSize, overlap, restart), SerialFieldOffsets(blockSize, overlap);
      forall j :: 0 <= j < |sr| ==> (sr[j] in m && sr[j] + m[sr[j]] == overlap - 1)
    ensures overlap - 1 >= restart ==> CopyRangeFrom(blockSize, overlap, restart) == [overlap - 1]
  {
    FilteredRanges(blockSize, overlap, restart);
    SerialFieldsReachCopy(blockSize, overlap);
    OffsetRangeValues(blockSize, overlap);
    assert AtLeast(CopyOffsets(blockSize, overlap), restart) == AtLeast([overlap - 1], restart);
  }

  /** A vote offset `o` aligns to `o - 1, ..., o - overlap`; each of them at or
      above the restart is the copied offset, a serial offset or an earlier
      vote offset, so its render has been waited for. */
  lemma VoteTargetReady(blockSize: int, overlap: int, restart: int, p: int, j: int)
    requires blockSize >= 0 && overlap >= 1
    requires var vr := VoteRangeFrom(blockSize, overlap, restart); 0 <= p < |vr|
    requires 0 <= j < overlap
    ensures var cr, sr, vr := CopyRangeFrom(blockSize, overlap, restart), SerialRangeFrom(blockSize, overlap, restart), VoteRangeFrom(blockSize, overlap, restart);
      var t := vr[p] + VoteOffsets(overlap)[j];
      t >= restart ==>
        (|| (0 < |cr| && cr[0] == t)
         || (exists q :: 0 <= q < |sr| && sr[q] == t)
         || (exists q :: 0 <= q < p && vr[q] == t))
  {
    var vr := VoteRangeFrom(blockSize, overlap, restart);
    var t := vr[p] + VoteOffsets(overlap)[j];
    VoteRangeBounds(blockSize, overlap, restart, p);
    if t >= restart {
      if t < overlap - 1 {
        ReadySerial(blockSize, overlap, restart, t);
      } else if t >= overlap {
        ReadyVote(blockSize, overlap, restart, p, t);
      } else {
        SerialTargetsReady(blockSize, overlap, restart);
      }
    }
  }

  lemma VoteRangeBounds(blockSize: int, overlap: int, restart: int, p: int)
    requires blockSize >= 0 && overlap >= 1
    requires var vr := VoteRangeFrom(blockSize, overlap, restart); 0 <= p < |vr|
    ensures var vr := VoteRangeFrom(blockSize, overlap, restart); overlap <= vr[p]
  {
    FilteredRanges(blockSize, overlap, restart);
  }

  /** A section below the copied one and at or above the restart is a serial offset. */
  lemma ReadySerial(blockSize: int, overlap: int, restart: int, t: int)
    requires blockSize >= 0 && overlap >= 1
    requires 0 <= t < overlap - 1 && t >= restart
    ensures var sr := SerialRangeFrom(blockSize, overlap, restart); exists q :: 0 <= q < |sr| && sr[q] == t
  {
    OffsetRangeValues(blockSize, overlap);
    var serial := SerialOffsets(blockSize, overlap);
    var sr := SerialRangeFrom(blockSize, overlap, restart);
    assert serial[overlap - 2 - t] == t;
    assert t in sr;
    var q :| 0 <= q < |sr| && sr[q] == t;
  }

  /** A vote section below vote offset `vr[p]` and at or above the restart
      comes earlier in the vote range. */
  lemma ReadyVote(blockSize: int, overlap: int, restart: int, p: int, t: int)
    requires blockSize >= 0 && overlap >= 1
    requires var vr := VoteRangeFrom(blockSize, overlap, restart); 0 <= p < |vr| && overlap <= t < vr[p]
    requires t >= restart
    ensures var vr := VoteRangeFrom(blockSize, overlap, restart); exists q :: 0 <= q < p && vr[q] == t
  {
    OffsetRangeValues(blockSize, overlap);
    RestartKeepsOrder(blockSize, overlap, restart);
    var vote := VoteRange(blockSize, overlap);
    var vr := VoteRangeFrom(blockSize, overlap, restart);
    assert vr[p] in vote;
    var i :| 0 <= i < |vote| && vote[i] == vr[p];
    assert vote[t - overlap] == t;
    assert t in vr;
    var q :| 0 <= q < |vr| && vr[q] == t;
    assert q < p;
  }
}
