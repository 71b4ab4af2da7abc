/** The task bodies of `inference/tasks.py`: the crop of the output window,
    the order of saves and completion markers in each task's `execute`, the
    conversion of serialised arguments, and the dispatch of mask logic. The
    computations the tasks call on the aligner are not part of this model;
    a task's effects are the writes it makes. */
module Tasks {
  import opened Wrappers
  import opened Slices

  // Output window

  /** `overlap[i] * (patch_range[i][0] > min_bound[i])`: the crop starts past
      the overlap unless the extended patch starts at or before the volume's
      lower bound. */
  function WindowStart(overlap: int, patchLo: int, minBound: int): (r: int)
    ensures patchLo > minBound ==> r == overlap
    ensures patchLo <= minBound ==> r == 0
  {
    overlap * (if patchLo > minBound then 1 else 0)
  }

  /** `image[..., start_x : start_x + size_x, start_y : start_y + size_y]`
      on the two spatial axes. */
  function OutputCrop<T>(image: seq<seq<T>>, overlap: (int, int), patchLo: (int, int), minBound: (int, int),
                         size: (int, int)): seq<seq<T>> {
    var sx, sy := WindowStart(overlap.0, patchLo.0, minBound.0), WindowStart(overlap.1, patchLo.1, minBound.1);
    var rows := Slice(image, sx, sx + size.0);
    seq(|rows|, i requires 0 <= i < |rows| => Slice(rows[i], sy, sy + size.1))
  }

  ghost predicate Rect<T>(image: seq<seq<T>>, nx: nat, ny: nat) {
    |image| == nx && forall i :: 0 <= i < nx ==> |image[i]| == ny
  }

  /** When the extended patch holds the window, the crop is exactly
      `patch_size` and cell `[i][j]` is the extended patch's cell
      `[start_x + i][start_y + j]`: with an interior patch, the cell of the
      output box at `[i][j]`. */
  lemma OutputCropWindow<T>(image: seq<seq<T>>, nx: nat, ny: nat, overlap: (nat, nat), patchLo: (int, int),
                            minBound: (int, int), size: (nat, nat))
    requires Rect(image, nx, ny)
    requires overlap.0 + size.0 <= nx && overlap.1 + size.1 <= ny
    ensures var sx, sy := WindowStart(overlap.0, patchLo.0, minBound.0), WindowStart(overlap.1, patchLo.1, minBound.1);
      var r := OutputCrop(image, overlap, patchLo, minBound, size);
      && Rect(r, size.0, size.1)
      && forall i, j :: 0 <= i < size.0 && 0 <= j < size.1 ==> r[i][j] == image[sx + i][sy + j]
  {
    var sx, sy := WindowStart(overlap.0, patchLo.0, minBound.0), WindowStart(overlap.1, patchLo.1, minBound.1);
    var rows := Slice(image, sx, sx + size.0);
    assert rows == image[sx..sx + size.0];
    forall i | 0 <= i < size.0
      ensures Slice(rows[i], sy, sy + size.1) == image[sx + i][sy..sy + size.1]
    {
      assert |rows[i]| == ny;
    }
  }

  // Completion markers

  /** The tasks that write a completion marker, with the fields the marker
      and the saves depend on. Volumes are their paths; `stringify` below is
      `patch_bbox.stringify`. */
  datatype Task =
    | CopyTask(dst: string, srcZ: int, dstZ: int, prefix: string)
    | ComputeFieldTask(dst: string, srcZ: int, tgtZ: int, prefix: string)
    | RenderTask(dst: string, srcZ: int, dstZ: int, prefix: string)
    | VectorVoteTask(dst: string, z: int, prefix: string)
    | ComposeTask(dst: string, dstZ: int, prefix: string)
    | CpcTask(dst: string, srcZ: int, tgtZ: int, prefix: string)
    | ResAndComposeTask(dst: string, z: int, mip: int, prefix: string)
    | ComputeFcorrTask(dst: string, dstNoPost: string, z2: int, prefix: string)

  /** A write to storage: an output saved to a volume at a section, or a file
      put under a volume's path. */
  datatype Effect = Save(volume: string, z: int) | Put(volume: string, path: string)

  /** The tasks whose work and marker sit under `if not aligner.dry_run`. */
  predicate Guarded(t: Task) {
    !t.ResAndComposeTask? && !t.ComputeFcorrTask?
  }

  /** The section a task's output and marker are keyed by: the destination
      section for copy, render and compose, the source section for
      compute-field and cpc. */
  function MarkerZ(t: Task): int {
    match t
    case CopyTask(_, _, dstZ, _) => dstZ
    case ComputeFieldTask(_, srcZ, _, _) => srcZ
    case RenderTask(_, _, dstZ, _) => dstZ
    case VectorVoteTask(_, z, _) => z
    case ComposeTask(_, dstZ, _) => dstZ
    case CpcTask(_, srcZ, _, _) => srcZ
    case ResAndComposeTask(_, z, _, _) => z
    case ComputeFcorrTask(_, _, z2, _) => z2
  }

  /** The directory of a task's markers. */
  function MarkerDir(t: Task): string {
    match t
    case CopyTask(_, _, _, prefix) => "copy_done/" + prefix
    case ComputeFieldTask(_, _, _, prefix) => "compute_field_done/" + prefix
    case RenderTask(_, _, _, prefix) => "render_done/" + prefix
    case VectorVoteTask(_, _, prefix) => "vector_vote_done/" + prefix
    case ComposeTask(_, _, prefix) => "compose_done/" + prefix
    case CpcTask(_, _, _, prefix) => "cpc_done/" + prefix
    case ResAndComposeTask(_, _, mip, prefix) => "res_and_compose/" + prefix + "-" + IntToString(mip)
    case ComputeFcorrTask(_, _, _, prefix) => "Fcorr_done/" + prefix
  }

  /** `'<dir>/{}'.format(patch_bbox.stringify(z))`. */
  function MarkerPath(t: Task, stringify: int -> string): string {
    MarkerDir(t) + "/" + stringify(MarkerZ(t))
  }

  /** The saves a task makes before its marker. ResAndCompose's saves happen
      inside `res_and_compose`, not in the task. */
  function Saves(t: Task): seq<Effect> {
    match t
    case ResAndComposeTask(_, _, _, _) => []
    case ComputeFcorrTask(dst, dstNoPost, z2, _) => [Save(dst, z2), Save(dstNoPost, z2)]
    case _ => [Save(t.dst, MarkerZ(t))]
  }

  /** What `execute` writes: nothing under `dry_run` for a guarded task;
      otherwise its saves, then the marker on the output volume. */
  function Execute(t: Task, dryRun: bool, stringify: int -> string): seq<Effect> {
    if dryRun && Guarded(t) then [] else Saves(t) + [Put(t.dst, MarkerPath(t, stringify))]
  }

  /** The completion protocol: under `dry_run` the six guarded tasks write
      nothing; otherwise, and always for ResAndCompose and ComputeFcorr, a
      task writes exactly one marker, last, on the volume its output was saved
      to, after every save, and the marker is keyed by the output's section. */
  lemma ExecuteProtocol(t: Task, dryRun: bool, stringify: int -> string)
    ensures var e := Execute(t, dryRun, stringify);
      && (dryRun && Guarded(t) ==> e == [])
      && (!dryRun || !Guarded(t) ==>
        && e != []
        && e[|e| - 1] == Put(t.dst, MarkerPath(t, stringify))
        && (forall n :: 0 <= n < |e| - 1 ==> e[n].Save? && e[n].z == MarkerZ(t))
        && (!t.ResAndComposeTask? ==> e[0] == Save(t.dst, MarkerZ(t))))
    ensures !Guarded(t) ==> Execute(t, dryRun, stringify) == Execute(t, !dryRun, stringify)
  {
  }

  /** The storage a task writes to: the outputs saved, as (volume, section)
      pairs, the files put, as (volume, path) pairs, and every write in the
      order it was made. */
  class Storage {
    var saved: set<(string, int)>
    var files: set<(string, string)>
    var writes: seq<Effect>

    ghost predicate Valid()
      reads this
    {
      forall n :: 0 <= n < |writes| ==>
        (writes[n].Save? ==> (writes[n].volume, writes[n].z) in saved)
        && (writes[n].Put? ==> (writes[n].volume, writes[n].path) in files)
    }

    constructor ()
      ensures Valid() && saved == {} && files == {} && writes == []
    {
      saved, files, writes := {}, {}, [];
    }

    /** `aligner.save_image` / `save_field` at one section of a volume. */
    method Save(volume: string, z: int)
      requires Valid()
      modifies this
      ensures Valid()
      ensures saved == old(saved) + {(volume, z)} && files == old(files)
      ensures writes == old(writes) + [Effect.Save(volume, z)]
    {
      saved := saved + {(volume, z)};
      writes := writes + [Effect.Save(volume, z)];
    }

    /** `Storage(volume).put_file(path, '')`. */
    method PutFile(volume: string, path: string)
      requires Valid()
      modifies this
      ensures Valid()
      ensures files == old(files) + {(volume, path)} && saved == old(saved)
      ensures writes == old(writes) + [Put(volume, path)]
    {
      files := files + {(volume, path)};
      writes := writes + [Put(volume, path)];
    }

    /** A task's `execute`: under `dry_run` a guarded task writes nothing;
        otherwise it saves its output, then puts its marker on the output
        volume. */
    method Run(t: Task, dryRun: bool, stringify: int -> string)
      requires Valid()
      modifies this
      ensures Valid()
      ensures writes == old(writes) + Execute(t, dryRun, stringify)
      ensures dryRun && Guarded(t) ==> saved == old(saved) && files == old(files)
      ensures !(dryRun && Guarded(t)) ==> files == old(files) + {(t.dst, MarkerPath(t, stringify))}
      ensures !(dryRun && Guarded(t)) ==>
        forall v, z :: (v, z) in saved <==> (v, z) in old(saved) || Effect.Save(v, z) in Saves(t)
    {
      if dryRun && Guarded(t) {
        return;
      }
      match t {
        case ResAndComposeTask(_, _, _, _) =>
        case ComputeFcorrTask(dst, dstNoPost, z2, _) =>
          Save(dst, z2);
          Save(dstNoPost, z2);
        case _ =>
          Save(t.dst, MarkerZ(t));
      }
      PutFile(t.dst, MarkerPath(t, stringify));
    }
  }

  /** The first letters of each kind's marker directory. */
  function KindTag(t: Task): string {
    match t
    case CopyTask(_, _, _, _) => "copy_"
    case ComputeFieldTask(_, _, _, _) => "compu"
    case RenderTask(_, _, _, _) => "rende"
    case VectorVoteTask(_, _, _) => "vecto"
    case ComposeTask(_, _, _) => "compo"
    case CpcTask(_, _, _, _) => "cpc_d"
    case ResAndComposeTask(_, _, _, _) => "res_a"
    case ComputeFcorrTask(_, _, _, _) => "Fcorr"
  }

  predicate SameKind(a: Task, b: Task) {
    KindTag(a) == KindTag(b)
  }

  /** The marker of a task begins with its kind's tag, and different kinds
      have different tags: tasks of different kinds never share a marker. */
  lemma MarkersSeparateKinds(a: Task, b: Task, stringify: int -> string)
    ensures |MarkerPath(a, stringify)| >= 5 && MarkerPath(a, stringify)[..5] == KindTag(a)
    ensures MarkerPath(a, stringify) == MarkerPath(b, stringify) ==> SameKind(a, b)
    ensures SameKind(a, b) <==> (
      && a.CopyTask? == b.CopyTask? && a.ComputeFieldTask? == b.ComputeFieldTask?
      && a.RenderTask? == b.RenderTask? && a.VectorVoteTask? == b.VectorVoteTask? && a.ComposeTask? == b.ComposeTask?
      && a.CpcTask? == b.CpcTask? && a.ResAndComposeTask? == b.ResAndComposeTask? && a.ComputeFcorrTask? == b.ComputeFcorrTask?)
  {
    TagPrefix(a, stringify);
    TagPrefix(b, stringify);
  }

  lemma TagPrefix(t: Task, stringify: int -> string)
    ensures |MarkerPath(t, stringify)| >= 5 && MarkerPath(t, stringify)[..5] == KindTag(t)
  {
    var p := MarkerPath(t, stringify);
    var d := MarkerDir(t);
    assert p == d + "/" + stringify(MarkerZ(t));
    match t {
      case CopyTask(_, _, _, prefix) => assert d == "copy_done/" + prefix;
      case ComputeFieldTask(_, _, _, prefix) => assert d == "compute_field_done/" + prefix;
      case RenderTask(_, _, _, prefix) => assert d == "render_done/" + prefix;
      case VectorVoteTask(_, _, prefix) => assert d == "vector_vote_done/" + prefix;
      case ComposeTask(_, _, prefix) => assert d == "compose_done/" + prefix;
      case CpcTask(_, _, _, prefix) => assert d == "cpc_done/" + prefix;
      case ResAndComposeTask(_, _, mip, prefix) => assert d == "res_and_compose/" + prefix + "-" + IntToString(mip);
      case ComputeFcorrTask(_, _, _, prefix) => assert d == "Fcorr_done/" + prefix;
    }
    assert p[..5] == d[..5];
  }

  // MaskLogicTask

  datatype MaskOp = Conjunction | Disjunction

  datatype TaskError = UnboundLocalError | ValueError

  /** `op == 'and'` selects `mask_conjunction_chunk`, `op == 'or'`
      `mask_disjunction_chunk`; any other op leaves `res` unbound, and the
      save that reads it fails. */
  function MaskLogicOp(op: string): (r: Result<MaskOp, TaskError>)
    ensures r == Ok(Conjunction) <==> op == "and"
    ensures r == Ok(Disjunction) <==> op == "or"
    ensures r.Err? <==> op != "and" && op != "or"
    ensures r.Err? ==> r.error == UnboundLocalError
  {
    if op == "and" then Ok(Conjunction)
    else if op == "or" then Ok(Disjunction)
    else Err(UnboundLocalError)
  }

  /** The writes of `MaskLogicTask.execute`: the combined mask saved at
      `dst_z` for a known op, nothing otherwise. It writes no marker. */
  function MaskLogicEffects(op: string, dst: string, dstZ: int): (r: seq<Effect>)
    ensures MaskLogicOp(op).Ok? ==> r == [Save(dst, dstZ)]
    ensures MaskLogicOp(op).Err? ==> r == []
  {
    if MaskLogicOp(op).Ok? then [Save(dst, dstZ)] else []
  }

  // VectorVoteTask arguments

  predicate IsDigit(c: char) {
    '0' <= c <= '9'
  }

  predicate AllDigits(s: string) {
    forall k :: 0 <= k < |s| ==> IsDigit(s[k])
  }

  function DigitsValue(s: string): nat
    requires AllDigits(s)
  {
    if s == [] then 0 else DigitsValue(s[..|s| - 1]) * 10 + (s[|s| - 1] as int - '0' as int)
  }

  /** `int(k)` on a key: an optional sign and at least one decimal digit; a
      `ValueError` for anything else. */
  function ParseInt(s: string): Result<int, TaskError> {
    if |s| > 0 && (s[0] == '-' || s[0] == '+') then
      if |s| > 1 && AllDigits(s[1..]) then
        var v: int := DigitsValue(s[1..]);
        Ok(if s[0] == '-' then -v else v)
      else Err(ValueError)
    else if |s| > 0 && AllDigits(s) then Ok(DigitsValue(s))
    else Err(ValueError)
  }

  function NatToString(n: nat): (r: string)
    ensures r != [] && AllDigits(r)
  {
    if n < 10 then [('0' as int + n) as char]
    else NatToString(n / 10) + [('0' as int + n % 10) as char]
  }

  /** `str(n)`: how an int key is written when the task is serialised. */
  function IntToString(n: int): string {
    if n < 0 then "-" + NatToString(-n) else NatToString(n)
  }

  lemma {:induction false} NatToStringValue(n: nat)
    ensures DigitsValue(NatToString(n)) == n
  {
    var s := NatToString(n);
    if n >= 10 {
      NatToStringValue(n / 10);
      assert s[..|s| - 1] == NatToString(n / 10);
    }
  }

  /** `int(str(n)) == n`: the keys of a serialised field map convert back to
      the section offsets they were written from. */
  lemma ParseIntRoundTrip(n: int)
    ensures ParseInt(IntToString(n)) == Ok(n)
  {
    if n < 0 {
      NatToStringValue(-n);
      var s := IntToString(n);
      assert s[1..] == NatToString(-n);
    } else {
      NatToStringValue(n);
      assert IntToString(n)[0] != '-' && IntToString(n)[0] != '+';
    }
  }

  /** `{int(k): v for k, v in items}`: a `ValueError` at the first key that
      is not an integer; otherwise each offset maps to the last value listed
      under it. */
  function ConvertKeys<V>(items: seq<(string, V)>): Result<map<int, V>, TaskError> {
    if items == [] then Ok(map[])
    else
      var rest := ConvertKeys(items[..|items| - 1]);
      var last := items[|items| - 1];
      if rest.Err? then rest
      else
        var k := ParseInt(last.0);
        if k.Err? then Err(k.error) else Ok(rest.value[k.value := last.1])
  }

  /** The serialised form of a field map: its offsets written as strings. */
  function Serialise<V>(items: seq<(int, V)>): (r: seq<(string, V)>)
    ensures |r| == |items|
    ensures forall n :: 0 <= n < |items| ==> r[n] == (IntToString(items[n].0), items[n].1)
  {
    seq(|items|, n requires 0 <= n < |items| => (IntToString(items[n].0), items[n].1))
  }

  /** The last value listed under offset k. */
  function LastValue<V>(items: seq<(int, V)>, k: int): Option<V> {
    if items == [] then None
    else if items[|items| - 1].0 == k then Some(items[|items| - 1].1)
    else LastValue(items[..|items| - 1], k)
  }

  /** Converting a serialised field map recovers it: the conversion succeeds,
      and each offset maps to the value listed last under it. */
  lemma {:induction false} ConvertSerialised<V>(items: seq<(int, V)>)
    decreases |items|
    ensures var r := ConvertKeys(Serialise(items));
      && r.Ok?
      && forall k :: (k in r.value <==> LastValue(items, k).Some?) && (k in r.value ==> r.value[k] == LastValue(items, k).value)
  {
    if items != [] {
      var init := items[..|items| - 1];
      var s := Serialise(items);
      assert s[..|s| - 1] == Serialise(init);
      ConvertSerialised(init);
      ParseIntRoundTrip(items[|items| - 1].0);
    }
  }

  /** A serialised flag as JSON gives it back. */
  datatype Json = JBool(b: bool) | JInt(i: int) | JNull | JString(s: string)

  /** `bool(v)`: Python's truth value. */
  function Truth(v: Json): (r: bool)
    ensures v.JBool? ==> r == v.b
    ensures v.JInt? ==> (r <==> v.i != 0)
    ensures v.JNull? ==> !r
  {
    match v
    case JBool(b) => b
    case JInt(i) => i != 0
    case JNull => false
    case JString(s) => s != ""
  }
}
