/** The render script `inference/render.py`: the sections to render come from
    the box or from a z-range CSV, per-section transforms and sources come
    from a section lookup, and every section becomes one render request, sent
    in the pieces `make_range` cuts for the worker processes. The render
    itself, the volumes and the queues are not part of this model: a volume is
    its path, and a request is what `a.render` is called with. */
module Render {
  import opened Wrappers
  import opened Slices
  import opened Lookup
  import opened Partition

  /** A 2 x 3 affine matrix `[[a, b, tx], [c, d, ty]]`. */
  datatype Affine = Affine(a: real, b: real, tx: real, c: real, d: real, ty: real)

  const IdentityAffine := Affine(1.0, 0.0, 0.0, 0.0, 1.0, 0.0)

  /** The arguments of one `a.render` call. */
  datatype Request = Request(srcPath: string, fieldPath: string, dstPath: string,
                             srcZ: int, fieldZ: int, dstZ: int, affine: Option<Affine>)

  /** The affine of section z: none without a lookup (an empty lookup counts
      as none, as Python's truth test does), the lookup's matrix for a listed
      section, and the identity for any other. */
  function AffineFor(affines: Option<map<int, Affine>>, z: int): (r: Option<Affine>)
    ensures affines.None? ==> r.None?
    ensures affines.Some? && z in affines.value ==> r == Some(affines.value[z])
    ensures affines.Some? && |affines.value| > 0 && z !in affines.value ==> r == Some(IdentityAffine)
  {
    if affines.None? || |affines.value| == 0 then None
    else if z in affines.value then Some(affines.value[z])
    else Some(IdentityAffine)
  }

  /** The source path of section z: the lookup's volume for a listed section,
      the default source for any other. */
  function SourceFor(sources: map<int, string>, defaultSrc: string, z: int): (r: string)
    ensures z in sources ==> r == sources[z]
    ensures z !in sources ==> r == defaultSrc
  {
    if |sources| == 0 then defaultSrc
    else if z in sources then sources[z]
    else defaultSrc
  }

  /** What `RenderTaskIterator` sends for section z. */
  function RequestFor(affines: Option<map<int, Affine>>, sources: map<int, string>,
                      src: string, field: string, dst: string, z: int): Request {
    Request(SourceFor(sources, src, z), field, dst, z, z, z, AffineFor(affines, z))
  }

  /** `render(...)`: the z list is cut by `make_range(z_range, a.threads)`
      and every piece's iterator sends its sections' requests in order. */
  method SendRenders(affines: Option<map<int, Affine>>, sources: map<int, string>,
                     src: string, field: string, dst: string, zRange: seq<int>, threads: int)
    returns (sent: seq<Request>)
    requires threads >= 1
    ensures |sent| == |zRange|
    ensures forall i :: 0 <= i < |zRange| ==> sent[i] == RequestFor(affines, sources, src, field, dst, zRange[i])
  {
    var pieces := MakeRange(zRange, threads);
    ghost var done: seq<int> := [];
    sent := [];
    var k := 0;
    while k < |pieces|
      invariant 0 <= k <= |pieces|
      invariant done == Flatten(pieces[..k])
      invariant |sent| == |done|
      invariant forall i :: 0 <= i < |done| ==> sent[i] == RequestFor(affines, sources, src, field, dst, done[i])
    {
      var piece := pieces[k];
      var out := SendPiece(affines, sources, src, field, dst, piece);
      SendStep(affines, sources, src, field, dst, done, sent, piece, out);
      FlattenSnoc(pieces[..k], piece);
      assert pieces[..k + 1] == pieces[..k] + [piece];
      sent := sent + out;
      done := done + piece;
      k := k + 1;
    }
    assert pieces[..|pieces|] == pieces;
  }

  /** One worker's iterator: its sections' requests in order. */
  method SendPiece(affines: Option<map<int, Affine>>, sources: map<int, string>,
                   src: string, field: string, dst: string, piece: seq<int>)
    returns (out: seq<Request>)
    ensures |out| == |piece|
    ensures forall n :: 0 <= n < |piece| ==> out[n] == RequestFor(affines, sources, src, field, dst, piece[n])
  {
    out := [];
    var i := 0;
    while i < |piece|
      invariant 0 <= i <= |piece|
      invariant |out| == i
      invariant forall n :: 0 <= n < i ==> out[n] == RequestFor(affines, sources, src, field, dst, piece[n])
    {
      out := out + [RequestFor(affines, sources, src, field, dst, piece[i])];
      i := i + 1;
    }
  }

  lemma SendStep(affines: Option<map<int, Affine>>, sources: map<int, string>,
                 src: string, field: string, dst: string,
                 done: seq<int>, sent: seq<Request>, piece: seq<int>, out: seq<Request>)
    requires |sent| == |done| && |out| == |piece|
    requires forall i :: 0 <= i < |done| ==> sent[i] == RequestFor(affines, sources, src, field, dst, done[i])
    requires forall n :: 0 <= n < |piece| ==> out[n] == RequestFor(affines, sources, src, field, dst, piece[n])
    ensures forall i :: 0 <= i < |done + piece| ==>
      (sent + out)[i] == RequestFor(affines, sources, src, field, dst, (done + piece)[i])
  {
    forall i | 0 <= i < |done + piece|
      ensures (sent + out)[i] == RequestFor(affines, sources, src, field, dst, (done + piece)[i])
    {
      if i >= |done| {
        assert (sent + out)[i] == out[i - |done|];
        assert (done + piece)[i] == piece[i - |done|];
      }
    }
  }

  /** Every request renders its section from itself with its own field:
      `src_z = field_z = dst_z = z`. */
  lemma RequestSections(affines: Option<map<int, Affine>>, sources: map<int, string>,
                        src: string, field: string, dst: string, z: int)
    ensures var r := RequestFor(affines, sources, src, field, dst, z);
      r.srcZ == z && r.fieldZ == z && r.dstZ == z && r.fieldPath == field && r.dstPath == dst
  {
  }

  // z_range

  function Concat(rows: seq<(int, int)>): seq<int> {
    if rows == [] then [] else Concat(rows[..|rows| - 1]) + Range(rows[|rows| - 1].0, rows[|rows| - 1].1)
  }

  /** The sections of the z-range rows: z is listed exactly when some row's
      `[z_start, z_stop)` contains it. */
  lemma {:induction false} ConcatMembers(rows: seq<(int, int)>, z: int)
    decreases |rows|
    ensures z in Concat(rows) <==> exists i :: 0 <= i < |rows| && rows[i].0 <= z < rows[i].1
  {
    if rows != [] {
      var init, last := rows[..|rows| - 1], rows[|rows| - 1];
      ConcatMembers(init, z);
      assert z in Range(last.0, last.1) <==> last.0 <= z < last.1;
      if exists i :: 0 <= i < |rows| && rows[i].0 <= z < rows[i].1 {
        var i :| 0 <= i < |rows| && rows[i].0 <= z < rows[i].1;
        if i < |rows| - 1 {
          assert init[i] == rows[i];
        }
      }
      if exists i :: 0 <= i < |init| && init[i].0 <= z < init[i].1 {
        var i :| 0 <= i < |init| && init[i].0 <= z < init[i].1;
        assert rows[i] == init[i];
      }
    }
  }

  /** The z list: `range(bbox_start[2], bbox_stop[2])`, or, with a z-range
      CSV, each data row's `range(z_start, z_stop)` in row order (the header
      row is dropped before the rows reach this method). */
  method CompileZRange(zStart: int, zStop: int, rows: Option<seq<(int, int)>>) returns (zs: seq<int>)
    ensures rows.None? ==> zs == Range(zStart, zStop)
    ensures rows.Some? ==> zs == Concat(rows.value)
  {
    zs := Range(zStart, zStop);
    if rows.Some? {
      zs := [];
      var k := 0;
      while k < |rows.value|
        invariant 0 <= k <= |rows.value|
        invariant zs == Concat(rows.value[..k])
      {
        var (lo, hi) := rows.value[k];
        assert rows.value[..k + 1][..k] == rows.value[..k];
        zs := zs + Range(lo, hi);
        k := k + 1;
      }
      assert rows.value[..k] == rows.value;
    }
  }

  // section_lookup

  /** One entry of the section lookup JSON file. */
  datatype Section = Section(z: int, transform: Affine, src: Option<string>)

  /** `affine[:, 2] += downsample_shift`. */
  function Shift(m: Affine, s: int): (r: Affine)
    ensures r.tx == m.tx + s as real && r.ty == m.ty + s as real
    ensures r.a == m.a && r.b == m.b && r.c == m.c && r.d == m.d
  {
    m.(tx := m.tx + s as real, ty := m.ty + s as real)
  }

  /** The source path a section names, `src_path` when it has none. */
  function SrcOf(s: Section, srcPath: string): string {
    if s.src.Some? then s.src.value else srcPath
  }

  function SectionSpans(sections: seq<Section>): (r: seq<Span<Section>>)
    ensures |r| == |sections|
    ensures forall i :: 0 <= i < |sections| ==> r[i] == Span(sections[i].z, sections[i].z + 1, sections[i])
  {
    seq(|sections|, i requires 0 <= i < |sections| => Span(sections[i].z, sections[i].z + 1, sections[i]))
  }

  /** The source paths other than `src_path` the first k sections name, in
      order of first use: the volumes `src_path_to_cv` creates. */
  function NewPaths(sections: seq<Section>, srcPath: string, k: nat): seq<string>
    requires k <= |sections|
  {
    if k == 0 then []
    else
      var prev := NewPaths(sections, srcPath, k - 1);
      var p := SrcOf(sections[k - 1], srcPath);
      if p == srcPath || p in prev then prev else prev + [p]
  }

  /** One volume per distinct source path: the new paths are distinct, none
      is `src_path`, and a path is among them exactly when some section names
      it. */
  lemma {:induction false} NewPathsDistinct(sections: seq<Section>, srcPath: string, k: nat, p: string)
    requires k <= |sections|
    ensures var r := NewPaths(sections, srcPath, k);
      && Distinct(r)
      && (p in r <==> p != srcPath && exists i :: 0 <= i < k && SrcOf(sections[i], srcPath) == p)
  {
    if k > 0 {
      NewPathsDistinct(sections, srcPath, k - 1, p);
      var prev := NewPaths(sections, srcPath, k - 1);
      var q := SrcOf(sections[k - 1], srcPath);
      var r := NewPaths(sections, srcPath, k);
      if q != srcPath && q !in prev {
        assert r == prev + [q];
        assert forall n :: 0 <= n < |prev| ==> prev[n] != q;
      }
      if p != srcPath && (exists i :: 0 <= i < k && SrcOf(sections[i], srcPath) == p) {
        var i :| 0 <= i < k && SrcOf(sections[i], srcPath) == p;
        if i < k - 1 {
          assert p in prev;
        } else {
          assert p == q;
        }
      }
    }
  }

  /** After section k, its z is looked up to it and every other z as before. */
  lemma SectionStep(sections: seq<Section>, k: int)
    requires 0 <= k < |sections|
    ensures var spans := SectionSpans(sections);
      forall z :: LastCover(spans[..k + 1], z) == (if z == sections[k].z then Some(sections[k]) else LastCover(spans[..k], z))
  {
    var spans := SectionSpans(sections);
    var t := spans[..k + 1];
    assert t[..|t| - 1] == spans[..k];
    assert t[|t| - 1] == Span(sections[k].z, sections[k].z + 1, sections[k]);
    forall z ensures LastCover(t, z) == (if z == sections[k].z then Some(sections[k]) else LastCover(spans[..k], z)) {
      assert LastCover(t, z) == if Covers(t[|t| - 1], z) then Some(t[|t| - 1].value) else LastCover(t[..|t| - 1], z);
    }
  }

  /** The section lookup loop: each section's shifted transform and its
      source path under its z (a later entry for the same z overrides an
      earlier one), and one new volume per new source path, in order of first
      use (see `NewPathsDistinct`). */
  method CompileSections(sections: seq<Section>, srcPath: string, shift: int)
    returns (affines: map<int, Affine>, sources: map<int, string>, created: seq<string>)
    ensures forall z :: z in affines <==> z in sources
    ensures forall z :: var last := LastCover(SectionSpans(sections), z);
      && (z in affines <==> last.Some?)
      && (last.Some? ==> affines[z] == Shift(last.value.transform, shift) && sources[z] == SrcOf(last.value, srcPath))
    ensures created == NewPaths(sections, srcPath, |sections|)
  {
    ghost var spans := SectionSpans(sections);
    affines, sources, created := map[], map[], [];
    var k := 0;
    while k < |sections|
      invariant 0 <= k <= |sections|
      invariant forall z :: z in affines <==> z in sources
      invariant forall z :: var last := LastCover(spans[..k], z);
        && (z in affines <==> last.Some?)
        && (last.Some? ==> affines[z] == Shift(last.value.transform, shift) && sources[z] == SrcOf(last.value, srcPath))
      invariant created == NewPaths(sections, srcPath, k)
    {
      var s := sections[k];
      var p := SrcOf(s, srcPath);
      affines := affines[s.z := Shift(s.transform, shift)];
      if p != srcPath && p !in created {
        created := created + [p];
      }
      sources := sources[s.z := p];
      SectionStep(sections, k);
      k := k + 1;
    }
    assert spans[..k] == spans;
  }
}
