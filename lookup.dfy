/** Per-section parameter lookups compiled from CSV rows: every row names a
    half-open z interval `[lo, hi)` and a value, and each z in the interval is
    mapped to the value. Rows are read in file order, so a later row overrides
    an earlier one on the sections they share. */
module Lookup {
  import opened Wrappers

  datatype Span<V> = Span(lo: int, hi: int, value: V)

  predicate Covers<V>(r: Span<V>, z: int) { r.lo <= z < r.hi }

  /** The value of the last row whose interval contains z, if any. */
  function LastCover<V>(rows: seq<Span<V>>, z: int): (r: Option<V>)
    ensures r.None? <==> forall i :: 0 <= i < |rows| ==> !Covers(rows[i], z)
  {
    if rows == [] then None
    else if Covers(rows[|rows| - 1], z) then Some(rows[|rows| - 1].value)
    else LastCover(rows[..|rows| - 1], z)
  }

  lemma {:induction false} LastCoverIsLast<V>(rows: seq<Span<V>>, z: int, i: nat)
    requires i < |rows| && Covers(rows[i], z)
    requires forall j :: i < j < |rows| ==> !Covers(rows[j], z)
    ensures LastCover(rows, z) == Some(rows[i].value)
    decreases |rows|
  {
    if i < |rows| - 1 {
      LastCoverIsLast(rows[..|rows| - 1], z, i);
    }
  }

  function Get<K, V>(m: map<K, V>, k: K): Option<V> {
    if k in m then Some(m[k]) else None
  }

  predicate Distinct<T(==)>(s: seq<T>) {
    forall i, j :: 0 <= i < j < |s| ==> s[i] != s[j]
  }

  /** The lookup loop: `for z in range(z_start, z_stop): lookup[z] = value` for
      each row in order. `keys` is the dict's iteration order, the order in
      which sections were first inserted. */
  method Compile<V>(rows: seq<Span<V>>) returns (m: map<int, V>, keys: seq<int>)
    ensures forall z :: Get(m, z) == LastCover(rows, z)
    ensures Distinct(keys) && forall z :: z in keys <==> z in m
  {
    m := map[];
    keys := [];
    var k := 0;
    while k < |rows|
      invariant 0 <= k <= |rows|
      invariant forall z :: Get(m, z) == LastCover(rows[..k], z)
      invariant Distinct(keys) && forall z :: z in keys <==> z in m
    {
      var row := rows[k];
      var z := row.lo;
      while z < row.hi
        invariant row.lo < row.hi ==> row.lo <= z <= row.hi
        invariant row.hi <= row.lo ==> z == row.lo
        invariant forall y :: Get(m, y) == if row.lo <= y < z then Some(row.value) else LastCover(rows[..k], y)
        invariant Distinct(keys) && forall z :: z in keys <==> z in m
      {
        var m0 := m;
        if z !in m {
          keys := keys + [z];
        }
        m := m[z := row.value];
        assert forall y :: Get(m, y) == if y == z then Some(row.value) else Get(m0, y);
        z := z + 1;
      }
      assert rows[..k + 1][..k] == rows[..k];
      assert forall y :: LastCover(rows[..k + 1], y) == (if Covers(row, y) then Some(row.value) else LastCover(rows[..k], y));
      k := k + 1;
    }
    assert rows[..k] == rows;
  }
}
