/** The vertex buffer of the ground-grid line mesh, filled by A1::initGrid
    with a running counter. */
module GridLines {
  import opened VoxelGrid

  /** Number of vertices the grid-line draw call uses (A1.cpp:317). */
  const GRID_VERTEX_COUNT: int := (3 + DIM) * 4

  /** The twelve floats written for offset idx: a line along x at
      z = idx - 1 and a line along z at x = idx - 1, both from -1 to DIM + 1
      on the ground plane, each as two (x, y, z) endpoints. */
  function LinePair(idx: int): seq<int> {
    [-1, 0, idx - 1, DIM + 1, 0, idx - 1,
     idx - 1, 0, -1, idx - 1, 0, DIM + 1]
  }

  /** Line l of the buffer (six floats from 6 * l) runs along x at z = k,
      from x = -1 to x = DIM + 1, on the ground plane. */
  ghost predicate LineAlongX(v: array<int>, l: int, k: int)
    requires 0 <= l && 6 * l + 6 <= v.Length
    reads v
  {
    v[6 * l] == -1 && v[6 * l + 1] == 0 && v[6 * l + 2] == k
    && v[6 * l + 3] == DIM + 1 && v[6 * l + 4] == 0 && v[6 * l + 5] == k
  }

  /** Line l runs along z at x = k, from z = -1 to z = DIM + 1. */
  ghost predicate LineAlongZ(v: array<int>, l: int, k: int)
    requires 0 <= l && 6 * l + 6 <= v.Length
    reads v
  {
    v[6 * l] == k && v[6 * l + 1] == 0 && v[6 * l + 2] == -1
    && v[6 * l + 3] == k && v[6 * l + 4] == 0 && v[6 * l + 5] == DIM + 1
  }

  /** A1::initGrid's fill of the grid vertex buffer.  The counter ends at
      the buffer size, which is three floats for each of the
      GRID_VERTEX_COUNT vertices the draw call uses; every offset k in
      [-1, DIM + 1] has one line along x at z = k and one along z at x = k,
      each spanning -1 to DIM + 1. */
  method InitGridVerts() returns (verts: array<int>, ct: int)
    ensures fresh(verts)
    ensures ct == verts.Length == 3 * 2 * 2 * (DIM + 3) == 3 * GRID_VERTEX_COUNT
    ensures forall idx :: 0 <= idx < DIM + 3 ==>
      LineAlongX(verts, 2 * idx, idx - 1) && LineAlongZ(verts, 2 * idx + 1, idx - 1)
    ensures forall i :: 0 <= i < verts.Length ==> -1 <= verts[i] <= DIM + 1
  {
    var sz := 3 * 2 * 2 * (DIM + 3);
    verts := new int[sz];
    ct := 0;
    for idx := 0 to DIM + 3
      invariant ct == 12 * idx
      invariant forall k, m :: 0 <= k < idx && 0 <= m < 12 ==> verts[12 * k + m] == LinePair(k)[m]
    {
      verts[ct] := -1;
      verts[ct + 1] := 0;
      verts[ct + 2] := idx - 1;
      verts[ct + 3] := DIM + 1;
      verts[ct + 4] := 0;
      verts[ct + 5] := idx - 1;
      ct := ct + 6;

      verts[ct] := idx - 1;
      verts[ct + 1] := 0;
      verts[ct + 2] := -1;
      verts[ct + 3] := idx - 1;
      verts[ct + 4] := 0;
      verts[ct + 5] := DIM + 1;
      ct := ct + 6;
    }
    LinesFromPairs(verts);
  }

  /** Reading the filled buffer six floats at a time. */
  lemma LinesFromPairs(verts: array<int>)
    requires verts.Length == 12 * (DIM + 3)
    requires forall k, m :: 0 <= k < DIM + 3 && 0 <= m < 12 ==> verts[12 * k + m] == LinePair(k)[m]
    ensures forall idx :: 0 <= idx < DIM + 3 ==>
      LineAlongX(verts, 2 * idx, idx - 1) && LineAlongZ(verts, 2 * idx + 1, idx - 1)
    ensures forall i :: 0 <= i < verts.Length ==> -1 <= verts[i] <= DIM + 1
  {
    forall idx | 0 <= idx < DIM + 3
      ensures LineAlongX(verts, 2 * idx, idx - 1) && LineAlongZ(verts, 2 * idx + 1, idx - 1)
    {
      var b, p := 12 * idx, LinePair(idx);
      assert 6 * (2 * idx) == b && 6 * (2 * idx + 1) == b + 6;
      assert verts[b] == p[0] && verts[b + 1] == p[1] && verts[b + 2] == p[2];
      assert verts[b + 3] == p[3] && verts[b + 4] == p[4] && verts[b + 5] == p[5];
      assert verts[b + 6] == p[6] && verts[b + 7] == p[7] && verts[b + 8] == p[8];
      assert verts[b + 9] == p[9] && verts[b + 10] == p[10] && verts[b + 11] == p[11];
    }
    forall i | 0 <= i < verts.Length ensures -1 <= verts[i] <= DIM + 1 {
      var k, m := i / 12, i % 12;
      assert verts[12 * k + m] == LinePair(k)[m];
    }
  }
}
