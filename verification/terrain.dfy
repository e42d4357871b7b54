// The terrain mesh built over the height field: one vertex per grid point,
// two triangles per grid square for drawing, and the same triangles kept
// for picking.

module Terrains {
  import opened Wrappers
  import HeightMaps

  // ---------------------------------------------------------------------
  // Buffer sizes
  // ---------------------------------------------------------------------

  /** The vertex count `Create` allocates: one per grid point. */
  function TotalVertices(size: int): int {
    size * size
  }

  /** The index count `Create` allocates: six per grid square. */
  function TotalIndices(size: int): int {
    (size - 1) * (size - 1) * 6
  }

  const UShortMax: int := 0xFFFF

  /**
   * `Using16BitIndices()`: 16-bit indices only when every vertex index
   * survives the cast to `ushort`, and whenever the vertex count itself
   * fits one.
   */
  predicate Using16BitIndices(vertexCount: int): (b: bool)
    ensures b ==> forall v :: 0 <= v < vertexCount ==> ToUShort(v) == v
    ensures !b ==> vertexCount > UShortMax
  {
    vertexCount <= UShortMax
  }

  /**
   * The test is one vertex conservative: with exactly 0x10000 vertices
   * every index would still fit 16 bits, yet 32-bit indices are used.
   */
  lemma SixteenBitBoundary()
    ensures !Using16BitIndices(UShortMax + 1)
    ensures forall v :: 0 <= v < UShortMax + 1 ==> ToUShort(v) == v
  {
  }

  /** The `(ushort)` cast: the low 16 bits. */
  function ToUShort(v: int): (r: int)
    ensures 0 <= r <= UShortMax
    ensures 0 <= v <= UShortMax ==> r == v
  {
    v % (UShortMax + 1)
  }

  // ---------------------------------------------------------------------
  // Vertices
  // ---------------------------------------------------------------------

  /** A vertex: its position and its texture coordinate. */
  datatype Vertex = Vertex(x: real, y: real, z: real, u: real, v: real)

  /** The vertex of grid point (x, z): spaced by the grid spacing, at the stored height, textured over [0, 1). */
  function VertexAt(h: HeightMaps.HeightMap, x: int, z: int): (r: Vertex)
    requires h.Valid() && 0 <= x < h.size && 0 <= z < h.size
    ensures 0.0 <= r.u < 1.0 && 0.0 <= r.v < 1.0
    ensures h.gridSpacing > 0 ==>
              0.0 <= r.x < HeightMaps.RealSize(h) as real && 0.0 <= r.z < HeightMaps.RealSize(h) as real
  {
    HeightMaps.PointInGrid(x, z, h.size);
    FractionBelowOne(x, h.size);
    FractionBelowOne(z, h.size);
    var v := Vertex((x * h.gridSpacing) as real, h.heights[z * h.size + x], (z * h.gridSpacing) as real,
                    x as real / h.size as real, z as real / h.size as real);
    if h.gridSpacing > 0 then
      BelowExtent(x, h.size, h.gridSpacing);
      BelowExtent(z, h.size, h.gridSpacing);
      v
    else
      v
  }

  /** `GenerateVertices()`: the vertex of grid point (x, z) goes at `z * size + x`. */
  function GenerateVertices(h: HeightMaps.HeightMap): (r: seq<Vertex>)
    requires h.Valid()
    ensures |r| == TotalVertices(h.size)
  {
    seq(h.size * h.size, i requires 0 <= i < h.size * h.size =>
          HeightMaps.RowOfIndex(i, h.size);
          VertexAt(h, i % h.size, i / h.size))
  }

  /**
   * Each grid point's vertex carries its height and its grid position
   * scaled by the spacing; with a positive spacing it lies inside the
   * field's world extent and its texture coordinate inside [0, 1).
   */
  lemma VerticesAt(h: HeightMaps.HeightMap, x: int, z: int)
    requires h.Valid() && 0 <= x < h.size && 0 <= z < h.size
    ensures 0 <= z * h.size + x < |GenerateVertices(h)|
    ensures var p := GenerateVertices(h)[z * h.size + x];
            && Some(p.y) == HeightMaps.HeightAtPixel(h, x, z)
            && p.x == (x * h.gridSpacing) as real && p.z == (z * h.gridSpacing) as real
            && 0.0 <= p.u < 1.0 && 0.0 <= p.v < 1.0
            && (h.gridSpacing > 0 ==>
                  0.0 <= p.x < HeightMaps.RealSize(h) as real && 0.0 <= p.z < HeightMaps.RealSize(h) as real)
  {
    VertexIsAt(h, x, z);
    VertexAtBounds(h, x, z);
  }

  /** Entry `z * size + x` of the vertex buffer is the vertex of grid point (x, z). */
  lemma VertexIsAt(h: HeightMaps.HeightMap, x: int, z: int)
    requires h.Valid() && 0 <= x < h.size && 0 <= z < h.size
    ensures 0 <= z * h.size + x < |GenerateVertices(h)|
    ensures GenerateVertices(h)[z * h.size + x] == VertexAt(h, x, z)
  {
    var i := z * h.size + x;
    HeightMaps.PointInGrid(x, z, h.size);
    HeightMaps.DivModUnique(i, h.size, z, x);
  }

  lemma VertexAtBounds(h: HeightMaps.HeightMap, x: int, z: int)
    requires h.Valid() && 0 <= x < h.size && 0 <= z < h.size
    ensures var p := VertexAt(h, x, z);
            && Some(p.y) == HeightMaps.HeightAtPixel(h, x, z)
            && 0.0 <= p.u < 1.0 && 0.0 <= p.v < 1.0
            && (h.gridSpacing > 0 ==>
                  0.0 <= p.x < HeightMaps.RealSize(h) as real && 0.0 <= p.z < HeightMaps.RealSize(h) as real)
  {
    HeightMaps.PointInGrid(x, z, h.size);
  }

  /**
   * The mesh stops one grid spacing short of `RealSize`: the last grid
   * point's vertex sits at `RealSize - gridSpacing` on both axes.
   */
  lemma FarthestVertex(h: HeightMaps.HeightMap)
    requires h.Valid() && h.size >= 1
    ensures var p := VertexAt(h, h.size - 1, h.size - 1);
            p.x == p.z == (HeightMaps.RealSize(h) - h.gridSpacing) as real
  {
    assert (h.size - 1) * h.gridSpacing == h.size * h.gridSpacing - h.gridSpacing;
  }

  lemma FractionBelowOne(a: int, n: int)
    requires 0 <= a < n
    ensures 0.0 <= a as real / n as real < 1.0
  {
    var q := a as real / n as real;
    assert q * n as real == a as real;
    AtLeastOneScales(q, n as real);
  }

  lemma AtLeastOneScales(q: real, n: real)
    requires n > 0.0
    ensures q >= 1.0 ==> q * n >= n
  {
  }

  lemma BelowExtent(x: int, size: nat, spacing: int)
    requires 0 <= x < size && spacing > 0
    ensures 0 <= x * spacing < size * spacing
    ensures 0.0 <= (x * spacing) as real < (size * spacing) as real
  {
    HeightMaps.MulMono(x, size - 1, spacing);
  }

  // ---------------------------------------------------------------------
  // Indices and picking triangles
  // ---------------------------------------------------------------------

  /** A picking triangle: the vertex indices of its corners and its id. */
  datatype Tri = Tri(p1: int, p2: int, p3: int, id: int)

  /** The index buffer and the picking triangles, as far as written. */
  datatype Mesh = Mesh(indices: seq<int>, tris: seq<Tri>)

  /** The six indices of grid square `v`: its two triangles, corner `v` first. */
  function QuadIndices(v: int, size: int): seq<int> {
    [v, v + 1, v + size, v + 1, v + size + 1, v + size]
  }

  /**
   * One grid square (x, z): its six indices are written, then
   * `SetUpCollision` adds its two triangles, their ids taken from the index
   * count written so far.
   */
  function EmitQuad(m: Mesh, size: int, x: int, z: int): Mesh {
    var v := z * size + x;
    var index := |m.indices| + 6;
    Mesh(m.indices + QuadIndices(v, size),
         m.tris + [Tri(x + z * size, x + (z + 1) * size, (x + 1) + z * size, index / 6 - 1),
                   Tri((x + 1) + z * size, x + (z + 1) * size, (x + 1) + (z + 1) * size, index / 6)])
  }

  /** The inner loop: the squares of row `z` from column `x` on. */
  function EmitRow(m: Mesh, size: int, z: int, x: int): Mesh
    decreases size - 1 - x
  {
    if x >= size - 1 then m else EmitRow(EmitQuad(m, size, x, z), size, z, x + 1)
  }

  /** The outer loop: the rows from `z` on. */
  function EmitRows(m: Mesh, size: int, z: int): Mesh
    decreases size - 1 - z
  {
    if z >= size - 1 then m else EmitRows(EmitRow(m, size, z, 0), size, z + 1)
  }

  /** `GenerateIndices()`: the squares in row-major order. */
  function GenerateIndices(size: int): (m: Mesh)
    ensures Matches(m) && InGrid(m, size)
    ensures size >= 1 ==> |m.indices| == TotalIndices(size) && |m.tris| == (size - 1) * (size - 1) * 2
  {
    EmitRowsKeeps(Mesh([], []), size, 0);
    EmitRows(Mesh([], []), size, 0)
  }

  /**
   * The index array as `GenerateIndices` leaves it: allocated with
   * `(size - 1) * (size - 1) * 6` entries, the written indices first and
   * the zeros of the allocation after them.
   */
  function IndexBuffer(size: int): (r: seq<int>)
    ensures |r| == TotalIndices(size)
    ensures var w := GenerateIndices(size).indices;
            |w| <= |r| && r[..|w|] == w && forall i :: |w| <= i < |r| ==> r[i] == 0
  {
    var w := GenerateIndices(size).indices;
    if size >= 1 then w else seq(TotalIndices(size), _ => 0)
  }

  /**
   * The triangle array as `GenerateIndices` leaves it: allocated with
   * `(size - 1) * (size - 1) * 2` slots, the set-up triangles first; `None`
   * is a slot still holding the default `Tri` value.
   */
  function TriangleSlots(size: int): (r: seq<Option<Tri>>)
    ensures |r| == (size - 1) * (size - 1) * 2
    ensures var w := GenerateIndices(size).tris;
            |w| <= |r| && (forall t :: 0 <= t < |w| ==> r[t] == Some(w[t]))
            && forall t :: |w| <= t < |r| ==> r[t] == None
  {
    var w := GenerateIndices(size).tris;
    if size >= 1 then seq(|w|, t requires 0 <= t < |w| => Some(w[t]))
    else seq((size - 1) * (size - 1) * 2, _ => None)
  }

  /**
   * A field of size 0 has no vertex, yet its index array holds six indices,
   * all naming vertex 0, and its triangle array two default slots.
   */
  lemma EmptyFieldIndexBuffer()
    ensures |IndexBuffer(0)| == 6 && forall i :: 0 <= i < 6 ==> IndexBuffer(0)[i] == 0
    ensures TriangleSlots(0) == [None, None]
    ensures TotalVertices(0) == 0
  {
    assert GenerateIndices(0).indices == [] && GenerateIndices(0).tris == [];
  }

  /**
   * The picking triangles match the drawn ones: read in the order the
   * picking test reads them (p1, p3, p2), each is the triangle the index
   * buffer draws, and triangle `t` has id `(t + 1) / 2`.
   */
  predicate Matches(m: Mesh) {
    && |m.tris| % 2 == 0 && |m.indices| == 3 * |m.tris|
    && (forall t :: 0 <= t < |m.tris| ==>
          m.indices[3 * t .. 3 * t + 3] == [m.tris[t].p1, m.tris[t].p3, m.tris[t].p2])
    && (forall t :: 0 <= t < |m.tris| ==> m.tris[t].id == (t + 1) / 2)
  }

  /** Every index written names a vertex. */
  predicate InGrid(m: Mesh, size: int) {
    forall i :: 0 <= i < |m.indices| ==> 0 <= m.indices[i] < size * size
  }

  lemma QuadCornersInGrid(size: int, x: int, z: int)
    requires 0 <= x < size - 1 && 0 <= z < size - 1
    ensures 0 <= z * size + x && z * size + x + size + 1 < size * size
  {
    HeightMaps.PointInGrid(x + 1, z + 1, size);
    assert (z + 1) * size + (x + 1) == z * size + x + size + 1;
  }

  lemma EmitQuadKeeps(m: Mesh, size: int, x: int, z: int)
    requires Matches(m) && InGrid(m, size) && 0 <= x < size - 1 && 0 <= z < size - 1
    ensures Matches(EmitQuad(m, size, x, z)) && InGrid(EmitQuad(m, size, x, z), size)
    ensures |EmitQuad(m, size, x, z).indices| == |m.indices| + 6
  {
    EmitQuadInGrid(m, size, x, z);
    EmitQuadMatches(m, size, x, z);
  }

  lemma EmitQuadInGrid(m: Mesh, size: int, x: int, z: int)
    requires InGrid(m, size) && 0 <= x < size - 1 && 0 <= z < size - 1
    ensures InGrid(EmitQuad(m, size, x, z), size)
  {
    QuadCornersInGrid(size, x, z);
  }

  lemma EmitQuadMatches(m: Mesh, size: int, x: int, z: int)
    requires Matches(m)
    ensures Matches(EmitQuad(m, size, x, z))
  {
    var r := EmitQuad(m, size, x, z);
    forall t | 0 <= t < |r.tris|
      ensures r.indices[3 * t .. 3 * t + 3] == [r.tris[t].p1, r.tris[t].p3, r.tris[t].p2]
      ensures r.tris[t].id == (t + 1) / 2
    {
      EmitQuadTri(m, size, x, z, t);
    }
  }

  /** Triangle `t` of the mesh after one more square: an old one kept, or one of the two new. */
  lemma EmitQuadTri(m: Mesh, size: int, x: int, z: int, t: int)
    requires Matches(m) && 0 <= t < |m.tris| + 2
    ensures var r := EmitQuad(m, size, x, z);
            && |r.tris| == |m.tris| + 2 && |r.indices| == |m.indices| + 6
            && r.indices[3 * t .. 3 * t + 3] == [r.tris[t].p1, r.tris[t].p3, r.tris[t].p2]
            && r.tris[t].id == (t + 1) / 2
  {
    var r := EmitQuad(m, size, x, z);
    var v := z * size + x;
    var n := |m.tris|;
    var q := QuadIndices(v, size);
    if t < n {
      AppendSlice(m.indices, q, 3 * t);
      assert r.tris[t] == m.tris[t];
    } else {
      QuadCorners(size, x, z);
      NewIds(n);
      if t == n {
        assert r.tris[n] == Tri(v, v + size, v + 1, n / 2);
        AppendSlice(m.indices, q, 3 * n);
      } else {
        assert r.tris[n + 1] == Tri(v + 1, v + size, v + size + 1, n / 2 + 1);
        AppendSlice(m.indices, q, 3 * n + 3);
      }
    }
  }

  /** The corners of square (x, z) written from the vertex `v = z * size + x`. */
  lemma QuadCorners(size: int, x: int, z: int)
    ensures x + z * size == z * size + x && x + (z + 1) * size == z * size + x + size
    ensures (x + 1) + z * size == z * size + x + 1 && (x + 1) + (z + 1) * size == z * size + x + size + 1
  {
  }

  /** The ids of the two triangles appended after `n` (an even count of) triangles. */
  lemma NewIds(n: int)
    requires 0 <= n && n % 2 == 0
    ensures (3 * n + 6) / 6 - 1 == n / 2 == (n + 1) / 2
    ensures (3 * n + 6) / 6 == n / 2 + 1 == (n + 2) / 2
  {
    HeightMaps.DivModUnique(3 * n + 6, 6, n / 2 + 1, 0);
    HeightMaps.DivModUnique(n + 1, 2, n / 2, 1);
    HeightMaps.DivModUnique(n + 2, 2, n / 2 + 1, 0);
  }

  /** A slice of three taken from an appended sequence. */
  lemma AppendSlice(a: seq<int>, b: seq<int>, i: int)
    requires 0 <= i && i + 3 <= |a| + |b|
    ensures i + 3 <= |a| ==> (a + b)[i .. i + 3] == a[i .. i + 3]
    ensures i >= |a| ==> (a + b)[i .. i + 3] == b[i - |a| .. i - |a| + 3]
  {
  }

  lemma {:induction false} EmitRowKeeps(m: Mesh, size: int, z: int, x: int)
    requires Matches(m) && InGrid(m, size) && 0 <= x && 0 <= z < size - 1
    ensures Matches(EmitRow(m, size, z, x)) && InGrid(EmitRow(m, size, z, x), size)
    ensures |EmitRow(m, size, z, x).indices| == |m.indices| + 6 * (if x < size - 1 then size - 1 - x else 0)
    decreases size - 1 - x
  {
    if x < size - 1 {
      EmitQuadKeeps(m, size, x, z);
      EmitRowKeeps(EmitQuad(m, size, x, z), size, z, x + 1);
    }
  }

  lemma {:induction false} EmitRowsKeeps(m: Mesh, size: int, z: int)
    requires Matches(m) && InGrid(m, size) && 0 <= z
    ensures Matches(EmitRows(m, size, z)) && InGrid(EmitRows(m, size, z), size)
    ensures |EmitRows(m, size, z).indices| == |m.indices| + (if z < size - 1 then (size - 1 - z) * (size - 1) * 6 else 0)
    decreases size - 1 - z
  {
    if z < size - 1 {
      EmitRowKeeps(m, size, z, 0);
      EmitRowsKeeps(EmitRow(m, size, z, 0), size, z + 1);
      assert (size - 1 - z) * (size - 1) * 6 == 6 * (size - 1) + (size - 1 - (z + 1)) * (size - 1) * 6;
    }
  }

  /** The mesh written before row `z`. */
  function BeforeRow(size: int, z: nat): Mesh
    decreases z
  {
    if z == 0 then Mesh([], []) else EmitRow(BeforeRow(size, z - 1), size, z - 1, 0)
  }

  lemma {:induction false} EmitRowExtends(m: Mesh, size: int, z: int, x: int)
    ensures |m.indices| <= |EmitRow(m, size, z, x).indices|
    ensures EmitRow(m, size, z, x).indices[..|m.indices|] == m.indices
    decreases size - 1 - x
  {
    if x < size - 1 {
      var q := EmitQuad(m, size, x, z);
      EmitRowExtends(q, size, z, x + 1);
      assert q.indices[..|m.indices|] == m.indices;
    }
  }

  lemma {:induction false} EmitRowsExtends(m: Mesh, size: int, z: int)
    ensures |m.indices| <= |EmitRows(m, size, z).indices|
    ensures EmitRows(m, size, z).indices[..|m.indices|] == m.indices
    decreases size - 1 - z
  {
    if z < size - 1 {
      var r := EmitRow(m, size, z, 0);
      EmitRowExtends(m, size, z, 0);
      EmitRowsExtends(r, size, z + 1);
      assert EmitRows(m, size, z).indices[..|r.indices|][..|m.indices|] == m.indices;
    }
  }

  /** Square `x` of a row sits six indices per square after the row's start. */
  lemma {:induction false} EmitRowAt(m: Mesh, size: int, z: int, x0: int, x: int, c: int)
    requires 0 <= x0 <= x < size - 1 && 0 <= c < 6
    ensures |m.indices| + 6 * (x - x0) + c < |EmitRow(m, size, z, x0).indices|
    ensures EmitRow(m, size, z, x0).indices[|m.indices| + 6 * (x - x0) + c] == QuadIndices(z * size + x, size)[c]
    decreases size - 1 - x0
  {
    var q := EmitQuad(m, size, x0, z);
    EmitRowExtends(q, size, z, x0 + 1);
    if x == x0 {
      assert q.indices[|m.indices| + c] == QuadIndices(z * size + x, size)[c];
      assert EmitRow(m, size, z, x0).indices[..|q.indices|][|m.indices| + c] == q.indices[|m.indices| + c];
    } else {
      EmitRowAt(q, size, z, x0 + 1, x, c);
    }
  }

  /** Starting from the mesh before row `z`, the remaining rows give the whole mesh. */
  lemma {:induction false} BeforeRowRest(size: int, z: nat)
    requires z <= size - 1
    ensures EmitRows(BeforeRow(size, z), size, z) == GenerateIndices(size)
    ensures |BeforeRow(size, z).indices| == 6 * (size - 1) * z
    decreases z
  {
    if z > 0 {
      BeforeRowRest(size, z - 1);
      EmitRowLength(BeforeRow(size, z - 1), size, z - 1, 0);
      assert 6 * (size - 1) * z == 6 * (size - 1) * (z - 1) + 6 * (size - 1);
    }
  }

  lemma {:induction false} EmitRowLength(m: Mesh, size: int, z: int, x: int)
    requires 0 <= x <= size - 1
    ensures |EmitRow(m, size, z, x).indices| == |m.indices| + 6 * (size - 1 - x)
    decreases size - 1 - x
  {
    if x < size - 1 {
      EmitRowLength(EmitQuad(m, size, x, z), size, z, x + 1);
    }
  }

  /**
   * The index buffer lists the squares in row-major order: square (x, z)
   * holds entries `6 * ((size - 1) * z + x)` to five further, its two
   * triangles from corner `v = z * size + x`.
   */
  lemma QuadAt(size: int, x: int, z: int, c: int)
    requires 0 <= x < size - 1 && 0 <= z < size - 1 && 0 <= c < 6
    ensures 6 * ((size - 1) * z + x) + c < |GenerateIndices(size).indices|
    ensures GenerateIndices(size).indices[6 * ((size - 1) * z + x) + c] == QuadIndices(z * size + x, size)[c]
  {
    var m := BeforeRow(size, z);
    var r := EmitRow(m, size, z, 0);
    BeforeRowRest(size, z);
    assert GenerateIndices(size) == EmitRows(r, size, z + 1);
    EmitRowAt(m, size, z, 0, x, c);
    EmitRowsExtends(r, size, z + 1);
    RowOffset(size - 1, z, x, c);
    PrefixAt(GenerateIndices(size).indices, r.indices, |m.indices| + 6 * x + c);
  }

  lemma RowOffset(w: int, z: int, x: int, c: int)
    ensures 6 * (w * z + x) + c == 6 * w * z + 6 * x + c
  {
  }

  lemma PrefixAt<T>(a: seq<T>, p: seq<T>, k: int)
    requires |p| <= |a| && a[..|p|] == p && 0 <= k < |p|
    ensures a[k] == p[k]
  {
    assert a[..|p|][k] == a[k];
  }

  /** On the 16-bit path the cast to `ushort` keeps every index. */
  lemma SixteenBitCastExact(size: int)
    requires size >= 1 && Using16BitIndices(TotalVertices(size))
    ensures forall i :: 0 <= i < |GenerateIndices(size).indices| ==>
              ToUShort(GenerateIndices(size).indices[i]) == GenerateIndices(size).indices[i]
  {
  }

  /**
   * The ids are not unique: the second triangle of a square and the first
   * of the next share theirs.
   */
  lemma TriangleIdsShared(size: int, t: int)
    requires size >= 1 && 0 <= t && 2 * t + 2 < (size - 1) * (size - 1) * 2
    ensures |GenerateIndices(size).tris| == (size - 1) * (size - 1) * 2
    ensures GenerateIndices(size).tris[2 * t + 1].id == GenerateIndices(size).tris[2 * t + 2].id == t + 1
  {
  }

  // ---------------------------------------------------------------------
  // Drawing technique
  // ---------------------------------------------------------------------

  datatype DrawingTechnique = Texture | Wireframe | TextureAndWireframe

  /** `ToggleDrawingTechnique()`: texture, texture with wireframe, wireframe, and round again. */
  function ToggleDrawingTechnique(t: DrawingTechnique): (r: DrawingTechnique)
    ensures r != t
    ensures t == Texture ==> r == TextureAndWireframe
    ensures t == TextureAndWireframe ==> r == Wireframe
    ensures t == Wireframe ==> r == Texture
  {
    match t
    case Texture => TextureAndWireframe
    case TextureAndWireframe => Wireframe
    case Wireframe => Texture
  }

  lemma ToggleDrawingTechniqueCycles(t: DrawingTechnique)
    ensures ToggleDrawingTechnique(ToggleDrawingTechnique(ToggleDrawingTechnique(t))) == t
    ensures ToggleDrawingTechnique(ToggleDrawingTechnique(t)) != t
  {
  }
}
