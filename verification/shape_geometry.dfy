/**
  The index arithmetic of ShapesApp::BuildShapeGeometry: eleven generated
  meshes are concatenated into one vertex buffer and one index buffer, and
  each piece gets a submesh record (IndexCount, StartIndexLocation,
  BaseVertexLocation) that locates it inside the shared buffers.

  Mesh contents come from GeometryGenerator, which is not part of this
  model: vertex positions have an unspecified type P and the mesh sizes are
  arbitrary naturals. Offsets are indexed by a piece's position in the
  concatenation order (Ord).
 */
module ShapeGeometry {

  datatype Piece = Box | Cylinder | Grid | Rooftop | Door | Cone | Wedge | Torus | Pyramid | Diamond | Diamond1

  /** The pieces in the order their vertices and indices are concatenated. */
  const Pieces: seq<Piece> :=
    [Box, Cylinder, Grid, Rooftop, Door, Cone, Wedge, Torus, Pyramid, Diamond, Diamond1]

  const PieceCount: nat := |Pieces|

  /** A piece's position in the concatenation order. */
  function Ord(p: Piece): (k: nat)
    ensures k < PieceCount && Pieces[k] == p
  {
    match p
    case Box => 0
    case Cylinder => 1
    case Grid => 2
    case Rooftop => 3
    case Door => 4
    case Cone => 5
    case Wedge => 6
    case Torus => 7
    case Pyramid => 8
    case Diamond => 9
    case Diamond1 => 10
  }

  datatype Color = Crimson | Red | Green | Yellow | SaddleBrown | Navy | DarkViolet | MidnightBlue

  /** The colour each piece's fill loop gives its vertices. */
  function ColorOf(p: Piece): Color {
    match p
    case Box => Crimson
    case Cylinder => Red
    case Grid => Green
    case Rooftop => Yellow
    case Door => SaddleBrown
    case Cone => Yellow
    case Wedge => Navy
    case Torus => DarkViolet
    case Pyramid => MidnightBlue
    case Diamond => Yellow
    case Diamond1 => Yellow
  }

  /** A generated mesh: vertex positions and 32-bit indices (Indices32). */
  datatype MeshData<P> = MeshData(vertices: seq<P>, indices: seq<nat>)

  datatype Vertex<P> = Vertex(pos: P, color: Color)

  /** SubmeshGeometry: the range of the shared buffers that one piece occupies. */
  datatype Submesh = Submesh(indexCount: nat, startIndexLocation: nat, baseVertexLocation: nat)

  /** Sum of the first k entries of s. */
  function Sum(s: seq<nat>, k: nat): nat
    requires k <= |s|
  {
    if k == 0 then 0 else Sum(s, k - 1) + s[k - 1]
  }

  function VertexCounts<P>(meshes: seq<MeshData<P>>): seq<nat> {
    seq(|meshes|, k requires 0 <= k < |meshes| => |meshes[k].vertices|)
  }

  function IndexCounts<P>(meshes: seq<MeshData<P>>): seq<nat> {
    seq(|meshes|, k requires 0 <= k < |meshes| => |meshes[k].indices|)
  }

  lemma {:induction false} SumMonotone(s: seq<nat>, a: nat, b: nat)
    requires a <= b <= |s|
    ensures Sum(s, a) <= Sum(s, b)
  {
    if a < b {
      SumMonotone(s, a, b - 1);
    }
  }

  // ---------------------------------------------------------------------
  // The submesh table as intended: running sums in concatenation order.
  // ---------------------------------------------------------------------

  /** Submesh table whose offsets are the running sums of the sizes of the preceding pieces. */
  function Submeshes(v: seq<nat>, ix: seq<nat>): seq<Submesh>
    requires |v| == PieceCount && |ix| == PieceCount
  {
    seq(PieceCount, k requires 0 <= k < PieceCount => Submesh(ix[k], Sum(ix, k), Sum(v, k)))
  }

  /**
    The intended table tiles both buffers: each piece's index range starts
    where the previous one ends, ranges of different pieces do not overlap,
    and every range lies inside the buffer of the concatenated sizes.
   */
  lemma SubmeshesTile(v: seq<nat>, ix: seq<nat>)
    requires |v| == PieceCount && |ix| == PieceCount
    ensures var s := Submeshes(v, ix);
      && (forall k :: 0 <= k < PieceCount - 1 ==>
            s[k].startIndexLocation + s[k].indexCount == s[k + 1].startIndexLocation &&
            s[k].baseVertexLocation + v[k] == s[k + 1].baseVertexLocation)
      && (forall k :: 0 <= k < PieceCount ==>
            s[k].startIndexLocation + s[k].indexCount <= Sum(ix, PieceCount) &&
            s[k].baseVertexLocation + v[k] <= Sum(v, PieceCount))
      && (forall k1, k2 :: 0 <= k1 < k2 < PieceCount ==>
            s[k1].startIndexLocation + s[k1].indexCount <= s[k2].startIndexLocation &&
            s[k1].baseVertexLocation + v[k1] <= s[k2].baseVertexLocation)
  {
    var s := Submeshes(v, ix);
    forall k | 0 <= k < PieceCount
      ensures s[k].startIndexLocation + s[k].indexCount <= Sum(ix, PieceCount)
      ensures s[k].baseVertexLocation + v[k] <= Sum(v, PieceCount)
    {
      SumMonotone(ix, k + 1, PieceCount);
      SumMonotone(v, k + 1, PieceCount);
    }
    forall k1, k2 | 0 <= k1 < k2 < PieceCount
      ensures s[k1].startIndexLocation + s[k1].indexCount <= s[k2].startIndexLocation
      ensures s[k1].baseVertexLocation + v[k1] <= s[k2].baseVertexLocation
    {
      SumMonotone(ix, k1 + 1, k2);
      SumMonotone(v, k1 + 1, k2);
    }
  }

  // ---------------------------------------------------------------------
  // The submesh table as BuildShapeGeometry computes it.
  // ---------------------------------------------------------------------

  /** The vertex offsets as BuildShapeGeometry computes them, indexed by Ord. */
  function VertexOffsetsAsWritten(v: seq<nat>): seq<nat>
    requires |v| == PieceCount
  {
    var box := 0;
    var cylinder := v[Ord(Box)];
    var grid := cylinder + v[Ord(Cylinder)];
    var roof := grid + v[Ord(Grid)];
    var door := box + v[Ord(Box)] + v[Ord(Cylinder)] + v[Ord(Grid)] + v[Ord(Rooftop)];
    var cone := door + v[Ord(Door)];
    var wedge := cone + v[Ord(Cone)];
    var torus := wedge + v[Ord(Wedge)];
    var pyramid := torus + v[Ord(Torus)];
    var diamond := pyramid + v[Ord(Diamond)];
    var diamond1 := diamond + v[Ord(Diamond1)];
    [box, cylinder, grid, roof, door, cone, wedge, torus, pyramid, diamond, diamond1]
  }

  /** The index offsets as BuildShapeGeometry computes them (v: vertex counts, ix: index counts). */
  function IndexOffsetsAsWritten(v: seq<nat>, ix: seq<nat>): seq<nat>
    requires |v| == PieceCount && |ix| == PieceCount
  {
    var box := 0;
    var cylinder := ix[Ord(Box)];
    var grid := cylinder + ix[Ord(Cylinder)];
    var roof := grid + v[Ord(Grid)];
    var door := box + ix[Ord(Box)] + ix[Ord(Cylinder)] + ix[Ord(Grid)] + ix[Ord(Rooftop)];
    var cone := door + ix[Ord(Door)];
    var wedge := cone + ix[Ord(Cone)];
    var torus := wedge + ix[Ord(Wedge)];
    var pyramid := torus + ix[Ord(Torus)];
    var diamond := pyramid + ix[Ord(Diamond)];
    var diamond1 := diamond + ix[Ord(Diamond1)];
    [box, cylinder, grid, roof, door, cone, wedge, torus, pyramid, diamond, diamond1]
  }

  /**
    The submesh records of BuildShapeGeometry: index count from the piece's
    own indices, start from the index offsets except for the rooftop, whose
    start is its vertex offset, and base from the vertex offsets.
   */
  function SubmeshesAsWritten(v: seq<nat>, ix: seq<nat>): seq<Submesh>
    requires |v| == PieceCount && |ix| == PieceCount
  {
    var vo := VertexOffsetsAsWritten(v);
    var io := IndexOffsetsAsWritten(v, ix);
    seq(PieceCount, k requires 0 <= k < PieceCount =>
      Submesh(ix[k], if k == Ord(Rooftop) then vo[k] else io[k], vo[k]))
  }

  /** The running sums up to the pyramid, unfolded. */
  lemma SumPrefixes(s: seq<nat>)
    requires |s| == PieceCount
    ensures Sum(s, 1) == s[0]
    ensures Sum(s, 2) == s[0] + s[1]
    ensures Sum(s, 3) == Sum(s, 2) + s[2]
    ensures Sum(s, 4) == Sum(s, 3) + s[3]
    ensures Sum(s, 5) == Sum(s, 4) + s[4]
    ensures Sum(s, 6) == Sum(s, 5) + s[5]
    ensures Sum(s, 7) == Sum(s, 6) + s[6]
    ensures Sum(s, 8) == Sum(s, 7) + s[7]
    ensures Sum(s, 9) == Sum(s, 8) + s[8]
    ensures Sum(s, 10) == Sum(s, 9) + s[9]
  {
  }

  /**
    The vertex offsets as written are the running sums for every piece up to
    the pyramid; the diamond's is right only when the diamond and the pyramid
    have the same vertex count, the second diamond's only when it and the
    pyramid do.
   */
  lemma VertexOffsetsAsWrittenDeviation(v: seq<nat>)
    requires |v| == PieceCount
    ensures forall k :: 0 <= k <= Ord(Pyramid) ==> VertexOffsetsAsWritten(v)[k] == Sum(v, k)
    ensures VertexOffsetsAsWritten(v)[Ord(Diamond)] == Sum(v, Ord(Diamond)) <==>
            v[Ord(Diamond)] == v[Ord(Pyramid)]
    ensures VertexOffsetsAsWritten(v)[Ord(Diamond1)] == Sum(v, Ord(Diamond1)) <==>
            v[Ord(Diamond1)] == v[Ord(Pyramid)]
  {
    SumPrefixes(v);
  }

  /**
    The index offsets as written are the running sums except three: the
    rooftop's adds the grid's vertex count instead of its index count, and
    the two diamonds' repeat the vertex-offset slip.
   */
  lemma IndexOffsetsAsWrittenDeviation(v: seq<nat>, ix: seq<nat>)
    requires |v| == PieceCount && |ix| == PieceCount
    ensures forall k :: 0 <= k <= Ord(Pyramid) && k != Ord(Rooftop) ==>
              IndexOffsetsAsWritten(v, ix)[k] == Sum(ix, k)
    ensures IndexOffsetsAsWritten(v, ix)[Ord(Rooftop)] == Sum(ix, Ord(Rooftop)) <==>
            v[Ord(Grid)] == ix[Ord(Grid)]
    ensures IndexOffsetsAsWritten(v, ix)[Ord(Diamond)] == Sum(ix, Ord(Diamond)) <==>
            ix[Ord(Diamond)] == ix[Ord(Pyramid)]
    ensures IndexOffsetsAsWritten(v, ix)[Ord(Diamond1)] == Sum(ix, Ord(Diamond1)) <==>
            ix[Ord(Diamond1)] == ix[Ord(Pyramid)]
  {
    assert PieceCount == 11;
    SumPrefixes(ix);
  }

  /**
    The submesh table as written agrees with the intended one for every
    piece but the rooftop and the two diamonds; the rooftop's start index is
    right only when the vertex and index counts of the first three pieces
    happen to have the same sum.
   */
  lemma SubmeshesAsWrittenDeviation(v: seq<nat>, ix: seq<nat>)
    requires |v| == PieceCount && |ix| == PieceCount
    ensures forall k :: 0 <= k <= Ord(Pyramid) && k != Ord(Rooftop) ==>
              SubmeshesAsWritten(v, ix)[k] == Submeshes(v, ix)[k]
    ensures SubmeshesAsWritten(v, ix)[Ord(Rooftop)] == Submeshes(v, ix)[Ord(Rooftop)] <==>
            Sum(v, Ord(Rooftop)) == Sum(ix, Ord(Rooftop))
    ensures SubmeshesAsWritten(v, ix)[Ord(Diamond)] == Submeshes(v, ix)[Ord(Diamond)] <==>
            v[Ord(Diamond)] == v[Ord(Pyramid)] && ix[Ord(Diamond)] == ix[Ord(Pyramid)]
    ensures SubmeshesAsWritten(v, ix)[Ord(Diamond1)] == Submeshes(v, ix)[Ord(Diamond1)] <==>
            v[Ord(Diamond1)] == v[Ord(Pyramid)] && ix[Ord(Diamond1)] == ix[Ord(Pyramid)]
  {
    VertexOffsetsAsWrittenDeviation(v);
    IndexOffsetsAsWrittenDeviation(v, ix);
  }

  /** Mesh sizes for which the table as written misplaces the rooftop and both diamonds. */
  lemma SubmeshesAsWrittenCounterexample()
    ensures var v, ix := [24, 42, 1600, 67600, 24, 22, 6, 561, 5, 6, 6], [36, 240, 9126, 403206, 36, 120, 24, 3072, 18, 24, 24];
      && SubmeshesAsWritten(v, ix)[Ord(Rooftop)].startIndexLocation == 1666
      && Submeshes(v, ix)[Ord(Rooftop)].startIndexLocation == 9402
      && SubmeshesAsWritten(v, ix)[Ord(Diamond)].baseVertexLocation == Submeshes(v, ix)[Ord(Diamond)].baseVertexLocation + 1
      && SubmeshesAsWritten(v, ix)[Ord(Diamond1)].startIndexLocation == Submeshes(v, ix)[Ord(Diamond1)].startIndexLocation + 6
  {
    var v, ix := [24, 42, 1600, 67600, 24, 22, 6, 561, 5, 6, 6], [36, 240, 9126, 403206, 36, 120, 24, 3072, 18, 24, 24];
    SumPrefixes(v);
    SumPrefixes(ix);
  }

  // ---------------------------------------------------------------------
  // The combined index buffer.
  // ---------------------------------------------------------------------

  /** Largest 16-bit index plus one: the combined buffer is DXGI_FORMAT_R16_UINT. */
  const Index16Range: nat := 0x1_0000

  /** GetIndices16: each 32-bit index narrowed to 16 bits. */
  function Indices16(ix: seq<nat>): seq<nat> {
    seq(|ix|, j requires 0 <= j < |ix| => ix[j] % Index16Range)
  }

  /** The 16-bit indices of the first k pieces, appended in concatenation order. */
  function IndexBuffer<P>(meshes: seq<MeshData<P>>, k: nat): seq<nat>
    requires k <= |meshes|
  {
    if k == 0 then [] else IndexBuffer(meshes, k - 1) + Indices16(meshes[k - 1].indices)
  }

  /** Piece p's j-th index sits at the running sum of the preceding index counts plus j, narrowed to 16 bits. */
  lemma {:induction false} IndexBufferLayout<P>(meshes: seq<MeshData<P>>, k: nat, p: nat, j: nat)
    requires p < k <= |meshes| && j < |meshes[p].indices|
    ensures |IndexBuffer(meshes, k)| == Sum(IndexCounts(meshes), k)
    ensures Sum(IndexCounts(meshes), p) + j < Sum(IndexCounts(meshes), k)
    ensures IndexBuffer(meshes, k)[Sum(IndexCounts(meshes), p) + j] == meshes[p].indices[j] % Index16Range
  {
    IndexBufferLength(meshes, k);
    if p < k - 1 {
      IndexBufferLayout(meshes, k - 1, p, j);
      SumMonotone(IndexCounts(meshes), p + 1, k - 1);
    } else {
      IndexBufferLength(meshes, k - 1);
    }
  }

  lemma {:induction false} IndexBufferLength<P>(meshes: seq<MeshData<P>>, k: nat)
    requires k <= |meshes|
    ensures |IndexBuffer(meshes, k)| == Sum(IndexCounts(meshes), k)
  {
    if k > 0 {
      IndexBufferLength(meshes, k - 1);
    }
  }

  // ---------------------------------------------------------------------
  // The vertex fill loops.
  // ---------------------------------------------------------------------

  /**
    For each piece, the mesh its fill loop reads positions from. The loops
    run over each piece's own vertex count.
   */
  const IntendedSource: seq<nat> := [0, 1, 2, 3, 4, 5, 6, 7, 8, 9, 10]

  /** As written, the second diamond's loop reads the first diamond's vertices. */
  const AsWrittenSource: seq<nat> := [0, 1, 2, 3, 4, 5, 6, 7, 8, 9, 9]

  predicate SourceMap(source: seq<nat>) {
    |source| == PieceCount && forall q :: 0 <= q < PieceCount ==> source[q] < PieceCount
  }

  /** Every loop reads only positions its source mesh has. */
  predicate ReadsInRange<P>(meshes: seq<MeshData<P>>, source: seq<nat>, k: nat)
    requires |meshes| == PieceCount && SourceMap(source) && k <= PieceCount
  {
    forall q :: 0 <= q < k ==> |meshes[q].vertices| <= |meshes[source[q]].vertices|
  }

  /** The first count positions of src, coloured: what one fill loop writes. */
  function Run<P>(src: seq<P>, count: nat, color: Color): seq<Vertex<P>>
    requires count <= |src|
  {
    seq(count, j requires 0 <= j < count => Vertex(src[j], color))
  }

  /** The vertex buffer after the loops of the first k pieces. */
  function Filled<P>(meshes: seq<MeshData<P>>, source: seq<nat>, k: nat): seq<Vertex<P>>
    requires |meshes| == PieceCount && SourceMap(source) && k <= PieceCount
    requires ReadsInRange(meshes, source, k)
  {
    if k == 0 then []
    else Filled(meshes, source, k - 1) +
         Run(meshes[source[k - 1]].vertices, |meshes[k - 1].vertices|, ColorOf(Pieces[k - 1]))
  }

  lemma {:induction false} FilledLength<P>(meshes: seq<MeshData<P>>, source: seq<nat>, k: nat)
    requires |meshes| == PieceCount && SourceMap(source) && k <= PieceCount
    requires ReadsInRange(meshes, source, k)
    ensures |Filled(meshes, source, k)| == Sum(VertexCounts(meshes), k)
  {
    if k > 0 {
      FilledLength(meshes, source, k - 1);
    }
  }

  /** Piece p's loop puts its i-th vertex at the running sum of the preceding vertex counts plus i. */
  lemma {:induction false} FilledLayout<P>(meshes: seq<MeshData<P>>, source: seq<nat>, k: nat, p: nat, i: nat)
    requires |meshes| == PieceCount && SourceMap(source) && k <= PieceCount
    requires ReadsInRange(meshes, source, k)
    requires p < k && i < |meshes[p].vertices|
    ensures |Filled(meshes, source, k)| == Sum(VertexCounts(meshes), k)
    ensures Sum(VertexCounts(meshes), p) + i < Sum(VertexCounts(meshes), k)
    ensures Filled(meshes, source, k)[Sum(VertexCounts(meshes), p) + i] ==
            Vertex(meshes[source[p]].vertices[i], ColorOf(Pieces[p]))
  {
    FilledLength(meshes, source, k);
    if p < k - 1 {
      FilledLayout(meshes, source, k - 1, p, i);
      SumMonotone(VertexCounts(meshes), p + 1, k - 1);
    } else {
      FilledLength(meshes, source, k - 1);
    }
  }

  /**
    One fill loop: write `count` vertices coloured `color` at positions k,
    k + 1, ... of the buffer, reading positions from src. Fails at the first
    read past the end of src.
   */
  method FillRun<P>(vertices: seq<Vertex<P>>, k: nat, src: seq<P>, count: nat, color: Color)
    returns (out: seq<Vertex<P>>, next: nat, ok: bool)
    requires k + count <= |vertices|
    ensures |out| == |vertices|
    ensures ok <==> count <= |src|
    ensures ok ==> next == k + count && out[..next] == vertices[..k] + Run(src, count, color)
  {
    out, next := vertices, k;
    for i := 0 to count
      invariant |out| == |vertices|
      invariant next == k + i
      invariant i <= |src|
      invariant out[..next] == vertices[..k] + Run(src, i, color)
    {
      if i == |src| {
        return out, next, false;
      }
      var x := Vertex(src[i], color);
      assert Run(src, i + 1, color) == Run(src, i, color) + [x];
      out := out[next := x];
      assert out[..next + 1] == out[..next] + [x];
      next := next + 1;
    }
    ok := true;
  }

  /** How the fill loops ended. */
  datatype FillResult<P> =
    | Complete(vertices: seq<Vertex<P>>, k: nat)   // every loop ran; k is the final write position
    | ReadPastEnd(piece: nat)                       // this piece's loop read past the end of its source mesh

  /**
    The fill loops of BuildShapeGeometry: the buffer is allocated with the
    total vertex count and a running position k is written piece by piece.
    `blank` is the value-initialised Vertex the buffer starts with.
   */
  method FillVertices<P>(meshes: seq<MeshData<P>>, source: seq<nat>, blank: Vertex<P>) returns (r: FillResult<P>)
    requires |meshes| == PieceCount && SourceMap(source)
    ensures r.Complete? <==> ReadsInRange(meshes, source, PieceCount)
    ensures r.Complete? ==> r.k == Sum(VertexCounts(meshes), PieceCount) == |r.vertices|
    ensures r.Complete? ==> r.vertices == Filled(meshes, source, PieceCount)
    ensures r.ReadPastEnd? ==>
              && r.piece < PieceCount
              && ReadsInRange(meshes, source, r.piece)
              && |meshes[source[r.piece]].vertices| < |meshes[r.piece].vertices|
  {
    var counts := VertexCounts(meshes);
    var total := Sum(counts, PieceCount);
    var vertices := seq(total, _ => blank);
    var k := 0;
    for p := 0 to PieceCount
      invariant |vertices| == total
      invariant ReadsInRange(meshes, source, p)
      invariant k == Sum(counts, p) <= total
      invariant vertices[..k] == Filled(meshes, source, p)
    {
      SumMonotone(counts, p + 1, PieceCount);
      var ok;
      vertices, k, ok := FillRun(vertices, k, meshes[source[p]].vertices, |meshes[p].vertices|, ColorOf(Pieces[p]));
      if !ok {
        return ReadPastEnd(p);
      }
    }
    r := Complete(vertices, k);
  }

  /** With each loop reading its own mesh, the fill never reads out of range and places every piece at its running sum. */
  lemma IntendedFillPlacesPieces<P>(meshes: seq<MeshData<P>>, p: nat, i: nat)
    requires |meshes| == PieceCount && p < PieceCount && i < |meshes[p].vertices|
    ensures SourceMap(IntendedSource) && ReadsInRange(meshes, IntendedSource, PieceCount)
    ensures Sum(VertexCounts(meshes), p) + i < |Filled(meshes, IntendedSource, PieceCount)|
    ensures Filled(meshes, IntendedSource, PieceCount)[Sum(VertexCounts(meshes), p) + i] ==
            Vertex(meshes[p].vertices[i], ColorOf(Pieces[p]))
  {
    FilledLayout(meshes, IntendedSource, PieceCount, p, i);
  }

  /**
    As written, the fill reads out of range exactly when the second diamond
    has more vertices than the first, and otherwise gives the second diamond
    the first diamond's positions.
   */
  lemma AsWrittenFillDeviation<P>(meshes: seq<MeshData<P>>, i: nat)
    requires |meshes| == PieceCount
    ensures SourceMap(AsWrittenSource)
    ensures ReadsInRange(meshes, AsWrittenSource, PieceCount) <==>
            |meshes[Ord(Diamond1)].vertices| <= |meshes[Ord(Diamond)].vertices|
    ensures ReadsInRange(meshes, AsWrittenSource, PieceCount) && i < |meshes[Ord(Diamond1)].vertices| ==>
            Sum(VertexCounts(meshes), Ord(Diamond1)) + i < |Filled(meshes, AsWrittenSource, PieceCount)| &&
            Filled(meshes, AsWrittenSource, PieceCount)[Sum(VertexCounts(meshes), Ord(Diamond1)) + i].pos ==
            meshes[Ord(Diamond)].vertices[i]
  {
    assert SourceMap(AsWrittenSource);
    if |meshes[Ord(Diamond1)].vertices| <= |meshes[Ord(Diamond)].vertices| {
      forall q | 0 <= q < PieceCount
        ensures |meshes[q].vertices| <= |meshes[AsWrittenSource[q]].vertices|
      {
        if q < Ord(Diamond1) {
          assert AsWrittenSource[q] == q;
        }
      }
      assert ReadsInRange(meshes, AsWrittenSource, PieceCount);
    } else {
      assert AsWrittenSource[Ord(Diamond1)] == Ord(Diamond);
      assert !ReadsInRange(meshes, AsWrittenSource, PieceCount);
    }
    if ReadsInRange(meshes, AsWrittenSource, PieceCount) && i < |meshes[Ord(Diamond1)].vertices| {
      FilledLayout(meshes, AsWrittenSource, PieceCount, Ord(Diamond1), i);
    }
  }

  // ---------------------------------------------------------------------
  // Drawing a piece.
  // ---------------------------------------------------------------------

  /**
    DrawIndexedInstanced with the intended submesh of piece p reads index
    StartIndexLocation + j and the vertex at BaseVertexLocation plus that
    index: as long as the index fits in 16 bits, that is the piece's own
    vertex, with the piece's colour.
   */
  lemma DrawReadsOwnPiece<P>(meshes: seq<MeshData<P>>, p: nat, j: nat)
    requires |meshes| == PieceCount && p < PieceCount && j < |meshes[p].indices|
    requires meshes[p].indices[j] < |meshes[p].vertices|
    requires meshes[p].indices[j] < Index16Range
    ensures SourceMap(IntendedSource) && ReadsInRange(meshes, IntendedSource, PieceCount)
    ensures var s := Submeshes(VertexCounts(meshes), IndexCounts(meshes))[p];
            var ib := IndexBuffer(meshes, PieceCount);
            var vb := Filled(meshes, IntendedSource, PieceCount);
            && s.startIndexLocation + j < |ib|
            && s.baseVertexLocation + ib[s.startIndexLocation + j] < |vb|
            && vb[s.baseVertexLocation + ib[s.startIndexLocation + j]] ==
               Vertex(meshes[p].vertices[meshes[p].indices[j]], ColorOf(Pieces[p]))
  {
    var counts, icounts := VertexCounts(meshes), IndexCounts(meshes);
    var s := Submeshes(counts, icounts)[p];
    var ib := IndexBuffer(meshes, PieceCount);
    var idx := meshes[p].indices[j];
    IndexBufferLayout(meshes, PieceCount, p, j);
    assert s.startIndexLocation == Sum(icounts, p);
    assert ib[s.startIndexLocation + j] == idx;
    IntendedFillPlacesPieces(meshes, p, idx);
    assert s.baseVertexLocation == Sum(counts, p);
  }
}
