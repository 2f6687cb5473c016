/** The brush meshes: the constant index tables of the cube, the inverted
    cube and the pyramid, and the integer part of GenerateSphere (how many
    vertices it emits, in which grid order, and the triangle indices). Vertex
    positions, normals and texture coordinates are floating point and are
    not modelled; a sphere vertex is identified by its stack and sector. */
module Shapes {

  const CubeVertexCount: nat := 24
  const PyramidVertexCount: nat := 16

  /** Six faces, two triangles each; face f owns vertices 4f .. 4f+3. The
      table is kept as three blocks of two faces (front and back, left and
      right, top and bottom). */
  const CubeFrontBack: seq<nat> := [0, 1, 3,    1, 2, 3,     4, 5, 7,    5, 6, 7]
  const CubeLeftRight: seq<nat> := [8, 9, 11,   9, 10, 11,   12, 13, 15, 13, 14, 15]
  const CubeTopBottom: seq<nat> := [16, 17, 19, 17, 18, 19,  20, 21, 23, 21, 22, 23]
  const CubeIndices: seq<nat> := CubeFrontBack + CubeLeftRight + CubeTopBottom

  /** The cube seen from inside: the same triangles wound the other way. */
  const InvertedFrontBack: seq<nat> := [3, 1, 0,    3, 2, 1,     7, 5, 4,    7, 6, 5]
  const InvertedLeftRight: seq<nat> := [11, 9, 8,   11, 10, 9,   15, 13, 12, 15, 14, 13]
  const InvertedTopBottom: seq<nat> := [19, 17, 16, 19, 18, 17,  23, 21, 20, 23, 22, 21]
  const InvertedCubeIndices: seq<nat> := InvertedFrontBack + InvertedLeftRight + InvertedTopBottom

  /** Four side triangles and a bottom quad. */
  const PyramidIndices: seq<nat> := [
    0, 1, 2,
    3, 4, 5,
    6, 7, 8,
    9, 10, 11,
    12, 13, 14,
    13, 15, 14
  ]

  /** `xs` with every triple reversed, which flips each triangle's winding. */
  function ReverseTriples(xs: seq<nat>): (r: seq<nat>)
    ensures |r| == |xs|
    decreases |xs|
  {
    if |xs| < 3 then xs else [xs[2], xs[1], xs[0]] + ReverseTriples(xs[3..])
  }

  /** Flipping the winding twice gives the triangles back. */
  lemma {:induction false} ReverseTriplesInvolution(xs: seq<nat>)
    ensures ReverseTriples(ReverseTriples(xs)) == xs
    decreases |xs|
  {
    if |xs| >= 3 {
      var r := ReverseTriples(xs);
      ReverseTriplesInvolution(xs[3..]);
      assert r[3..] == ReverseTriples(xs[3..]);
      assert r[..3] == [xs[2], xs[1], xs[0]];
    }
  }

  /** Every index refers to one of the 24 cube vertices, and face f (the
      f-th pair of triangles) uses only its own four vertices. */
  lemma CubeIndicesStayOnTheirFace()
    ensures |CubeIndices| == 36
    ensures forall i :: 0 <= i < |CubeIndices| ==> CubeIndices[i] < CubeVertexCount
    ensures forall i :: 0 <= i < |CubeIndices| ==>
              4 * (i / 6) <= CubeIndices[i] < 4 * (i / 6) + 4
  {
  }

  /** Position i of the flipped sequence holds the mirror position of its triple. */
  lemma {:induction false} ReverseTriplesAt(xs: seq<nat>, i: nat)
    requires |xs| % 3 == 0 && i < |xs|
    ensures ReverseTriples(xs)[i] == xs[i + 2 - 2 * (i % 3)]
    decreases |xs|
  {
    if i >= 3 {
      ReverseTriplesAt(xs[3..], i - 3);
      assert ReverseTriples(xs)[i] == ReverseTriples(xs[3..])[i - 3];
    }
  }

  lemma {:induction false} ReverseTriplesAppend(a: seq<nat>, b: seq<nat>)
    requires |a| % 3 == 0
    ensures ReverseTriples(a + b) == ReverseTriples(a) + ReverseTriples(b)
    decreases |a|
  {
    if |a| >= 3 {
      assert (a + b)[3..] == a[3..] + b;
      ReverseTriplesAppend(a[3..], b);
    } else {
      assert a + b == b;
    }
  }

  /** Flipping a sequence of three blocks flips each block. */
  lemma ReverseTriplesOfBlocks(xs: seq<nat>, ys: seq<nat>, b0: seq<nat>, b1: seq<nat>, b2: seq<nat>)
    requires |b0| == 12 && |b1| == 12
    requires xs == b0 + b1 + b2
    requires ys == ReverseTriples(b0) + ReverseTriples(b1) + ReverseTriples(b2)
    ensures ReverseTriples(xs) == ys
  {
    ReverseTriplesAppend(b0 + b1, b2);
    ReverseTriplesAppend(b0, b1);
  }

  // The three blocks of the cube table, flipped.
  lemma FrontBackFlipped()
    ensures ReverseTriples(CubeFrontBack) == InvertedFrontBack
  {
  }

  lemma LeftRightFlipped()
    ensures ReverseTriples(CubeLeftRight) == InvertedLeftRight
  {
  }

  lemma TopBottomFlipped()
    ensures ReverseTriples(CubeTopBottom) == InvertedTopBottom
  {
  }

  /** The inverted cube is the cube with each triangle's winding flipped. */
  lemma InvertedCubeIsReversedCube()
    ensures ReverseTriples(CubeIndices) == InvertedCubeIndices
  {
    FrontBackFlipped();
    LeftRightFlipped();
    TopBottomFlipped();
    ReverseTriplesOfBlocks(CubeIndices, InvertedCubeIndices, CubeFrontBack, CubeLeftRight, CubeTopBottom);
  }

  /** Flipping the inverted cube gives the cube back. */
  lemma CubeIsReversedInvertedCube()
    ensures ReverseTriples(InvertedCubeIndices) == CubeIndices
  {
    InvertedCubeIsReversedCube();
    FlipBack(CubeIndices, InvertedCubeIndices);
  }

  lemma FlipBack(xs: seq<nat>, ys: seq<nat>)
    requires ReverseTriples(xs) == ys
    ensures ReverseTriples(ys) == xs
  {
    ReverseTriplesInvolution(xs);
  }

  /** Every pyramid index refers to one of its 16 vertices. */
  lemma PyramidIndicesInRange()
    ensures |PyramidIndices| == 18
    ensures forall i :: 0 <= i < |PyramidIndices| ==> PyramidIndices[i] < PyramidVertexCount
  {
  }

  /** A sphere vertex: its stack (0 at the north pole) and sector. */
  datatype SphereVertex = SphereVertex(stack: nat, sector: nat)

  /** The two triangles of sector j of stack i, where k1 is the sector's
      vertex in stack i and k2 the one below it: the first is skipped at
      the top stack, the second at the bottom stack. */
  function SectorTriangles(i: nat, stacks: nat, k1: nat, k2: nat): (r: seq<nat>)
    ensures |r| == (if i != 0 then 3 else 0) + (if i != stacks - 1 then 3 else 0)
  {
    (if i != 0 then [k1, k1 + 1, k2] else []) +
    (if i != stacks - 1 then [k1 + 1, k2 + 1, k2] else [])
  }

  /** The k1 of sector j in stack i of a grid `sectors + 1` vertices wide. */
  function GridIndex(i: nat, j: nat, sectors: nat): nat
  {
    i * (sectors + 1) + j
  }

  /** The indices of the first `n` sectors of stack i. */
  function StackIndices(i: nat, n: nat, sectors: nat, stacks: nat): seq<nat>
  {
    if n == 0 then []
    else StackIndices(i, n - 1, sectors, stacks) +
         SectorTriangles(i, stacks, GridIndex(i, n - 1, sectors), GridIndex(i, n - 1, sectors) + sectors + 1)
  }

  /** The indices of the first `m` stacks. */
  function SphereIndicesUpTo(m: nat, sectors: nat, stacks: nat): seq<nat>
  {
    if m == 0 then [] else SphereIndicesUpTo(m - 1, sectors, stacks) + StackIndices(m - 1, sectors, sectors, stacks)
  }

  function SphereIndices(sectors: nat, stacks: nat): seq<nat>
  {
    SphereIndicesUpTo(stacks, sectors, stacks)
  }

  /** The vertex count of a UV sphere: stacks + 1 rings of sectors + 1 vertices. */
  function SphereVertexCount(sectors: nat, stacks: nat): nat
  {
    (stacks + 1) * (sectors + 1)
  }

  /** The integer part of GenerateSphere: the vertices in ring order, each
      given by its stack and sector, and the triangle indices. The counters
      are 32-bit in the source; the requires keep every loop bound and
      every index inside that range, so no counter wraps. */
  method GenerateSphere(sectors: nat, stacks: nat) returns (vertices: seq<SphereVertex>, indices: seq<nat>)
    requires sectors < 0xFFFF_FFFF && stacks < 0xFFFF_FFFF
    requires SphereVertexCount(sectors, stacks) <= 0x1_0000_0000
    ensures |vertices| == SphereVertexCount(sectors, stacks)
    ensures forall v :: 0 <= v < |vertices| ==>
              vertices[v] == SphereVertex(v / (sectors + 1), v % (sectors + 1))
    ensures indices == SphereIndices(sectors, stacks)
  {
    vertices := SphereRings(sectors, stacks);
    indices := SphereTriangles(sectors, stacks);
  }

  /** The vertex loop of GenerateSphere: stacks + 1 rings of sectors + 1
      vertices each. */
  method SphereRings(sectors: nat, stacks: nat) returns (vertices: seq<SphereVertex>)
    ensures |vertices| == SphereVertexCount(sectors, stacks)
    ensures forall v :: 0 <= v < |vertices| ==>
              vertices[v] == SphereVertex(v / (sectors + 1), v % (sectors + 1))
  {
    var w := sectors + 1;
    vertices := [];
    for i := 0 to stacks + 1
      invariant |vertices| == i * w
      invariant forall v :: 0 <= v < |vertices| ==> vertices[v] == SphereVertex(v / w, v % w)
    {
      var ring := SphereRing(i, w);
      RingsAppend(vertices, ring, i, w);
      vertices := vertices + ring;
    }
  }

  /** One pass of the inner vertex loop: the w vertices of stack i. */
  method SphereRing(i: nat, w: nat) returns (ring: seq<SphereVertex>)
    ensures |ring| == w
    ensures forall j :: 0 <= j < w ==> ring[j] == SphereVertex(i, j)
  {
    ring := [];
    for j := 0 to w
      invariant |ring| == j
      invariant forall j' :: 0 <= j' < j ==> ring[j'] == SphereVertex(i, j')
    {
      ring := ring + [SphereVertex(i, j)];
    }
  }

  /** Appending stack i's ring keeps every vertex at its grid position. */
  lemma RingsAppend(vertices: seq<SphereVertex>, ring: seq<SphereVertex>, i: nat, w: nat)
    requires |vertices| == i * w && w > 0
    requires forall v :: 0 <= v < |vertices| ==> vertices[v] == SphereVertex(v / w, v % w)
    requires |ring| == w && forall j :: 0 <= j < w ==> ring[j] == SphereVertex(i, j)
    ensures |vertices + ring| == (i + 1) * w
    ensures forall v :: 0 <= v < |vertices + ring| ==> (vertices + ring)[v] == SphereVertex(v / w, v % w)
  {
    MulSucc(i, w);
    forall v | |vertices| <= v < |vertices + ring|
      ensures (vertices + ring)[v] == SphereVertex(v / w, v % w)
    {
      GridPosition(i, v - i * w, w);
    }
  }

  /** The index loop of GenerateSphere, with its k1 / k2 counters. */
  method SphereTriangles(sectors: nat, stacks: nat) returns (indices: seq<nat>)
    ensures indices == SphereIndices(sectors, stacks)
  {
    indices := [];
    for i := 0 to stacks
      invariant indices == SphereIndicesUpTo(i, sectors, stacks)
    {
      var k1: nat := i * (sectors + 1);
      var k2: nat := k1 + sectors + 1;
      for j := 0 to sectors
        invariant k1 == GridIndex(i, j, sectors) && k2 == k1 + sectors + 1
        invariant indices == SphereIndicesUpTo(i, sectors, stacks) + StackIndices(i, j, sectors, stacks)
      {
        ghost var before := indices;
        if i != 0 {
          indices := indices + [k1, k1 + 1, k2];
        }
        if i != stacks - 1 {
          indices := indices + [k1 + 1, k2 + 1, k2];
        }
        assert indices == before + SectorTriangles(i, stacks, k1, k2);
        StackIndicesStep(SphereIndicesUpTo(i, sectors, stacks), i, j, sectors, stacks);
        k1, k2 := k1 + 1, k2 + 1;
      }
      assert SphereIndicesUpTo(i + 1, sectors, stacks) ==
             SphereIndicesUpTo(i, sectors, stacks) + StackIndices(i, sectors, sectors, stacks);
    }
  }

  /** One more sector of stack i appends that sector's triangles. */
  lemma StackIndicesStep(prefix: seq<nat>, i: nat, j: nat, sectors: nat, stacks: nat)
    ensures prefix + StackIndices(i, j + 1, sectors, stacks) ==
            prefix + StackIndices(i, j, sectors, stacks) +
            SectorTriangles(i, stacks, GridIndex(i, j, sectors), GridIndex(i, j, sectors) + sectors + 1)
  {
  }

  lemma MulSucc(i: nat, w: nat)
    ensures (i + 1) * w == i * w + w
  {
  }

  lemma TimesSucc(a: nat, b: nat)
    ensures a * (b + 1) == a * b + a
  {
  }

  /** Row and column of a grid position. */
  lemma GridPosition(i: nat, j: nat, w: nat)
    requires j < w
    ensures (i * w + j) / w == i && (i * w + j) % w == j
  {
    var n := i * w + j;
    var q, r := n / w, n % w;
    assert n == q * w + r && 0 <= r < w;
    var d := q - i;
    assert d * w == q * w - i * w;
    assert d * w == j - r;
  }

  /** Every sector of a stack contributes the same number of indices. */
  lemma {:induction false} StackIndicesCount(i: nat, n: nat, sectors: nat, stacks: nat)
    ensures |StackIndices(i, n, sectors, stacks)| ==
            n * ((if i != 0 then 3 else 0) + (if i != stacks - 1 then 3 else 0))
    decreases n
  {
    if n > 0 {
      StackIndicesCount(i, n - 1, sectors, stacks);
    }
  }

  /** The first m stacks: 6 indices per sector and stack, less one triangle
      per sector for the top stack and, once the bottom stack is included,
      one more for it. */
  lemma {:induction false} SphereIndicesUpToCount(m: nat, sectors: nat, stacks: nat)
    requires 1 <= m <= stacks
    ensures |SphereIndicesUpTo(m, sectors, stacks)| ==
            6 * sectors * (m - 1) + (if m == stacks then 0 else 3 * sectors)
    decreases m
  {
    var prev := |SphereIndicesUpTo(m - 1, sectors, stacks)|;
    var cur := |StackIndices(m - 1, sectors, sectors, stacks)|;
    StackIndicesCount(m - 1, sectors, sectors, stacks);
    if m > 1 {
      SphereIndicesUpToCount(m - 1, sectors, stacks);
    }
    CountStep(prev, cur, sectors, m, stacks);
  }

  /** The arithmetic of one step of SphereIndicesUpToCount. */
  lemma CountStep(prev: nat, cur: nat, sectors: nat, m: nat, stacks: nat)
    requires 1 <= m <= stacks
    requires cur == sectors * ((if m - 1 != 0 then 3 else 0) + (if m - 1 != stacks - 1 then 3 else 0))
    requires m == 1 ==> prev == 0
    requires m > 1 ==> prev == 6 * sectors * (m - 2) + 3 * sectors
    ensures prev + cur == 6 * sectors * (m - 1) + (if m == stacks then 0 else 3 * sectors)
  {
    if m > 1 {
      TimesSucc(6 * sectors, m - 2);
    }
  }

  /** Indices are pushed three at a time. */
  lemma {:induction false} StackIndicesTriples(i: nat, n: nat, sectors: nat, stacks: nat)
    ensures |StackIndices(i, n, sectors, stacks)| % 3 == 0
    decreases n
  {
    if n > 0 {
      StackIndicesTriples(i, n - 1, sectors, stacks);
    }
  }

  lemma {:induction false} SphereIndicesUpToTriples(m: nat, sectors: nat, stacks: nat)
    ensures |SphereIndicesUpTo(m, sectors, stacks)| % 3 == 0
    decreases m
  {
    if m > 0 {
      SphereIndicesUpToTriples(m - 1, sectors, stacks);
      StackIndicesTriples(m - 1, sectors, sectors, stacks);
    }
  }

  /** The index count: six per sector in every stack but the two polar
      stacks, which have one triangle per sector; none at all with no stack. */
  lemma SphereIndexCount(sectors: nat, stacks: nat)
    ensures |SphereIndices(sectors, stacks)| == if stacks == 0 then 0 else 6 * sectors * (stacks - 1)
    ensures |SphereIndices(sectors, stacks)| % 3 == 0
  {
    SphereIndicesUpToTriples(stacks, sectors, stacks);
    if stacks > 0 {
      SphereIndicesUpToCount(stacks, sectors, stacks);
    }
  }

  /** The default arguments of GenerateSphere. */
  const DefaultSectors: nat := 50
  const DefaultStacks: nat := 50

  /** The default call is within the 32-bit bounds and yields 51 rings of
      51 vertices and 2 * 50 * 49 triangles. */
  lemma DefaultSphere()
    ensures DefaultSectors < 0xFFFF_FFFF && DefaultStacks < 0xFFFF_FFFF
    ensures SphereVertexCount(DefaultSectors, DefaultStacks) == 2601
    ensures |SphereIndices(DefaultSectors, DefaultStacks)| == 14700
  {
    SphereIndexCount(DefaultSectors, DefaultStacks);
  }

  /** Every index of a sector of stack i lies in stack i or the one below it. */
  lemma {:induction false} StackIndicesBound(i: nat, n: nat, sectors: nat, stacks: nat)
    requires n <= sectors
    ensures forall x :: x in StackIndices(i, n, sectors, stacks) ==>
              i * (sectors + 1) <= x < (i + 2) * (sectors + 1)
    decreases n
  {
    if n > 0 {
      StackIndicesBound(i, n - 1, sectors, stacks);
      var k1 := GridIndex(i, n - 1, sectors);
      assert k1 + sectors + 2 < (i + 2) * (sectors + 1);
    }
  }

  lemma {:induction false} SphereIndicesUpToBound(m: nat, sectors: nat, stacks: nat)
    ensures forall x :: x in SphereIndicesUpTo(m, sectors, stacks) ==> x < (m + 1) * (sectors + 1)
    decreases m
  {
    if m > 0 {
      SphereIndicesUpToBound(m - 1, sectors, stacks);
      StackIndicesBound(m - 1, sectors, sectors, stacks);
      assert m * (sectors + 1) <= (m + 1) * (sectors + 1);
    }
  }

  /** Every generated index names a generated vertex. */
  lemma SphereIndicesInRange(sectors: nat, stacks: nat)
    ensures forall x :: x in SphereIndices(sectors, stacks) ==> x < SphereVertexCount(sectors, stacks)
  {
    SphereIndicesUpToBound(stacks, sectors, stacks);
  }
}
