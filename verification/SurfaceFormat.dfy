/** The packed surface record, read as a definition: where each field of a
    record lies and which records are well formed. */
module SurfaceFormat {

  import opened Bytes
  import opened TriangleStrips

  const MAX_BONES: int := 127
  const NO_SINGLE_BONE: int := -1

  function U8(d: seq<Byte>, p: nat): nat {
    if p < |d| then d[p] else 0
  }

  function U16(d: seq<Byte>, p: nat): nat {
    U8(d, p) + 256 * U8(d, p + 1)
  }

  function I16(d: seq<Byte>, p: nat): int {
    if U16(d, p) < 32768 then U16(d, p) else U16(d, p) - 65536
  }

  // ----- the header -----

  datatype Header = Header(tileMode: nat, vertexCount: int, triangleCount: int, stripCount: int,
                           singleBone: int, weightedPoints: int, compactVertices: int)

  function HeaderAt(d: seq<Byte>, p: nat): Header {
    var single := I16(d, p + 7);
    Header(U8(d, p), I16(d, p + 1), I16(d, p + 3), I16(d, p + 5), single,
           if single == NO_SINGLE_BONE then I16(d, p + 9) else 0,
           if single == NO_SINGLE_BONE then I16(d, p + 11) else 0)
  }

  function HeaderEnd(h: Header, p: nat): nat {
    if h.singleBone == NO_SINGLE_BONE then p + 13 else p + 9
  }

  predicate HeaderOk(h: Header) {
    && h.vertexCount >= 0 && h.triangleCount >= 0 && h.stripCount >= 0
    && !(h.triangleCount == 32767 && h.triangleCount % 2 != 0)
    && if h.singleBone == NO_SINGLE_BONE
       then h.weightedPoints >= 0 && 0 <= h.compactVertices <= h.vertexCount
       else 0 <= h.singleBone < MAX_BONES
  }

  // ----- strips -----

  function StripEnd(d: seq<Byte>, q: nat): nat {
    q + 1 + 2 * U8(d, q)
  }

  /** Where strip k starts. */
  function StripPos(d: seq<Byte>, q: nat, k: nat): (r: nat)
    ensures q <= r
  {
    if k == 0 then q else StripEnd(d, StripPos(d, q, k - 1))
  }

  function StripAt(d: seq<Byte>, q: nat): (v: seq<nat>)
    ensures |v| == U8(d, q)
  {
    seq(U8(d, q), i requires 0 <= i => U16(d, q + 1 + 2 * i))
  }

  ghost predicate StripOk(d: seq<Byte>, q: nat, vertexCount: int) {
    && q < |d| && U8(d, q) >= 3 && StripEnd(d, q) <= |d|
    && forall i :: 0 <= i < U8(d, q) ==> StripAt(d, q)[i] < vertexCount
  }

  function Strips(d: seq<Byte>, q: nat, n: nat): (r: seq<seq<nat>>)
    ensures |r| == n && forall k :: 0 <= k < n ==> r[k] == StripAt(d, StripPos(d, q, k))
  {
    if n == 0 then [] else Strips(d, q, n - 1) + [StripAt(d, StripPos(d, q, n - 1))]
  }

  ghost predicate StripsOk(d: seq<Byte>, q: nat, n: nat, vertexCount: int) {
    forall k :: 0 <= k < n ==> StripOk(d, StripPos(d, q, k), vertexCount)
  }

  // ----- blended vertices and weighted points -----

  function AdditiveAt(d: seq<Byte>, q: nat): int {
    I16(d, q + 20)
  }

  function VertexEnd(d: seq<Byte>, q: nat): nat {
    q + 36 + if AdditiveAt(d, q) == 0 then 0 else 4
  }

  function VertexPos(d: seq<Byte>, q: nat, k: nat): (r: nat)
    ensures q <= r
  {
    if k == 0 then q else VertexEnd(d, VertexPos(d, q, k - 1))
  }

  predicate BoneOk(bone: int) {
    0 <= bone < MAX_BONES
  }

  predicate VertexOk(d: seq<Byte>, q: nat) {
    VertexEnd(d, q) <= |d| && AdditiveAt(d, q) >= 0 && BoneOk(I16(d, q + 22))
  }

  ghost predicate VerticesOk(d: seq<Byte>, q: nat, n: nat) {
    forall k :: 0 <= k < n ==> VertexOk(d, VertexPos(d, q, k))
  }

  /** How many of the first n vertices carry no additive weight. */
  function ZeroAdditive(d: seq<Byte>, q: nat, n: nat): nat {
    if n == 0 then 0
    else ZeroAdditive(d, q, n - 1) + if AdditiveAt(d, VertexPos(d, q, n - 1)) == 0 then 1 else 0
  }

  function TotalAdditive(d: seq<Byte>, q: nat, n: nat): int {
    if n == 0 then 0 else TotalAdditive(d, q, n - 1) + AdditiveAt(d, VertexPos(d, q, n - 1))
  }

  function PointPos(q: nat, k: nat): nat {
    q + 18 * k
  }

  predicate PointOk(d: seq<Byte>, q: nat) {
    q + 18 <= |d| && BoneOk(I16(d, q))
  }

  ghost predicate PointsOk(d: seq<Byte>, q: nat, n: nat) {
    forall k :: 0 <= k < n ==> PointOk(d, PointPos(q, k))
  }

  // ----- the record -----

  ghost predicate BlendOk(d: seq<Byte>, q: nat, h: Header)
    requires HeaderOk(h) && h.singleBone == NO_SINGLE_BONE
  {
    && VerticesOk(d, q, h.vertexCount)
    && ZeroAdditive(d, q, h.vertexCount) == h.compactVertices
    && TotalAdditive(d, q, h.vertexCount) == h.weightedPoints
    && PointsOk(d, VertexPos(d, q, h.vertexCount), h.weightedPoints)
  }

  /** The position after the vertex data. */
  function BodyEnd(d: seq<Byte>, q: nat, h: Header): nat
    requires HeaderOk(h)
  {
    if h.singleBone == NO_SINGLE_BONE then PointPos(VertexPos(d, q, h.vertexCount), h.weightedPoints)
    else q + 32 * h.vertexCount
  }

  ghost predicate BodyOk(d: seq<Byte>, q: nat, h: Header)
    requires HeaderOk(h)
  {
    if h.singleBone == NO_SINGLE_BONE then BlendOk(d, q, h) else BodyEnd(d, q, h) <= |d|
  }

  /** A well-formed record at a position. */
  ghost predicate SurfaceOk(d: seq<Byte>, p: nat) {
    var h := HeaderAt(d, p);
    var q := HeaderEnd(h, p);
    && q <= |d| && HeaderOk(h)
    && StripsOk(d, q, h.stripCount, h.vertexCount)
    && |Triangles(Strips(d, q, h.stripCount))| == h.triangleCount
    && BodyOk(d, StripPos(d, q, h.stripCount), h)
  }

  function SurfaceEnd(d: seq<Byte>, p: nat): nat {
    var h := HeaderAt(d, p);
    if HeaderOk(h) then BodyEnd(d, StripPos(d, HeaderEnd(h, p), h.stripCount), h) else p
  }

  // ----- facts about the layout -----

  lemma {:induction false} AdditiveGrows(d: seq<Byte>, q: nat, k: nat, n: nat)
    requires VerticesOk(d, q, n) && k <= n
    ensures 0 <= TotalAdditive(d, q, k) <= TotalAdditive(d, q, n)
  {
    if n > 0 {
      assert VertexOk(d, VertexPos(d, q, n - 1));
      AdditiveGrows(d, q, if k == n then n - 1 else k, n - 1);
    }
  }

  lemma StripsFit(d: seq<Byte>, q: nat, n: nat, vertexCount: int)
    requires q <= |d| && StripsOk(d, q, n, vertexCount)
    ensures StripPos(d, q, n) <= |d|
  {
    if n > 0 {
      assert StripOk(d, StripPos(d, q, n - 1), vertexCount);
    }
  }

  lemma VerticesFit(d: seq<Byte>, q: nat, n: nat)
    requires q <= |d| && VerticesOk(d, q, n)
    ensures VertexPos(d, q, n) <= |d|
  {
    if n > 0 {
      assert VertexOk(d, VertexPos(d, q, n - 1));
    }
  }

  /** A well-formed record lies inside the file. */
  lemma SurfaceFits(d: seq<Byte>, p: nat)
    requires SurfaceOk(d, p)
    ensures SurfaceEnd(d, p) <= |d|
  {
    var h := HeaderAt(d, p);
    var q := HeaderEnd(h, p);
    StripsFit(d, q, h.stripCount, h.vertexCount);
    var body := StripPos(d, q, h.stripCount);
    if h.singleBone == NO_SINGLE_BONE {
      VerticesFit(d, body, h.vertexCount);
      var points := VertexPos(d, body, h.vertexCount);
      if h.weightedPoints > 0 {
        assert PointOk(d, PointPos(points, h.weightedPoints - 1));
      }
    }
  }

  /** Every index of every triangle is below the vertex count. */
  lemma TrianglesInRange(d: seq<Byte>, p: nat, i: nat)
    requires SurfaceOk(d, p)
    requires i < HeaderAt(d, p).triangleCount
    ensures var h := HeaderAt(d, p);
            var t := Triangles(Strips(d, HeaderEnd(h, p), h.stripCount))[i];
            t.a < h.vertexCount && t.b < h.vertexCount && t.c < h.vertexCount && !Degenerate(t.a, t.b, t.c)
  {
    var h := HeaderAt(d, p);
    var q := HeaderEnd(h, p);
    var strips := Strips(d, q, h.stripCount);
    forall s, k | 0 <= s < |strips| && 0 <= k < |strips[s]|
      ensures strips[s][k] < h.vertexCount
    {
      assert StripOk(d, StripPos(d, q, s), h.vertexCount);
    }
    TriangleCorners(strips, h.vertexCount, i);
  }
}
