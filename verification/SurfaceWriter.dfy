/** Surface records laid out byte by byte, and that the reader gets back exactly
    what was laid out. */
module SurfaceWriter {

  import opened Bytes
  import opened SurfaceFormat
  import opened SurfaceReader
  import opened TriangleStrips

  // ----- what a record is made from -----

  datatype VertexData = VertexData(normal: seq<Byte>, tex: seq<Byte>, additive: nat, bone: int, position: seq<Byte>,
                                   weight: seq<Byte>)

  datatype PointData = PointData(bone: int, position: seq<Byte>, weight: seq<Byte>)

  datatype RigidData = RigidData(normal: seq<Byte>, tex: seq<Byte>, position: seq<Byte>)

  datatype Body = Blended(vertices: seq<VertexData>, points: seq<PointData>) | Rigid(bone: int, rigid: seq<RigidData>)

  datatype SurfaceData = SurfaceData(tileMode: Byte, strips: seq<seq<nat>>, body: Body)

  predicate VertexFits(v: VertexData) {
    && |v.normal| == 12 && |v.tex| == 8 && |v.position| == 12 && v.additive < 32768 && 0 <= v.bone < 127
    && |v.weight| == if v.additive == 0 then 0 else 4
  }

  predicate PointFits(p: PointData) {
    |p.position| == 12 && |p.weight| == 4 && 0 <= p.bone < 127
  }

  predicate RigidFits(v: RigidData) {
    |v.normal| == 12 && |v.tex| == 8 && |v.position| == 12
  }

  function VertexCount(body: Body): nat {
    if body.Blended? then |body.vertices| else |body.rigid|
  }

  /** The additive weights of the first n vertices. */
  function Additive(vs: seq<VertexData>, n: nat): nat
    requires n <= |vs|
  {
    if n == 0 then 0 else Additive(vs, n - 1) + vs[n - 1].additive
  }

  function Plain(vs: seq<VertexData>, n: nat): nat
    requires n <= |vs|
  {
    if n == 0 then 0 else Plain(vs, n - 1) + if vs[n - 1].additive == 0 then 1 else 0
  }

  ghost predicate BodyFits(body: Body) {
    && VertexCount(body) < 32768
    && match body
       case Blended(vs, ps) =>
         && (forall k :: 0 <= k < |vs| ==> VertexFits(vs[k])) && (forall k :: 0 <= k < |ps| ==> PointFits(ps[k]))
         && Additive(vs, |vs|) == |ps| < 32768
       case Rigid(bone, vs) => 0 <= bone < 127 && forall k :: 0 <= k < |vs| ==> RigidFits(vs[k])
  }

  ghost predicate StripsFit(strips: seq<seq<nat>>, vertexCount: nat) {
    && |strips| < 32768 && |Triangles(strips)| < 32767
    && forall s :: 0 <= s < |strips| ==> StripFits(strips[s], vertexCount)
  }

  predicate StripFits(v: seq<nat>, vertexCount: nat) {
    3 <= |v| < 256 && forall i :: 0 <= i < |v| ==> v[i] < vertexCount
  }

  /** The sizes that the fields of a record can hold. */
  ghost predicate Fits(s: SurfaceData) {
    BodyFits(s.body) && StripsFit(s.strips, VertexCount(s.body))
  }

  // ----- the bytes -----

  function Short(x: int): (b: seq<Byte>)
    requires -32768 <= x < 65536
    ensures |b| == 2
  {
    var u := if x < 0 then x + 65536 else x;
    [u % 256, u / 256]
  }

  function VertexBytes(v: VertexData): (b: seq<Byte>)
    requires VertexFits(v)
    ensures |b| == if v.additive == 0 then 36 else 40
  {
    v.normal + (v.tex + (Short(v.additive) + (Short(v.bone) + (v.position + v.weight))))
  }

  function PointBytes(p: PointData): (b: seq<Byte>)
    requires PointFits(p)
    ensures |b| == 18
  {
    Short(p.bone) + (p.position + p.weight)
  }

  function RigidBytes(v: RigidData): (b: seq<Byte>)
    requires RigidFits(v)
    ensures |b| == 32
  {
    v.normal + (v.tex + v.position)
  }

  /** Byte strings one after another. */
  function Chain(parts: seq<seq<Byte>>, n: nat): seq<Byte>
    requires n <= |parts|
  {
    if n == 0 then [] else Chain(parts, n - 1) + parts[n - 1]
  }

  ghost function VertexParts(vs: seq<VertexData>): (parts: seq<seq<Byte>>)
    requires forall k :: 0 <= k < |vs| ==> VertexFits(vs[k])
    ensures |parts| == |vs| && forall k :: 0 <= k < |vs| ==> parts[k] == VertexBytes(vs[k])
  {
    seq(|vs|, k requires 0 <= k < |vs| => VertexBytes(vs[k]))
  }

  ghost function PointParts(ps: seq<PointData>): (parts: seq<seq<Byte>>)
    requires forall k :: 0 <= k < |ps| ==> PointFits(ps[k])
    ensures |parts| == |ps| && forall k :: 0 <= k < |ps| ==> parts[k] == PointBytes(ps[k])
  {
    seq(|ps|, k requires 0 <= k < |ps| => PointBytes(ps[k]))
  }

  ghost function RigidParts(vs: seq<RigidData>): (parts: seq<seq<Byte>>)
    requires forall k :: 0 <= k < |vs| ==> RigidFits(vs[k])
    ensures |parts| == |vs| && forall k :: 0 <= k < |vs| ==> parts[k] == RigidBytes(vs[k])
  {
    seq(|vs|, k requires 0 <= k < |vs| => RigidBytes(vs[k]))
  }

  function IndexBytes(v: seq<nat>, n: nat): (b: seq<Byte>)
    requires n <= |v| && forall i :: 0 <= i < |v| ==> v[i] < 65536
    ensures |b| == 2 * n
  {
    if n == 0 then [] else IndexBytes(v, n - 1) + Short(v[n - 1])
  }

  function StripBytes(v: seq<nat>, vertexCount: nat): (b: seq<Byte>)
    requires vertexCount < 32768 && StripFits(v, vertexCount)
    ensures |b| == 1 + 2 * |v|
  {
    [|v|] + IndexBytes(v, |v|)
  }

  ghost function StripParts(strips: seq<seq<nat>>, vertexCount: nat): (parts: seq<seq<Byte>>)
    requires vertexCount < 32768 && forall s :: 0 <= s < |strips| ==> StripFits(strips[s], vertexCount)
    ensures |parts| == |strips| && forall s :: 0 <= s < |strips| ==> parts[s] == StripBytes(strips[s], vertexCount)
  {
    seq(|strips|, s requires 0 <= s < |strips| => StripBytes(strips[s], vertexCount))
  }

  ghost function HeaderBytes(s: SurfaceData): (b: seq<Byte>)
    requires Fits(s)
    ensures |b| == if s.body.Blended? then 13 else 9
  {
    [s.tileMode] +
    (Short(VertexCount(s.body)) + (Short(|Triangles(s.strips)|) + (Short(|s.strips|) + OwnerBytes(s.body))))
  }

  /** One bone for all vertices, or -1 and the sizes of the blend data. */
  ghost function OwnerBytes(body: Body): (b: seq<Byte>)
    requires BodyFits(body)
    ensures |b| == if body.Blended? then 6 else 2
  {
    match body
    case Blended(vs, ps) =>
      PlainFits(vs, |vs|);
      Short(-1) + (Short(|ps|) + Short(Plain(vs, |vs|)))
    case Rigid(bone, vs) => Short(bone)
  }

  lemma {:induction false} PlainFits(vs: seq<VertexData>, n: nat)
    requires n <= |vs|
    ensures Plain(vs, n) <= n
  {
    if n > 0 {
      PlainFits(vs, n - 1);
    }
  }

  ghost function BodyBytes(body: Body): seq<Byte>
    requires BodyFits(body)
  {
    match body
    case Blended(vs, ps) => Chain(VertexParts(vs), |vs|) + Chain(PointParts(ps), |ps|)
    case Rigid(_, vs) => Chain(RigidParts(vs), |vs|)
  }

  ghost function RecordBytes(s: SurfaceData): seq<Byte>
    requires Fits(s)
  {
    HeaderBytes(s) + (Chain(StripParts(s.strips, VertexCount(s.body)), |s.strips|) + BodyBytes(s.body))
  }

  // ----- where the bytes lie -----

  /** These bytes stand at position p. */
  ghost predicate Has(d: seq<Byte>, p: nat, b: seq<Byte>) {
    p + |b| <= |d| && d[p..p + |b|] == b
  }

  lemma HasSplit(d: seq<Byte>, p: nat, a: seq<Byte>, b: seq<Byte>)
    requires Has(d, p, a + b)
    ensures Has(d, p, a) && Has(d, p + |a|, b)
  {
    var c := a + b;
    assert d[p..p + |c|][..|a|] == a;
    assert d[p..p + |c|][|a|..] == b;
  }

  lemma ShortReads(d: seq<Byte>, p: nat, x: int)
    requires -32768 <= x < 65536 && Has(d, p, Short(x))
    ensures x < 32768 ==> I16(d, p) == x
    ensures x >= 0 ==> U16(d, p) == x
  {
    assert d[p] == d[p..p + 2][0] && d[p + 1] == d[p..p + 2][1];
  }

  lemma SliceReads(d: seq<Byte>, p: nat, b: seq<Byte>)
    requires Has(d, p, b)
    ensures Slice(d, p, |b|) == b
  {
  }

  lemma VertexReads(d: seq<Byte>, q: nat, v: VertexData, offset: nat)
    requires VertexFits(v) && Has(d, q, VertexBytes(v))
    ensures BlendVertexAt(d, q, offset) ==
            BlendVertex(offset, v.normal, v.additive, Blend(64 * v.bone, v.position), v.weight)
    ensures Slice(d, q + 12, 8) == v.tex && I16(d, q + 22) == v.bone && AdditiveAt(d, q) == v.additive
    ensures VertexEnd(d, q) == q + |VertexBytes(v)| && VertexOk(d, q)
  {
    var e := v.position + v.weight;
    var c := Short(v.bone) + e;
    var b := Short(v.additive) + c;
    HasSplit(d, q, v.normal, v.tex + b);
    HasSplit(d, q + 12, v.tex, b);
    HasSplit(d, q + 20, Short(v.additive), c);
    HasSplit(d, q + 22, Short(v.bone), e);
    HasSplit(d, q + 24, v.position, v.weight);
    hide Short, I16;
    ShortReads(d, q + 20, v.additive);
    ShortReads(d, q + 22, v.bone);
    SliceReads(d, q, v.normal);
    SliceReads(d, q + 12, v.tex);
    SliceReads(d, q + 24, v.position);
    SliceReads(d, q + 36, v.weight);
  }

  lemma PointReads(d: seq<Byte>, q: nat, p: PointData)
    requires PointFits(p) && Has(d, q, PointBytes(p))
    ensures WeightedPointAt(d, q) == WeightedPoint(Blend(64 * p.bone, p.position), p.weight)
    ensures I16(d, q) == p.bone && PointOk(d, q)
  {
    HasSplit(d, q, Short(p.bone), p.position + p.weight);
    HasSplit(d, q + 2, p.position, p.weight);
    ShortReads(d, q, p.bone);
    SliceReads(d, q + 2, p.position);
    SliceReads(d, q + 14, p.weight);
  }

  lemma RigidReads(d: seq<Byte>, q: nat, v: RigidData)
    requires RigidFits(v) && Has(d, q, RigidBytes(v))
    ensures RigidVertexAt(d, q) == RigidVertex(v.normal, v.position) && Slice(d, q + 12, 8) == v.tex
  {
    HasSplit(d, q, v.normal, v.tex + v.position);
    HasSplit(d, q + 12, v.tex, v.position);
    SliceReads(d, q, v.normal);
    SliceReads(d, q + 12, v.tex);
    SliceReads(d, q + 20, v.position);
  }

  lemma {:induction false} IndexReads(d: seq<Byte>, q: nat, v: seq<nat>, n: nat, i: nat)
    requires i < n <= |v| && forall j :: 0 <= j < |v| ==> v[j] < 65536
    requires Has(d, q, IndexBytes(v, n))
    ensures U16(d, q + 2 * i) == v[i]
  {
    HasSplit(d, q, IndexBytes(v, n - 1), Short(v[n - 1]));
    if i == n - 1 {
      ShortReads(d, q + 2 * i, v[i]);
    } else {
      IndexReads(d, q, v, n - 1, i);
    }
  }

  lemma StripReads(d: seq<Byte>, q: nat, v: seq<nat>, vertexCount: nat)
    requires vertexCount < 32768 && StripFits(v, vertexCount) && Has(d, q, StripBytes(v, vertexCount))
    ensures StripAt(d, q) == v && StripEnd(d, q) == q + |StripBytes(v, vertexCount)| && StripOk(d, q, vertexCount)
  {
    HasSplit(d, q, [|v|], IndexBytes(v, |v|));
    assert d[q] == d[q..q + 1][0] == |v|;
    forall i: nat | i < |v| ensures U16(d, q + 1 + 2 * i) == v[i] {
      IndexReads(d, q + 1, v, |v|, i);
    }
  }

  // ----- lists of records -----

  lemma ChainSplit(d: seq<Byte>, q: nat, parts: seq<seq<Byte>>, n: nat)
    requires 0 < n <= |parts| && Has(d, q, Chain(parts, n))
    ensures Has(d, q, Chain(parts, n - 1)) && Has(d, q + |Chain(parts, n - 1)|, parts[n - 1])
    ensures |Chain(parts, n)| == |Chain(parts, n - 1)| + |parts[n - 1]|
  {
    HasSplit(d, q, Chain(parts, n - 1), parts[n - 1]);
  }

  lemma ChainNone(parts: seq<seq<Byte>>)
    ensures Chain(parts, 0) == []
  {
  }

  /** The first k strips stand where the reader looks for them. */
  lemma {:induction false} StripsRead(d: seq<Byte>, q: nat, strips: seq<seq<nat>>, vertexCount: nat, n: nat)
    requires vertexCount < 32768 && forall s :: 0 <= s < |strips| ==> StripFits(strips[s], vertexCount)
    requires n <= |strips| && Has(d, q, Chain(StripParts(strips, vertexCount), n))
    ensures StripPos(d, q, n) == q + |Chain(StripParts(strips, vertexCount), n)|
    ensures Strips(d, q, n) == strips[..n] && StripsOk(d, q, n, vertexCount)
  {
    hide Strips, StripsOk, StripPos, StripOk, StripAt, StripEnd, Has, StripFits, Chain, StripBytes;
    StripsNone(d, q, vertexCount);
    ChainNone(StripParts(strips, vertexCount));
    if n > 0 {
      var parts := StripParts(strips, vertexCount);
      ChainSplit(d, q, parts, n);
      StripsRead(d, q, strips, vertexCount, n - 1);
      StripReads(d, q + |Chain(parts, n - 1)|, strips[n - 1], vertexCount);
      StripsMore(d, q, n - 1, vertexCount);
      assert strips[..n] == strips[..n - 1] + [strips[n - 1]];
    }
  }

  lemma StripsNone(d: seq<Byte>, q: nat, vertexCount: nat)
    ensures StripPos(d, q, 0) == q && Strips(d, q, 0) == [] && StripsOk(d, q, 0, vertexCount)
  {
  }

  lemma StripsMore(d: seq<Byte>, q: nat, n: nat, vertexCount: nat)
    requires StripsOk(d, q, n, vertexCount) && StripOk(d, StripPos(d, q, n), vertexCount)
    ensures StripsOk(d, q, n + 1, vertexCount) && StripPos(d, q, n + 1) == StripEnd(d, StripPos(d, q, n))
    ensures Strips(d, q, n + 1) == Strips(d, q, n) + [StripAt(d, StripPos(d, q, n))]
  {
    hide StripOk, StripAt, StripEnd;
  }

  // ----- the vertex side -----

  /** Where vertex k lies in the blend stream: 0x24 bytes for one with additive
      weights, 0x20 for one without. */
  function StreamOffset(vs: seq<VertexData>, k: nat): nat
    requires k <= |vs|
  {
    if k == 0 then 0 else StreamOffset(vs, k - 1) + if vs[k - 1].additive == 0 then 0x20 else 0x24
  }

  /** The first n vertices are read as they were laid out. */
  ghost predicate VerticesMean(d: seq<Byte>, q: nat, vs: seq<VertexData>, n: nat)
    requires n <= |vs|
  {
    && |BlendVertices(d, q, n)| == |BlendTexCoords(d, q, n)| == n
    && (forall k :: 0 <= k < n ==> VertexMeans(BlendVertices(d, q, n)[k], BlendTexCoords(d, q, n)[k], vs, k))
    && VertexBones(d, q, n) == BonesOf(vs, n)
  }

  ghost function BonesOf(vs: seq<VertexData>, n: nat): set<int>
    requires n <= |vs|
  {
    set k | 0 <= k < n :: vs[k].bone
  }

  lemma BonesMore(vs: seq<VertexData>, n: nat)
    requires n < |vs|
    ensures BonesOf(vs, n + 1) == BonesOf(vs, n) + {vs[n].bone}
  {
    forall b | b in BonesOf(vs, n) + {vs[n].bone} ensures b in BonesOf(vs, n + 1) {
      if b == vs[n].bone {
        assert vs[n].bone in BonesOf(vs, n + 1);
      }
    }
  }

  predicate VertexMeans(v: BlendVertex, tex: seq<Byte>, vs: seq<VertexData>, k: nat)
    requires k < |vs|
  {
    && v.offset == StreamOffset(vs, k) && v.normal == vs[k].normal && v.additive == vs[k].additive
    && v.blend == Blend(64 * vs[k].bone, vs[k].position) && v.weight == vs[k].weight && tex == vs[k].tex
  }

  /** What the validator counts along the first n vertices. */
  ghost predicate VerticesCount(d: seq<Byte>, q: nat, vs: seq<VertexData>, n: nat)
    requires n <= |vs|
  {
    && VerticesOk(d, q, n) && Offset(d, q, n) == StreamOffset(vs, n)
    && ZeroAdditive(d, q, n) == Plain(vs, n) && TotalAdditive(d, q, n) == Additive(vs, n)
  }

  lemma VerticesNone(d: seq<Byte>, q: nat, vs: seq<VertexData>)
    ensures VertexPos(d, q, 0) == q && VerticesMean(d, q, vs, 0) && VerticesCount(d, q, vs, 0)
  {
  }

  lemma VerticesMore(d: seq<Byte>, q: nat, vs: seq<VertexData>, n: nat)
    requires n < |vs| && VertexFits(vs[n]) && VerticesMean(d, q, vs, n) && VerticesCount(d, q, vs, n)
    requires Has(d, VertexPos(d, q, n), VertexBytes(vs[n]))
    ensures VertexPos(d, q, n + 1) == VertexPos(d, q, n) + |VertexBytes(vs[n])|
    ensures VerticesMean(d, q, vs, n + 1) && VerticesCount(d, q, vs, n + 1)
  {
    hide BlendVertexAt, Slice, I16, AdditiveAt, VertexEnd, VertexBytes, VertexFits, VertexOk, Has, BonesOf, U8;
    VertexReads(d, VertexPos(d, q, n), vs[n], Offset(d, q, n));
    BonesMore(vs, n);
    var at := VertexPos(d, q, n);
    assert VertexMeans(BlendVertexAt(d, at, Offset(d, q, n)), Slice(d, at + 12, 8), vs, n);
    hide VertexMeans;
  }

  lemma {:induction false} VerticesRead(d: seq<Byte>, q: nat, vs: seq<VertexData>, n: nat)
    requires n <= |vs| && forall k :: 0 <= k < |vs| ==> VertexFits(vs[k])
    requires Has(d, q, Chain(VertexParts(vs), n))
    ensures VertexPos(d, q, n) == q + |Chain(VertexParts(vs), n)|
    ensures VerticesMean(d, q, vs, n) && VerticesCount(d, q, vs, n)
  {
    hide VerticesMean, VerticesCount, VertexPos, Has, VertexFits, VertexBytes;
    VerticesNone(d, q, vs);
    if n > 0 {
      ChainSplit(d, q, VertexParts(vs), n);
      VerticesRead(d, q, vs, n - 1);
      VerticesMore(d, q, vs, n - 1);
    }
  }

  ghost predicate PointsMean(d: seq<Byte>, q: nat, ps: seq<PointData>, n: nat)
    requires n <= |ps|
  {
    && PointsOk(d, q, n) && |WeightedPoints(d, q, n)| == n
    && (forall k :: 0 <= k < n ==>
          WeightedPoints(d, q, n)[k] == WeightedPoint(Blend(64 * ps[k].bone, ps[k].position), ps[k].weight))
    && PointBones(d, q, n) == PointBonesOf(ps, n)
  }

  ghost function PointBonesOf(ps: seq<PointData>, n: nat): set<int>
    requires n <= |ps|
  {
    set k | 0 <= k < n :: ps[k].bone
  }

  lemma PointBonesMore(ps: seq<PointData>, n: nat)
    requires n < |ps|
    ensures PointBonesOf(ps, n + 1) == PointBonesOf(ps, n) + {ps[n].bone}
  {
    forall b | b in PointBonesOf(ps, n) + {ps[n].bone} ensures b in PointBonesOf(ps, n + 1) {
      if b == ps[n].bone {
        assert ps[n].bone in PointBonesOf(ps, n + 1);
      }
    }
  }

  lemma PointsMore(d: seq<Byte>, q: nat, ps: seq<PointData>, n: nat)
    requires n < |ps| && PointFits(ps[n]) && PointsMean(d, q, ps, n) && Has(d, PointPos(q, n), PointBytes(ps[n]))
    ensures PointsMean(d, q, ps, n + 1)
  {
    hide WeightedPointAt, I16, PointOk, Has, PointBytes, PointFits, PointBonesOf;
    PointReads(d, PointPos(q, n), ps[n]);
    PointBonesMore(ps, n);
  }

  lemma {:induction false} PointsRead(d: seq<Byte>, q: nat, ps: seq<PointData>, n: nat)
    requires n <= |ps| && forall k :: 0 <= k < |ps| ==> PointFits(ps[k])
    requires Has(d, q, Chain(PointParts(ps), n))
    ensures |Chain(PointParts(ps), n)| == 18 * n && PointsMean(d, q, ps, n)
  {
    hide Has, PointFits, PointBytes;
    if n > 0 {
      ChainSplit(d, q, PointParts(ps), n);
      PointsRead(d, q, ps, n - 1);
      hide PointsMean;
      PointsMore(d, q, ps, n - 1);
    }
  }

  ghost predicate RigidMean(d: seq<Byte>, q: nat, vs: seq<RigidData>, n: nat)
    requires n <= |vs|
  {
    && |RigidVertices(d, q, n)| == |RigidTexCoords(d, q, n)| == n
    && forall k :: 0 <= k < n ==>
         && RigidVertices(d, q, n)[k] == RigidVertex(vs[k].normal, vs[k].position)
         && RigidTexCoords(d, q, n)[k] == vs[k].tex
  }

  lemma {:induction false} RigidsRead(d: seq<Byte>, q: nat, vs: seq<RigidData>, n: nat)
    requires n <= |vs| && forall k :: 0 <= k < |vs| ==> RigidFits(vs[k])
    requires Has(d, q, Chain(RigidParts(vs), n))
    ensures |Chain(RigidParts(vs), n)| == 32 * n && RigidMean(d, q, vs, n)
  {
    hide Has, RigidFits, RigidBytes, RigidVertexAt, Slice;
    if n > 0 {
      ChainSplit(d, q, RigidParts(vs), n);
      RigidsRead(d, q, vs, n - 1);
      RigidReads(d, q + 32 * (n - 1), vs[n - 1]);
    }
  }

  // ----- the whole record -----

  ghost function HeaderOf(s: SurfaceData): Header
    requires Fits(s)
  {
    var n, ts := VertexCount(s.body), |Triangles(s.strips)|;
    match s.body
    case Blended(vs, ps) => Header(s.tileMode, n, ts, |s.strips|, -1, |ps|, Plain(vs, |vs|))
    case Rigid(bone, vs) => Header(s.tileMode, n, ts, |s.strips|, bone, 0, 0)
  }

  lemma OwnerReads(d: seq<Byte>, p: nat, body: Body)
    requires BodyFits(body) && Has(d, p, OwnerBytes(body))
    ensures match body
            case Blended(vs, ps) =>
              I16(d, p) == -1 && I16(d, p + 2) == |ps| && I16(d, p + 4) == Plain(vs, |vs|) <= |vs|
            case Rigid(bone, vs) => I16(d, p) == bone
  {
    hide Short, I16, Has;
    match body
    case Blended(vs, ps) =>
      PlainFits(vs, |vs|);
      HasSplit(d, p, Short(-1), Short(|ps|) + Short(Plain(vs, |vs|)));
      HasSplit(d, p + 2, Short(|ps|), Short(Plain(vs, |vs|)));
      ShortReads(d, p, -1);
      ShortReads(d, p + 2, |ps|);
      ShortReads(d, p + 4, Plain(vs, |vs|));
    case Rigid(bone, vs) => ShortReads(d, p, bone);
  }

  lemma HeaderReads(d: seq<Byte>, p: nat, s: SurfaceData)
    requires Fits(s) && Has(d, p, HeaderBytes(s))
    ensures HeaderAt(d, p) == HeaderOf(s) && HeaderOk(HeaderOf(s)) && HeaderEnd(HeaderOf(s), p) == p + |HeaderBytes(s)|
  {
    var owner := OwnerBytes(s.body);
    var e := Short(|s.strips|) + owner;
    var c := Short(|Triangles(s.strips)|) + e;
    var b := Short(VertexCount(s.body)) + c;
    HasSplit(d, p, [s.tileMode], b);
    assert d[p] == d[p..p + 1][0];
    HasSplit(d, p + 1, Short(VertexCount(s.body)), c);
    HasSplit(d, p + 3, Short(|Triangles(s.strips)|), e);
    HasSplit(d, p + 5, Short(|s.strips|), owner);
    hide Short, I16, Has, OwnerBytes, Triangles;
    ShortReads(d, p + 1, VertexCount(s.body));
    ShortReads(d, p + 3, |Triangles(s.strips)|);
    ShortReads(d, p + 5, |s.strips|);
    OwnerReads(d, p + 7, s.body);
  }

  /** The geometry is that of the body. */
  ghost predicate GeometrySays(g: Geometry, body: Body) {
    match body
    case Blended(vs, ps) =>
      && g.boneIndex == -1 && g.boneUsage == BonesOf(vs, |vs|) + PointBonesOf(ps, |ps|) && g.rigid == []
      && g.streamBytes == StreamOffset(vs, |vs|) && |g.blend| == |g.texCoords| == |vs| && |g.points| == |ps|
      && (forall k :: 0 <= k < |vs| ==> VertexMeans(g.blend[k], g.texCoords[k], vs, k))
      && forall k :: 0 <= k < |ps| ==>
           g.points[k] == WeightedPoint(Blend(64 * ps[k].bone, ps[k].position), ps[k].weight)
    case Rigid(bone, vs) =>
      && g.boneIndex == 64 * bone && g.boneUsage == {bone} && g.blend == [] && g.points == [] && g.streamBytes == 0
      && |g.rigid| == |g.texCoords| == |vs|
      && forall k :: 0 <= k < |vs| ==>
           g.rigid[k] == RigidVertex(vs[k].normal, vs[k].position) && g.texCoords[k] == vs[k].tex
  }

  lemma BodyReads(d: seq<Byte>, q: nat, s: SurfaceData)
    requires Fits(s) && Has(d, q, BodyBytes(s.body)) && HeaderOk(HeaderOf(s))
    ensures BodyOk(d, q, HeaderOf(s)) && BodyEnd(d, q, HeaderOf(s)) == q + |BodyBytes(s.body)|
    ensures GeometrySays(GeometryAt(d, q, HeaderOf(s)), s.body)
  {
    hide VertexFits, PointFits, RigidFits, VertexBytes, PointBytes, RigidBytes, Triangles, Chain, VertexMeans;
    hide StreamOffset, BonesOf, PointBonesOf, BlendVertices, BlendTexCoords, WeightedPoints, VertexBones, PointBones;
    match s.body
    case Blended(vs, ps) =>
      HasSplit(d, q, Chain(VertexParts(vs), |vs|), Chain(PointParts(ps), |ps|));
      VerticesRead(d, q, vs, |vs|);
      PointsRead(d, VertexPos(d, q, |vs|), ps, |ps|);
    case Rigid(bone, vs) => RigidsRead(d, q, vs, |vs|);
  }

  ghost predicate Says(c: Content, s: SurfaceData) {
    && c.tileMode == s.tileMode && c.vertexCount == VertexCount(s.body)
    && c.triangleCount == |c.triangles| && ShowsAll(s.strips, c.triangles) && GeometrySays(c.geometry, s.body)
  }

  /** Whatever stands before and after it, a record that was laid out is well
      formed, ends where it ends, and reads back as what was laid out. */
  lemma RecordReads(d: seq<Byte>, p: nat, s: SurfaceData)
    requires Fits(s) && Has(d, p, RecordBytes(s))
    ensures SurfaceOk(d, p) && SurfaceEnd(d, p) == p + |RecordBytes(s)|
    ensures StripsOf(d, p) == s.strips && Says(ContentAt(d, p), s)
  {
    hide *;
    var n, q := VertexCount(s.body), p + |HeaderBytes(s)|;
    RecordParts(d, p, s);
    HeaderReads(d, p, s);
    StripsRead(d, q, s.strips, n, |s.strips|);
    assert s.strips[..|s.strips|] == s.strips;
    BodyReads(d, StripPos(d, q, |s.strips|), s);
    HeaderFields(s);
    Assembled(d, p, s, q);
  }

  lemma RecordParts(d: seq<Byte>, p: nat, s: SurfaceData)
    requires Fits(s) && Has(d, p, RecordBytes(s))
    ensures var n, q := VertexCount(s.body), p + |HeaderBytes(s)|;
            && n < 32768 && q <= |d| && (forall i :: 0 <= i < |s.strips| ==> StripFits(s.strips[i], n))
            && var strips := Chain(StripParts(s.strips, n), |s.strips|);
               && Has(d, p, HeaderBytes(s)) && Has(d, q, strips) && Has(d, q + |strips|, BodyBytes(s.body))
               && |RecordBytes(s)| == |HeaderBytes(s)| + |strips| + |BodyBytes(s.body)|
  {
    hide HeaderBytes, BodyBytes, Triangles, StripFits;
    var q, strips := p + |HeaderBytes(s)|, Chain(StripParts(s.strips, VertexCount(s.body)), |s.strips|);
    HasSplit(d, p, HeaderBytes(s), strips + BodyBytes(s.body));
    HasSplit(d, q, strips, BodyBytes(s.body));
  }

  /** Header, strips and body make a record. */
  lemma Assembled(d: seq<Byte>, p: nat, s: SurfaceData, q: nat)
    requires Fits(s) && HeaderAt(d, p) == HeaderOf(s) && HeaderOk(HeaderOf(s)) && HeaderEnd(HeaderOf(s), p) == q <= |d|
    requires HeaderOf(s).stripCount == |s.strips| && HeaderOf(s).triangleCount == |Triangles(s.strips)|
    requires HeaderOf(s).tileMode == s.tileMode && HeaderOf(s).vertexCount == VertexCount(s.body)
    requires StripsOk(d, q, |s.strips|, VertexCount(s.body)) && Strips(d, q, |s.strips|) == s.strips
    requires BodyOk(d, StripPos(d, q, |s.strips|), HeaderOf(s))
    requires GeometrySays(GeometryAt(d, StripPos(d, q, |s.strips|), HeaderOf(s)), s.body)
    ensures SurfaceOk(d, p) && SurfaceEnd(d, p) == BodyEnd(d, StripPos(d, q, |s.strips|), HeaderOf(s))
    ensures StripsOf(d, p) == s.strips && Says(ContentAt(d, p), s)
  {
    hide HeaderAt, HeaderOf, HeaderEnd, StripsOk, Strips, StripPos, BodyOk, BodyEnd, GeometrySays, GeometryAt, ShowsAll;
    hide Triangles, Padded, Fits;
    PaddedShows(s.strips);
  }

  lemma HeaderFields(s: SurfaceData)
    requires Fits(s)
    ensures var h := HeaderOf(s);
            && h.tileMode == s.tileMode && h.vertexCount == VertexCount(s.body) && h.stripCount == |s.strips|
            && h.triangleCount == |Triangles(s.strips)|
  {
  }
}
