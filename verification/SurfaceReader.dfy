/** The parser that trusts the validator: it indexes the file and its buffers
    with no check of its own, and needs none on a well-formed record. */
module SurfaceReader {

  import opened Bytes
  import opened TriangleStrips
  import opened SurfaceFormat
  import opened SurfaceValidator

  datatype Blend = Blend(matrixOffset: int, position: seq<Byte>)

  /** A vertex of the primary blend stream and where in that stream it lies;
      the weight is absent without additive points. */
  datatype BlendVertex = BlendVertex(offset: nat, normal: seq<Byte>, additive: int, blend: Blend, weight: seq<Byte>)

  datatype RigidVertex = RigidVertex(normal: seq<Byte>, position: seq<Byte>)

  datatype WeightedPoint = WeightedPoint(blend: Blend, weight: seq<Byte>)

  function Slice(d: seq<Byte>, p: nat, size: nat): seq<Byte> {
    if p + size <= |d| then d[p..p + size] else []
  }

  // ----- what a record means -----

  function BlendAt(d: seq<Byte>, q: nat): Blend {
    Blend(64 * I16(d, q), Slice(d, q + 2, 12))
  }

  function RecordSize(additive: int): nat {
    if additive == 0 then 0x20 else 0x24
  }

  /** The stream offset of vertex k. */
  function Offset(d: seq<Byte>, q: nat, k: nat): nat {
    if k == 0 then 0 else Offset(d, q, k - 1) + RecordSize(AdditiveAt(d, VertexPos(d, q, k - 1)))
  }

  function BlendVertexAt(d: seq<Byte>, q: nat, offset: nat): BlendVertex {
    BlendVertex(offset, Slice(d, q, 12), AdditiveAt(d, q), BlendAt(d, q + 22),
                if AdditiveAt(d, q) == 0 then [] else Slice(d, q + 36, 4))
  }

  function RigidVertexAt(d: seq<Byte>, q: nat): RigidVertex {
    RigidVertex(Slice(d, q, 12), Slice(d, q + 20, 12))
  }

  function WeightedPointAt(d: seq<Byte>, q: nat): WeightedPoint {
    WeightedPoint(BlendAt(d, q), Slice(d, q + 14, 4))
  }

  /** The blend stream and the texture coordinates of the first n vertices. */
  function BlendVertices(d: seq<Byte>, q: nat, n: nat): seq<BlendVertex> {
    if n == 0 then []
    else BlendVertices(d, q, n - 1) + [BlendVertexAt(d, VertexPos(d, q, n - 1), Offset(d, q, n - 1))]
  }

  function BlendTexCoords(d: seq<Byte>, q: nat, n: nat): seq<seq<Byte>> {
    if n == 0 then [] else BlendTexCoords(d, q, n - 1) + [Slice(d, VertexPos(d, q, n - 1) + 12, 8)]
  }

  function WeightedPoints(d: seq<Byte>, q: nat, n: nat): seq<WeightedPoint> {
    if n == 0 then [] else WeightedPoints(d, q, n - 1) + [WeightedPointAt(d, PointPos(q, n - 1))]
  }

  function RigidVertices(d: seq<Byte>, q: nat, n: nat): seq<RigidVertex> {
    if n == 0 then [] else RigidVertices(d, q, n - 1) + [RigidVertexAt(d, q + 32 * (n - 1))]
  }

  function RigidTexCoords(d: seq<Byte>, q: nat, n: nat): seq<seq<Byte>> {
    if n == 0 then [] else RigidTexCoords(d, q, n - 1) + [Slice(d, q + 32 * (n - 1) + 12, 8)]
  }

  function VertexBones(d: seq<Byte>, q: nat, n: nat): set<int> {
    if n == 0 then {} else VertexBones(d, q, n - 1) + {I16(d, VertexPos(d, q, n - 1) + 22)}
  }

  function PointBones(d: seq<Byte>, q: nat, n: nat): set<int> {
    if n == 0 then {} else PointBones(d, q, n - 1) + {I16(d, PointPos(q, n - 1))}
  }

  /** The vertex side of a surface. */
  datatype Geometry = Geometry(boneIndex: int, boneUsage: set<int>, streamBytes: nat, blend: seq<BlendVertex>,
                               rigid: seq<RigidVertex>, points: seq<WeightedPoint>, texCoords: seq<seq<Byte>>)

  function GeometryAt(d: seq<Byte>, q: nat, h: Header): Geometry
    requires HeaderOk(h)
  {
    var n := h.vertexCount;
    if h.singleBone == NO_SINGLE_BONE then
      var points := VertexPos(d, q, n);
      Geometry(NO_SINGLE_BONE, VertexBones(d, q, n) + PointBones(d, points, h.weightedPoints), Offset(d, q, n),
               BlendVertices(d, q, n), [], WeightedPoints(d, points, h.weightedPoints), BlendTexCoords(d, q, n))
    else
      Geometry(64 * h.singleBone, {h.singleBone}, 0, [], RigidVertices(d, q, n), [], RigidTexCoords(d, q, n))
  }

  /** Every bone a well-formed record uses fits the usage mask. */
  lemma {:induction false} BonesFit(d: seq<Byte>, q: nat, n: nat, points: nat, m: nat, bone: int)
    requires VerticesOk(d, q, n) && PointsOk(d, points, m)
    requires bone in VertexBones(d, q, n) + PointBones(d, points, m)
    ensures BoneOk(bone)
  {
    if n > 0 && bone in VertexBones(d, q, n) {
      assert VertexOk(d, VertexPos(d, q, n - 1));
      if bone in VertexBones(d, q, n - 1) {
        BonesFit(d, q, n - 1, points, m, bone);
      }
    } else if m > 0 {
      assert PointOk(d, PointPos(points, m - 1));
      if bone in PointBones(d, points, m - 1) {
        BonesFit(d, q, n, points, m - 1, bone);
      }
    }
  }

  /** The blend stream is exactly filled: full records for the weighted vertices
      and compact ones for the rest. */
  lemma {:induction false} OffsetCounts(d: seq<Byte>, q: nat, n: nat)
    ensures ZeroAdditive(d, q, n) <= n
    ensures Offset(d, q, n) == 0x24 * (n - ZeroAdditive(d, q, n)) + 0x20 * ZeroAdditive(d, q, n)
  {
    if n > 0 {
      OffsetCounts(d, q, n - 1);
    }
  }

  lemma {:induction false} OffsetGrows(d: seq<Byte>, q: nat, k: nat, n: nat)
    requires k <= n
    ensures Offset(d, q, k) <= Offset(d, q, n)
  {
    if k < n {
      OffsetGrows(d, q, k, n - 1);
    }
  }

  /** An odd triangle list is padded with a point triangle on the last corner. */
  function Padded(ts: seq<Triangle>): seq<Triangle> {
    if |ts| % 2 == 0 then ts
    else var c := ts[|ts| - 1].c; ts + [Triangle(c, c, c)]
  }

  // ----- the parser -----

  /** XModelReadStreamInt16. */
  method ReadI16(d: seq<Byte>, p: nat) returns (value: int, next: nat)
    requires p + 2 <= |d|
    ensures value == I16(d, p) && next == p + 2
  {
    value := Word(d[p], d[p + 1]);
    if value >= 32768 {
      value := value - 65536;
    }
    next := p + 2;
  }

  /** ReadBlend. */
  method ReadBlend(d: seq<Byte>, p: nat, bones: set<int>) returns (blend: Blend, used: set<int>, next: nat)
    requires p + 14 <= |d| && BoneOk(I16(d, p))
    ensures blend == BlendAt(d, p) && used == bones + {I16(d, p)} && next == p + 14
  {
    var bone;
    bone, next := ReadI16(d, p);
    used := bones + {bone};
    blend := Blend(64 * bone, d[next..next + 12]);
    next := next + 12;
  }

  method ReadVertex(d: seq<Byte>, p: nat, offset: nat, bones: set<int>)
    returns (v: BlendVertex, tex: seq<Byte>, used: set<int>, next: nat)
    requires VertexOk(d, p)
    ensures v == BlendVertexAt(d, p, offset) && tex == Slice(d, p + 12, 8)
    ensures used == bones + {I16(d, p + 22)} && next == VertexEnd(d, p)
  {
    var normal, additive, blend, weight := d[p..p + 12], 0, Blend(0, []), [];
    tex := d[p + 12..p + 20];
    additive, next := ReadI16(d, p + 20);
    blend, used, next := ReadBlend(d, next, bones);
    if additive != 0 {
      weight := d[next..next + 4];
      next := next + 4;
    }
    v := BlendVertex(offset, normal, additive, blend, weight);
  }

  /** The vertex loop of a blended surface. Every record lies inside the `room`
      bytes allocated for the stream, and together they fill it. */
  method ReadVertices(d: seq<Byte>, q: nat, n: nat, room: nat)
    returns (blend: seq<BlendVertex>, tex: seq<seq<Byte>>, bones: set<int>, pos: nat)
    requires VerticesOk(d, q, n) && room == Offset(d, q, n)
    ensures pos == VertexPos(d, q, n) && bones == VertexBones(d, q, n)
    ensures blend == BlendVertices(d, q, n) && tex == BlendTexCoords(d, q, n)
  {
    hide BlendVertexAt, Slice, AdditiveAt, VertexEnd, RecordSize;
    blend, tex, bones, pos := [], [], {}, q;
    var offset := 0;
    for vertex := 0 to n
      invariant pos == VertexPos(d, q, vertex) && bones == VertexBones(d, q, vertex)
      invariant offset == Offset(d, q, vertex)
      invariant blend == BlendVertices(d, q, vertex) && tex == BlendTexCoords(d, q, vertex)
    {
      var v, t;
      AdditiveHere(d, pos, offset);
      v, t, bones, pos := ReadVertex(d, pos, offset, bones);
      OffsetGrows(d, q, vertex + 1, n);
      assert offset + RecordSize(v.additive) <= room;
      offset := offset + RecordSize(v.additive);
      blend, tex := blend + [v], tex + [t];
    }
  }

  lemma AdditiveHere(d: seq<Byte>, p: nat, offset: nat)
    ensures BlendVertexAt(d, p, offset).additive == AdditiveAt(d, p)
  {
  }

  /** The weighted point loop. */
  method ReadPoints(d: seq<Byte>, q: nat, n: nat, start: set<int>)
    returns (points: seq<WeightedPoint>, bones: set<int>, pos: nat)
    requires PointsOk(d, q, n)
    ensures pos == PointPos(q, n) && bones == start + PointBones(d, q, n)
    ensures points == WeightedPoints(d, q, n)
  {
    points, bones, pos := [], start, q;
    for point := 0 to n
      invariant pos == PointPos(q, point) && bones == start + PointBones(d, q, point)
      invariant points == WeightedPoints(d, q, point)
    {
      assert PointOk(d, PointPos(q, point));
      var blend;
      blend, bones, pos := ReadBlend(d, pos, bones);
      points := points + [WeightedPoint(blend, d[pos..pos + 4])];
      pos := pos + 4;
    }
  }

  /** The vertex loop of a rigid surface. */
  method ReadRigid(d: seq<Byte>, q: nat, n: nat) returns (rigid: seq<RigidVertex>, tex: seq<seq<Byte>>, pos: nat)
    requires q + 32 * n <= |d|
    ensures pos == q + 32 * n && rigid == RigidVertices(d, q, n) && tex == RigidTexCoords(d, q, n)
  {
    rigid, tex, pos := [], [], q;
    for vertex := 0 to n
      invariant pos == q + 32 * vertex
      invariant rigid == RigidVertices(d, q, vertex) && tex == RigidTexCoords(d, q, vertex)
    {
      rigid := rigid + [RigidVertex(d[pos..pos + 12], d[pos + 20..pos + 32])];
      tex := tex + [d[pos + 12..pos + 20]];
      pos := pos + 32;
    }
  }

  method SkipStrips(d: seq<Byte>, q: nat, n: nat, ghost vertexCount: int) returns (pos: nat)
    requires StripsOk(d, q, n, vertexCount)
    ensures pos == StripPos(d, q, n)
  {
    pos := q;
    for strip := 0 to n
      invariant pos == StripPos(d, q, strip)
    {
      assert StripOk(d, StripPos(d, q, strip), vertexCount);
      pos := pos + 1 + 2 * (d[pos] as int);
    }
  }

  /** The strip record at a position holds these indices. */
  ghost predicate RecordHere(d: seq<Byte>, p: nat, v: seq<nat>) {
    p < |d| && StripEnd(d, p) <= |d| && v == StripAt(d, p) && |v| >= 3
  }

  ghost predicate RecordsHere(d: seq<Byte>, q: nat, strips: seq<seq<nat>>) {
    forall k :: 0 <= k < |strips| ==> RecordHere(d, StripPos(d, q, k), strips[k])
  }

  lemma RecordsAreHere(d: seq<Byte>, q: nat, n: nat, vertexCount: int)
    requires StripsOk(d, q, n, vertexCount)
    ensures RecordsHere(d, q, Strips(d, q, n))
  {
    forall k | 0 <= k < n
      ensures RecordHere(d, StripPos(d, q, k), Strips(d, q, n)[k])
    {
      assert StripOk(d, StripPos(d, q, k), vertexCount);
    }
  }

  /** coduo_xmodel_unstrip_serialized. */
  method UnstripSerialized(d: seq<Byte>, q: nat, n: nat, ghost strips: seq<seq<nat>>, out: array<Triangle>)
    requires |strips| == n && RecordsHere(d, q, strips) && |Triangles(strips)| <= out.Length
    modifies out
    ensures Wrote(old(out[..]), 0, Triangles(strips), out[..]) && Shows(strips, out[..])
  {
    hide Shows, RecordHere, StripPos, Wrote, StripTriangles;
    var pos, at := q, 0;
    NothingUnstripped(d, q, old(out[..]), strips);
    for strip := 0 to n
      invariant pos == StripPos(d, q, strip) && Unstripped(old(out[..]), strips, strip, out[..], at)
    {
      assert RecordHere(d, pos, strips[strip]);
      pos, at := UnstripNext(d, pos, old(out[..]), strips, strip, out, at);
      StripPosNext(d, q, strip);
    }
    assert strips[..n] == strips;
    WroteShows(strips, old(out[..]), out[..]);
  }

  lemma NothingUnstripped(d: seq<Byte>, q: nat, start: seq<Triangle>, strips: seq<seq<nat>>)
    ensures StripPos(d, q, 0) == q && Unstripped(start, strips, 0, start, 0)
  {
  }

  lemma StripPosNext(d: seq<Byte>, q: nat, k: nat)
    ensures StripPos(d, q, k + 1) == StripEnd(d, StripPos(d, q, k))
  {
  }

  /** The triangles of the first k strips stand at the front of the buffer. */
  ghost predicate Unstripped(start: seq<Triangle>, strips: seq<seq<nat>>, k: nat, now: seq<Triangle>, at: nat)
  {
    && k <= |strips| && at == |Triangles(strips[..k])|
    && Wrote(start, 0, Triangles(strips[..k]), now)
  }

  method UnstripNext(d: seq<Byte>, p: nat, ghost start: seq<Triangle>, ghost strips: seq<seq<nat>>, ghost k: nat,
                     out: array<Triangle>, from: nat) returns (next: nat, at: nat)
    requires k < |strips| && RecordHere(d, p, strips[k])
    requires |Triangles(strips)| <= out.Length && Unstripped(start, strips, k, out[..], from)
    modifies out
    ensures next == StripEnd(d, p) && Unstripped(start, strips, k + 1, out[..], at)
  {
    TrianglesStep(strips, k);
    ghost var middle := out[..];
    next, at := UnstripRecord(d, p, strips[k], out, from);
    WroteMore(start, 0, Triangles(strips[..k]), middle, StripTriangles(strips[k]), out[..]);
  }

  method UnstripRecord(d: seq<Byte>, p: nat, ghost v: seq<nat>, out: array<Triangle>, from: nat)
    returns (next: nat, at: nat)
    requires RecordHere(d, p, v)
    requires from + |StripTriangles(v)| <= out.Length
    modifies out
    ensures next == StripEnd(d, p) && at == from + |StripTriangles(v)|
    ensures Wrote(old(out[..]), from, StripTriangles(v), out[..])
  {
    at := WriteStrip(ReadStrip(d, p), out, from);
    next := p + 1 + 2 * (d[p] as int);
  }

  function ReadStrip(d: seq<Byte>, p: nat): (v: seq<nat>)
    requires p < |d| && StripEnd(d, p) <= |d|
    ensures v == StripAt(d, p)
  {
    seq(d[p], i requires 0 <= i < d[p] => Word(d[p + 1 + 2 * i], d[p + 2 + 2 * i]))
  }

  /** Both unstrip forms write the same triangles for the same strips. */
  lemma FormsAgree(d: seq<Byte>, q: nat, n: nat)
    ensures var strips := Strips(d, q, n);
            && Total(Lengths(strips)) == |Flatten(strips)|
            && Triangles(Cut(Lengths(strips), Flatten(strips))) == Triangles(strips)
  {
    CutFlatten(Strips(d, q, n));
  }

  /** The vertex and point loops, with the sizes allocated from the header. */
  method ReadGeometry(d: seq<Byte>, q: nat, h: Header) returns (g: Geometry, next: nat)
    requires HeaderOk(h) && BodyOk(d, q, h)
    ensures g == GeometryAt(d, q, h) && next == BodyEnd(d, q, h)
    ensures h.singleBone == NO_SINGLE_BONE ==>
              g.streamBytes == 0x24 * (h.vertexCount - h.compactVertices) + 0x20 * h.compactVertices
  {
    var n := h.vertexCount;
    if h.singleBone == NO_SINGLE_BONE {
      var room := 0x24 * (n - h.compactVertices) + 0x20 * h.compactVertices;
      OffsetCounts(d, q, n);
      var blend, tex, bones, points;
      blend, tex, bones, next := ReadVertices(d, q, n, room);
      points, bones, next := ReadPoints(d, next, h.weightedPoints, bones);
      g := Geometry(NO_SINGLE_BONE, bones, room, blend, [], points, tex);
    } else {
      var rigid, tex;
      rigid, tex, next := ReadRigid(d, q, n);
      g := Geometry(64 * h.singleBone, {h.singleBone}, 0, [], rigid, [], tex);
    }
  }

  /** The triangle buffer: the declared number, rounded up to an even one. */
  method ReadTriangles(d: seq<Byte>, q: nat, stripCount: nat, ghost strips: seq<seq<nat>>, triangleCount: nat)
    returns (out: array<Triangle>)
    requires |strips| == stripCount && RecordsHere(d, q, strips) && |Triangles(strips)| == triangleCount
    ensures fresh(out) && out[..] == Padded(Triangles(strips)) && ShowsAll(strips, out[..])
  {
    hide Shows, ShowsAll;
    var count := triangleCount + triangleCount % 2;
    out := new Triangle[count](_ => Triangle(0, 0, 0));
    UnstripSerialized(d, q, stripCount, strips, out);
    PadTriangles(out, triangleCount, Triangles(strips));
    PaddedShows(strips);
  }

  lemma PaddedShows(strips: seq<seq<nat>>)
    ensures ShowsAll(strips, Padded(Triangles(strips)))
  {
    hide Triangles, AllWound;
    var ts := Triangles(strips);
    TrianglesWound(strips);
    assert Padded(ts)[..|ts|] == ts;
    assert ShowsFirst(strips, Padded(ts), |ts|);
  }

  method PadTriangles(out: array<Triangle>, n: nat, ghost ts: seq<Triangle>)
    requires |ts| == n && out.Length == n + n % 2 && Wrote(out[..], 0, ts, out[..])
    modifies out
    ensures out[..] == Padded(ts)
  {
    assert out[..n] == ts;
    if n % 2 != 0 {
      var repeated := out[n - 1].c;
      out[n] := Triangle(repeated, repeated, repeated);
      assert out[..n] == ts;
    }
  }

  class Surface {
    var tileMode: nat
    var vertexCount: int
    var triangleCount: int
    var geometry: Geometry
    var triangles: array<Triangle>

    constructor ()
    {
      tileMode, vertexCount, triangleCount := 0, 0, 0;
      geometry := Geometry(0, {}, 0, [], [], [], []);
      triangles := new Triangle[0];
    }

    ghost function Value(): Content
      reads this, triangles
    {
      Content(tileMode, vertexCount, triangleCount, triangles[..], geometry)
    }

    /** XModelReadSurface: on every record the validator accepts it ends where
        the validator ended and holds exactly what the record says. */
    method Read(d: seq<Byte>, p: nat) returns (next: nat, ghost content: Content)
      requires SurfaceOk(d, p)
      modifies this
      ensures fresh(triangles) && Value() == content && Wanted(d, p, content) && next == SurfaceEnd(d, p)
      ensures ShowsAll(StripsOf(d, p), triangles[..])
    {
      hide ShowsAll, Strips, SurfaceOk, SurfaceEnd;
      WantedShows(d, p);
      var h, g, out;
      h, g, out, next, content := ReadContent(d, p);
      tileMode, vertexCount, triangleCount, geometry, triangles := h.tileMode, h.vertexCount, out.Length, g, out;
    }
  }

  method ReadContent(d: seq<Byte>, p: nat)
    returns (h: Header, g: Geometry, out: array<Triangle>, next: nat, ghost content: Content)
    requires SurfaceOk(d, p)
    ensures fresh(out) && content == Content(h.tileMode, h.vertexCount, out.Length, out[..], g)
    ensures Wanted(d, p, content) && next == SurfaceEnd(d, p)
  {
    var q;
    h, q := ReadHeader(d, p);
    g, out, next := ReadBody(d, q, h);
    content := Content(h.tileMode, h.vertexCount, out.Length, out[..], g);
    assert out.Length == |Padded(Triangles(Strips(d, q, h.stripCount)))|;
  }

  datatype Content = Content(tileMode: nat, vertexCount: int, triangleCount: int, triangles: seq<Triangle>,
                             geometry: Geometry)

  /** What the record at a position says. */
  ghost function ContentAt(d: seq<Byte>, p: nat): Content
    requires SurfaceOk(d, p)
  {
    var h := HeaderAt(d, p);
    var q := HeaderEnd(h, p);
    var ts := Padded(Triangles(Strips(d, q, h.stripCount)));
    Content(h.tileMode, h.vertexCount, |ts|, ts, GeometryAt(d, StripPos(d, q, h.stripCount), h))
  }

  method ReadBody(d: seq<Byte>, q: nat, h: Header) returns (g: Geometry, out: array<Triangle>, next: nat)
    requires HeaderOk(h) && StripsOk(d, q, h.stripCount, h.vertexCount)
    requires |Triangles(Strips(d, q, h.stripCount))| == h.triangleCount
    requires BodyOk(d, StripPos(d, q, h.stripCount), h)
    ensures g == GeometryAt(d, StripPos(d, q, h.stripCount), h)
    ensures next == BodyEnd(d, StripPos(d, q, h.stripCount), h)
    ensures fresh(out) && out[..] == Padded(Triangles(Strips(d, q, h.stripCount)))
  {
    RecordsAreHere(d, q, h.stripCount, h.vertexCount);
    var body := SkipStrips(d, q, h.stripCount, h.vertexCount);
    g, next := ReadGeometry(d, body, h);
    out := ReadTriangles(d, q, h.stripCount, Strips(d, q, h.stripCount), h.triangleCount);
  }

  method ReadHeader(d: seq<Byte>, p: nat) returns (h: Header, next: nat)
    requires HeaderEnd(HeaderAt(d, p), p) <= |d|
    ensures h == HeaderAt(d, p) && next == HeaderEnd(h, p)
  {
    var vertices, triangles, strips, single;
    vertices, next := ReadI16(d, p + 1);
    triangles, next := ReadI16(d, next);
    strips, next := ReadI16(d, next);
    single, next := ReadI16(d, next);
    var points, compact := 0, 0;
    if single == NO_SINGLE_BONE {
      points, next := ReadI16(d, next);
      compact, next := ReadI16(d, next);
    }
    h := Header(d[p], vertices, triangles, strips, single, points, compact);
  }

  ghost predicate Loaded(s: Surface, d: seq<Byte>, p: nat)
    reads s, s.triangles
  {
    SurfaceOk(d, p) && s.Value() == ContentAt(d, p)
  }

  /** XModelSurfsPrecache: a file is rejected as malformed, or every surface of
      it is loaded from where the one before ended. */
  method LoadFile(d: seq<Byte>) returns (ok: bool, surfaces: seq<Surface>)
    ensures ok <==> FileOk(d)
    ensures ok ==> |surfaces| == I16(d, 2)
    ensures ok ==> forall i :: 0 <= i < |surfaces| ==> Loaded(surfaces[i], d, SurfacePos(d, i))
  {
    surfaces := [];
    ok := ValidateFile(d);
    if !ok {
      return;
    }
    var count, pos := ReadI16(d, 2);
    ghost var want;
    surfaces, want := ReadSurfaces(d, count);
    AllLoaded(d, surfaces, want);
  }

  method ReadSurfaces(d: seq<Byte>, count: nat) returns (surfaces: seq<Surface>, ghost want: seq<Content>)
    requires SurfacesOk(d, count)
    ensures |surfaces| == |want| == count && AllWanted(d, want)
    ensures forall i :: 0 <= i < count ==> surfaces[i].Value() == want[i]
  {
    surfaces, want := [], [];
    var pos := 4;
    for index := 0 to count
      invariant |surfaces| == |want| == index && pos == SurfacePos(d, index)
      invariant forall i :: 0 <= i < index ==> surfaces[i].Value() == want[i]
      invariant AllWanted(d, want)
    {
      var surface;
      ghost var content;
      surface, content, pos := ReadNext(d, pos, want, count);
      surfaces, want := surfaces + [surface], want + [content];
    }
  }

  lemma AllLoaded(d: seq<Byte>, surfaces: seq<Surface>, want: seq<Content>)
    requires |surfaces| == |want|
    requires forall i :: 0 <= i < |want| ==> surfaces[i].Value() == want[i]
    requires AllWanted(d, want)
    ensures forall i :: 0 <= i < |want| ==> Loaded(surfaces[i], d, SurfacePos(d, i))
  {
    forall i | 0 <= i < |want|
      ensures Loaded(surfaces[i], d, SurfacePos(d, i))
    {
      assert Wanted(d, SurfacePos(d, i), want[i]);
    }
  }

  ghost predicate AllWanted(d: seq<Byte>, want: seq<Content>) {
    forall i {:trigger Wanted(d, SurfacePos(d, i), want[i])} ::
      0 <= i < |want| ==> Wanted(d, SurfacePos(d, i), want[i])
  }

  lemma MoreWanted(d: seq<Byte>, want: seq<Content>, content: Content)
    requires AllWanted(d, want) && Wanted(d, SurfacePos(d, |want|), content)
    ensures AllWanted(d, want + [content])
  {
    forall i | 0 <= i < |want + [content]|
      ensures Wanted(d, SurfacePos(d, i), (want + [content])[i])
    {
      if i < |want| {
        assert Wanted(d, SurfacePos(d, i), want[i]);
      }
    }
  }

  /** The strips of the record at a position. */
  ghost function StripsOf(d: seq<Byte>, p: nat): seq<seq<nat>>
    requires SurfaceOk(d, p)
  {
    var h := HeaderAt(d, p);
    Strips(d, HeaderEnd(h, p), h.stripCount)
  }

  lemma WantedShows(d: seq<Byte>, p: nat)
    requires SurfaceOk(d, p)
    ensures ShowsAll(StripsOf(d, p), ContentAt(d, p).triangles)
  {
    PaddedShows(StripsOf(d, p));
  }

  ghost predicate Wanted(d: seq<Byte>, p: nat, content: Content) {
    SurfaceOk(d, p) && content == ContentAt(d, p)
  }

  method ReadNext(d: seq<Byte>, p: nat, ghost before: seq<Content>, ghost count: nat)
    returns (surface: Surface, ghost content: Content, next: nat)
    requires SurfacesOk(d, count) && |before| < count && p == SurfacePos(d, |before|) && AllWanted(d, before)
    ensures surface.Value() == content && AllWanted(d, before + [content])
    ensures next == SurfacePos(d, |before| + 1)
  {
    assert SurfaceOk(d, SurfacePos(d, |before|));
    surface := new Surface();
    next, content := surface.Read(d, p);
    MoreWanted(d, before, content);
  }
}
