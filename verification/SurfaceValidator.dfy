/** The bounded pass over a surface file: it accepts exactly the well-formed
    records and stops exactly behind them. */
module SurfaceValidator {

  import opened Bytes
  import opened TriangleStrips
  import opened SurfaceFormat

  const ASSET_VERSION: int := 14

  method TakeU8(c: Cursor) returns (ok: bool, value: nat)
    requires c.Valid()
    modifies c`pos
    ensures c.Valid() && (ok <==> old(c.pos) + 1 <= |c.data|)
    ensures ok ==> c.pos == old(c.pos) + 1 && value == U8(c.data, old(c.pos))
  {
    var bytes;
    ok, bytes := c.Take(1);
    value := if ok then bytes[0] else 0;
  }

  method TakeI16(c: Cursor) returns (ok: bool, value: int)
    requires c.Valid()
    modifies c`pos
    ensures c.Valid() && (ok <==> old(c.pos) + 2 <= |c.data|)
    ensures ok ==> c.pos == old(c.pos) + 2 && value == I16(c.data, old(c.pos))
  {
    var bytes;
    value := 0;
    ok, bytes := c.Take(2);
    if ok {
      value := Word(bytes[0], bytes[1]);
      value := if value < 32768 then value else value - 65536;
    }
  }

  method Skip(c: Cursor, size: nat) returns (ok: bool)
    requires c.Valid()
    modifies c`pos
    ensures c.Valid() && (ok <==> old(c.pos) + size <= |c.data|)
    ensures ok ==> c.pos == old(c.pos) + size
  {
    var bytes;
    ok, bytes := c.Take(size);
  }

  /** The counts every surface starts with. */
  method ValidateCounts(c: Cursor) returns (ok: bool, h: Header)
    requires c.Valid()
    modifies c`pos
    ensures c.Valid() && (ok <==> old(c.pos) + 9 <= |c.data|)
    ensures ok ==> c.pos == old(c.pos) + 9
    ensures ok ==> h == HeaderAt(c.data, old(c.pos)).(weightedPoints := 0, compactVertices := 0)
  {
    var tile, vertices, triangles, strips, single;
    h := Header(0, 0, 0, 0, 0, 0, 0);
    ok, tile := TakeU8(c);
    if !ok { return; }
    ok, vertices := TakeI16(c);
    if !ok { return; }
    ok, triangles := TakeI16(c);
    if !ok { return; }
    ok, strips := TakeI16(c);
    if !ok { return; }
    ok, single := TakeI16(c);
    h := Header(tile, vertices, triangles, strips, single, 0, 0);
  }

  method ValidateHeader(c: Cursor) returns (ok: bool, h: Header)
    requires c.Valid()
    modifies c`pos
    ensures c.Valid()
    ensures var want := HeaderAt(c.data, old(c.pos));
            && (ok <==> HeaderEnd(want, old(c.pos)) <= |c.data| && HeaderOk(want))
            && (ok ==> h == want && c.pos == HeaderEnd(want, old(c.pos)))
  {
    ok, h := ValidateCounts(c);
    if !ok { return; }
    if h.vertexCount < 0 || h.triangleCount < 0 || h.stripCount < 0 ||
       (h.triangleCount == 32767 && h.triangleCount % 2 != 0)
    {
      return false, h;
    }
    if h.singleBone != NO_SINGLE_BONE {
      return 0 <= h.singleBone < MAX_BONES, h;
    }
    var points, compact;
    ok, points := TakeI16(c);
    if !ok { return; }
    ok, compact := TakeI16(c);
    if !ok { return; }
    h := h.(weightedPoints := points, compactVertices := compact);
    ok := points >= 0 && compact >= 0 && compact <= h.vertexCount;
  }

  /** One strip: bounds, the index range, and the number of triangles it makes. */
  method ValidateStrip(c: Cursor, vertexCount: nat) returns (ok: bool, made: nat)
    requires c.Valid()
    modifies c`pos
    ensures c.Valid() && (ok <==> StripOk(c.data, old(c.pos), vertexCount))
    ensures ok ==> c.pos == StripEnd(c.data, old(c.pos))
    ensures ok ==> made == |StripTriangles(StripAt(c.data, old(c.pos)))|
  {
    ghost var d, q := c.data, c.pos;
    var count, bytes;
    ok, count := TakeU8(c);
    if !ok || count < 3 {
      return false, 0;
    }
    ok, bytes := c.Take(2 * count);
    if !ok {
      return false, 0;
    }
    var v: seq<nat> := seq(count, i requires 0 <= i < count => Word(bytes[2 * i], bytes[2 * i + 1]));
    assert v == StripAt(d, q);
    for index := 0 to count
      invariant forall i :: 0 <= i < index ==> v[i] < vertexCount
    {
      if v[index] >= vertexCount {
        return false, 0;
      }
    }
    made := CountStrip(v);
  }

  method ValidateStrips(c: Cursor, h: Header) returns (ok: bool)
    requires c.Valid() && HeaderOk(h)
    modifies c`pos
    ensures c.Valid()
    ensures ok <==>
            && StripsOk(c.data, old(c.pos), h.stripCount, h.vertexCount)
            && |Triangles(Strips(c.data, old(c.pos), h.stripCount))| == h.triangleCount
    ensures ok ==> c.pos == StripPos(c.data, old(c.pos), h.stripCount)
  {
    ghost var d, q := c.data, c.pos;
    var produced := 0;
    for strip := 0 to h.stripCount
      invariant c.Valid() && c.pos == StripPos(d, q, strip)
      invariant StripsOk(d, q, strip, h.vertexCount)
      invariant produced == |Triangles(Strips(d, q, strip))|
    {
      var made;
      ok, made := ValidateStrip(c, h.vertexCount);
      if !ok { return; }
      StripsStep(d, q, strip);
      produced := produced + made;
    }
    ok := produced == h.triangleCount;
  }

  lemma StripsStep(d: seq<Byte>, q: nat, k: nat)
    ensures Triangles(Strips(d, q, k + 1)) == Triangles(Strips(d, q, k)) + StripTriangles(StripAt(d, StripPos(d, q, k)))
  {
    assert Strips(d, q, k + 1)[..k] == Strips(d, q, k);
  }

  method ValidateBlend(c: Cursor) returns (ok: bool)
    requires c.Valid()
    modifies c`pos
    ensures c.Valid() && (ok <==> old(c.pos) + 14 <= |c.data| && BoneOk(I16(c.data, old(c.pos))))
    ensures ok ==> c.pos == old(c.pos) + 14
  {
    var bone;
    ok, bone := TakeI16(c);
    if !ok || bone < 0 || bone >= MAX_BONES {
      return false;
    }
    ok := Skip(c, 12);
  }

  method ValidateVertex(c: Cursor) returns (ok: bool, additive: int)
    requires c.Valid()
    modifies c`pos
    ensures c.Valid() && (ok <==> VertexOk(c.data, old(c.pos)))
    ensures ok ==> c.pos == VertexEnd(c.data, old(c.pos)) && additive == AdditiveAt(c.data, old(c.pos))
  {
    additive := 0;
    ok := Skip(c, 20);
    if !ok { return; }
    ok, additive := TakeI16(c);
    if !ok || additive < 0 {
      return false, additive;
    }
    ok := ValidateBlend(c);
    if !ok { return; }
    if additive != 0 {
      ok := Skip(c, 4);
    }
  }

  /** The early exit on a running total never rejects a record whose total is right. */
  method ValidateVertices(c: Cursor, h: Header) returns (ok: bool)
    requires c.Valid() && HeaderOk(h)
    modifies c`pos
    ensures c.Valid()
    ensures ok <==>
            && VerticesOk(c.data, old(c.pos), h.vertexCount)
            && ZeroAdditive(c.data, old(c.pos), h.vertexCount) == h.compactVertices
            && TotalAdditive(c.data, old(c.pos), h.vertexCount) == h.weightedPoints
    ensures ok ==> c.pos == VertexPos(c.data, old(c.pos), h.vertexCount)
  {
    ghost var d, q := c.data, c.pos;
    var zero, total := 0, 0;
    for vertex := 0 to h.vertexCount
      invariant c.Valid() && c.pos == VertexPos(d, q, vertex)
      invariant VerticesOk(d, q, vertex)
      invariant zero == ZeroAdditive(d, q, vertex) && total == TotalAdditive(d, q, vertex)
    {
      var additive;
      ok, additive := ValidateVertex(c);
      if !ok { return; }
      if additive == 0 {
        zero := zero + 1;
      }
      if total > h.weightedPoints - additive {
        OverTotal(d, q, vertex + 1, h.vertexCount, h.weightedPoints);
        return false;
      }
      total := total + additive;
    }
    ok := zero == h.compactVertices && total == h.weightedPoints;
  }

  lemma OverTotal(d: seq<Byte>, q: nat, k: nat, n: nat, limit: int)
    requires k <= n && TotalAdditive(d, q, k) > limit
    ensures VerticesOk(d, q, n) ==> TotalAdditive(d, q, n) != limit
  {
    if VerticesOk(d, q, n) {
      AdditiveGrows(d, q, k, n);
    }
  }

  method ValidatePoints(c: Cursor, count: nat) returns (ok: bool)
    requires c.Valid()
    modifies c`pos
    ensures c.Valid() && (ok <==> PointsOk(c.data, old(c.pos), count))
    ensures ok ==> c.pos == PointPos(old(c.pos), count)
  {
    for point := 0 to count
      invariant c.Valid() && c.pos == PointPos(old(c.pos), point)
      invariant PointsOk(c.data, old(c.pos), point)
    {
      ok := ValidateBlend(c);
      if ok {
        ok := Skip(c, 4);
      }
      if !ok {
        assert !PointOk(c.data, PointPos(old(c.pos), point));
        return;
      }
    }
    ok := true;
  }

  /** coduo_xmodel_validate_surface accepts a record if and only if it is well
      formed, and then stands right behind it. */
  method ValidateSurface(c: Cursor) returns (ok: bool)
    requires c.Valid()
    modifies c`pos
    ensures c.Valid() && (ok <==> SurfaceOk(c.data, old(c.pos)))
    ensures ok ==> c.pos == SurfaceEnd(c.data, old(c.pos))
  {
    var h;
    ok, h := ValidateHeader(c);
    if !ok { return; }
    ok := ValidateStrips(c, h);
    if !ok { return; }
    ok := ValidateBody(c, h);
  }

  method ValidateBody(c: Cursor, h: Header) returns (ok: bool)
    requires c.Valid() && HeaderOk(h)
    modifies c`pos
    ensures c.Valid() && (ok <==> BodyOk(c.data, old(c.pos), h))
    ensures ok ==> c.pos == BodyEnd(c.data, old(c.pos), h)
  {
    if h.singleBone == NO_SINGLE_BONE {
      ok := ValidateVertices(c, h);
      if ok {
        ok := ValidatePoints(c, h.weightedPoints);
      }
    } else {
      ok := Skip(c, 32 * h.vertexCount);
    }
  }

  // ----- the file -----

  ghost predicate FileOk(d: seq<Byte>) {
    && 4 <= |d| && I16(d, 0) == ASSET_VERSION && I16(d, 2) >= 0
    && SurfacesOk(d, I16(d, 2))
  }

  /** The first n records are well formed, each starting where the one before ends. */
  ghost predicate SurfacesOk(d: seq<Byte>, n: nat) {
    forall k {:trigger SurfaceOk(d, SurfacePos(d, k))} :: 0 <= k < n ==> SurfaceOk(d, SurfacePos(d, k))
  }

  ghost function SurfacePos(d: seq<Byte>, n: nat): nat {
    if n == 0 then 4 else SurfaceEnd(d, SurfacePos(d, n - 1))
  }

  lemma SurfacesStep(d: seq<Byte>, n: nat, good: bool)
    requires SurfacesOk(d, n) && (good <==> SurfaceOk(d, SurfacePos(d, n)))
    ensures good ==> SurfacesOk(d, n + 1)
    ensures !good ==> forall m: nat :: m > n ==> !SurfacesOk(d, m)
  {
  }

  /** coduo_xmodel_validate_surfs_file. */
  method ValidateFile(d: seq<Byte>) returns (ok: bool)
    ensures ok <==> FileOk(d)
  {
    var c := new Cursor(d);
    var version, count;
    ok, version := TakeI16(c);
    if !ok || version != ASSET_VERSION {
      return false;
    }
    ok, count := TakeI16(c);
    if !ok || count < 0 {
      return false;
    }
    ok := ValidateSurfaces(c, count);
  }

  method ValidateSurfaces(c: Cursor, count: nat) returns (ok: bool)
    requires c.Valid() && c.pos == SurfacePos(c.data, 0)
    modifies c`pos
    ensures ok <==> SurfacesOk(c.data, count)
  {
    for surface := 0 to count
      invariant c.Valid() && SurfacesOk(c.data, surface) && c.pos == SurfacePos(c.data, surface)
    {
      ghost var p := c.pos;
      ok := ValidateSurface(c);
      SurfacesStep(c.data, surface, ok);
      if !ok { return; }
      assert c.pos == SurfaceEnd(c.data, p);
    }
    ok := true;
  }
}
