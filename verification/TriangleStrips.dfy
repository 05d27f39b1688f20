/** Triangle strips: the three walkers over a strip (the counting one of the
    validator and the two that write triangles) against one definition. */
module TriangleStrips {

  datatype Triangle = Triangle(a: nat, b: nat, c: nat)

  predicate Degenerate(a: nat, b: nat, c: nat) {
    a == b || a == c || b == c
  }

  predicate Odd(k: nat) {
    k != 0 && !Odd(k - 1)
  }

  /** Corner triple k of a strip; every second one is turned so that all wind
      the same way, and degenerate ones are dropped. */
  function Window(v: seq<nat>, k: nat): seq<Triangle>
    requires k + 2 < |v|
  {
    if Degenerate(v[k], v[k + 1], v[k + 2]) then []
    else if Odd(k) then [Triangle(v[k + 1], v[k], v[k + 2])]
    else [Triangle(v[k], v[k + 1], v[k + 2])]
  }

  function Windows(v: seq<nat>, n: nat): seq<Triangle>
    requires n == 0 || n + 1 < |v|
  {
    if n == 0 then [] else Windows(v, n - 1) + Window(v, n - 1)
  }

  function StripTriangles(v: seq<nat>): seq<Triangle> {
    if |v| < 3 then [] else Windows(v, |v| - 2)
  }

  function Triangles(strips: seq<seq<nat>>): seq<Triangle> {
    if strips == [] then []
    else Triangles(strips[..|strips| - 1]) + StripTriangles(strips[|strips| - 1])
  }

  lemma {:induction false} WindowsGrow(v: seq<nat>, k: nat, n: nat)
    requires k <= n && (n == 0 || n + 1 < |v|)
    ensures Windows(v, k) <= Windows(v, n)
  {
    if k < n {
      WindowsGrow(v, k, n - 1);
    }
  }

  lemma {:induction false} TrianglesGrow(strips: seq<seq<nat>>, k: nat)
    requires k <= |strips|
    ensures Triangles(strips[..k]) <= Triangles(strips)
  {
    if k == |strips| {
      assert strips[..k] == strips;
    } else {
      var shorter := strips[..|strips| - 1];
      assert shorter[..k] == strips[..k];
      TrianglesGrow(shorter, k);
    }
  }

  lemma TrianglesStep(strips: seq<seq<nat>>, k: nat)
    requires k < |strips|
    ensures Triangles(strips[..k + 1]) == Triangles(strips[..k]) + StripTriangles(strips[k])
    ensures |Triangles(strips[..k])| + |StripTriangles(strips[k])| <= |Triangles(strips)|
  {
    assert strips[..k + 1][..k] == strips[..k];
    TrianglesGrow(strips, k + 1);
  }

  // ----- what the triangles are -----

  ghost predicate Corners(t: Triangle, v: seq<nat>) {
    t.a in v && t.b in v && t.c in v && !Degenerate(t.a, t.b, t.c)
  }

  lemma {:induction false} WindowCorners(v: seq<nat>, n: nat, i: nat)
    requires (n == 0 || n + 1 < |v|) && i < |Windows(v, n)|
    ensures Corners(Windows(v, n)[i], v)
  {
    if i < |Windows(v, n - 1)| {
      WindowCorners(v, n - 1, i);
    }
  }

  /** Every written corner is one of the strip indices, no triangle is degenerate. */
  lemma {:induction false} TriangleCorners(strips: seq<seq<nat>>, limit: nat, i: nat)
    requires forall s, k :: 0 <= s < |strips| && 0 <= k < |strips[s]| ==> strips[s][k] < limit
    requires i < |Triangles(strips)|
    ensures var t := Triangles(strips)[i];
            t.a < limit && t.b < limit && t.c < limit && !Degenerate(t.a, t.b, t.c)
  {
    var last := strips[|strips| - 1];
    var before := Triangles(strips[..|strips| - 1]);
    if i < |before| {
      TriangleCorners(strips[..|strips| - 1], limit, i);
    } else {
      WindowCorners(last, |last| - 2, i - |before|);
      assert forall x :: x in last ==> x < limit;
    }
  }

  /** The corner triple at k is three different points. */
  predicate Proper(v: seq<nat>, k: nat) {
    k + 2 < |v| && v[k] != v[k + 1] && v[k] != v[k + 2] && v[k + 1] != v[k + 2]
  }

  /** t is the triple at k: the third corner comes last, and the first two are
      swapped at every second triple. */
  predicate Faces(v: seq<nat>, k: nat, t: Triangle) {
    && k + 2 < |v| && t.c == v[k + 2]
    && if k % 2 == 0 then t.a == v[k] && t.b == v[k + 1] else t.a == v[k + 1] && t.b == v[k]
  }

  /** The triangles are those of exactly the proper triples, at these places, in order. */
  ghost predicate WoundAt(v: seq<nat>, ks: seq<nat>, ts: seq<Triangle>) {
    && |ks| == |ts|
    && (forall i, j :: 0 <= i < j < |ks| ==> ks[i] < ks[j])
    && (forall k: nat :: k in ks <==> Proper(v, k))
    && forall m :: 0 <= m < |ks| ==> Faces(v, ks[m], ts[m])
  }

  ghost predicate Wound(v: seq<nat>, ts: seq<Triangle>) {
    exists ks: seq<nat> :: WoundAt(v, ks, ts)
  }

  function Joined(parts: seq<seq<Triangle>>): seq<Triangle> {
    if parts == [] then [] else Joined(parts[..|parts| - 1]) + parts[|parts| - 1]
  }

  /** The triangles of strip after strip. */
  ghost predicate AllWound(strips: seq<seq<nat>>, ts: seq<Triangle>) {
    exists parts: seq<seq<Triangle>> :: PartsWound(strips, parts) && ts == Joined(parts)
  }

  ghost predicate PartsWound(strips: seq<seq<nat>>, parts: seq<seq<Triangle>>) {
    |parts| == |strips| && forall s :: 0 <= s < |strips| ==> Wound(strips[s], parts[s])
  }

  /** A triangle runs from p to q along one of its edges. */
  predicate Runs(t: Triangle, p: nat, q: nat) {
    (t.a == p && t.b == q) || (t.b == p && t.c == q) || (t.c == p && t.a == q)
  }

  /** The first triple keeps its order, and neighbours run through the edge they
      share in opposite directions, so all faces of a strip look the same way. */
  lemma NeighboursOppose(v: seq<nat>, ks: seq<nat>, ts: seq<Triangle>, m: nat)
    requires WoundAt(v, ks, ts) && m < |ks|
    ensures ks[m] == 0 ==> ts[m] == Triangle(v[0], v[1], v[2])
    ensures m + 1 < |ks| && ks[m + 1] == ks[m] + 1 ==>
              var p, q := v[ks[m] + 1], v[ks[m] + 2];
              (Runs(ts[m], p, q) && Runs(ts[m + 1], q, p)) || (Runs(ts[m], q, p) && Runs(ts[m + 1], p, q))
  {
    assert Faces(v, ks[m], ts[m]);
    if m + 1 < |ks| {
      assert Faces(v, ks[m + 1], ts[m + 1]);
    }
  }

  lemma {:induction false} OddIsOdd(k: nat)
    ensures Odd(k) <==> k % 2 == 1
  {
    if k > 0 {
      OddIsOdd(k - 1);
    }
  }

  /** The places of the proper ones among the first n triples. */
  ghost function Places(v: seq<nat>, n: nat): seq<nat> {
    if n == 0 then [] else Places(v, n - 1) + if Proper(v, n - 1) then [n - 1] else []
  }

  lemma {:induction false} WindowsWound(v: seq<nat>, n: nat)
    requires n == 0 || n + 1 < |v|
    ensures var ks, ts := Places(v, n), Windows(v, n);
            && |ks| == |ts|
            && (forall i, j :: 0 <= i < j < |ks| ==> ks[i] < ks[j]) && (forall i :: 0 <= i < |ks| ==> ks[i] < n)
            && (forall k: nat :: k in ks <==> k < n && Proper(v, k))
            && forall m :: 0 <= m < |ks| ==> Faces(v, ks[m], ts[m])
  {
    if n > 0 {
      WindowsWound(v, n - 1);
      OddIsOdd(n - 1);
    }
  }

  lemma StripWound(v: seq<nat>)
    ensures Wound(v, StripTriangles(v))
  {
    var n := if |v| < 3 then 0 else |v| - 2;
    WindowsWound(v, n);
    assert WoundAt(v, Places(v, n), StripTriangles(v));
  }

  ghost function PartsOf(strips: seq<seq<nat>>): (parts: seq<seq<Triangle>>)
    ensures |parts| == |strips| && forall s :: 0 <= s < |strips| ==> parts[s] == StripTriangles(strips[s])
  {
    seq(|strips|, s requires 0 <= s < |strips| => StripTriangles(strips[s]))
  }

  lemma {:induction false} TrianglesJoined(strips: seq<seq<nat>>)
    ensures Triangles(strips) == Joined(PartsOf(strips))
  {
    if strips != [] {
      var shorter := strips[..|strips| - 1];
      TrianglesJoined(shorter);
      assert PartsOf(strips)[..|strips| - 1] == PartsOf(shorter);
    }
  }

  /** The triangles of the strips stand at the front of a buffer. */
  ghost predicate Shows(strips: seq<seq<nat>>, buffer: seq<Triangle>) {
    exists n: nat :: n <= |buffer| && AllWound(strips, buffer[..n])
  }

  lemma WroteShows(strips: seq<seq<nat>>, before: seq<Triangle>, after: seq<Triangle>)
    requires Wrote(before, 0, Triangles(strips), after)
    ensures Shows(strips, after)
  {
    TrianglesWound(strips);
    assert after[..|Triangles(strips)|] == Triangles(strips);
  }

  /** The same with the buffer filled up to an even number by a point on the last corner. */
  ghost predicate ShowsAll(strips: seq<seq<nat>>, buffer: seq<Triangle>) {
    |buffer| % 2 == 0 && exists n: nat :: ShowsFirst(strips, buffer, n)
  }

  ghost predicate ShowsFirst(strips: seq<seq<nat>>, buffer: seq<Triangle>, n: nat) {
    && n <= |buffer| && AllWound(strips, buffer[..n])
    && (n < |buffer| ==>
          && n > 0 && |buffer| == n + 1
          && buffer[n].a == buffer[n].b == buffer[n].c == buffer[n - 1].c)
  }

  lemma TrianglesWound(strips: seq<seq<nat>>)
    ensures AllWound(strips, Triangles(strips))
  {
    TrianglesJoined(strips);
    forall s | 0 <= s < |strips| ensures Wound(strips[s], PartsOf(strips)[s]) {
      StripWound(strips[s]);
    }
    assert PartsWound(strips, PartsOf(strips));
  }

  // ----- the walkers -----

  /** The validator's walk counts what the writers will write. */
  method CountStrip(v: seq<nat>) returns (count: nat)
    requires |v| >= 3
    ensures count == |StripTriangles(v)|
  {
    count := 0;
    var previousB, current := v[1], v[2];
    if v[0] != previousB && v[0] != current && previousB != current {
      count := count + 1;
    }
    assert Windows(v, 1) == Windows(v, 0) + Window(v, 0);
    var vertex := 3;
    while vertex < |v|
      invariant 3 <= vertex <= |v| && Odd(vertex)
      invariant previousB == v[vertex - 2] && current == v[vertex - 1]
      invariant count == |Windows(v, vertex - 2)|
    {
      var next := v[vertex];
      assert Windows(v, vertex - 1) == Windows(v, vertex - 2) + Window(v, vertex - 2);
      if current != previousB && current != next && previousB != next {
        count := count + 1;
      }
      if |v| <= vertex + 1 {
        return;
      }
      var next2 := v[vertex + 1];
      assert Windows(v, vertex) == Windows(v, vertex - 1) + Window(v, vertex - 1);
      if current != next && current != next2 && next != next2 {
        count := count + 1;
      }
      current, previousB := next2, next;
      vertex := vertex + 2;
    }
  }

  /** `after` is `before` with `what` written at a position. */
  ghost predicate Wrote(before: seq<Triangle>, at: nat, what: seq<Triangle>, after: seq<Triangle>) {
    && at + |what| <= |before| == |after|
    && after == before[..at] + what + before[at + |what|..]
  }

  lemma WroteMore(x: seq<Triangle>, at: nat, one: seq<Triangle>, y: seq<Triangle>, two: seq<Triangle>, z: seq<Triangle>)
    requires Wrote(x, at, one, y) && Wrote(y, at + |one|, two, z)
    ensures Wrote(x, at, one + two, z)
  {
    assert y[..at + |one|] == x[..at] + one;
    assert y[at + |one| + |two|..] == x[at + |one| + |two|..];
  }

  /** Store a triangle and advance, unless two corners agree. */
  method Emit(out: array<Triangle>, at: nat, a: nat, b: nat, c: nat) returns (next: nat)
    requires Degenerate(a, b, c) || at < out.Length
    requires at <= out.Length
    modifies out
    ensures var what := if Degenerate(a, b, c) then [] else [Triangle(a, b, c)];
            Wrote(old(out[..]), at, what, out[..]) && next == at + |what|
  {
    next := at;
    if a != b && a != c && b != c {
      out[at] := Triangle(a, b, c);
      next := at + 1;
    }
  }

  /** Room for the next window is left while the whole strip fits. */
  lemma RoomFor(v: seq<nat>, k: nat, at: nat, length: nat)
    requires k + 2 < |v| && at + |StripTriangles(v)| <= length
    ensures Windows(v, k + 1) == Windows(v, k) + Window(v, k)
    ensures at + |Windows(v, k)| + |Window(v, k)| <= length
  {
    WindowsGrow(v, k + 1, |v| - 2);
  }

  /** The first k windows of the strip have been written from a position on. */
  ghost predicate Progress(start: seq<Triangle>, from: nat, v: seq<nat>, k: nat, now: seq<Triangle>, at: nat)
  {
    && (k == 0 || k + 1 < |v|)
    && from + |StripTriangles(v)| <= |now|
    && Wrote(start, from, Windows(v, k), now) && at == from + |Windows(v, k)|
  }

  method EmitWindow(ghost v: seq<nat>, ghost k: nat, ghost start: seq<Triangle>, ghost from: nat,
                    out: array<Triangle>, at: nat, a: nat, b: nat, c: nat) returns (next: nat)
    requires k + 2 < |v| && Progress(start, from, v, k, out[..], at)
    requires c == v[k + 2] && if Odd(k) then a == v[k + 1] && b == v[k] else a == v[k] && b == v[k + 1]
    modifies out
    ensures Progress(start, from, v, k + 1, out[..], next)
  {
    RoomFor(v, k, from, out.Length);
    ghost var middle := out[..];
    next := Emit(out, at, a, b, c);
    WroteMore(start, from, Windows(v, k), middle, Window(v, k), out[..]);
  }

  /** One strip of coduo_xmodel_unstrip_serialized. */
  method WriteStrip(v: seq<nat>, out: array<Triangle>, from: nat) returns (at: nat)
    requires |v| >= 3 && from + |StripTriangles(v)| <= out.Length
    modifies out
    ensures Wrote(old(out[..]), from, StripTriangles(v), out[..]) && at == from + |StripTriangles(v)|
    ensures Wound(v, out[from..at])
  {
    hide Wound;
    at := EmitWindow(v, 0, out[..], from, out, from, v[0], v[1], v[2]);
    at := WriteTail(v, old(out[..]), from, out, at);
    StripWound(v);
    assert out[from..at] == StripTriangles(v);
  }

  method WriteTail(v: seq<nat>, ghost start: seq<Triangle>, ghost from: nat, out: array<Triangle>, first: nat)
    returns (at: nat)
    requires |v| >= 3 && Progress(start, from, v, 1, out[..], first)
    modifies out
    ensures Progress(start, from, v, |v| - 2, out[..], at)
  {
    at := first;
    var previousB, current, vertex := v[1], v[2], 3;
    while vertex < |v|
      invariant 3 <= vertex <= |v| && Odd(vertex)
      invariant previousB == v[vertex - 2] && current == v[vertex - 1]
      invariant Progress(start, from, v, vertex - 2, out[..], at)
    {
      var next := v[vertex];
      at := EmitWindow(v, vertex - 2, start, from, out, at, current, previousB, next);
      if |v| <= vertex + 1 {
        return;
      }
      var next2 := v[vertex + 1];
      at := EmitWindow(v, vertex - 1, start, from, out, at, current, next, next2);
      current, previousB := next2, next;
      vertex := vertex + 2;
    }
  }

  // ----- the form with separate counts and a flat index list -----

  function Total(counts: seq<nat>): nat {
    if counts == [] then 0 else Total(counts[..|counts| - 1]) + counts[|counts| - 1]
  }

  /** Cut a flat index list into strips. */
  ghost function Cut(counts: seq<nat>, indices: seq<nat>): (strips: seq<seq<nat>>)
    requires Total(counts) <= |indices|
    ensures |strips| == |counts|
  {
    if counts == [] then []
    else
      var before := counts[..|counts| - 1];
      Cut(before, indices) + [indices[Total(before)..Total(counts)]]
  }

  ghost function Lengths(strips: seq<seq<nat>>): (counts: seq<nat>)
    ensures |counts| == |strips|
  {
    seq(|strips|, i requires 0 <= i < |strips| => |strips[i]|)
  }

  function Flatten(strips: seq<seq<nat>>): seq<nat> {
    if strips == [] then [] else Flatten(strips[..|strips| - 1]) + strips[|strips| - 1]
  }

  lemma {:induction false} CutPrefix(counts: seq<nat>, indices: seq<nat>, more: seq<nat>)
    requires Total(counts) <= |indices|
    ensures Cut(counts, indices + more) == Cut(counts, indices)
  {
    if counts != [] {
      var before := counts[..|counts| - 1];
      CutPrefix(before, indices, more);
      assert (indices + more)[Total(before)..Total(counts)] == indices[Total(before)..Total(counts)];
    }
  }

  /** Cutting undoes flattening, so the two forms see the same strips. */
  lemma {:induction false} CutFlatten(strips: seq<seq<nat>>)
    ensures Total(Lengths(strips)) == |Flatten(strips)|
    ensures Cut(Lengths(strips), Flatten(strips)) == strips
  {
    if strips != [] {
      var shorter, last := strips[..|strips| - 1], strips[|strips| - 1];
      CutFlatten(shorter);
      assert Lengths(strips)[..|strips| - 1] == Lengths(shorter);
      assert Flatten(strips) == Flatten(shorter) + last;
      CutLast(Lengths(strips), Flatten(shorter), last);
      assert strips == shorter + [last];
    }
  }

  lemma CutLast(counts: seq<nat>, indices: seq<nat>, last: seq<nat>)
    requires counts != [] && counts[|counts| - 1] == |last| && Total(counts[..|counts| - 1]) == |indices|
    ensures Total(counts) == |indices + last|
    ensures Cut(counts, indices + last) == Cut(counts[..|counts| - 1], indices) + [last]
  {
    CutPrefix(counts[..|counts| - 1], indices, last);
    assert (indices + last)[|indices|..|indices + last|] == last;
  }

  lemma {:induction false} TotalGrows(counts: seq<nat>, k: nat)
    requires k <= |counts|
    ensures Total(counts[..k]) <= Total(counts)
  {
    if k == |counts| {
      assert counts[..k] == counts;
    } else {
      assert counts[..|counts| - 1][..k] == counts[..k];
      TotalGrows(counts[..|counts| - 1], k);
    }
  }

  lemma {:induction false} CutAt(counts: seq<nat>, indices: seq<nat>, k: nat)
    requires Total(counts) <= |indices| && k < |counts|
    ensures Total(counts[..k]) + counts[k] == Total(counts[..k + 1]) <= Total(counts)
    ensures Cut(counts, indices)[k] == indices[Total(counts[..k])..Total(counts[..k + 1])]
    ensures |Cut(counts, indices)[k]| == counts[k]
  {
    TotalGrows(counts, k + 1);
    assert counts[..k + 1][..k] == counts[..k];
    if k + 1 == |counts| {
      assert counts[..k + 1] == counts;
    } else {
      var shorter := counts[..|counts| - 1];
      assert shorter[..k] == counts[..k] && shorter[..k + 1] == counts[..k + 1];
      CutAt(shorter, indices, k);
    }
  }

  /** XSurfaceUnstrip. */
  method Unstrip(counts: seq<nat>, indices: seq<nat>, out: array<Triangle>)
    requires Total(counts) <= |indices| && |Triangles(Cut(counts, indices))| <= out.Length
    modifies out
    ensures Wrote(old(out[..]), 0, Triangles(Cut(counts, indices)), out[..])
    ensures Shows(Cut(counts, indices), out[..])
  {
    hide Shows;
    ghost var strips := Cut(counts, indices);
    var p, at := 0, 0;
    for strip := 0 to |counts|
      invariant p == Total(counts[..strip]) && at == |Triangles(strips[..strip])|
      invariant Wrote(old(out[..]), 0, Triangles(strips[..strip]), out[..])
    {
      p, at := UnstripNext(counts, indices, strip, strips, old(out[..]), p, out, at);
    }
    assert strips[..|counts|] == strips;
    WroteShows(strips, old(out[..]), out[..]);
  }

  /** One strip of the flat form. */
  method UnstripNext(counts: seq<nat>, indices: seq<nat>, strip: nat, ghost strips: seq<seq<nat>>,
                     ghost start: seq<Triangle>, first: nat, out: array<Triangle>, from: nat)
    returns (p: nat, at: nat)
    requires Total(counts) <= |indices| && strips == Cut(counts, indices) && |Triangles(strips)| <= out.Length
    requires strip < |counts| && first == Total(counts[..strip]) && from == |Triangles(strips[..strip])|
    requires Wrote(start, 0, Triangles(strips[..strip]), out[..])
    modifies out
    ensures p == Total(counts[..strip + 1]) && at == |Triangles(strips[..strip + 1])|
    ensures Wrote(start, 0, Triangles(strips[..strip + 1]), out[..])
  {
    hide Total, Cut, Triangles, StripTriangles, Wrote;
    CutAt(counts, indices, strip);
    TrianglesStep(strips, strip);
    ghost var middle := out[..];
    assert strips[strip] == indices[first..first + counts[strip]];
    p, at := UnstripOne(indices, first, counts[strip], out, from);
    WroteMore(start, 0, Triangles(strips[..strip]), middle, StripTriangles(strips[strip]), out[..]);
  }

  /** A strip shorter than a triangle is stepped over. */
  method UnstripOne(indices: seq<nat>, first: nat, count: nat, out: array<Triangle>, from: nat)
    returns (p: nat, at: nat)
    requires first + count <= |indices|
    requires from + |StripTriangles(indices[first..first + count])| <= out.Length
    modifies out
    ensures p == first + count && at == from + |StripTriangles(indices[first..first + count])|
    ensures Wrote(old(out[..]), from, StripTriangles(indices[first..first + count]), out[..])
  {
    if count < 3 {
      return first + count, from;
    }
    p, at := WriteFlatStrip(indices, first, count, out, from);
  }

  /** One strip of XSurfaceUnstrip, with its running index pointer. */
  method WriteFlatStrip(indices: seq<nat>, first: nat, count: nat, out: array<Triangle>, from: nat)
    returns (p: nat, at: nat)
    requires count >= 3 && first + count <= |indices|
    requires from + |StripTriangles(indices[first..first + count])| <= out.Length
    modifies out
    ensures p == first + count
    ensures var what := StripTriangles(indices[first..first + count]);
            Wrote(old(out[..]), from, what, out[..]) && at == from + |what|
  {
    ghost var v := indices[first..first + count];
    at := EmitWindow(v, 0, out[..], from, out, from, indices[first], indices[first + 1], indices[first + 2]);
    p, at := WriteFlatTail(v, indices, first, count, old(out[..]), from, out, at);
  }

  method WriteFlatTail(ghost v: seq<nat>, indices: seq<nat>, first: nat, count: nat,
                       ghost start: seq<Triangle>, ghost from: nat, out: array<Triangle>, soFar: nat)
    returns (p: nat, at: nat)
    requires 3 <= count == |v| && first + count <= |indices|
    requires forall i :: 0 <= i < count ==> v[i] == indices[first + i]
    requires Progress(start, from, v, 1, out[..], soFar)
    modifies out
    ensures p == first + count && Progress(start, from, v, count - 2, out[..], at)
  {
    hide Progress;
    p, at := first + 3, soFar;
    var previousB, current, vertex := indices[first + 1], indices[first + 2], 3;
    while vertex < count
      invariant 3 <= vertex <= count && Odd(vertex) && p == first + vertex
      invariant previousB == v[vertex - 2] && current == v[vertex - 1]
      invariant Progress(start, from, v, vertex - 2, out[..], at)
    {
      var next := indices[p];
      assert next == v[vertex];
      at := EmitWindow(v, vertex - 2, start, from, out, at, current, previousB, next);
      if count <= vertex + 1 {
        p := p + 1;
        return;
      }
      var next2 := indices[p + 1];
      assert next2 == v[vertex + 1];
      p := p + 2;
      at := EmitWindow(v, vertex - 1, start, from, out, at, current, next, next2);
      current, previousB := next2, next;
      vertex := vertex + 2;
    }
  }
}
