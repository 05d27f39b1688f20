/** What a finished pose stands for: which local rotations and translations it
    is made of, in which order, read straight off the models of the DObj. */
module PoseMeaning {
  import opened DObjLayout
  import opened Outcomes
  import opened PoseRuns
  import opened Skeleton

  // ----- reading terms -----

  /** The factors of a rotation in multiplication order. */
  function Word(q: Quat): seq<int> {
    match q
    case QuatValue(id) => [id]
    case MulFirst(part, rhs) => Word(part) + Word(rhs)
    case MulSecond(lhs, part) => Word(lhs) + Word(part)
  }

  /** A translation and the rotations it has gone through, first one first. */
  datatype Shift = Shift(turns: seq<int>, id: int)

  function Turned(s: seq<Shift>, w: seq<int>): (r: seq<Shift>)
    ensures |r| == |s|
  {
    seq(|s|, i requires 0 <= i < |s| => Shift(s[i].turns + w, s[i].id))
  }

  /** The summands of a point. */
  function Shifts(v: Vec): seq<Shift> {
    match v
    case VecValue(id) => [Shift([], id)]
    case AddBase(point, base) => Shifts(point) + Shifts(base)
    case MoveRoot(point, frame) => Turned(Shifts(point), Turn(frame)) + Origin(frame)
    case MoveChild(point, frame) => Turned(Shifts(point), Turn(frame)) + Origin(frame)
  }

  function Turn(m: Mat): seq<int> {
    match m
    case MatValue(_) => []
    case Build(rotation, _) => Word(rotation)
  }

  function Origin(m: Mat): seq<Shift> {
    match m
    case MatValue(_) => []
    case Build(_, origin) => Shifts(origin)
  }

  // ----- what a pose should be made of -----

  ghost predicate Part(d: DObj, g: int) {
    ValidDObj(d) && DistinctPerModel(d) && 0 <= g < d.boneCount
  }

  /** Index of a part among the parts of its model that have a parent in it; negative for root parts. */
  ghost function Inner(d: DObj, g: nat): (j: int)
    requires Part(d, g)
    ensures j < |d.models[OwnerOf(d, g)].deltas| == |d.models[OwnerOf(d, g)].baseTranslations|
    ensures j >= 0 ==> 1 <= d.models[OwnerOf(d, g)].deltas[j] <= g
  {
    g - d.bases[OwnerOf(d, g)] - d.models[OwnerOf(d, g)].rootCount
  }

  /** The part a part hangs on: the one its name leads to if it is a duplicate,
      the tag of its model for a root part, else its parent in the model. */
  ghost function Before(d: DObj, g: nat): (p: Option<nat>)
    requires Part(d, g)
    ensures p.Some? ==> p.value < g
  {
    var k := OwnerOf(d, g);
    if IsDuplicate(d, g) then FindOwnName(d, g); Some(FindPart(d, NameOf(d, g)))
    else if Inner(d, g) >= 0 then Some(g - d.models[k].deltas[Inner(d, g)])
    else if d.parents[k] == NO_PARENT then None
    else Some(d.parents[k])
  }

  /** A part and everything it hangs on, up to the root. */
  ghost function Path(d: DObj, g: nat): (path: seq<nat>)
    requires Part(d, g)
    ensures path != [] && path[0] == g
    ensures forall i :: 0 <= i < |path| ==> Part(d, path[i]) && path[i] <= g
    ensures forall i, j :: 0 <= i < j < |path| ==> path[j] < path[i]
  {
    [g] + if Before(d, g).None? then [] else Path(d, Before(d, g).value)
  }

  ghost predicate Parts(d: DObj, path: seq<nat>) {
    forall i :: 0 <= i < |path| ==> Part(d, path[i])
  }

  /** The rotations of the ordinary parts, from the part to the root. */
  ghost function Left(d: DObj, q: seq<Quat>, control: PartBits, path: seq<nat>): seq<int>
    requires Parts(d, path) && (path != [] ==> |q| == d.boneCount)
  {
    if path == [] then []
    else
      (if IsDuplicate(d, path[0]) || control[path[0]] then [] else Word(q[path[0]])) + Left(d, q, control, path[1..])
  }

  /** The rotations of the control parts, from the root to the part. */
  ghost function Right(d: DObj, q: seq<Quat>, control: PartBits, path: seq<nat>): seq<int>
    requires Parts(d, path) && (path != [] ==> |q| == d.boneCount)
  {
    if path == [] then []
    else
      Right(d, q, control, path[1..]) + if !IsDuplicate(d, path[0]) && control[path[0]] then Word(q[path[0]]) else []
  }

  ghost function Rotation(d: DObj, q: seq<Quat>, control: PartBits, path: seq<nat>): seq<int>
    requires Parts(d, path) && (path != [] ==> |q| == d.boneCount)
  {
    Left(d, q, control, path) + Right(d, q, control, path)
  }

  /** What a part brings along: its own translation, and behind it the base
      translation of the model unless it is a root part. */
  ghost function Own(d: DObj, v: seq<Vec>, g: nat): seq<Shift>
    requires Part(d, g) && |v| == d.boneCount
  {
    if IsDuplicate(d, g) then []
    else if Inner(d, g) < 0 then Shifts(v[g])
    else Shifts(v[g]) + Shifts(d.models[OwnerOf(d, g)].baseTranslations[Inner(d, g)])
  }

  /** Every part of the path brings its translation, turned by the rotation of
      what it hangs on. */
  ghost function Position(d: DObj, q: seq<Quat>, v: seq<Vec>, control: PartBits, path: seq<nat>): seq<Shift>
    requires Parts(d, path) && (path != [] ==> |q| == |v| == d.boneCount)
  {
    if path == [] then []
    else Turned(Own(d, v, path[0]), Rotation(d, q, control, path[1..])) + Position(d, q, v, control, path[1..])
  }

  /** The pose of a part is made of exactly what its path brings, each once. */
  ghost predicate Means(d: DObj, q: seq<Quat>, v: seq<Vec>, control: PartBits, g: nat, pose: Pose)
    requires Part(d, g) && |q| == |v| == d.boneCount
  {
    && Word(pose.quat) == Rotation(d, q, control, Path(d, g)) == Turn(pose.mat)
    && Shifts(pose.trans) == Position(d, q, v, control, Path(d, g)) == Origin(pose.mat)
  }

  // ----- it is -----

  lemma BeforeIsUp(d: DObj, g: nat)
    requires Part(d, g)
    ensures var r := RigOf(d);
            && Before(d, g) == Up(r, g) && (r.twins[g].Some? <==> IsDuplicate(d, g))
            && (!IsDuplicate(d, g) ==> (r.links[g].Child? <==> Inner(d, g) >= 0))
            && (!IsDuplicate(d, g) && Inner(d, g) >= 0 ==>
                  r.links[g].base == d.models[OwnerOf(d, g)].baseTranslations[Inner(d, g)])
  {
    assert RigOf(d).links[g] == LinkOf(d, g) && RigOf(d).twins[g] == TwinOf(d, g);
  }

  lemma {:induction false} WorldMeans(d: DObj, q: seq<Quat>, v: seq<Vec>, control: PartBits, g: nat)
    requires Part(d, g) && |q| == |v| == d.boneCount
    ensures Means(d, q, v, control, g, World(RigOf(d), q, v, control, g))
  {
    BeforeIsUp(d, g);
    var path := Path(d, g);
    if Before(d, g).None? {
      assert path == [g];
      RootMeans(d, q, v, control, g);
    } else {
      var p := Before(d, g).value;
      assert path[1..] == Path(d, p);
      WorldMeans(d, q, v, control, p);
      if IsDuplicate(d, g) {
        assert Turned(Own(d, v, g), Rotation(d, q, control, path[1..])) == [];
        EmptySums(d, q, v, control, path);
      } else {
        HungMeans(d, q, v, control, g, p);
      }
    }
  }

  lemma EmptySums(d: DObj, q: seq<Quat>, v: seq<Vec>, control: PartBits, path: seq<nat>)
    requires path != [] && Parts(d, path) && |q| == |v| == d.boneCount && IsDuplicate(d, path[0])
    ensures Rotation(d, q, control, path) == Rotation(d, q, control, path[1..])
    ensures Position(d, q, v, control, path) == Position(d, q, v, control, path[1..])
  {
    hide IsDuplicate, OwnerOf;
    var left, right := Left(d, q, control, path[1..]), Right(d, q, control, path[1..]);
    assert [] + left == left && right + [] == right;
    var rest, none := Position(d, q, v, control, path[1..]), Turned([], Rotation(d, q, control, path[1..]));
    assert none == [] && none + rest == rest;
  }

  lemma RootMeans(d: DObj, q: seq<Quat>, v: seq<Vec>, control: PartBits, g: nat)
    requires Part(d, g) && |q| == |v| == d.boneCount && Before(d, g).None?
    ensures Means(d, q, v, control, g, World(RigOf(d), q, v, control, g))
  {
    BeforeIsUp(d, g);
    var path := Path(d, g);
    assert path[1..] == [];
    if !IsDuplicate(d, g) {
      RotationStep(d, q, control, path);
    }
    TurnedNone(Shifts(v[g]));
    TurnedNone(Own(d, v, g));
  }

  lemma TurnedNone(s: seq<Shift>)
    ensures Turned(s, []) == s
  {
    forall i | 0 <= i < |s| ensures Turned(s, [])[i] == s[i] {
      assert s[i].turns + [] == s[i].turns;
    }
  }

  /** A part composed with what it hangs on. */
  lemma HungMeans(d: DObj, q: seq<Quat>, v: seq<Vec>, control: PartBits, g: nat, p: nat)
    requires Part(d, g) && |q| == |v| == d.boneCount && Before(d, g) == Some(p) && !IsDuplicate(d, g)
    requires Means(d, q, v, control, p, World(RigOf(d), q, v, control, p))
    ensures Means(d, q, v, control, g, World(RigOf(d), q, v, control, g))
  {
    hide World, Rotation, Turned, Own, IsDuplicate, Word, Shifts, Turn, Origin, Before, RigOf;
    WorldStep(d, q, v, control, g, p);
    RotationStep(d, q, control, Path(d, g));
    assert Path(d, g)[1..] == Path(d, p);
  }

  lemma RotationStep(d: DObj, q: seq<Quat>, control: PartBits, path: seq<nat>)
    requires path != [] && Parts(d, path) && |q| == d.boneCount && !IsDuplicate(d, path[0])
    ensures Rotation(d, q, control, path) ==
            if control[path[0]] then Rotation(d, q, control, path[1..]) + Word(q[path[0]])
            else Word(q[path[0]]) + Rotation(d, q, control, path[1..])
  {
    hide IsDuplicate;
    assert Part(d, path[0]);
    var left, right, own := Left(d, q, control, path[1..]), Right(d, q, control, path[1..]), Word(q[path[0]]);
    if control[path[0]] {
      assert Left(d, q, control, path) == [] + left == left;
      assert left + (right + own) == (left + right) + own;
    } else {
      assert Right(d, q, control, path) == right + [] == right;
      assert (own + left) + right == own + (left + right);
    }
  }

  /** One composition, read term by term. */
  lemma WorldStep(d: DObj, q: seq<Quat>, v: seq<Vec>, control: PartBits, g: nat, p: nat)
    requires Part(d, g) && |q| == |v| == d.boneCount && Before(d, g) == Some(p) && !IsDuplicate(d, g)
    ensures p < d.boneCount
    ensures var up, w := World(RigOf(d), q, v, control, p), World(RigOf(d), q, v, control, g);
            && Word(w.quat) == (if control[g] then Word(up.quat) + Word(q[g]) else Word(q[g]) + Word(up.quat))
            && Shifts(w.trans) == Turned(Own(d, v, g), Turn(up.mat)) + Origin(up.mat)
            && Turn(w.mat) == Word(w.quat) && Origin(w.mat) == Shifts(w.trans)
  {
    BeforeIsUp(d, g);
    hide IsDuplicate, Before, LinkOf, TwinOf;
  }

  /** In a run every finished part is made of exactly what its path brings. */
  lemma FinishedMeans(d: DObj, t: Tracked, g: nat)
    requires Part(d, g) && Settled(RigOf(d), t) && t.s.blocked[g]
    ensures Means(d, t.q, t.v, t.s.control, g, t.s.At(g))
  {
    WorldMeans(d, t.q, t.v, t.s.control, g);
  }

  /** One call on storage that has nothing finished yet: every requested part
      ends up made of exactly what its path brings. */
  lemma FreshCallMeans(d: DObj, s: Skel, req: PartBits, g: nat)
    requires Part(d, g) && s.Fits(RigOf(d)) && s.blocked == NoBits() && Closed(RigOf(d), req) && req[g]
    requires forall h :: 0 <= h < d.boneCount && req[h] && s.control[h] ==> !IsDuplicate(d, h)
    ensures Means(d, s.quats, s.trans, s.control, g, Calc(RigOf(d), s, req).At(g))
  {
    var r := RigOf(d);
    FreshSkelSettled(r, s);
    forall h | 0 <= h < |r.links| ensures !Stalls(r, s, req, h) {
      BeforeIsUp(d, h);
    }
    EvalIsWorld(r, Tracked(s, s.quats, s.trans), req, g);
    WorldMeans(d, s.quats, s.trans, s.control, g);
  }

  /** The same after any run of animation, control and skeleton calls, for the
      local poses that were written. */
  lemma RunMeans(d: DObj, s: Skel, es: seq<Event>, g: nat)
    requires Part(d, g) && s.Fits(RigOf(d)) && s.blocked == NoBits()
    requires AllowedRun(RigOf(d), Tracked(s, s.quats, s.trans), es)
    ensures var t := Run(RigOf(d), Tracked(s, s.quats, s.trans), es);
            && t.s.Fits(RigOf(d)) && |t.q| == |t.v| == d.boneCount
            && (t.s.blocked[g] ==> Means(d, t.q, t.v, t.s.control, g, t.s.At(g)))
  {
    FreshSkelSettled(RigOf(d), s);
    RunSettles(RigOf(d), Tracked(s, s.quats, s.trans), es);
    var t := Run(RigOf(d), Tracked(s, s.quats, s.trans), es);
    if t.s.blocked[g] {
      FinishedMeans(d, t, g);
    }
  }

  // ----- without rotations -----

  /** The value of a sum when rotations do nothing. */
  function Total(s: seq<Shift>, value: int -> real): real {
    if s == [] then 0.0 else value(s[0].id) + Total(s[1..], value)
  }

  lemma TotalNone(value: int -> real)
    ensures Total([], value) == 0.0
  {
  }

  lemma {:induction false} TotalAdds(a: seq<Shift>, b: seq<Shift>, value: int -> real)
    ensures Total(a + b, value) == Total(a, value) + Total(b, value)
  {
    if a == [] {
      assert a + b == b;
    } else {
      assert (a + b)[1..] == a[1..] + b;
      TotalAdds(a[1..], b, value);
    }
  }

  lemma {:induction false} TotalTurned(s: seq<Shift>, w: seq<int>, value: int -> real)
    ensures Total(Turned(s, w), value) == Total(s, value)
  {
    if s != [] {
      assert Turned(s, w)[1..] == Turned(s[1..], w);
      TotalTurned(s[1..], w, value);
    }
  }

  /** Local translations of the parts of a path and the base translations of
      those that are not root parts; duplicates bring nothing. */
  ghost function PathTotal(d: DObj, v: seq<Vec>, path: seq<nat>, value: int -> real): real
    requires Parts(d, path) && (path != [] ==> |v| == d.boneCount)
  {
    if path == [] then 0.0
    else
      var g, rest := path[0], PathTotal(d, v, path[1..], value);
      if IsDuplicate(d, g) then rest
      else if Inner(d, g) < 0 then Total(Shifts(v[g]), value) + rest
      else
        Total(Shifts(v[g]), value) + Total(Shifts(d.models[OwnerOf(d, g)].baseTranslations[Inner(d, g)]), value) + rest
  }

  /** Where rotations do nothing a pose stands at the plain sum along its path. */
  lemma {:induction false} PositionTotal(d: DObj, q: seq<Quat>, v: seq<Vec>, control: PartBits, path: seq<nat>,
                                         value: int -> real)
    requires Parts(d, path) && (path != [] ==> |q| == |v| == d.boneCount)
    ensures Total(Position(d, q, v, control, path), value) == PathTotal(d, v, path, value)
  {
    hide Rotation, Turned, OwnerOf, Total, Shifts, IsDuplicate;
    TotalNone(value);
    if path != [] {
      var own, rest := Own(d, v, path[0]), Position(d, q, v, control, path[1..]);
      var w := Rotation(d, q, control, path[1..]);
      PositionTotal(d, q, v, control, path[1..], value);
      TotalAdds(Turned(own, w), rest, value);
      TotalTurned(own, w, value);
      if Inner(d, path[0]) >= 0 {
        TotalAdds(Shifts(v[path[0]]), Shifts(d.models[OwnerOf(d, path[0])].baseTranslations[Inner(d, path[0])]), value);
      }
    }
  }
}
