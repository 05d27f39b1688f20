/** What every run of pose operations keeps: finished parts hold the recursive
    world pose, unfinished parts their local pose. */
module PoseRuns {
  import opened DObjLayout
  import opened Skeleton
  import opened Outcomes

  /** The pose of a part in model space, by recursion along the rig alone. */
  ghost function World(r: Rig, q: seq<Quat>, v: seq<Vec>, control: PartBits, g: nat): Pose
    requires ValidRig(r) && |q| == |v| == |r.links| && g < |r.links|
  {
    if r.twins[g].Some? then World(r, q, v, control, r.twins[g].value)
    else if r.links[g].Loose? then RootPose(q[g], v[g])
    else Compose(r.links[g], control[g], q[g], v[g], World(r, q, v, control, r.links[g].parent))
  }

  /** Poses above a closed part set do not matter inside it. */
  lemma {:induction false} WorldFrame(r: Rig, q: seq<Quat>, v: seq<Vec>, c: PartBits,
                                      q': seq<Quat>, v': seq<Vec>, c': PartBits, bits: PartBits, g: nat)
    requires ValidRig(r) && |q| == |v| == |q'| == |v'| == |r.links| && g < |r.links|
    requires Closed(r, bits) && bits[g]
    requires forall h :: 0 <= h < |r.links| && bits[h] ==> q[h] == q'[h] && v[h] == v'[h] && c[h] == c'[h]
    ensures World(r, q, v, c, g) == World(r, q', v', c', g)
  {
    if Up(r, g).Some? {
      WorldFrame(r, q, v, c, q', v', c', bits, Up(r, g).value);
    }
  }

  /** Storage together with the local poses that were put into it. */
  datatype Tracked = Tracked(s: Skel, q: seq<Quat>, v: seq<Vec>)

  ghost predicate Settled(r: Rig, t: Tracked)
    requires ValidRig(r)
  {
    && t.s.Fits(r) && |t.q| == |t.v| == |r.links|
    && Closed(r, t.s.blocked)
    && (forall g :: 0 <= g < |r.links| && t.s.blocked[g] ==> t.s.At(g) == World(r, t.q, t.v, t.s.control, g))
    && (forall g :: 0 <= g < |r.links| && !t.s.blocked[g] ==> t.s.quats[g] == t.q[g] && t.s.trans[g] == t.v[g])
    && (forall g :: 0 <= g < |r.links| && t.s.blocked[g] ==> t.s.evaluated[g])
  }

  ghost predicate NoStall(r: Rig, s: Skel, req: PartBits)
    requires ValidRig(r)
  {
    forall g :: 0 <= g < |r.links| ==> !Stalls(r, s, req, g)
  }

  /** One call finishes exactly the requested parts, each composed once. */
  lemma {:induction false} EvalIsWorld(r: Rig, t: Tracked, req: PartBits, g: nat)
    requires ValidRig(r) && Settled(r, t) && Closed(r, req) && NoStall(r, t.s, req)
    requires g < |r.links| && (req[g] || t.s.blocked[g])
    ensures Eval(r, t.s, req, g) == World(r, t.q, t.v, t.s.control, g)
  {
    if Fresh(t.s, req, g) {
      assert !Stalls(r, t.s, req, g);
      if Up(r, g).Some? {
        EvalIsWorld(r, t, req, Up(r, g).value);
      }
    }
  }

  lemma CalcSettles(r: Rig, t: Tracked, req: PartBits)
    requires ValidRig(r) && Settled(r, t) && Closed(r, req) && NoStall(r, t.s, req)
    requires forall g :: 0 <= g < |r.links| && req[g] ==> t.s.evaluated[g]
    ensures Settled(r, t.(s := Calc(r, t.s, req)))
  {
    forall g | 0 <= g < |r.links| && (req[g] || t.s.blocked[g])
      ensures Calc(r, t.s, req).At(g) == World(r, t.q, t.v, t.s.control, g)
    {
      EvalIsWorld(r, t, req, g);
    }
    var s' := Calc(r, t.s, req);
    forall g | 0 <= g < |r.links| && !s'.blocked[g] ensures s'.quats[g] == t.q[g] && s'.trans[g] == t.v[g] {
      assert s'.At(g) == t.s.At(g);
    }
  }

  // ----- runs -----

  /** DObjCalcAnim writes the poses of requested parts that have none yet;
      DObjSetRotTransIndex and its control form let a caller write one pose;
      DObjCalcSkel finishes parts. */
  datatype Event =
    | CalcAnim(req: PartBits, quats: seq<Quat>, trans: seq<Vec>)
    | SetPose(req: PartBits, part: int, asControl: bool, quat: Quat, point: Vec)
    | CalcSkel(req: PartBits)

  ghost function Pick<T>(n: nat, bits: seq<bool>, a: seq<T>, b: seq<T>): (r: seq<T>)
    requires |a| == |b| == n <= |bits|
    ensures |r| == n && forall i :: 0 <= i < n ==> r[i] == if bits[i] then a[i] else b[i]
  {
    seq(n, i requires 0 <= i < n => if bits[i] then a[i] else b[i])
  }

  /** Parts whose animated pose DObjCalcAnim writes. */
  ghost function Unevaluated(s: Skel, req: PartBits): (r: PartBits)
    ensures forall i :: 0 <= i < MASK_BITS ==> r[i] == (req[i] && !s.evaluated[i])
  {
    seq(MASK_BITS, i requires 0 <= i < MASK_BITS => req[i] && !s.evaluated[i])
  }

  ghost predicate WellFormed(r: Rig, e: Event) {
    e.CalcAnim? ==> |e.quats| == |e.trans| == |r.links|
  }

  /** The guard of DObjSetRotTransIndex and DObjSetControlRotTransIndex. */
  ghost predicate MaySet(r: Rig, s: Skel, req: PartBits, part: int)
    requires |r.links| <= MAX_BONES
  {
    0 <= part < |r.links| && req[part] && !s.blocked[part]
  }

  ghost function Step(r: Rig, t: Tracked, e: Event): Tracked
    requires ValidRig(r) && t.s.Fits(r) && |t.q| == |t.v| == |r.links| && WellFormed(r, e)
  {
    match e
    case CalcAnim(_, _, _) => Animate(r, t, e.req, e.quats, e.trans)
    case SetPose(_, _, _, _, _) =>
      if MaySet(r, t.s, e.req, e.part) then Put(r, t, e.part, e.asControl, e.quat, e.point) else t
    case CalcSkel(_) => Tracked(Calc(r, t.s, e.req), t.q, t.v)
  }

  ghost function Animate(r: Rig, t: Tracked, req: PartBits, q: seq<Quat>, v: seq<Vec>): Tracked
    requires t.s.Fits(r) && |t.q| == |t.v| == |q| == |v| == |r.links| <= MAX_BONES
  {
    Tracked(
      Skel(Pick(|q|, Unevaluated(t.s, req), q, t.s.quats), Pick(|v|, Unevaluated(t.s, req), v, t.s.trans), t.s.mats,
           Or(t.s.evaluated, req), t.s.control, t.s.blocked),
      Pick(|q|, Unevaluated(t.s, req), q, t.q), Pick(|v|, Unevaluated(t.s, req), v, t.v))
  }

  ghost function Put(r: Rig, t: Tracked, part: nat, asControl: bool, quat: Quat, point: Vec): Tracked
    requires t.s.Fits(r) && part < |t.q| == |t.v| == |r.links| <= MAX_BONES
  {
    Tracked(WithPose(t.s, part, asControl, quat, point), t.q[part := quat], t.v[part := point])
  }

  /** What callers of DObjCalcSkel guarantee: the request is closed under
      predecessors, its parts have poses, and no fresh duplicate is a control part. */
  ghost predicate Allowed(r: Rig, s: Skel, e: Event)
    requires ValidRig(r)
  {
    e.CalcSkel? ==>
      && Closed(r, e.req) && NoStall(r, s, e.req)
      && forall g :: 0 <= g < |r.links| && e.req[g] ==> s.evaluated[g]
  }

  lemma StepSettles(r: Rig, t: Tracked, e: Event)
    requires ValidRig(r) && Settled(r, t) && WellFormed(r, e) && Allowed(r, t.s, e)
    ensures Settled(r, Step(r, t, e))
  {
    if e.CalcSkel? {
      CalcSettles(r, t, e.req);
    } else {
      var t' := Step(r, t, e);
      forall g | 0 <= g < |r.links| && t.s.blocked[g]
        ensures World(r, t'.q, t'.v, t'.s.control, g) == World(r, t.q, t.v, t.s.control, g)
      {
        WorldFrame(r, t'.q, t'.v, t'.s.control, t.q, t.v, t.s.control, t.s.blocked, g);
      }
    }
  }

  ghost predicate AllowedRun(r: Rig, t: Tracked, es: seq<Event>)
    requires ValidRig(r) && t.s.Fits(r) && |t.q| == |t.v| == |r.links|
    decreases |es|
  {
    es == [] || (WellFormed(r, es[0]) && Allowed(r, t.s, es[0]) && AllowedRun(r, Step(r, t, es[0]), es[1..]))
  }

  ghost function Run(r: Rig, t: Tracked, es: seq<Event>): Tracked
    requires ValidRig(r) && t.s.Fits(r) && |t.q| == |t.v| == |r.links| && AllowedRun(r, t, es)
    decreases |es|
  {
    if es == [] then t else Run(r, Step(r, t, es[0]), es[1..])
  }

  /** Over any run every finished part holds exactly its world pose, computed
      from the local poses written before it was finished, and every other part
      still holds its local pose. */
  lemma {:induction false} RunSettles(r: Rig, t: Tracked, es: seq<Event>)
    requires ValidRig(r) && Settled(r, t) && AllowedRun(r, t, es)
    ensures Settled(r, Run(r, t, es))
    decreases |es|
  {
    if es != [] {
      StepSettles(r, t, es[0]);
      RunSettles(r, Step(r, t, es[0]), es[1..]);
    }
  }

  /** Storage made by DObjCreateSkel starts settled. */
  lemma FreshSkelSettled(r: Rig, s: Skel)
    requires ValidRig(r) && s.Fits(r) && s.blocked == NoBits()
    ensures Settled(r, Tracked(s, s.quats, s.trans))
  {
  }

  // ----- control parts found by name -----

  /** A control pose goes to the part some tag lookup found. */
  ghost predicate ByTag(d: DObj, e: Event)
    requires ValidDObj(d)
  {
    e.SetPose? && e.asControl ==> exists name :: FindPart(d, name) == e.part
  }

  /** What callers guarantee when they set control poses by tag only. */
  ghost predicate TagRun(d: DObj, t: Tracked, es: seq<Event>)
    requires ValidDObj(d) && DistinctPerModel(d)
    requires t.s.Fits(RigOf(d)) && |t.q| == |t.v| == |RigOf(d).links|
    decreases |es|
  {
    es == [] ||
    (&& WellFormed(RigOf(d), es[0]) && ByTag(d, es[0])
     && (es[0].CalcSkel? ==>
           && Closed(RigOf(d), es[0].req)
           && forall g :: 0 <= g < |RigOf(d).links| && es[0].req[g] ==> t.s.evaluated[g])
     && TagRun(d, Step(RigOf(d), t, es[0]), es[1..]))
  }

  lemma TwinIsDuplicate(d: DObj, g: nat)
    requires ValidDObj(d) && DistinctPerModel(d) && g < d.boneCount
    ensures RigOf(d).twins[g].Some? <==> IsDuplicate(d, g)
  {
    assert RigOf(d).twins[g] == TwinOf(d, g);
  }

  lemma TagStep(d: DObj, t: Tracked, e: Event)
    requires ValidDObj(d) && DistinctPerModel(d)
    requires t.s.Fits(RigOf(d)) && |t.q| == |t.v| == |RigOf(d).links| && WellFormed(RigOf(d), e)
    requires NoControlTwin(RigOf(d), t.s.control) && ByTag(d, e)
    ensures NoControlTwin(RigOf(d), Step(RigOf(d), t, e).s.control)
  {
    if e.SetPose? && e.asControl && MaySet(RigOf(d), t.s, e.req, e.part) {
      var name :| FindPart(d, name) == e.part;
      LookupIsNotDuplicate(d, name);
      TwinIsDuplicate(d, e.part);
    }
  }

  /** Setting control poses by tag only, callers never meet the stalled cursor. */
  lemma {:induction false} TagRunIsAllowed(d: DObj, t: Tracked, es: seq<Event>)
    requires ValidDObj(d) && DistinctPerModel(d)
    requires t.s.Fits(RigOf(d)) && |t.q| == |t.v| == |RigOf(d).links|
    requires NoControlTwin(RigOf(d), t.s.control) && TagRun(d, t, es)
    ensures AllowedRun(RigOf(d), t, es)
    decreases |es|
  {
    if es != [] {
      TagStep(d, t, es[0]);
      TagRunIsAllowed(d, Step(RigOf(d), t, es[0]), es[1..]);
    }
  }

  // ----- splitting a request -----

  ghost function CalcAll(r: Rig, s: Skel, reqs: seq<PartBits>): (s': Skel)
    requires ValidRig(r) && s.Fits(r)
    ensures s'.Fits(r)
    decreases |reqs|
  {
    if reqs == [] then s else CalcAll(r, Calc(r, s, reqs[0]), reqs[1..])
  }

  ghost function Union(reqs: seq<PartBits>): PartBits {
    if reqs == [] then NoBits() else Or(reqs[0], Union(reqs[1..]))
  }

  ghost predicate Askable(r: Rig, t: Tracked, req: PartBits)
    requires ValidRig(r) && Settled(r, t)
  {
    Closed(r, req) && NoControlTwin(r, t.s.control) && forall g :: 0 <= g < |r.links| && req[g] ==> t.s.evaluated[g]
  }

  /** No control part is a duplicate. */
  ghost predicate NoControlTwin(r: Rig, control: PartBits)
    requires ValidRig(r)
  {
    forall g :: 0 <= g < |r.links| && r.twins[g].Some? ==> !control[g]
  }

  /** Two calls do what one call with both requests does, to the last field. */
  lemma TwoCallsAreOne(r: Rig, t: Tracked, a: PartBits, b: PartBits)
    requires ValidRig(r) && Settled(r, t) && Askable(r, t, a) && Askable(r, t, b)
    ensures Askable(r, t, Or(a, b))
    ensures Calc(r, Calc(r, t.s, a), b) == Calc(r, t.s, Or(a, b))
  {
    var both := Or(a, b);
    CalcSettles(r, t, a);
    var t1 := t.(s := Calc(r, t.s, a));
    var s2, s3 := Calc(r, t1.s, b), Calc(r, t.s, both);
    forall g | 0 <= g < |r.links| ensures s2.At(g) == s3.At(g) {
      if both[g] || t.s.blocked[g] {
        EvalIsWorld(r, t, both, g);
        EvalIsWorld(r, t1, b, g);
      }
    }
    assert s2.quats == s3.quats && s2.trans == s3.trans && s2.mats == s3.mats;
    assert s2.blocked == s3.blocked;
  }

  /** However a request is split into calls, the storage ends up the same. */
  lemma {:induction false} SplitIndependent(r: Rig, t: Tracked, reqs: seq<PartBits>)
    requires ValidRig(r) && Settled(r, t)
    requires NoControlTwin(r, t.s.control)
    requires forall i :: 0 <= i < |reqs| ==> Askable(r, t, reqs[i])
    ensures Askable(r, t, Union(reqs))
    ensures CalcAll(r, t.s, reqs) == Calc(r, t.s, Union(reqs))
    decreases |reqs|
  {
    if reqs == [] {
      NothingFresh(r, t.s, NoBits());
    } else {
      CalcSettles(r, t, reqs[0]);
      var t1 := t.(s := Calc(r, t.s, reqs[0]));
      SplitIndependent(r, t, reqs[1..]);
      SplitIndependent(r, t1, reqs[1..]);
      TwoCallsAreOne(r, t, reqs[0], Union(reqs[1..]));
    }
  }

  // ----- the exact condition -----

  /** Storage that has finished `blocked` from these local poses. */
  ghost function Finish(r: Rig, q: seq<Quat>, v: seq<Vec>, m: seq<Mat>, control: PartBits, blocked: PartBits): (s: Skel)
    requires ValidRig(r) && |q| == |v| == |m| == |r.links|
    ensures s.Fits(r) && s.control == control && s.blocked == blocked
    ensures forall g :: 0 <= g < |r.links| ==>
                          s.At(g) == if blocked[g] then World(r, q, v, control, g) else Pose(q[g], v[g], m[g])
  {
    var n := |r.links|;
    Skel(seq(n, g requires 0 <= g < n => if blocked[g] then World(r, q, v, control, g).quat else q[g]),
         seq(n, g requires 0 <= g < n => if blocked[g] then World(r, q, v, control, g).trans else v[g]),
         seq(n, g requires 0 <= g < n => if blocked[g] then World(r, q, v, control, g).mat else m[g]),
         blocked, control, blocked)
  }

  /** Every part of the request ends at its world pose, whatever the poses are. */
  ghost predicate AlwaysRight(r: Rig, control: PartBits, blocked: PartBits, req: PartBits)
    requires ValidRig(r)
  {
    forall q: seq<Quat>, v: seq<Vec>, m: seq<Mat>, g: nat ::
      |q| == |v| == |m| == |r.links| && g < |r.links| && req[g] ==>
        Eval(r, Finish(r, q, v, m, control, blocked), req, g) == World(r, q, v, control, g)
  }

  ghost predicate SomeStall(r: Rig, control: PartBits, blocked: PartBits, req: PartBits)
    requires ValidRig(r)
  {
    exists g :: 0 <= g < |r.links| && req[g] && !blocked[g] && control[g] && r.twins[g].Some?
  }

  /** The part whose own rotation sits at the end of the composition chain. */
  ghost function Source(q: Quat): int {
    match q
    case QuatValue(id) => id
    case MulFirst(part, _) => Source(part)
    case MulSecond(_, part) => Source(part)
  }

  lemma {:induction false} WorldSource(r: Rig, q: seq<Quat>, v: seq<Vec>, control: PartBits, g: nat)
    requires ValidRig(r) && |q| == |v| == |r.links| && g < |r.links|
    requires forall h :: 0 <= h < |q| ==> q[h] == QuatValue(h)
    ensures 0 <= Source(World(r, q, v, control, g).quat) <= g
    ensures r.twins[g].Some? ==> Source(World(r, q, v, control, g).quat) < g
  {
    if r.twins[g].Some? {
      WorldSource(r, q, v, control, r.twins[g].value);
    } else if !r.links[g].Loose? {
      WorldSource(r, q, v, control, r.links[g].parent);
    }
  }

  lemma StallIsWrong(r: Rig, control: PartBits, blocked: PartBits, req: PartBits)
    requires ValidRig(r) && Closed(r, blocked) && SomeStall(r, control, blocked, req)
    ensures !AlwaysRight(r, control, blocked, req)
  {
    var n := |r.links|;
    var h: nat :| h < n && req[h] && !blocked[h] && control[h] && r.twins[h].Some?;
    var q := seq(n, i requires 0 <= i < n => QuatValue(i));
    var v := seq(n, i requires 0 <= i < n => VecValue(i));
    var m := seq(n, i requires 0 <= i < n => MatValue(i));
    WorldSource(r, q, v, control, h);
    var s := Finish(r, q, v, m, control, blocked);
    assert s.At(h).quat == QuatValue(h);
    assert Source(Eval(r, s, req, h).quat) == h;
    assert Eval(r, s, req, h) != World(r, q, v, control, h);
  }

  lemma RightAt(r: Rig, control: PartBits, blocked: PartBits, req: PartBits, q: seq<Quat>, v: seq<Vec>, m: seq<Mat>,
                g: nat)
    requires ValidRig(r) && Closed(r, blocked) && Closed(r, req) && !SomeStall(r, control, blocked, req)
    requires |q| == |v| == |m| == |r.links| && g < |r.links| && req[g]
    ensures Eval(r, Finish(r, q, v, m, control, blocked), req, g) == World(r, q, v, control, g)
  {
    var s := Finish(r, q, v, m, control, blocked);
    forall i | 0 <= i < |r.links| && !blocked[i] ensures s.quats[i] == q[i] && s.trans[i] == v[i] {
      assert s.At(i) == Pose(q[i], v[i], m[i]);
    }
    EvalIsWorld(r, Tracked(s, q, v), req, g);
  }

  lemma NoStallIsRight(r: Rig, control: PartBits, blocked: PartBits, req: PartBits)
    requires ValidRig(r) && Closed(r, blocked) && Closed(r, req) && !SomeStall(r, control, blocked, req)
    ensures AlwaysRight(r, control, blocked, req)
  {
    hide Eval, World, Closed, SomeStall;
    forall q: seq<Quat>, v: seq<Vec>, m: seq<Mat>, g: nat |
      |q| == |v| == |m| == |r.links| && g < |r.links| && req[g]
      ensures Eval(r, Finish(r, q, v, m, control, blocked), req, g) == World(r, q, v, control, g)
    {
      RightAt(r, control, blocked, req, q, v, m, g);
    }
  }

  /** For a closed request over a closed finished set, a call is right for all
      poses if and only if no fresh part is both a duplicate and a control part. */
  lemma RightIffNoStall(r: Rig, control: PartBits, blocked: PartBits, req: PartBits)
    requires ValidRig(r) && Closed(r, blocked) && Closed(r, req)
    ensures AlwaysRight(r, control, blocked, req) <==> !SomeStall(r, control, blocked, req)
  {
    hide AlwaysRight;
    if SomeStall(r, control, blocked, req) {
      StallIsWrong(r, control, blocked, req);
    } else {
      NoStallIsRight(r, control, blocked, req);
    }
  }
}
