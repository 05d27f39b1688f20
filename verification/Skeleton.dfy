/** Incremental pose evaluation: DObjCalcSkel and the operations that feed it
    local poses between calls. */
module Skeleton {
  import opened DObjLayout
  import opened Outcomes

  datatype Pose = Pose(quat: Quat, trans: Vec, mat: Mat)

  /** Evaluation storage: one pose per part and the three part masks. */
  datatype Skel = Skel(
    quats: seq<Quat>, trans: seq<Vec>, mats: seq<Mat>,
    evaluated: PartBits, control: PartBits, blocked: PartBits)
  {
    ghost predicate Fits(r: Rig) {
      |quats| == |trans| == |mats| == |r.links|
    }

    ghost function At(g: nat): Pose
      requires g < |quats| == |trans| == |mats|
    {
      Pose(quats[g], trans[g], mats[g])
    }
  }

  /** A root part without an attachment keeps its own pose. */
  ghost function RootPose(q: Quat, v: Vec): Pose {
    Pose(q, v, Build(q, v))
  }

  /** One composition of a local pose with the finished pose it hangs on. */
  ghost function Compose(link: Link, control: bool, q: Quat, v: Vec, up: Pose): Pose
    requires !link.Loose?
  {
    var quat := if control then MulSecond(up.quat, q) else MulFirst(q, up.quat);
    var trans := if link.Attached? then MoveRoot(v, up.mat) else MoveChild(AddBase(v, link.base), up.mat);
    Pose(quat, trans, Build(quat, trans))
  }

  // ----- what one call computes -----

  /** Requested now and not finished by an earlier call. */
  ghost predicate Fresh(s: Skel, req: PartBits, g: nat)
    requires g < MASK_BITS
  {
    req[g] && !s.blocked[g]
  }

  /** The remap cursor stops at a fresh duplicate that is also a control part. */
  ghost predicate Stalls(r: Rig, s: Skel, req: PartBits, g: nat)
    requires ValidRig(r) && g < |r.links|
  {
    Fresh(s, req, g) && s.control[g] && r.twins[g].Some?
  }

  ghost predicate Stalled(r: Rig, s: Skel, req: PartBits, g: nat)
    requires ValidRig(r) && g <= |r.links|
  {
    exists h :: 0 <= h < g && Stalls(r, s, req, h)
  }

  /** The pose a part holds after a call, for every request and every storage. */
  ghost function Eval(r: Rig, s: Skel, req: PartBits, g: nat): Pose
    requires ValidRig(r) && s.Fits(r) && g < |r.links|
  {
    if !Fresh(s, req, g) then s.At(g)
    else if r.twins[g].Some? && !s.control[g] then
      if Stalled(r, s, req, g) then s.At(g) else Eval(r, s, req, r.twins[g].value)
    else if r.links[g].Loose? then RootPose(s.quats[g], s.trans[g])
    else Compose(r.links[g], s.control[g], s.quats[g], s.trans[g], Eval(r, s, req, r.links[g].parent))
  }

  ghost function Or(a: PartBits, b: PartBits): PartBits {
    seq(MASK_BITS, i requires 0 <= i < MASK_BITS => a[i] || b[i])
  }

  ghost function Calc(r: Rig, s: Skel, req: PartBits): (s': Skel)
    requires ValidRig(r) && s.Fits(r)
    ensures s'.Fits(r)
    ensures forall g :: 0 <= g < |r.links| ==> s'.At(g) == Eval(r, s, req, g)
  {
    var n := |r.links|;
    s.(quats := seq(n, g requires 0 <= g < n => Eval(r, s, req, g).quat),
       trans := seq(n, g requires 0 <= g < n => Eval(r, s, req, g).trans),
       mats := seq(n, g requires 0 <= g < n => Eval(r, s, req, g).mat),
       blocked := Or(s.blocked, req))
  }

  // ----- the remap cursor -----

  ghost predicate CursorAt(d: DObj, s: Skel, req: PartBits, g: nat, cursor: int)
    requires ValidDObj(d) && DistinctPerModel(d) && g <= d.boneCount
  {
    if Stalled(RigOf(d), s, req, g) then cursor % 2 == 0 && 0 <= cursor < 2 * |Pairs(d, g)|
    else cursor == 2 * |Pairs(d, g)|
  }

  ghost predicate Matches(remap: Remap, cursor: int, g: int) {
    0 <= cursor < |remap.pairs| && remap.pairs[cursor] - 1 == g
  }

  lemma CursorMatches(d: DObj, remap: Remap, s: Skel, req: PartBits, g: nat, cursor: int)
    requires ValidDObj(d) && DistinctPerModel(d) && RemapOf(d, remap) && g < d.boneCount
    requires CursorAt(d, s, req, g, cursor)
    ensures 0 <= cursor < |remap.pairs|
    ensures Matches(remap, cursor, g) <==> IsDuplicate(d, g) && !Stalled(RigOf(d), s, req, g)
    ensures Matches(remap, cursor, g) ==>
              cursor + 1 < |remap.pairs| && Some(remap.pairs[cursor + 1] - 1) == RigOf(d).twins[g]
  {
    hide Pairs, Stalled;
    PairsGrow(d, g, d.boneCount);
    PairLookup(d, g, cursor / 2);
    if IsDuplicate(d, g) {
      PairAt(d, g);
    }
  }

  /** Among the pairs not before those of smaller parts, only the next one can be for `g`. */
  lemma PairLookup(d: DObj, g: nat, c: nat)
    requires ValidDObj(d) && g < d.boneCount && c <= |Pairs(d, g)|
    ensures c < |Pairs(d, d.boneCount)| ==>
              (Pairs(d, d.boneCount)[c].0 == g <==> IsDuplicate(d, g) && c == |Pairs(d, g)|)
    ensures IsDuplicate(d, g) ==> c < |Pairs(d, d.boneCount)|
  {
    if IsDuplicate(d, g) {
      PairAt(d, g);
    }
    if c < |Pairs(d, d.boneCount)| {
      PairsSound(d, d.boneCount, c);
    }
  }

  lemma StalledStep(r: Rig, s: Skel, req: PartBits, g: nat)
    requires ValidRig(r) && g < |r.links|
    ensures Stalled(r, s, req, g + 1) <==> Stalled(r, s, req, g) || Stalls(r, s, req, g)
  {
  }

  /** A part composed from its own pose leaves the cursor; any other part moves
      it exactly past its own pair. */
  lemma CursorStep(d: DObj, remap: Remap, s: Skel, req: PartBits, g: nat, cursor: int)
    requires ValidDObj(d) && DistinctPerModel(d) && RemapOf(d, remap) && g < d.boneCount
    requires CursorAt(d, s, req, g, cursor)
    ensures IsDuplicate(d, g) && !Stalls(RigOf(d), s, req, g) && Matches(remap, cursor, g) ==>
              CursorAt(d, s, req, g + 1, cursor + 2)
    ensures !IsDuplicate(d, g) || Stalls(RigOf(d), s, req, g) || !Matches(remap, cursor, g) ==>
              CursorAt(d, s, req, g + 1, cursor)
  {
    CursorMatches(d, remap, s, req, g, cursor);
    StalledStep(RigOf(d), s, req, g);
  }

  // ----- the masks of one call -----

  /** The local masks of DObjCalcSkel. */
  datatype Masks = Masks(skip: PartBits, build: PartBits, noQuat: PartBits)

  ghost predicate MasksAt(r: Rig, s: Skel, req: PartBits, m: Masks, g: nat)
    requires ValidRig(r) && g < |r.links|
  {
    && m.skip[g] == !Fresh(s, req, g)
    && m.build[g] == (Fresh(s, req, g) && (s.control[g] || r.twins[g].None?))
    && m.noQuat[g] == !(Fresh(s, req, g) && !s.control[g] && r.twins[g].None?)
  }

  ghost predicate MasksOf(r: Rig, s: Skel, req: PartBits, m: Masks)
    requires ValidRig(r)
  {
    forall g :: 0 <= g < |r.links| ==> MasksAt(r, s, req, m, g)
  }

  /** The word-wise mask arithmetic of DObjCalcSkel. */
  method ComputeMasks(sources: PartBits, control: PartBits, blocked: PartBits, req: PartBits) returns (m: Masks)
    ensures forall i :: 0 <= i < MASK_BITS ==> m.skip[i] == (!req[i] || blocked[i])
    ensures forall i :: 0 <= i < MASK_BITS ==> m.build[i] == (req[i] && !blocked[i] && (control[i] || !sources[i]))
    ensures forall i :: 0 <= i < MASK_BITS ==> m.noQuat[i] == !(req[i] && !blocked[i] && !control[i] && !sources[i])
  {
    var skip: PartBits := seq(MASK_BITS, i requires 0 <= i < MASK_BITS => !req[i] || blocked[i]);
    var build0: PartBits := seq(MASK_BITS, i requires 0 <= i < MASK_BITS => !skip[i] && control[i]);
    var noQuat: PartBits := seq(MASK_BITS, i requires 0 <= i < MASK_BITS => skip[i] || build0[i] || sources[i]);
    var build: PartBits := seq(MASK_BITS, i requires 0 <= i < MASK_BITS => !noQuat[i] || build0[i]);
    m := Masks(skip, build, noQuat);
  }

  /** The pair under the cursor belongs to `g` exactly when `g` is a duplicate
      and nothing stalled the cursor before it. */
  ghost predicate PairHere(r: Rig, s: Skel, req: PartBits, pairs: seq<int>, g: nat, cursor: int)
    requires ValidRig(r) && g < |r.links|
  {
    && 0 <= cursor < |pairs|
    && (pairs[cursor] - 1 == g <==> r.twins[g].Some? && !Stalled(r, s, req, g))
    && (pairs[cursor] - 1 == g ==> cursor + 1 < |pairs| && Some(pairs[cursor + 1] - 1) == r.twins[g])
  }

  /** What the sweeps know about the part they are at. */
  lemma PartFacts(d: DObj, k: nat, g: nat)
    requires ValidDObj(d) && DistinctPerModel(d) && Owns(d, k, g)
    ensures g < d.boneCount && RigOf(d).links[g] == LinkOf(d, g) && OwnerOf(d, g) == k
    ensures RigOf(d).twins[g].Some? <==> IsDuplicate(d, g)
    ensures d.parents[k] != NO_PARENT ==> !IsDuplicate(d, g)
  {
    OwnedInRange(d, k, g);
    OwnerUnique(d, k, OwnerOf(d, g), g);
  }

  ghost predicate Setup(d: DObj, remap: Remap, m: Masks, s: Skel, req: PartBits) {
    && ValidDObj(d) && DistinctPerModel(d) && RemapOf(d, remap)
    && s.Fits(RigOf(d)) && MasksOf(RigOf(d), s, req, m)
  }

  ghost predicate LinkHere(d: DObj, k: nat, g: nat)
    requires ValidDObj(d) && DistinctPerModel(d) && k < |d.models| && d.bases[k] <= g < d.boneCount
  {
    var model, local, r := d.models[k], g - d.bases[k], RigOf(d);
    if local < model.rootCount then
      if d.parents[k] == NO_PARENT then r.links[g].Loose?
      else r.links[g] == Attached(d.parents[k]) && r.twins[g].None?
    else
      var j := local - model.rootCount;
      && j < |model.deltas| == |model.baseTranslations| && model.deltas[j] <= g
      && r.links[g] == Child(g - model.deltas[j], model.baseTranslations[j])
  }

  lemma LinkFacts(d: DObj, k: nat, g: nat)
    requires ValidDObj(d) && DistinctPerModel(d) && Owns(d, k, g) && g < d.boneCount
    ensures LinkHere(d, k, g)
  {
    hide IsDuplicate;
    PartFacts(d, k, g);
  }

  /** Everything a sweep uses about the part it is at, and where it leaves the cursor. */
  lemma AtPart(d: DObj, remap: Remap, m: Masks, k: nat, g: nat, cursor: int, s: Skel, req: PartBits)
    requires Setup(d, remap, m, s, req) && Owns(d, k, g) && g < d.boneCount && CursorAt(d, s, req, g, cursor)
    ensures MasksAt(RigOf(d), s, req, m, g) && PairHere(RigOf(d), s, req, remap.pairs, g, cursor)
    ensures LinkHere(d, k, g)
    ensures RigOf(d).twins[g].None? ==> CursorAt(d, s, req, g + 1, cursor)
    ensures CursorAt(d, s, req, g + 1,
                     if !m.build[g] && remap.pairs[cursor] - 1 == g then cursor + 2 else cursor)
  {
    hide CursorAt, Stalled, IsDuplicate, LinkHere;
    LinkFacts(d, k, g);
    PartFacts(d, k, g);
    CursorMatches(d, remap, s, req, g, cursor);
    CursorStep(d, remap, s, req, g, cursor);
    assert MasksAt(RigOf(d), s, req, m, g);
  }

  lemma SetupShape(d: DObj, remap: Remap, m: Masks, s: Skel, req: PartBits)
    requires Setup(d, remap, m, s, req)
    ensures ValidDObj(d) && DistinctPerModel(d) && s.Fits(RigOf(d))
  {
  }

  lemma CursorStart(d: DObj, s: Skel, req: PartBits)
    requires ValidDObj(d) && DistinctPerModel(d)
    ensures CursorAt(d, s, req, 0, 0)
  {
  }

  /** A request that brings nothing new changes nothing. */
  lemma NothingFresh(r: Rig, s: Skel, req: PartBits)
    requires ValidRig(r) && s.Fits(r)
    requires forall g :: 0 <= g < MASK_BITS ==> !req[g] || s.blocked[g]
    ensures Calc(r, s, req) == s
  {
    var s' := Calc(r, s, req);
    assert forall g :: 0 <= g < |r.links| ==> s'.At(g) == s.At(g);
    assert s'.quats == s.quats && s'.trans == s.trans && s'.mats == s.mats;
    assert s'.blocked == s.blocked;
  }

  // ----- the two passes, in place -----

  /** A caller's pose for one part. */
  ghost function WithPose(s: Skel, part: nat, asControl: bool, q: Quat, v: Vec): Skel
    requires part < |s.quats| == |s.trans| <= MAX_BONES
  {
    Skel(s.quats[part := q], s.trans[part := v], s.mats, s.evaluated[part := true],
         if asControl then s.control[part := true] else s.control, s.blocked)
  }

  class SkelStore {
    const quats: array<Quat>
    const trans: array<Vec>
    const mats: array<Mat>
    var evaluated: PartBits
    var control: PartBits
    var blocked: PartBits

    /** DObjCreateSkel: fresh masks over storage for every part. */
    constructor (count: nat, q: Quat, v: Vec, m: Mat)
      ensures State() == Skel(seq(count, _ => q), seq(count, _ => v), seq(count, _ => m), NoBits(), NoBits(), NoBits())
      ensures fresh(quats) && fresh(trans) && fresh(mats)
    {
      quats := new Quat[count](_ => q);
      trans := new Vec[count](_ => v);
      mats := new Mat[count](_ => m);
      evaluated, control, blocked := NoBits(), NoBits(), NoBits();
    }

    ghost function State(): Skel
      reads this, quats, trans, mats
    {
      Skel(quats[..], trans[..], mats[..], evaluated, control, blocked)
    }

    ghost predicate Holds(d: DObj)
      reads this
      requires ValidDObj(d)
    {
      quats.Length == trans.Length == mats.Length == d.boneCount
    }

    /** DObjSetRotTransIndex and DObjSetControlRotTransIndex with the pose their
        caller stores on success: refused out of range, unrequested or finished. */
    method SetPose(req: PartBits, part: int, asControl: bool, q: Quat, v: Vec) returns (ok: bool)
      requires quats.Length == trans.Length <= MAX_BONES
      modifies this, quats, trans
      ensures ok <==> 0 <= part < quats.Length && req[part] && !old(blocked)[part]
      ensures State() == if ok then WithPose(old(State()), part, asControl, q, v) else old(State())
    {
      if part < 0 || part >= quats.Length || !req[part] || blocked[part] {
        return false;
      }
      if asControl {
        control := control[part := true];
      }
      evaluated := evaluated[part := true];
      quats[part], trans[part] := q, v;
      return true;
    }

    /** Rotations below `g` are final, the others untouched. */
    ghost predicate QuatsDone(r: Rig, s: Skel, req: PartBits, g: nat)
      requires ValidRig(r) && s.Fits(r)
      reads this, quats
    {
      && quats.Length == |r.links|
      && (forall h :: 0 <= h < g && h < |r.links| ==> quats[h] == Eval(r, s, req, h).quat)
      && (forall h :: g <= h < |r.links| ==> quats[h] == s.quats[h])
    }

    /** A root part of a melded model: only a duplicate takes over a rotation. */
    method QuatLooseRoot(pairs: seq<int>, m: Masks, g: nat, cursor: int,
                         ghost r: Rig, ghost s: Skel, ghost req: PartBits)
      returns (cursor': int)
      requires ValidRig(r) && s.Fits(r) && g < |r.links| && MasksAt(r, s, req, m, g)
      requires PairHere(r, s, req, pairs, g, cursor) && QuatsDone(r, s, req, g)
      requires r.links[g].Loose?
      modifies quats
      ensures QuatsDone(r, s, req, g + 1)
      ensures cursor' == if !m.build[g] && pairs[cursor] - 1 == g then cursor + 2 else cursor
    {
      cursor' := cursor;
      if !m.build[g] && pairs[cursor] - 1 == g {
        var target := pairs[cursor + 1] - 1;
        cursor' := cursor + 2;
        if !m.skip[g] {
          quats[g] := quats[target];
        }
      }
    }

    /** A root part of a model hung on a tag. */
    method QuatAttachedRoot(m: Masks, g: nat, parent: nat, ghost r: Rig, ghost s: Skel, ghost req: PartBits)
      requires ValidRig(r) && s.Fits(r) && g < |r.links| && MasksAt(r, s, req, m, g)
      requires QuatsDone(r, s, req, g)
      requires r.links[g] == Attached(parent) && r.twins[g].None?
      modifies quats
      ensures QuatsDone(r, s, req, g + 1)
    {
      if !m.noQuat[g] {
        quats[g] := MulFirst(quats[g], quats[parent]);
      } else if m.build[g] {
        quats[g] := MulSecond(quats[parent], quats[g]);
      }
    }

    /** A part with a parent in its own model. */
    method QuatChild(pairs: seq<int>, m: Masks, g: nat, parent: nat, cursor: int,
                     ghost r: Rig, ghost s: Skel, ghost req: PartBits)
      returns (cursor': int)
      requires ValidRig(r) && s.Fits(r) && g < |r.links| && MasksAt(r, s, req, m, g)
      requires PairHere(r, s, req, pairs, g, cursor) && QuatsDone(r, s, req, g)
      requires r.links[g].Child? && r.links[g].parent == parent
      modifies quats
      ensures QuatsDone(r, s, req, g + 1)
      ensures cursor' == if !m.build[g] && pairs[cursor] - 1 == g then cursor + 2 else cursor
    {
      cursor' := cursor;
      if !m.noQuat[g] {
        quats[g] := MulFirst(quats[g], quats[parent]);
      } else if !m.build[g] {
        if pairs[cursor] - 1 == g {
          var target := pairs[cursor + 1] - 1;
          cursor' := cursor + 2;
          if !m.skip[g] {
            quats[g] := quats[target];
          }
        }
      } else {
        quats[g] := MulSecond(quats[parent], quats[g]);
      }
    }

    method QuatPart(d: DObj, remap: Remap, m: Masks, k: nat, g: nat, cursor: int, ghost s: Skel, ghost req: PartBits)
      returns (cursor': int)
      requires Setup(d, remap, m, s, req) && Owns(d, k, g) && g < d.boneCount
      requires QuatsDone(RigOf(d), s, req, g) && CursorAt(d, s, req, g, cursor)
      modifies quats
      ensures QuatsDone(RigOf(d), s, req, g + 1) && CursorAt(d, s, req, g + 1, cursor')
    {
      hide Setup, ValidDObj, DistinctPerModel, CursorAt, MasksAt, PairHere, RemapOf;
      SetupShape(d, remap, m, s, req);
      DObjShape(d);
      AtPart(d, remap, m, k, g, cursor, s, req);
      ghost var r := RigOf(d);
      var model, local := d.models[k], g - d.bases[k];
      if local < model.rootCount {
        if d.parents[k] == NO_PARENT {
          cursor' := QuatLooseRoot(remap.pairs, m, g, cursor, r, s, req);
        } else {
          QuatAttachedRoot(m, g, d.parents[k], r, s, req);
          cursor' := cursor;
        }
      } else {
        cursor' := QuatChild(remap.pairs, m, g, g - model.deltas[local - model.rootCount], cursor, r, s, req);
      }
    }

    /** The first sweep over all parts of all models. */
    method QuatPass(d: DObj, remap: Remap, m: Masks, ghost s: Skel, ghost req: PartBits)
      requires Setup(d, remap, m, s, req) && QuatsDone(RigOf(d), s, req, 0)
      modifies quats
      ensures QuatsDone(RigOf(d), s, req, d.boneCount)
    {
      hide Setup, ValidDObj, DistinctPerModel, CursorAt, Base;
      SetupShape(d, remap, m, s, req);
      DObjShape(d);
      BaseStep(d, 0);
      var g, cursor := 0, 0;
      CursorStart(d, s, req);
      for k := 0 to |d.models|
        invariant g == Base(d.models, k) <= d.boneCount
        invariant QuatsDone(RigOf(d), s, req, g) && CursorAt(d, s, req, g, cursor)
      {
        BaseStep(d, k);
        g, cursor := QuatModel(d, remap, m, k, g, cursor, s, req);
      }
    }

    method QuatModel(d: DObj, remap: Remap, m: Masks, k: nat, start: nat, cursor0: int,
                     ghost s: Skel, ghost req: PartBits)
      returns (g: nat, cursor: int)
      requires Setup(d, remap, m, s, req) && k < |d.models| && start == d.bases[k]
      requires start + |d.models[k].names| <= d.boneCount
      requires QuatsDone(RigOf(d), s, req, start) && CursorAt(d, s, req, start, cursor0)
      modifies quats
      ensures g == start + |d.models[k].names|
      ensures QuatsDone(RigOf(d), s, req, g) && CursorAt(d, s, req, g, cursor)
    {
      hide Setup, ValidDObj, DistinctPerModel, CursorAt;
      SetupShape(d, remap, m, s, req);
      DObjShape(d);
      g, cursor := start, cursor0;
      while g < start + |d.models[k].names|
        invariant start <= g <= start + |d.models[k].names|
        invariant QuatsDone(RigOf(d), s, req, g) && CursorAt(d, s, req, g, cursor)
      {
        cursor := QuatPart(d, remap, m, k, g, cursor, s, req);
        g := g + 1;
      }
    }

    /** Translations and matrices below `g` are final, the others untouched. */
    ghost predicate MatsDone(r: Rig, s: Skel, req: PartBits, g: nat)
      requires ValidRig(r) && s.Fits(r)
      reads this, trans, mats
    {
      && trans.Length == mats.Length == |r.links|
      && (forall h :: 0 <= h < g && h < |r.links| ==>
                        trans[h] == Eval(r, s, req, h).trans && mats[h] == Eval(r, s, req, h).mat)
      && (forall h :: g <= h < |r.links| ==> trans[h] == s.trans[h] && mats[h] == s.mats[h])
    }

    method MatLooseRoot(pairs: seq<int>, m: Masks, g: nat, cursor: int,
                         ghost r: Rig, ghost s: Skel, ghost req: PartBits)
      returns (cursor': int)
      requires ValidRig(r) && s.Fits(r) && g < |r.links| && MasksAt(r, s, req, m, g)
      requires PairHere(r, s, req, pairs, g, cursor) && MatsDone(r, s, req, g)
      requires quats.Length == |r.links| && quats[g] == Eval(r, s, req, g).quat
      requires r.links[g].Loose?
      modifies trans, mats
      ensures MatsDone(r, s, req, g + 1)
      ensures cursor' == if !m.build[g] && pairs[cursor] - 1 == g then cursor + 2 else cursor
    {
      cursor' := cursor;
      if !m.build[g] {
        if pairs[cursor] - 1 == g {
          var target := pairs[cursor + 1] - 1;
          cursor' := cursor + 2;
          if !m.skip[g] {
            trans[g] := trans[target];
            mats[g] := mats[target];
          }
        }
      } else {
        mats[g] := Build(quats[g], trans[g]);
      }
    }

    method MatAttachedRoot(m: Masks, g: nat, parent: nat, ghost r: Rig, ghost s: Skel, ghost req: PartBits)
      requires ValidRig(r) && s.Fits(r) && g < |r.links| && MasksAt(r, s, req, m, g)
      requires MatsDone(r, s, req, g)
      requires quats.Length == |r.links| && quats[g] == Eval(r, s, req, g).quat
      requires r.links[g] == Attached(parent) && r.twins[g].None?
      modifies trans, mats
      ensures MatsDone(r, s, req, g + 1)
    {
      if m.build[g] {
        trans[g] := MoveRoot(trans[g], mats[parent]);
        mats[g] := Build(quats[g], trans[g]);
      }
    }

    method MatChild(pairs: seq<int>, m: Masks, g: nat, parent: nat, base: Vec, cursor: int,
                    ghost r: Rig, ghost s: Skel, ghost req: PartBits)
      returns (cursor': int)
      requires ValidRig(r) && s.Fits(r) && g < |r.links| && MasksAt(r, s, req, m, g)
      requires PairHere(r, s, req, pairs, g, cursor) && MatsDone(r, s, req, g)
      requires quats.Length == |r.links| && quats[g] == Eval(r, s, req, g).quat
      requires r.links[g] == Child(parent, base)
      modifies trans, mats
      ensures MatsDone(r, s, req, g + 1)
      ensures cursor' == if !m.build[g] && pairs[cursor] - 1 == g then cursor + 2 else cursor
    {
      cursor' := cursor;
      if !m.build[g] {
        if pairs[cursor] - 1 == g {
          var target := pairs[cursor + 1] - 1;
          cursor' := cursor + 2;
          if !m.skip[g] {
            trans[g] := trans[target];
            mats[g] := mats[target];
          }
        }
      } else {
        trans[g] := AddBase(trans[g], base);
        trans[g] := MoveChild(trans[g], mats[parent]);
        mats[g] := Build(quats[g], trans[g]);
      }
    }

    method MatPart(d: DObj, remap: Remap, m: Masks, k: nat, g: nat, cursor: int, ghost s: Skel, ghost req: PartBits)
      returns (cursor': int)
      requires Setup(d, remap, m, s, req) && Owns(d, k, g) && g < d.boneCount
      requires QuatsDone(RigOf(d), s, req, d.boneCount)
      requires MatsDone(RigOf(d), s, req, g) && CursorAt(d, s, req, g, cursor)
      modifies trans, mats
      ensures MatsDone(RigOf(d), s, req, g + 1) && CursorAt(d, s, req, g + 1, cursor')
    {
      hide Setup, ValidDObj, DistinctPerModel, CursorAt, MasksAt, PairHere, RemapOf;
      SetupShape(d, remap, m, s, req);
      DObjShape(d);
      AtPart(d, remap, m, k, g, cursor, s, req);
      ghost var r := RigOf(d);
      var model, local := d.models[k], g - d.bases[k];
      if local < model.rootCount {
        if d.parents[k] == NO_PARENT {
          cursor' := MatLooseRoot(remap.pairs, m, g, cursor, r, s, req);
        } else {
          MatAttachedRoot(m, g, d.parents[k], r, s, req);
          cursor' := cursor;
        }
      } else {
        var j := local - model.rootCount;
        cursor' := MatChild(remap.pairs, m, g, g - model.deltas[j], model.baseTranslations[j], cursor, r, s, req);
      }
    }

    /** The second sweep: translations and matrices, the cursor starting over. */
    method MatPass(d: DObj, remap: Remap, m: Masks, ghost s: Skel, ghost req: PartBits)
      requires Setup(d, remap, m, s, req)
      requires QuatsDone(RigOf(d), s, req, d.boneCount) && MatsDone(RigOf(d), s, req, 0)
      modifies trans, mats
      ensures MatsDone(RigOf(d), s, req, d.boneCount)
    {
      hide Setup, ValidDObj, DistinctPerModel, CursorAt, Base;
      SetupShape(d, remap, m, s, req);
      DObjShape(d);
      BaseStep(d, 0);
      var g, cursor := 0, 0;
      CursorStart(d, s, req);
      for k := 0 to |d.models|
        invariant g == Base(d.models, k) <= d.boneCount
        invariant MatsDone(RigOf(d), s, req, g) && CursorAt(d, s, req, g, cursor)
      {
        BaseStep(d, k);
        g, cursor := MatModel(d, remap, m, k, g, cursor, s, req);
      }
    }

    method MatModel(d: DObj, remap: Remap, m: Masks, k: nat, start: nat, cursor0: int,
                    ghost s: Skel, ghost req: PartBits)
      returns (g: nat, cursor: int)
      requires Setup(d, remap, m, s, req) && k < |d.models| && start == d.bases[k]
      requires start + |d.models[k].names| <= d.boneCount
      requires QuatsDone(RigOf(d), s, req, d.boneCount)
      requires MatsDone(RigOf(d), s, req, start) && CursorAt(d, s, req, start, cursor0)
      modifies trans, mats
      ensures g == start + |d.models[k].names|
      ensures MatsDone(RigOf(d), s, req, g) && CursorAt(d, s, req, g, cursor)
    {
      hide Setup, ValidDObj, DistinctPerModel, CursorAt;
      SetupShape(d, remap, m, s, req);
      DObjShape(d);
      g, cursor := start, cursor0;
      while g < start + |d.models[k].names|
        invariant start <= g <= start + |d.models[k].names|
        invariant MatsDone(RigOf(d), s, req, g) && CursorAt(d, s, req, g, cursor)
      {
        cursor := MatPart(d, remap, m, k, g, cursor, s, req);
        g := g + 1;
      }
    }

    /** DObjCalcSkel, for every request and every storage state. */
    method CalcSkel(d: DObj, req: PartBits)
      requires ValidDObj(d) && DistinctPerModel(d) && Holds(d)
      modifies this`blocked, quats, trans, mats
      ensures State() == Calc(RigOf(d), old(State()), req)
    {
      ghost var s := State();
      ghost var r := RigOf(d);
      if forall g :: 0 <= g < MASK_BITS ==> !req[g] || blocked[g] {
        NothingFresh(r, s, req);
        return;
      }
      var remap := CreateDuplicateParts(d);
      var m := ComputeMasks(remap.sourceBits, control, blocked, req);
      var before := blocked;
      blocked := seq(MASK_BITS, i requires 0 <= i < MASK_BITS => before[i] || req[i]);
      SetupHolds(d, remap, m, s, req);
      QuatPass(d, remap, m, s, req);
      MatPass(d, remap, m, s, req);
      Finished(r, s, req, quats[..], trans[..], mats[..]);
    }
  }

  lemma SetupHolds(d: DObj, remap: Remap, m: Masks, s: Skel, req: PartBits)
    requires ValidDObj(d) && DistinctPerModel(d) && RemapOf(d, remap) && s.Fits(RigOf(d))
    requires forall i :: 0 <= i < MASK_BITS ==> m.skip[i] == (!req[i] || s.blocked[i])
    requires forall i :: 0 <= i < MASK_BITS ==>
                           m.build[i] == (req[i] && !s.blocked[i] && (s.control[i] || !remap.sourceBits[i]))
    requires forall i :: 0 <= i < MASK_BITS ==>
                           m.noQuat[i] == !(req[i] && !s.blocked[i] && !s.control[i] && !remap.sourceBits[i])
    ensures Setup(d, remap, m, s, req)
  {
    var r := RigOf(d);
    forall g | 0 <= g < |r.links| ensures MasksAt(r, s, req, m, g) {
      assert r.twins[g].Some? <==> IsDuplicate(d, g);
    }
  }

  lemma Finished(r: Rig, s: Skel, req: PartBits, quats: seq<Quat>, trans: seq<Vec>, mats: seq<Mat>)
    requires ValidRig(r) && s.Fits(r) && |quats| == |trans| == |mats| == |r.links|
    requires forall g :: 0 <= g < |r.links| ==> quats[g] == Eval(r, s, req, g).quat
    requires forall g :: 0 <= g < |r.links| ==>
                           trans[g] == Eval(r, s, req, g).trans && mats[g] == Eval(r, s, req, g).mat
    ensures var s' := Calc(r, s, req); s'.quats == quats && s'.trans == trans && s'.mats == mats
  {
    var s' := Calc(r, s, req);
    assert forall g :: 0 <= g < |r.links| ==> s'.At(g) == Pose(quats[g], trans[g], mats[g]);
  }
}
