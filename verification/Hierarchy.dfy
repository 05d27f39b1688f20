/** Part masks closed under predecessors: DObjGetHierarchyBits and
    DObjCompleteHierarchyBits. */
module Hierarchy {
  import opened DObjLayout
  import opened Skeleton
  import opened Outcomes

  /** A part and everything it is evaluated from. */
  ghost function Chain(r: Rig, g: nat): set<nat>
    requires ValidRig(r) && g < |r.links|
  {
    if Up(r, g).None? then {g} else {g} + Chain(r, Up(r, g).value)
  }

  lemma {:induction false} ChainBelow(r: Rig, g: nat, h: nat)
    requires ValidRig(r) && g < |r.links| && h in Chain(r, g)
    ensures h <= g
  {
    if h != g {
      ChainBelow(r, Up(r, g).value, h);
    }
  }

  /** The chain is contained in every closed mask that has the part. */
  lemma {:induction false} ChainLeast(r: Rig, bits: PartBits, g: nat, h: nat)
    requires ValidRig(r) && g < |r.links| && Closed(r, bits) && bits[g] && h in Chain(r, g)
    ensures h < |r.links| && bits[h]
  {
    if h != g {
      ChainLeast(r, bits, Up(r, g).value, h);
    }
  }

  lemma {:induction false} ChainClosed(r: Rig, g: nat, h: nat)
    requires ValidRig(r) && g < |r.links| && h in Chain(r, g)
    ensures h < |r.links| && (Up(r, h).Some? ==> Up(r, h).value in Chain(r, g))
  {
    if h != g {
      ChainClosed(r, Up(r, g).value, h);
    }
  }

  /** The unbounded pair scan: it stops because the source bit promised a pair. */
  method TargetForSource(d: DObj, remap: Remap, g: nat) returns (target: int)
    requires ValidDObj(d) && RemapOf(d, remap) && g < d.boneCount && IsDuplicate(d, g)
    ensures target == FindPart(d, NameOf(d, g))
  {
    PairAt(d, g);
    ghost var stop := |Pairs(d, g)|;
    var i := 0;
    while remap.pairs[2 * i] - 1 != g
      invariant 0 <= i <= stop
      decreases stop - i
    {
      i := i + 1;
    }
    PairsSound(d, d.boneCount, i);
    target := remap.pairs[2 * i + 1] - 1;
  }

  /** Walks back to the model that owns `g`, which lies before model `k`. */
  method OwnerBefore(d: DObj, k: nat, g: nat) returns (owner: nat)
    requires ValidDObj(d) && k < |d.models| && g < d.bases[k]
    ensures owner < k && Owns(d, owner, g)
  {
    var j := k - 1;
    BaseStep(d, j);
    while g < d.bases[j]
      invariant 0 <= j < k && g < d.bases[j] + |d.models[j].names|
    {
      j := j - 1;
      BaseStep(d, j);
    }
    owner := j;
  }

  /** The model that owns a part, by running totals. */
  method OwnerOfPart(d: DObj, g: nat) returns (k: nat)
    requires ValidDObj(d) && g < d.boneCount
    ensures Owns(d, k, g)
  {
    k := 0;
    BaseStep(d, 0);
    while d.bases[k] + |d.models[k].names| <= g
      invariant 0 <= k < |d.models| && d.bases[k] <= g
      decreases |d.models| - k
    {
      BaseStep(d, k);
      k := k + 1;
      BaseStep(d, k);
    }
  }

  /** One step up: the predecessor of `g` and the model that owns it. */
  method StepUp(d: DObj, remap: Remap, k: nat, g: nat) returns (done: bool, up: nat, owner: nat)
    requires ValidDObj(d) && DistinctPerModel(d) && RemapOf(d, remap) && Owns(d, k, g)
    ensures g < d.boneCount && done == Up(RigOf(d), g).None?
    ensures !done ==> Up(RigOf(d), g) == Some(up) && Owns(d, owner, up)
  {
    PartFacts(d, k, g);
    done, up, owner := false, 0, 0;
    var model, local := d.models[k], g - d.bases[k];
    if remap.sourceBits[g] {
      up := TargetForSource(d, remap, g);
      FindOwnName(d, g);
      owner := OwnerBefore(d, k, up);
    } else if model.rootCount <= local {
      up, owner := g - model.deltas[local - model.rootCount], k;
    } else if d.parents[k] == NO_PARENT {
      done := true;
    } else {
      up := d.parents[k];
      owner := OwnerBefore(d, k, up);
    }
  }

  /** DObjGetHierarchyBits sets exactly the chain of a bone, and nothing for an
      index outside the DObj. */
  method GetHierarchyBits(d: DObj, bone: int) returns (bits: PartBits)
    requires ValidDObj(d) && DistinctPerModel(d)
    ensures 0 <= bone < d.boneCount ==>
              forall h :: 0 <= h < MASK_BITS ==> (bits[h] <==> h in Chain(RigOf(d), bone))
    ensures !(0 <= bone < d.boneCount) ==> bits == NoBits()
  {
    bits := NoBits();
    if bone < 0 || d.boneCount <= bone {
      return;
    }
    var remap := CreateDuplicateParts(d);
    ghost var r := RigOf(d);
    var g := bone;
    var k := OwnerOfPart(d, g);
    var done := false;
    while !done
      invariant 0 <= g < d.boneCount && Owns(d, k, g)
      invariant done ==> Up(r, g).None? && bits[g]
      invariant forall h :: 0 <= h < MASK_BITS ==> (bits[h] || h in Chain(r, g) <==> h in Chain(r, bone))
      decreases if done then 0 else 1, g
    {
      bits := bits[g := true];
      var up, owner;
      done, up, owner := StepUp(d, remap, k, g);
      if !done {
        OwnedInRange(d, owner, up);
        g, k := up, owner;
      }
    }
  }

  /** The chain of a bone is a request DObjCalcSkel accepts, and the least one. */
  lemma ChainMaskClosed(r: Rig, bone: nat, bits: PartBits)
    requires ValidRig(r) && bone < |r.links|
    requires forall h :: 0 <= h < MASK_BITS ==> (bits[h] <==> h in Chain(r, bone))
    ensures Closed(r, bits) && bits[bone]
    ensures forall other: PartBits :: Closed(r, other) && other[bone] ==>
              forall h :: 0 <= h < MASK_BITS && bits[h] ==> other[h]
  {
    forall h | 0 <= h < |r.links| && bits[h] && Up(r, h).Some? ensures bits[Up(r, h).value] {
      ChainClosed(r, bone, h);
    }
    forall other: PartBits, h | Closed(r, other) && other[bone] && 0 <= h < MASK_BITS && bits[h] ensures other[h] {
      ChainLeast(r, other, bone, h);
    }
  }

  /** The byte that holds bit `g` is zero. */
  predicate ByteEmpty(bits: PartBits, g: nat)
    requires g < MASK_BITS
  {
    forall i :: g / 8 * 8 <= i < g / 8 * 8 + 8 ==> !bits[i]
  }

  /** DObjCompleteHierarchyBits: one descending sweep that sets the predecessor
      of every part it does not skip. It never looks at the part's own bit, so
      the result is closed and contains the request but may be larger than needed. */
  method CompleteHierarchyBits(d: DObj, request: PartBits) returns (bits: PartBits)
    requires ValidDObj(d) && DistinctPerModel(d)
    ensures Closed(RigOf(d), bits)
    ensures forall h :: 0 <= h < MASK_BITS && request[h] ==> bits[h]
    ensures Completed(RigOf(d), request, bits)
  {
    bits := request;
    var remap := CreateDuplicateParts(d);
    ghost var r := RigOf(d);
    var g := d.boneCount - 1;
    BaseStep(d, 0);
    var k := OwnerOfPart(d, g);
    SweepStarts(r, request);
    hide SweptTo;
    while g >= 0
      invariant -1 <= g < d.boneCount
      invariant g >= 0 ==> Owns(d, k, g)
      invariant SweptTo(r, request, bits, g)
    {
      if ByteEmpty(bits, g) && g % 8 == 0 {
        SweepSkip(r, request, bits, g);
      } else {
        var done, up, owner := StepUp(d, remap, k, g);
        SweepSet(r, request, bits, g);
        if !done {
          bits := bits[up := true];
        }
      }
      if g > 0 && g - 1 < d.bases[k] {
        k := OwnerBefore(d, k, g - 1);
      }
      g := g - 1;
    }
    SweepEnds(r, request, bits);
  }

  // ----- how far the completed mask is from the least one -----

  /** What CompleteHierarchyBits promises of its result, on the rig. */
  ghost predicate Completed(r: Rig, request: PartBits, bits: PartBits)
    requires ValidRig(r)
  {
    forall h :: 0 <= h < MASK_BITS ==> (bits[h] <==> request[h] || Pulled(r, bits, -1, h))
  }

  ghost predicate LeastClosed(r: Rig, request: PartBits, least: PartBits)
    requires ValidRig(r)
  {
    && Closed(r, least)
    && (forall h :: 0 <= h < MASK_BITS && request[h] ==> least[h])
    && forall other: PartBits ::
         Closed(r, other) && (forall h :: 0 <= h < MASK_BITS && request[h] ==> other[h]) ==>
           forall h :: 0 <= h < MASK_BITS && least[h] ==> other[h]
  }

  /** The parts that some requested part is evaluated from. */
  ghost predicate Needed(r: Rig, request: PartBits, h: nat)
    requires ValidRig(r) && h < MASK_BITS
  {
    request[h] || exists i :: 0 <= i < |r.links| && request[i] && h in Chain(r, i)
  }

  /** Every request has a least closed mask. */
  lemma LeastExists(r: Rig, request: PartBits) returns (least: PartBits)
    requires ValidRig(r)
    ensures LeastClosed(r, request, least)
  {
    least := seq(128, h requires 0 <= h < 128 => Needed(r, request, h));
    forall h | 0 <= h < |r.links| && least[h] && Up(r, h).Some? ensures least[Up(r, h).value] {
      if request[h] {
        assert Up(r, h).value in Chain(r, h);
      } else {
        var i :| 0 <= i < |r.links| && request[i] && h in Chain(r, i);
        ChainClosed(r, i, h);
      }
    }
    forall other: PartBits, h
      | 0 <= h < MASK_BITS && least[h] &&
        Closed(r, other) && (forall k :: 0 <= k < MASK_BITS && request[k] ==> other[k])
      ensures other[h]
    {
      if !request[h] {
        var i :| 0 <= i < |r.links| && request[i] && h in Chain(r, i);
        ChainLeast(r, other, i, h);
      }
    }
  }

  /** The sweep gives the least closed mask exactly when that mask already has
      the predecessor of every part the sweep does not skip on it. */
  lemma LeastIff(r: Rig, request: PartBits, bits: PartBits, least: PartBits)
    requires ValidRig(r) && LeastClosed(r, request, least) && Closed(r, bits) && Completed(r, request, bits)
    ensures bits == least <==>
            forall i :: 0 <= i < |r.links| && Visited(least, i) && Up(r, i).Some? ==> least[Up(r, i).value]
  {
    if bits == least {
      forall i | 0 <= i < |r.links| && Visited(least, i) && Up(r, i).Some? ensures least[Up(r, i).value] {
        assert Pulled(r, bits, -1, Up(r, i).value);
      }
    }
    if forall i :: 0 <= i < |r.links| && Visited(least, i) && Up(r, i).Some? ==> least[Up(r, i).value] {
      forall h | 0 <= h < MASK_BITS ensures bits[h] == least[h] {
        if bits[h] {
          NoExtra(r, request, bits, least, h);
        }
      }
    }
  }

  lemma {:induction false} NoExtra(r: Rig, request: PartBits, bits: PartBits, least: PartBits, h: nat)
    requires ValidRig(r) && Completed(r, request, bits) && h < MASK_BITS && bits[h]
    requires forall k :: 0 <= k < MASK_BITS && request[k] ==> least[k]
    requires forall i :: 0 <= i < |r.links| && Visited(least, i) && Up(r, i).Some? ==> least[Up(r, i).value]
    ensures least[h]
    decreases MASK_BITS - h
  {
    if !request[h] {
      var i :| 0 <= i < |r.links| && Up(r, i) == Some(h) && Visited(bits, i);
      if !Visited(least, i) {
        var j :| i / 8 * 8 <= j < i / 8 * 8 + 8 && bits[j];
        NoExtra(r, request, bits, least, j);
      }
    }
  }

  /** Whatever was asked for, the predecessor of every part that does not open a
      byte is set. */
  lemma PredecessorsSet(r: Rig, request: PartBits, bits: PartBits, i: nat)
    requires ValidRig(r) && Completed(r, request, bits)
    requires i < |r.links| && i % 8 != 0 && Up(r, i).Some?
    ensures bits[Up(r, i).value]
  {
    assert Pulled(r, bits, -1, Up(r, i).value);
  }

  /** One root bone with one child. */
  const TWO_BONES: DObj := DObj([Model([1, 2], 1, [1], [VecValue(0)])], [NO_PARENT], [0], 2)

  lemma TwoBonesValid()
    ensures ValidDObj(TWO_BONES) && DistinctPerModel(TWO_BONES)
    ensures Up(RigOf(TWO_BONES), 1) == Some(0)
  {
    assert Base(TWO_BONES.models, 1) == 2;
    OwnerUnique(TWO_BONES, 0, OwnerOf(TWO_BONES, 1), 1);
    assert LinkOf(TWO_BONES, 1).Child?;
  }

  /** Asking for nothing on two bones gives the root, though the empty mask is closed. */
  lemma NotLeast()
    ensures ValidDObj(TWO_BONES) && DistinctPerModel(TWO_BONES)
    ensures LeastClosed(RigOf(TWO_BONES), NoBits(), NoBits())
    ensures forall bits: PartBits :: Completed(RigOf(TWO_BONES), NoBits(), bits) ==> bits[0] && bits != NoBits()
  {
    TwoBonesValid();
    forall bits: PartBits | Completed(RigOf(TWO_BONES), NoBits(), bits) ensures bits[0] {
      PredecessorsSet(RigOf(TWO_BONES), NoBits(), bits, 1);
    }
  }

  // ----- the sweep -----

  lemma SweepStarts(r: Rig, request: PartBits)
    requires ValidRig(r)
    ensures SweptTo(r, request, request, |r.links| - 1)
  {
  }

  lemma SweepEnds(r: Rig, request: PartBits, bits: PartBits)
    requires ValidRig(r) && SweptTo(r, request, bits, -1)
    ensures Closed(r, bits) && Completed(r, request, bits)
    ensures forall h :: 0 <= h < MASK_BITS && request[h] ==> bits[h]
  {
  }

  /** Everything above `g` that is set has its predecessor set. */
  ghost predicate SweptTo(r: Rig, request: PartBits, bits: PartBits, g: int)
    requires ValidRig(r)
  {
    && (forall h :: g < h < |r.links| && 0 <= h && bits[h] && Up(r, h).Some? ==> bits[Up(r, h).value])
    && (forall h :: 0 <= h < MASK_BITS ==> (bits[h] <==> request[h] || Pulled(r, bits, g, h)))
  }

  /** Some part above `g` that the sweep does not skip has `h` as predecessor. */
  ghost predicate Pulled(r: Rig, bits: PartBits, g: int, h: nat)
    requires ValidRig(r)
  {
    exists i :: g < i < |r.links| && 0 <= i && Up(r, i) == Some(h) && Visited(bits, i)
  }

  /** Only the first part of an empty byte is skipped. */
  ghost predicate Visited(bits: PartBits, i: nat)
    requires i < MASK_BITS
  {
    i % 8 != 0 || !ByteEmpty(bits, i)
  }

  lemma SweepSkip(r: Rig, request: PartBits, bits: PartBits, g: nat)
    requires ValidRig(r) && g < |r.links| && SweptTo(r, request, bits, g) && !Visited(bits, g)
    ensures SweptTo(r, request, bits, g - 1)
  {
    forall h | 0 <= h < MASK_BITS ensures Pulled(r, bits, g - 1, h) <==> Pulled(r, bits, g, h) {
    }
  }

  lemma SweepSet(r: Rig, request: PartBits, bits: PartBits, g: nat)
    requires ValidRig(r) && g < |r.links| && SweptTo(r, request, bits, g) && Visited(bits, g)
    ensures Up(r, g).None? ==> SweptTo(r, request, bits, g - 1)
    ensures Up(r, g).Some? ==> SweptTo(r, request, bits[Up(r, g).value := true], g - 1)
  {
    var p := Up(r, g);
    var bits' := if p.Some? then bits[p.value := true] else bits;
    forall i | g <= i < |r.links| ensures Visited(bits', i) <==> Visited(bits, i) {
      if p.Some? && i % 8 == 0 {
        assert forall j :: i <= j < i + 8 ==> bits'[j] == bits[j];
      }
    }
    forall h | 0 <= h < MASK_BITS
      ensures Pulled(r, bits', g - 1, h) <==> Pulled(r, bits, g, h) || Some(h) == p
    {
      if Some(h) == p {
        assert Up(r, g) == Some(h) && Visited(bits', g);
      }
    }
  }
}
