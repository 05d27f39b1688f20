/** The part layout of a DObj: construction from models, part lookup by name,
    the duplicate-part remap, and the parent link of every part. */
module DObjLayout {
  import opened Outcomes

  const MAX_MODELS: nat := 8
  const MAX_BONES: nat := 127
  const NO_PARENT: nat := 255
  const MASK_BITS: nat := 128

  type Name = nat

  /** One bit per part; the source keeps it in four 32-bit words. */
  type PartBits = b: seq<bool> | |b| == 128 witness seq(128, _ => false)

  function NoBits(): (b: PartBits)
    ensures forall i :: 0 <= i < 128 ==> !b[i]
  {
    seq(128, _ => false)
  }

  /** Quaternions, translations and matrices are symbolic terms: every numeric
      interpretation of the operations factors through them. */
  datatype Quat = QuatValue(id: int) | MulFirst(part: Quat, rhs: Quat) | MulSecond(lhs: Quat, part: Quat)

  datatype Vec =
    | VecValue(id: int)
    | AddBase(point: Vec, base: Vec)
    | MoveRoot(point: Vec, frame: Mat)
    | MoveChild(point: Vec, frame: Mat)

  datatype Mat = MatValue(id: int) | Build(rotation: Quat, origin: Vec)

  /** A loaded parts file: root parts first, then for every other part the
      backward distance to its parent and its base translation. */
  datatype Model = Model(names: seq<Name>, rootCount: nat, deltas: seq<nat>, baseTranslations: seq<Vec>)

  /** What the parts validator establishes about a loaded model. */
  ghost predicate ValidModel(m: Model) {
    && 1 <= |m.names| <= MAX_BONES
    && m.rootCount <= |m.names|
    && |m.deltas| == |m.baseTranslations| == |m.names| - m.rootCount
    && forall k :: 0 <= k < |m.deltas| ==> 1 <= m.deltas[k] <= m.rootCount + k
  }

  ghost predicate DistinctNames(m: Model) {
    forall i, j :: 0 <= i < j < |m.names| ==> m.names[i] != m.names[j]
  }

  datatype DObj = DObj(models: seq<Model>, parents: seq<nat>, bases: seq<nat>, boneCount: nat)

  ghost function Base(models: seq<Model>, k: nat): nat
    requires k <= |models|
  {
    if k == 0 then 0 else Base(models, k - 1) + |models[k - 1].names|
  }

  lemma {:induction false} BaseMonotone(models: seq<Model>, j: nat, k: nat)
    requires j <= k <= |models|
    ensures Base(models, j) <= Base(models, k)
  {
    if j < k {
      BaseMonotone(models, j, k - 1);
    }
  }

  lemma {:induction false} BasePrefix(models: seq<Model>, more: seq<Model>, k: nat)
    requires k <= |models|
    ensures Base(models + more, k) == Base(models, k)
  {
    if k > 0 {
      BasePrefix(models, more, k - 1);
    }
  }

  /** The construction invariants of DObjCreate. */
  ghost predicate ValidDObj(d: DObj) {
    && 1 <= |d.models| <= MAX_MODELS
    && |d.parents| == |d.bases| == |d.models|
    && (forall k :: 0 <= k < |d.models| ==> ValidModel(d.models[k]))
    && (forall k :: 0 <= k < |d.models| ==> d.bases[k] == Base(d.models, k))
    && d.boneCount == Base(d.models, |d.models|)
    && d.boneCount <= MAX_BONES
    && d.parents[0] == NO_PARENT
    && forall k :: 0 <= k < |d.models| ==> d.parents[k] == NO_PARENT || d.parents[k] < d.bases[k]
  }

  ghost predicate DistinctPerModel(d: DObj) {
    forall k :: 0 <= k < |d.models| ==> DistinctNames(d.models[k])
  }

  /** Part `g` belongs to model `k`. */
  ghost predicate Owns(d: DObj, k: int, g: int)
    requires ValidDObj(d)
  {
    0 <= k < |d.models| && d.bases[k] <= g < d.bases[k] + |d.models[k].names|
  }

  lemma OwnerUnique(d: DObj, j: nat, k: nat, g: nat)
    requires ValidDObj(d)
    requires Owns(d, j, g) && Owns(d, k, g)
    ensures j == k
  {
    if j < k {
      BaseMonotone(d.models, j + 1, k);
    } else if k < j {
      BaseMonotone(d.models, k + 1, j);
    }
  }

  lemma OwnedInRange(d: DObj, k: nat, g: nat)
    requires ValidDObj(d) && Owns(d, k, g)
    ensures g < d.boneCount
  {
    BaseMonotone(d.models, k + 1, |d.models|);
  }

  ghost function OwnerFrom(d: DObj, g: nat, k: nat): (r: nat)
    requires ValidDObj(d) && k <= |d.models| && g < Base(d.models, k)
    ensures Owns(d, r, g)
  {
    if g < Base(d.models, k - 1) then OwnerFrom(d, g, k - 1) else k - 1
  }

  ghost function OwnerOf(d: DObj, g: nat): (r: nat)
    requires ValidDObj(d) && g < d.boneCount
    ensures Owns(d, r, g)
  {
    OwnerFrom(d, g, |d.models|)
  }

  ghost function NameOf(d: DObj, g: nat): Name
    requires ValidDObj(d) && g < d.boneCount
  {
    d.models[OwnerOf(d, g)].names[g - d.bases[OwnerOf(d, g)]]
  }

  // ----- part lookup -----

  /** XModelGetBoneIndex: the last part of the model with this name. */
  method GetBoneIndex(m: Model, name: Name) returns (r: int)
    ensures r == LastIndex(m.names, name)
  {
    r := |m.names| - 1;
    while r >= 0
      invariant -1 <= r < |m.names|
      invariant LastIndex(m.names, name) == LastIndex(m.names[..r + 1], name)
    {
      assert m.names[..r + 1][..r] == m.names[..r];
      if m.names[r] == name {
        return;
      }
      r := r - 1;
    }
  }

  ghost function LastIndex(s: seq<Name>, name: Name): (r: int)
    ensures -1 <= r < |s|
    ensures r >= 0 ==> s[r] == name
    ensures forall i :: r < i < |s| ==> s[i] != name
  {
    if s == [] then -1 else if s[|s| - 1] == name then |s| - 1 else LastIndex(s[..|s| - 1], name)
  }

  /** DObjFindPartIndex: the part found in the first of models `k..` that has the name. */
  ghost function FindFrom(d: DObj, name: Name, k: nat): (r: int)
    requires ValidDObj(d) && k <= |d.models|
    ensures -1 <= r < d.boneCount
    decreases |d.models| - k
  {
    if k == |d.models| then -1
    else if LastIndex(d.models[k].names, name) >= 0 then
      OwnedInRange(d, k, d.bases[k] + LastIndex(d.models[k].names, name));
      d.bases[k] + LastIndex(d.models[k].names, name)
    else FindFrom(d, name, k + 1)
  }

  ghost function FindPart(d: DObj, name: Name): int
    requires ValidDObj(d)
  {
    FindFrom(d, name, 0)
  }

  method FindPartIndex(d: DObj, name: Name) returns (r: int)
    requires ValidDObj(d)
    ensures r == FindPart(d, name)
  {
    var base := 0;
    var k := 0;
    while k < |d.models|
      invariant 0 <= k <= |d.models| && base == Base(d.models, k)
      invariant FindPart(d, name) == FindFrom(d, name, k)
    {
      var bone := GetBoneIndex(d.models[k], name);
      if bone >= 0 {
        return base + bone;
      }
      base := base + |d.models[k].names|;
      k := k + 1;
    }
    return -1;
  }

  /** A lookup that starts at model `k` returns a part whose own name leads back
      to it, and that no earlier model could have supplied. */
  lemma {:induction false} FindFromOwner(d: DObj, name: Name, k: nat) returns (m: nat)
    requires ValidDObj(d) && k <= |d.models| && FindFrom(d, name, k) >= 0
    ensures k <= m && Owns(d, m, FindFrom(d, name, k))
    ensures NameOf(d, FindFrom(d, name, k)) == name
    ensures forall j :: k <= j < m ==> LastIndex(d.models[j].names, name) < 0
    decreases |d.models| - k
  {
    if LastIndex(d.models[k].names, name) >= 0 {
      m := k;
      var r := FindFrom(d, name, k);
      OwnedInRange(d, k, r);
      OwnerUnique(d, k, OwnerOf(d, r), r);
    } else {
      m := FindFromOwner(d, name, k + 1);
    }
  }

  lemma {:induction false} FindFromHit(d: DObj, name: Name, k: nat, m: nat)
    requires ValidDObj(d) && k <= m < |d.models|
    requires LastIndex(d.models[m].names, name) >= 0
    requires forall j :: k <= j < m ==> LastIndex(d.models[j].names, name) < 0
    ensures FindFrom(d, name, k) == d.bases[m] + LastIndex(d.models[m].names, name)
    decreases m - k
  {
    if k < m {
      FindFromHit(d, name, k + 1, m);
    }
  }

  /** Looking up the name of a part always succeeds, and with distinct names in
      each model it finds the part itself or a part of an earlier model. */
  lemma FindOwnName(d: DObj, g: nat)
    requires ValidDObj(d) && DistinctPerModel(d) && g < d.boneCount
    ensures 0 <= FindPart(d, NameOf(d, g)) <= g
    ensures FindPart(d, NameOf(d, g)) == g || FindPart(d, NameOf(d, g)) < d.bases[OwnerOf(d, g)]
  {
    var name := NameOf(d, g);
    var k := OwnerOf(d, g);
    assert d.models[k].names[g - d.bases[k]] == name;
    assert LastIndex(d.models[k].names, name) >= 0;
    FindFromNonNegative(d, name, 0, k);
    var r := FindPart(d, name);
    var m := FindFromOwner(d, name, 0);
    if m < k {
      BaseMonotone(d.models, m + 1, k);
    } else {
      assert m == k;
      FindFromHit(d, name, 0, k);
      assert LastIndex(d.models[k].names, name) == g - d.bases[k];
    }
  }

  lemma {:induction false} FindFromNonNegative(d: DObj, name: Name, k: nat, m: nat)
    requires ValidDObj(d) && k <= m < |d.models|
    requires LastIndex(d.models[m].names, name) >= 0
    ensures FindFrom(d, name, k) >= 0
    ensures FindFrom(d, name, k) < d.bases[m] + |d.models[m].names|
    decreases m - k
  {
    if LastIndex(d.models[k].names, name) >= 0 {
      BaseMonotone(d.models, k, m);
      if k < m {
        BaseMonotone(d.models, k + 1, m);
      }
    } else {
      FindFromNonNegative(d, name, k + 1, m);
    }
  }

  // ----- duplicate parts -----

  /** Part `g` of a model melded onto the others (not attached to a tag) whose
      name is already supplied by another part. */
  ghost predicate IsDuplicate(d: DObj, g: nat)
    requires ValidDObj(d) && g < d.boneCount
  {
    && OwnerOf(d, g) > 0
    && d.parents[OwnerOf(d, g)] == NO_PARENT
    && FindPart(d, NameOf(d, g)) != g
  }

  /** A part found by name is never itself a duplicate: whatever a tag lookup
      returns can be made a control part without meeting the remap. */
  lemma LookupIsNotDuplicate(d: DObj, name: Name)
    requires ValidDObj(d) && FindPart(d, name) >= 0
    ensures NameOf(d, FindPart(d, name)) == name
    ensures !IsDuplicate(d, FindPart(d, name))
  {
    var m := FindFromOwner(d, name, 0);
  }

  /** The remap pairs of all duplicates below `n`, in part order. */
  ghost function Pairs(d: DObj, n: nat): (r: seq<(nat, int)>)
    requires ValidDObj(d) && n <= d.boneCount
  {
    if n == 0 then []
    else if IsDuplicate(d, n - 1) then Pairs(d, n - 1) + [(n - 1, FindPart(d, NameOf(d, n - 1)))]
    else Pairs(d, n - 1)
  }

  lemma {:induction false} PairsSound(d: DObj, n: nat, i: nat)
    requires ValidDObj(d) && n <= d.boneCount && i < |Pairs(d, n)|
    ensures var (s, t) := Pairs(d, n)[i];
      s < n && IsDuplicate(d, s) && t == FindPart(d, NameOf(d, s)) && |Pairs(d, s)| == i
  {
    if IsDuplicate(d, n - 1) && i == |Pairs(d, n)| - 1 {
    } else {
      PairsSound(d, n - 1, i);
    }
  }

  lemma {:induction false} PairsGrow(d: DObj, m: nat, n: nat)
    requires ValidDObj(d) && m <= n <= d.boneCount
    ensures |Pairs(d, m)| <= |Pairs(d, n)| && Pairs(d, n)[..|Pairs(d, m)|] == Pairs(d, m)
  {
    if m < n {
      PairsGrow(d, m, n - 1);
    }
  }

  /** The pair recorded for a duplicate sits right after those of smaller parts. */
  lemma PairAt(d: DObj, g: nat)
    requires ValidDObj(d) && g < d.boneCount && IsDuplicate(d, g)
    ensures |Pairs(d, g)| < |Pairs(d, d.boneCount)|
    ensures Pairs(d, d.boneCount)[|Pairs(d, g)|] == (g, FindPart(d, NameOf(d, g)))
  {
    PairsGrow(d, g + 1, d.boneCount);
    var all, upTo := Pairs(d, d.boneCount), Pairs(d, g + 1);
    assert all[..|upTo|][|Pairs(d, g)|] == upTo[|Pairs(d, g)|];
  }

  /** The interned remap payload: the bit of every duplicate, then one-based
      source and target bytes, closed by a zero. */
  datatype Remap = Remap(sourceBits: PartBits, pairs: seq<int>)

  ghost predicate RemapOf(d: DObj, r: Remap)
    requires ValidDObj(d)
  {
    var p := Pairs(d, d.boneCount);
    && (forall g :: 0 <= g < MASK_BITS ==> r.sourceBits[g] == (g < d.boneCount && IsDuplicate(d, g)))
    && |r.pairs| == 2 * |p| + 1
    && r.pairs[2 * |p|] == 0
    && forall i :: 0 <= i < |p| ==> r.pairs[2 * i] == p[i].0 + 1 && r.pairs[2 * i + 1] == p[i].1 + 1
  }

  /** DObjCreateDuplicateParts: one pass over the parts of every melded model.
      The payload lists exactly the duplicates, in part order. */
  method CreateDuplicateParts(d: DObj) returns (r: Remap)
    requires ValidDObj(d)
    ensures RemapOf(d, r)
  {
    hide ValidDObj, Filled, RemapOf, Base, Pairs, IsDuplicate;
    DObjShape(d);
    var bits: PartBits := NoBits();
    var pairs := [];
    var base := |d.models[0].names|;
    var k := 1;
    NoDuplicatesInRoot(d, base);
    while k < |d.models|
      invariant 1 <= k <= |d.models|
      invariant base == Base(d.models, k)
      invariant Filled(d, base, bits, pairs)
    {
      BaseStep(d, k);
      var count := |d.models[k].names|;
      if d.parents[k] == NO_PARENT {
        bits, pairs := MeldModel(d, k, bits, pairs);
      } else {
        SkipAttached(d, k, bits, pairs);
      }
      base := base + count;
      k := k + 1;
    }
    r := Remap(bits, pairs + [0]);
    FilledAll(d, bits, pairs);
  }

  lemma DObjShape(d: DObj)
    requires ValidDObj(d)
    ensures 1 <= |d.models| == |d.parents| == |d.bases| && d.boneCount == Base(d.models, |d.models|)
  {
  }

  lemma BaseStep(d: DObj, k: nat)
    requires ValidDObj(d) && k < |d.models|
    ensures d.bases[k] == Base(d.models, k)
    ensures Base(d.models, k + 1) == Base(d.models, k) + |d.models[k].names| <= d.boneCount
    ensures k == 0 ==> Base(d.models, k) == 0
  {
    BaseMonotone(d.models, k + 1, |d.models|);
  }

  lemma FilledAll(d: DObj, bits: PartBits, pairs: seq<int>)
    requires ValidDObj(d) && Filled(d, d.boneCount, bits, pairs)
    ensures RemapOf(d, Remap(bits, pairs + [0]))
  {
  }

  /** The inner loop of DObjCreateDuplicateParts, for one melded model. */
  method MeldModel(d: DObj, k: nat, bits0: PartBits, pairs0: seq<int>) returns (bits: PartBits, pairs: seq<int>)
    requires ValidDObj(d) && 1 <= k < |d.models| && d.parents[k] == NO_PARENT
    requires Filled(d, d.bases[k], bits0, pairs0)
    ensures Filled(d, d.bases[k] + |d.models[k].names|, bits, pairs)
  {
    hide Filled;
    bits, pairs := bits0, pairs0;
    var names := d.models[k].names;
    var local := 0;
    while local < |names|
      invariant 0 <= local <= |names|
      invariant Filled(d, d.bases[k] + local, bits, pairs)
    {
      var source := local + d.bases[k];
      OwnedPart(d, k, source);
      var target := FindPartIndex(d, names[local]);
      FilledStep(d, source, target, bits, pairs);
      if target != source {
        pairs := pairs + [source + 1, target + 1];
        bits := bits[source := true];
      }
      local := local + 1;
    }
  }

  lemma OwnedPart(d: DObj, k: nat, g: nat)
    requires ValidDObj(d) && Owns(d, k, g)
    ensures g < d.boneCount && OwnerOf(d, g) == k && NameOf(d, g) == d.models[k].names[g - d.bases[k]]
  {
    OwnedInRange(d, k, g);
    OwnerUnique(d, k, OwnerOf(d, g), g);
  }

  lemma FilledStep(d: DObj, g: nat, target: int, bits: PartBits, pairs: seq<int>)
    requires ValidDObj(d) && g < d.boneCount && Filled(d, g, bits, pairs)
    requires OwnerOf(d, g) > 0 && d.parents[OwnerOf(d, g)] == NO_PARENT
    requires target == FindPart(d, NameOf(d, g))
    ensures target != g ==> Filled(d, g + 1, bits[g := true], pairs + [g + 1, target + 1])
    ensures target == g ==> Filled(d, g + 1, bits, pairs)
  {
    assert IsDuplicate(d, g) <==> target != g;
    if target == g {
      FilledSkip(d, g, g + 1, bits, pairs);
    } else {
      FilledPair(d, g, bits, pairs);
    }
  }

  lemma FilledPair(d: DObj, g: nat, bits: PartBits, pairs: seq<int>)
    requires ValidDObj(d) && g < d.boneCount && Filled(d, g, bits, pairs) && IsDuplicate(d, g)
    ensures Filled(d, g + 1, bits[g := true], pairs + [g + 1, FindPart(d, NameOf(d, g)) + 1])
  {
    hide IsDuplicate, FindPart, NameOf, ValidDObj;
  }

  /** Every remap byte fits and only the terminator is zero, so the payload
      survives its storage as a zero-terminated string. */
  lemma RemapBytesNonZero(d: DObj, r: Remap)
    requires ValidDObj(d) && DistinctPerModel(d) && RemapOf(d, r)
    ensures forall i :: 0 <= i < |r.pairs| - 1 ==> 1 <= r.pairs[i] <= MAX_BONES
  {
    forall i | 0 <= i < |r.pairs| - 1 ensures 1 <= r.pairs[i] <= MAX_BONES {
      PairsSound(d, d.boneCount, i / 2);
      FindOwnName(d, Pairs(d, d.boneCount)[i / 2].0);
    }
  }

  ghost predicate Filled(d: DObj, n: nat, bits: PartBits, pairs: seq<int>)
    requires ValidDObj(d)
  {
    && n <= d.boneCount
    && (forall g :: 0 <= g < MASK_BITS ==> bits[g] == (g < n && IsDuplicate(d, g)))
    && |pairs| == 2 * |Pairs(d, n)|
    && forall i :: 0 <= i < |Pairs(d, n)| ==>
                     pairs[2 * i] == Pairs(d, n)[i].0 + 1 && pairs[2 * i + 1] == Pairs(d, n)[i].1 + 1
  }

  lemma {:induction false} FilledSkip(d: DObj, m: nat, n: nat, bits: PartBits, pairs: seq<int>)
    requires ValidDObj(d) && m <= n <= d.boneCount && Filled(d, m, bits, pairs)
    requires forall g :: m <= g < n ==> !IsDuplicate(d, g)
    ensures Filled(d, n, bits, pairs)
  {
    if m < n {
      FilledSkip(d, m, n - 1, bits, pairs);
    }
  }

  lemma NoDuplicatesInRoot(d: DObj, n: nat)
    requires ValidDObj(d) && n == |d.models[0].names|
    ensures n == Base(d.models, 1) <= d.boneCount && Filled(d, n, NoBits(), [])
    ensures forall g :: 0 <= g < n ==> !IsDuplicate(d, g)
  {
    assert Base(d.models, 1) == n;
    BaseMonotone(d.models, 1, |d.models|);
    forall g | 0 <= g < n ensures !IsDuplicate(d, g) {
      OwnerUnique(d, 0, OwnerOf(d, g), g);
    }
    FilledSkip(d, 0, n, NoBits(), []);
  }

  lemma SkipAttached(d: DObj, k: nat, bits: PartBits, pairs: seq<int>)
    requires ValidDObj(d) && k < |d.models| && d.parents[k] != NO_PARENT
    requires Filled(d, d.bases[k], bits, pairs)
    ensures Filled(d, d.bases[k] + |d.models[k].names|, bits, pairs)
  {
    NoDuplicatesInAttached(d, k, |d.models[k].names|);
    FilledSkip(d, d.bases[k], d.bases[k] + |d.models[k].names|, bits, pairs);
  }

  lemma NoDuplicatesInAttached(d: DObj, k: nat, n: nat)
    requires ValidDObj(d) && k < |d.models| && n == |d.models[k].names|
    requires d.parents[k] != NO_PARENT
    ensures d.bases[k] + n <= d.boneCount
    ensures forall g :: d.bases[k] <= g < d.bases[k] + n ==> !IsDuplicate(d, g)
  {
    BaseMonotone(d.models, k + 1, |d.models|);
    forall g | d.bases[k] <= g < d.bases[k] + n ensures !IsDuplicate(d, g) {
      OwnerUnique(d, k, OwnerOf(d, g), g);
    }
  }

  // ----- the rig: links between parts -----

  datatype Link = Loose | Attached(parent: nat) | Child(parent: nat, base: Vec)

  /** How a part hangs on the others, ignoring duplicates. */
  ghost function LinkOf(d: DObj, g: nat): (r: Link)
    requires ValidDObj(d) && g < d.boneCount
    ensures !r.Loose? ==> r.parent < g
  {
    var k := OwnerOf(d, g);
    var m := d.models[k];
    var local := g - d.bases[k];
    if local < m.rootCount then
      if d.parents[k] == NO_PARENT then Loose else Attached(d.parents[k])
    else Child(g - m.deltas[local - m.rootCount], m.baseTranslations[local - m.rootCount])
  }

  /** The part graph that pose evaluation walks. */
  datatype Rig = Rig(links: seq<Link>, twins: seq<Option<nat>>)

  ghost predicate ValidRig(r: Rig) {
    && |r.links| == |r.twins| <= MAX_BONES
    && (forall g :: 0 <= g < |r.links| ==> r.links[g].Loose? || r.links[g].parent < g)
    && (forall g :: 0 <= g < |r.twins| ==> r.twins[g].None? || r.twins[g].value < g)
  }

  ghost function RigOf(d: DObj): (r: Rig)
    requires ValidDObj(d) && DistinctPerModel(d)
    ensures ValidRig(r) && |r.links| == d.boneCount
  {
    var links := seq(d.boneCount, g requires 0 <= g < d.boneCount => LinkOf(d, g));
    var twins := seq(d.boneCount, g requires 0 <= g < d.boneCount => TwinOf(d, g));
    Rig(links, twins)
  }

  ghost function TwinOf(d: DObj, g: nat): (r: Option<nat>)
    requires ValidDObj(d) && DistinctPerModel(d) && g < d.boneCount
    ensures r.Some? ==> r.value < g
    ensures r.Some? <==> IsDuplicate(d, g)
  {
    if IsDuplicate(d, g) then FindOwnName(d, g); Some(FindPart(d, NameOf(d, g))) else None
  }

  /** The single part that has to be evaluated before part `g`. */
  ghost function Up(r: Rig, g: nat): (p: Option<nat>)
    requires ValidRig(r) && g < |r.links|
    ensures p.Some? ==> p.value < g
  {
    if r.twins[g].Some? then r.twins[g]
    else if r.links[g].Loose? then None
    else Some(r.links[g].parent)
  }

  /** A part set that contains the predecessor of each of its parts. */
  ghost predicate Closed(r: Rig, bits: PartBits)
    requires ValidRig(r)
  {
    forall g :: 0 <= g < |r.links| && bits[g] && Up(r, g).Some? ==> bits[Up(r, g).value]
  }

  // ----- construction -----

  /** A tag that names no interned string has handle zero. */
  datatype Tag = NoTag | Tag(handle: Name)

  datatype ModelSpec = ModelSpec(model: Model, tag: Tag)

  /** Where DObjCreate hangs a model: on the first earlier model that has the tag. */
  ghost function AttachPoint(models: seq<Model>, bases: seq<nat>, tag: Name, k: nat): (r: int)
    requires |models| == |bases| && k <= |models|
    decreases |models| - k
  {
    if k == |models| then -1
    else if LastIndex(models[k].names, tag) >= 0 then bases[k] + LastIndex(models[k].names, tag)
    else AttachPoint(models, bases, tag, k + 1)
  }

  lemma {:induction false} AttachPointBounds(models: seq<Model>, bases: seq<nat>, tag: Name, k: nat)
    requires |models| == |bases| && k <= |models|
    requires forall i :: 0 <= i < |bases| ==> bases[i] == Base(models, i)
    ensures -1 <= AttachPoint(models, bases, tag, k) < Base(models, |models|)
    decreases |models| - k
  {
    if k < |models| {
      if LastIndex(models[k].names, tag) >= 0 {
        BaseMonotone(models, k + 1, |models|);
      } else {
        AttachPointBounds(models, bases, tag, k + 1);
      }
    }
  }

  /** The models placed so far and where the first `n` specifications went. */
  ghost predicate Placed(specs: seq<ModelSpec>, n: nat, d: DObj, kept: seq<nat>) {
    PlacedShape(specs, n, d, kept) && PlacedLinks(specs, d, kept) && PlacedRest(specs, n, d, kept)
  }

  ghost predicate PlacedShape(specs: seq<ModelSpec>, n: nat, d: DObj, kept: seq<nat>) {
    && n <= |specs|
    && |d.parents| == |d.bases| == |d.models| == |kept| <= n
    && (n > 0 ==> 0 < |kept| && kept[0] == 0)
    && (forall k :: 0 <= k < |d.models| ==> d.bases[k] == Base(d.models, k))
    && d.boneCount == Base(d.models, |d.models|) <= MAX_BONES
    && (forall k :: 0 <= k < |kept| ==> kept[k] < n && d.models[k] == specs[kept[k]].model)
    && (forall j, k :: 0 <= j < k < |kept| ==> kept[j] < kept[k])
  }

  ghost predicate PlacedLinks(specs: seq<ModelSpec>, d: DObj, kept: seq<nat>) {
    && |d.parents| == |d.bases| == |d.models| == |kept|
    && forall k :: 0 <= k < |kept| ==>
                     && kept[k] < |specs|
                     && Resolves(specs[kept[k]].tag, d.models[..k], d.bases[..k])
                     && d.parents[k] == ParentFor(specs[kept[k]].tag, d.models[..k], d.bases[..k])
  }

  ghost predicate PlacedRest(specs: seq<ModelSpec>, n: nat, d: DObj, kept: seq<nat>) {
    n <= |specs| && forall i :: 0 <= i < n && i !in kept ==> exists k :: Dropped(specs[i].tag, i, d, kept, k)
  }

  /** Specification `i` was left out because the `k` models kept before it do not have its tag. */
  ghost predicate Dropped(tag: Tag, i: nat, d: DObj, kept: seq<nat>, k: int) {
    && 0 <= k <= |d.models| == |d.bases| == |kept|
    && (k == 0 || kept[k - 1] < i)
    && (k == |kept| || i < kept[k])
    && !Resolves(tag, d.models[..k], d.bases[..k])
  }

  /** The tag can be resolved against these models; the first model needs none. */
  ghost predicate Resolves(tag: Tag, models: seq<Model>, bases: seq<nat>)
    requires |models| == |bases|
  {
    models == [] || tag.NoTag? || (tag.handle != 0 && AttachPoint(models, bases, tag.handle, 0) >= 0)
  }

  ghost function ParentFor(tag: Tag, models: seq<Model>, bases: seq<nat>): nat
    requires |models| == |bases|
  {
    if |models| == 0 || tag.NoTag? || tag.handle == 0 then NO_PARENT
    else
      var p := AttachPoint(models, bases, tag.handle, 0);
      if p < 0 then NO_PARENT else p
  }

  lemma KeepModel(specs: seq<ModelSpec>, n: nat, d: DObj, kept: seq<nat>, parent: nat, next: DObj)
    requires Placed(specs, n, d, kept) && n < |specs|
    requires Resolves(specs[n].tag, d.models, d.bases) && parent == ParentFor(specs[n].tag, d.models, d.bases)
    requires ValidModel(specs[n].model)
    requires next == DObj(d.models + [specs[n].model], d.parents + [parent], d.bases + [d.boneCount],
                          d.boneCount + |specs[n].model.names|)
    requires next.boneCount <= MAX_BONES
    ensures Placed(specs, n + 1, next, kept + [n])
  {
    KeepShape(specs, n, d, kept, parent, next);
    KeepLinks(specs, n, d, kept, parent, next);
    KeepRest(specs, n, d, kept, next);
  }

  lemma KeepShape(specs: seq<ModelSpec>, n: nat, d: DObj, kept: seq<nat>, parent: nat, next: DObj)
    requires PlacedShape(specs, n, d, kept) && n < |specs|
    requires next == DObj(d.models + [specs[n].model], d.parents + [parent], d.bases + [d.boneCount],
                          d.boneCount + |specs[n].model.names|)
    requires next.boneCount <= MAX_BONES
    ensures PlacedShape(specs, n + 1, next, kept + [n])
  {
    forall k | 0 <= k <= |d.models| ensures Base(next.models, k) == Base(d.models, k) {
      BasePrefix(d.models, [specs[n].model], k);
    }
  }

  lemma KeepLinks(specs: seq<ModelSpec>, n: nat, d: DObj, kept: seq<nat>, parent: nat, next: DObj)
    requires PlacedLinks(specs, d, kept) && n < |specs|
    requires Resolves(specs[n].tag, d.models, d.bases) && parent == ParentFor(specs[n].tag, d.models, d.bases)
    requires next.models == d.models + [specs[n].model] && next.parents == d.parents + [parent]
    requires next.bases == d.bases + [d.boneCount]
    ensures PlacedLinks(specs, next, kept + [n])
  {
    forall k | 0 <= k <= |d.models| ensures next.models[..k] == d.models[..k] && next.bases[..k] == d.bases[..k] {
    }
    assert d.models[..|d.models|] == d.models && d.bases[..|d.bases|] == d.bases;
  }

  lemma KeepRest(specs: seq<ModelSpec>, n: nat, d: DObj, kept: seq<nat>, next: DObj)
    requires PlacedShape(specs, n, d, kept) && PlacedRest(specs, n, d, kept) && n < |specs|
    requires next.models == d.models + [specs[n].model] && next.bases == d.bases + [d.boneCount]
    ensures PlacedRest(specs, n + 1, next, kept + [n])
  {
    hide Dropped, PlacedShape;
    forall i | 0 <= i < n + 1 && i !in kept + [n] ensures exists k :: Dropped(specs[i].tag, i, next, kept + [n], k) {
      assert i != n by { assert (kept + [n])[|kept|] == n; }
      var k :| Dropped(specs[i].tag, i, d, kept, k);
      DroppedStays(specs, n, d, kept, next, i, k);
    }
  }

  lemma DroppedStays(specs: seq<ModelSpec>, n: nat, d: DObj, kept: seq<nat>, next: DObj, i: nat, k: int)
    requires PlacedShape(specs, n, d, kept) && i < n < |specs| && Dropped(specs[i].tag, i, d, kept, k)
    requires next.models == d.models + [specs[n].model] && next.bases == d.bases + [d.boneCount]
    ensures Dropped(specs[i].tag, i, next, kept + [n], k)
  {
    hide Resolves;
    assert next.models[..k] == d.models[..k] && next.bases[..k] == d.bases[..k];
  }

  lemma DropModel(specs: seq<ModelSpec>, n: nat, d: DObj, kept: seq<nat>)
    requires Placed(specs, n, d, kept) && 0 < n < |specs|
    requires !Resolves(specs[n].tag, d.models, d.bases)
    ensures Placed(specs, n + 1, d, kept)
  {
    DropRest(specs, n, d, kept);
  }

  lemma DropRest(specs: seq<ModelSpec>, n: nat, d: DObj, kept: seq<nat>)
    requires PlacedShape(specs, n, d, kept) && PlacedRest(specs, n, d, kept) && n < |specs|
    requires !Resolves(specs[n].tag, d.models, d.bases)
    ensures PlacedRest(specs, n + 1, d, kept)
  {
    DroppedLast(specs, n, d, kept);
    hide Dropped, PlacedShape;
  }

  lemma DroppedLast(specs: seq<ModelSpec>, n: nat, d: DObj, kept: seq<nat>)
    requires PlacedShape(specs, n, d, kept) && n < |specs|
    requires !Resolves(specs[n].tag, d.models, d.bases)
    ensures Dropped(specs[n].tag, n, d, kept, |d.models|)
  {
    hide Resolves;
    assert d.models[..|d.models|] == d.models && d.bases[..|d.bases|] == d.bases;
  }

  lemma PlacedIsValid(specs: seq<ModelSpec>, d: DObj, kept: seq<nat>)
    requires Placed(specs, |specs|, d, kept) && 0 < |specs| <= MAX_MODELS
    requires forall i :: 0 <= i < |specs| ==> ValidModel(specs[i].model)
    ensures ValidDObj(d)
  {
    forall k | 0 <= k < |d.models| ensures d.parents[k] == NO_PARENT || d.parents[k] < d.bases[k] {
      PlacedParentBelow(specs, d, kept, k);
    }
  }

  lemma PlacedParentBelow(specs: seq<ModelSpec>, d: DObj, kept: seq<nat>, k: nat)
    requires PlacedShape(specs, |specs|, d, kept) && PlacedLinks(specs, d, kept) && k < |d.models|
    ensures d.parents[k] == NO_PARENT || d.parents[k] < d.bases[k]
  {
    var tag := specs[kept[k]].tag;
    var models, bases := d.models[..k], d.bases[..k];
    assert d.models == models + d.models[k..];
    forall i | 0 <= i <= k ensures Base(models, i) == Base(d.models, i) {
      BasePrefix(models, d.models[k..], i);
    }
    if tag.Tag? {
      AttachPointBounds(models, bases, tag.handle, 0);
    }
  }

  /** What the first `n` specifications come to when no limit stops them. */
  ghost function Assembled(specs: seq<ModelSpec>, n: nat): (d: DObj)
    requires n <= |specs|
    ensures |d.parents| == |d.bases| == |d.models|
  {
    if n == 0 then DObj([], [], [], 0)
    else
      var d, spec := Assembled(specs, n - 1), specs[n - 1];
      if !Resolves(spec.tag, d.models, d.bases) then d
      else DObj(d.models + [spec.model], d.parents + [ParentFor(spec.tag, d.models, d.bases)], d.bases + [d.boneCount],
                d.boneCount + |spec.model.names|)
  }

  lemma {:induction false} AssembledGrows(specs: seq<ModelSpec>, m: nat, n: nat)
    requires m <= n <= |specs|
    ensures Assembled(specs, m).boneCount <= Assembled(specs, n).boneCount
  {
    if m < n {
      AssembledGrows(specs, m, n - 1);
    }
  }

  /** DObjCreate. The result holds, in order, every model whose tag could be
      resolved against the models placed before it; a model with an unresolved
      tag leaves no trace. It fails exactly when there are too many models or
      those it keeps have too many bones together; otherwise the construction
      invariants hold. */
  method Create(specs: seq<ModelSpec>) returns (r: Result<DObj>, kept: seq<nat>)
    requires forall i :: 0 <= i < |specs| ==> ValidModel(specs[i].model)
    ensures r.Error? <==> |specs| > MAX_MODELS || Assembled(specs, |specs|).boneCount > MAX_BONES
    ensures r.Ok? ==> r.value == Assembled(specs, |specs|) && Placed(specs, |specs|, r.value, kept)
    ensures r.Ok? && |specs| > 0 ==> ValidDObj(r.value)
  {
    hide Placed;
    kept := [];
    if |specs| > MAX_MODELS {
      return Error, kept;
    }
    var d := DObj([], [], [], 0);
    PlacedNone(specs);
    for i := 0 to |specs|
      invariant Placed(specs, i, d, kept) && d == Assembled(specs, i)
    {
      var fits;
      fits, d, kept := PlaceModel(specs, i, d, kept);
      if !fits {
        AssembledGrows(specs, i + 1, |specs|);
        return Error, kept;
      }
    }
    PlacedFits(specs, |specs|, d, kept);
    if |specs| > 0 {
      PlacedIsValid(specs, d, kept);
    }
    r := Ok(d);
  }

  /** One round of the construction loop. */
  method PlaceModel(specs: seq<ModelSpec>, i: nat, d: DObj, kept: seq<nat>)
    returns (fits: bool, d': DObj, kept': seq<nat>)
    requires i < |specs| && d == Assembled(specs, i) && Placed(specs, i, d, kept) && ValidModel(specs[i].model)
    ensures fits <==> Assembled(specs, i + 1).boneCount <= MAX_BONES
    ensures fits ==> d' == Assembled(specs, i + 1) && Placed(specs, i + 1, d', kept')
  {
    var spec := specs[i];
    var placed, parent := ResolveParent(d, i, spec.tag);
    if !placed {
      DropModel(specs, i, d, kept);
      return true, d, kept;
    }
    if d.boneCount + |spec.model.names| > MAX_BONES {
      return false, d, kept;
    }
    d' := DObj(d.models + [spec.model], d.parents + [parent], d.bases + [d.boneCount],
               d.boneCount + |spec.model.names|);
    KeepModel(specs, i, d, kept, parent, d');
    return true, d', kept + [i];
  }

  lemma PlacedFits(specs: seq<ModelSpec>, n: nat, d: DObj, kept: seq<nat>)
    requires Placed(specs, n, d, kept)
    ensures d.boneCount <= MAX_BONES
  {
  }

  lemma PlacedNone(specs: seq<ModelSpec>)
    ensures Placed(specs, 0, DObj([], [], [], 0), [])
  {
  }

  /** The tag search of DObjCreate over the models placed so far. */
  method ResolveParent(d: DObj, i: nat, tag: Tag) returns (placed: bool, parent: nat)
    requires |d.models| == |d.bases|
    requires i == 0 <==> |d.models| == 0
    ensures placed ==> parent == ParentFor(tag, d.models, d.bases)
    ensures placed <==> Resolves(tag, d.models, d.bases)
  {
    if i == 0 || tag.NoTag? {
      return true, NO_PARENT;
    }
    if tag.handle != 0 {
      var k := 0;
      while k < |d.models|
        invariant 0 <= k <= |d.models|
        invariant AttachPoint(d.models, d.bases, tag.handle, 0) == AttachPoint(d.models, d.bases, tag.handle, k)
      {
        var local := GetBoneIndex(d.models[k], tag.handle);
        if local >= 0 {
          return true, d.bases[k] + local;
        }
        k := k + 1;
      }
    }
    return false, NO_PARENT;
  }

  /** In a finished DObj a model after the first is melded exactly when it was
      given no tag; otherwise it hangs on the part that a lookup of its tag finds. */
  lemma AttachedCarriesTag(specs: seq<ModelSpec>, d: DObj, kept: seq<nat>, k: nat)
    requires Placed(specs, |specs|, d, kept) && ValidDObj(d) && 1 <= k < |kept|
    ensures d.parents[k] == NO_PARENT <==> specs[kept[k]].tag.NoTag?
    ensures d.parents[k] != NO_PARENT ==> d.parents[k] == FindPart(d, specs[kept[k]].tag.handle)
    ensures d.parents[k] != NO_PARENT ==> NameOf(d, d.parents[k]) == specs[kept[k]].tag.handle
  {
    var tag := specs[kept[k]].tag;
    if tag.Tag? {
      assert Resolves(tag, d.models[..k], d.bases[..k]);
      AttachPointIsFind(d, tag.handle, k, 0);
      var m := FindFromOwner(d, tag.handle, 0);
    }
  }

  lemma {:induction false} AttachPointIsFind(d: DObj, tag: Name, k: nat, j: nat)
    requires ValidDObj(d) && j <= k <= |d.models|
    requires AttachPoint(d.models[..k], d.bases[..k], tag, j) >= 0
    ensures FindFrom(d, tag, j) == AttachPoint(d.models[..k], d.bases[..k], tag, j)
    decreases k - j
  {
    if j < k && LastIndex(d.models[j].names, tag) < 0 {
      AttachPointIsFind(d, tag, k, j + 1);
    }
  }
}
