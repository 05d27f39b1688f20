/** Blending the weighted animation tree into local poses: the evaluator that
    accumulates in place, with flags and a scratch buffer, against the sum it
    stands for. Products, quotients and lengths are parameters; adding is exact. */
module PoseBlend {
  import opened PartRemap
  import L = DObjLayout
  import opened Outcomes

  datatype Quat = Quat(x: real, y: real, z: real, w: real)
  datatype Vec = Vec(x: real, y: real, z: real)

  /** DObjAnimMat: sums of rotation and translation and the weight they carry. */
  datatype Part = Part(q: Quat, t: Vec, weight: real)

  const ZERO_Q: Quat := Quat(0.0, 0.0, 0.0, 0.0)
  const ZERO_T: Vec := Vec(0.0, 0.0, 0.0)
  const ZERO: Part := Part(ZERO_Q, ZERO_T, 0.0)

  /** The arithmetic of the lanes. */
  datatype Arith = Arith(times: (real, real) -> real, over: (real, real) -> real, length: Quat -> real)

  /** Only the zero rotation has length zero. */
  ghost predicate ArithOk(ar: Arith) {
    forall q :: ar.length(q) == 0.0 <==> q == ZERO_Q
  }

  function ScaleQ(ar: Arith, k: real, q: Quat): Quat {
    Quat(ar.times(k, q.x), ar.times(k, q.y), ar.times(k, q.z), ar.times(k, q.w))
  }

  function ScaleT(ar: Arith, k: real, t: Vec): Vec {
    Vec(ar.times(k, t.x), ar.times(k, t.y), ar.times(k, t.z))
  }

  function AddQ(a: Quat, b: Quat): Quat {
    Quat(a.x + b.x, a.y + b.y, a.z + b.z, a.w + b.w)
  }

  function AddT(a: Vec, b: Vec): Vec {
    Vec(a.x + b.x, a.y + b.y, a.z + b.z)
  }

  function Add(a: Part, b: Part): Part {
    Part(AddQ(a.q, b.q), AddT(a.t, b.t), a.weight + b.weight)
  }

  // ----- the tree -----

  /** What the streams of one animation part add at a weight, at the current time. */
  datatype Sample = Sample(q: real -> Quat, t: real -> Vec)

  /** A leaf: its part names, the remap XAnimSetModel made for them, and their samples. */
  datatype TrackData = TrackData(names: seq<L.Name>, remap: Payload, samples: seq<Sample>)

  type Track = l: TrackData | |l.names| == |l.remap.table| == |l.samples|
    witness TrackData([], Payload(L.NoBits(), []), [])

  /** A child without a live pool node has weight zero. */
  datatype Tree = Leaf(leaf: Track) | Interior(children: seq<Child>)
  datatype Child = Child(weight: real, tree: Tree)

  /** Every leaf is remapped for these bones, and current weights are not negative. */
  ghost predicate Remapped(t: Tree, bones: seq<L.Name>) {
    match t
    case Leaf(leaf) => IsPayload(leaf.names, bones, leaf.remap)
    case Interior(children) =>
      forall i :: 0 <= i < |children| ==> children[i].weight >= 0.0 && Remapped(children[i].tree, bones)
  }

  /** What the sample loops rely on: remapped parts lie in the DObj, no two
      animated parts share one, and the mask is the image of the table. */
  ghost predicate SoundTrack(leaf: Track, count: nat) {
    && (forall i :: 0 <= i < |leaf.samples| ==> leaf.remap.table[i] < count || leaf.remap.table[i] == MISSING)
    && (forall i, j :: 0 <= i < j < |leaf.samples| ==>
          leaf.remap.table[i] != leaf.remap.table[j] || leaf.remap.table[i] == MISSING)
    && forall g :: 0 <= g < count <= MISSING ==> (leaf.remap.mask[g] <==> Animated(Leaf(leaf), g))
  }

  ghost predicate Valid(t: Tree, count: nat) {
    match t
    case Leaf(leaf) => SoundTrack(leaf, count)
    case Interior(children) =>
      forall i :: 0 <= i < |children| ==> children[i].weight >= 0.0 && Valid(children[i].tree, count)
  }

  /** A remap never sends two animation parts to one DObj part. */
  lemma RemapIsSound(leaf: Track, bones: seq<L.Name>)
    requires IsPayload(leaf.names, bones, leaf.remap)
    ensures SoundTrack(leaf, |bones|)
  {
    var table := leaf.remap.table;
    forall g | 0 <= g < |bones| <= MISSING ensures leaf.remap.mask[g] <==> Animated(Leaf(leaf), g) {
      assert leaf.remap.mask[g] <==> g in table;
    }
  }

  lemma {:induction false} RemappedIsValid(t: Tree, bones: seq<L.Name>)
    requires Remapped(t, bones)
    ensures Valid(t, |bones|)
  {
    match t
    case Leaf(leaf) => RemapIsSound(leaf, bones);
    case Interior(children) =>
      forall i | 0 <= i < |children| ensures Valid(children[i].tree, |bones|) {
        RemappedIsValid(children[i].tree, bones);
      }
  }

  /** The first child from i on with a weight. */
  function FirstActive(children: seq<Child>, i: nat): (r: nat)
    requires i <= |children|
    ensures i <= r <= |children|
    ensures forall k :: i <= k < r ==> children[k].weight == 0.0
    ensures r < |children| ==> children[r].weight != 0.0
    decreases |children| - i
  {
    if i == |children| || children[i].weight != 0.0 then i else FirstActive(children, i + 1)
  }

  // ----- what a subtree contributes to a part -----

  function Weighted(s: Sample, w: real): Part {
    Part(s.q(w), s.t(w), w)
  }

  function SampleSum(leaf: Track, n: nat, w: real, g: nat): Part
    requires n <= |leaf.samples|
  {
    if n == 0 then ZERO
    else
      var before := SampleSum(leaf, n - 1, w, g);
      if leaf.remap.table[n - 1] == g then Add(before, Weighted(leaf.samples[n - 1], w)) else before
  }

  /** A sum rescaled to a weight: the rotation by its length, the rest by the
      weight it carries. */
  function Rescaled(ar: Arith, p: Part, w: real): Part {
    Part(if ar.length(p.q) != 0.0 then ScaleQ(ar, ar.over(w, ar.length(p.q)), p.q) else ZERO_Q,
         if p.weight != 0.0 then ScaleT(ar, ar.over(w, p.weight), p.t) else ZERO_T,
         if p.weight != 0.0 then w else 0.0)
  }

  /** A single active child passes its parent's weight through; several are
      summed by their own weights and rescaled. */
  function Blend(ar: Arith, t: Tree, w: real, g: nat): Part
    decreases t, if t.Interior? then |t.children| + 1 else 0
  {
    match t
    case Leaf(leaf) => SampleSum(leaf, |leaf.samples|, w, g)
    case Interior(children) =>
      var a := FirstActive(children, 0);
      if a == |children| then ZERO
      else if FirstActive(children, a + 1) == |children| then Blend(ar, children[a].tree, w, g)
      else Rescaled(ar, BlendSum(ar, t, |children|, g), w)
  }

  function BlendSum(ar: Arith, t: Tree, n: nat, g: nat): Part
    requires t.Interior? && n <= |t.children|
    decreases t, n
  {
    if n == 0 then ZERO
    else
      var c := t.children[n - 1];
      var before := BlendSum(ar, t, n - 1, g);
      if c.weight == 0.0 then before else Add(before, Blend(ar, c.tree, c.weight, g))
  }

  /** Some active leaf below animates the part. */
  predicate Animated(t: Tree, g: nat) {
    match t
    case Leaf(leaf) => exists i :: 0 <= i < |leaf.samples| && leaf.remap.table[i] == g
    case Interior(children) =>
      exists i :: 0 <= i < |children| && children[i].weight != 0.0 && Animated(children[i].tree, g)
  }

  // ----- the weight a part ends up with -----

  lemma {:induction false} LeafMiss(leaf: Track, n: nat, w: real, g: nat)
    requires n <= |leaf.samples| && forall i :: 0 <= i < n ==> leaf.remap.table[i] != g
    ensures SampleSum(leaf, n, w, g) == ZERO
  {
    if n > 0 {
      LeafMiss(leaf, n - 1, w, g);
    }
  }

  lemma AddZero(p: Part)
    ensures Add(ZERO, p) == p == Add(p, ZERO)
  {
  }

  lemma {:induction false} LeafHit(leaf: Track, n: nat, w: real, g: nat, i: nat)
    requires i < n <= |leaf.samples| && leaf.remap.table[i] == g
    requires forall k :: 0 <= k < n && k != i ==> leaf.remap.table[k] != g
    ensures SampleSum(leaf, n, w, g) == Weighted(leaf.samples[i], w)
  {
    if i == n - 1 {
      LeafMiss(leaf, n - 1, w, g);
      AddZero(Weighted(leaf.samples[i], w));
    } else {
      LeafHit(leaf, n - 1, w, g, i);
    }
  }

  /** The samples of a leaf hit a part at most once. */
  lemma LeafWeight(leaf: Track, w: real, g: nat, count: nat)
    requires g < count <= MISSING && Valid(Leaf(leaf), count)
    ensures !Animated(Leaf(leaf), g) ==> SampleSum(leaf, |leaf.samples|, w, g) == ZERO
    ensures forall i :: 0 <= i < |leaf.samples| && leaf.remap.table[i] == g ==>
              SampleSum(leaf, |leaf.samples|, w, g) == Weighted(leaf.samples[i], w)
  {
    if !Animated(Leaf(leaf), g) {
      LeafMiss(leaf, |leaf.samples|, w, g);
    }
    forall i | 0 <= i < |leaf.samples| && leaf.remap.table[i] == g
      ensures SampleSum(leaf, |leaf.samples|, w, g) == Weighted(leaf.samples[i], w)
    {
      LeafHit(leaf, |leaf.samples|, w, g, i);
    }
  }

  /** A subtree gives a part its own weight if it animates it and nothing at all
      otherwise, so no animated part is left without weight. */
  lemma {:induction false} BlendWeight(ar: Arith, t: Tree, w: real, g: nat, count: nat)
    requires ArithOk(ar) && Valid(t, count) && w > 0.0 && g < count <= MISSING
    ensures Blend(ar, t, w, g).weight == if Animated(t, g) then w else 0.0
    ensures !Animated(t, g) ==> Blend(ar, t, w, g) == ZERO
    decreases t, if t.Interior? then |t.children| + 1 else 0
  {
    match t
    case Leaf(leaf) => LeafWeight(leaf, w, g, count);
    case Interior(children) =>
      var a := FirstActive(children, 0);
      if a < |children| {
        if FirstActive(children, a + 1) == |children| {
          BlendWeight(ar, children[a].tree, w, g, count);
        } else {
          SumWeight(ar, t, |children|, g, count);
        }
      }
  }

  /** Some active child among the first n animates the part. */
  predicate AnimatedBefore(t: Tree, n: nat, g: nat)
    requires t.Interior? && n <= |t.children|
  {
    exists i :: 0 <= i < n && t.children[i].weight != 0.0 && Animated(t.children[i].tree, g)
  }

  /** A sum has weight exactly if something animates the part. */
  predicate SumOk(s: Part, animated: bool) {
    if animated then s.weight > 0.0 else s == ZERO
  }

  lemma {:induction false} SumWeight(ar: Arith, t: Tree, n: nat, g: nat, count: nat)
    requires ArithOk(ar) && t.Interior? && n <= |t.children| && Valid(t, count) && g < count <= MISSING
    ensures SumOk(BlendSum(ar, t, n, g), AnimatedBefore(t, n, g))
    decreases t, n
  {
    hide SumOk, ArithOk, AnimatedBefore, Animated, BlendSum, Valid, Add;
    if n == 0 {
      SumNothing(ar, t, g);
    } else {
      var c := t.children[n - 1];
      SumWeight(ar, t, n - 1, g, count);
      var b := NextWeight(ar, t, n, g, count);
      AnimatedNext(t, n, g);
      AddWeights(BlendSum(ar, t, n - 1, g), b, AnimatedBefore(t, n - 1, g), c.weight != 0.0 && Animated(c.tree, g));
    }
  }

  lemma SumNothing(ar: Arith, t: Tree, g: nat)
    requires t.Interior?
    ensures SumOk(BlendSum(ar, t, 0, g), AnimatedBefore(t, 0, g))
  {
  }

  lemma AddWeights(a: Part, b: Part, x: bool, y: bool)
    requires SumOk(a, x) && SumOk(b, y)
    ensures SumOk(Add(a, b), x || y)
  {
  }

  lemma AnimatedNext(t: Tree, n: nat, g: nat)
    requires t.Interior? && 0 < n <= |t.children|
    ensures var c := t.children[n - 1];
            AnimatedBefore(t, n, g) <==> AnimatedBefore(t, n - 1, g) || (c.weight != 0.0 && Animated(c.tree, g))
  {
  }

  /** What the last of n children adds. */
  lemma {:induction false} NextWeight(ar: Arith, t: Tree, n: nat, g: nat, count: nat) returns (b: Part)
    requires ArithOk(ar) && t.Interior? && 0 < n <= |t.children| && Valid(t, count) && g < count <= MISSING
    ensures BlendSum(ar, t, n, g) == Add(BlendSum(ar, t, n - 1, g), b)
    ensures var c := t.children[n - 1];
            SumOk(b, c.weight != 0.0 && Animated(c.tree, g))
    decreases t, n - 1
  {
    var c := t.children[n - 1];
    AddZero(BlendSum(ar, t, n - 1, g));
    if c.weight != 0.0 {
      BlendWeight(ar, c.tree, c.weight, g, count);
      b := Blend(ar, c.tree, c.weight, g);
    } else {
      b := ZERO;
    }
  }

  // ----- the root -----

  /** The average the root leaves behind: divided by the weight, not the length. */
  function Averaged(ar: Arith, p: Part): Part {
    if p.weight == 0.0 then p
    else Part(ScaleQ(ar, ar.over(1.0, p.weight), p.q), ScaleT(ar, ar.over(1.0, p.weight), p.t), p.weight)
  }

  /** The pose of a part without normalization at the top. */
  function RootBlend(ar: Arith, t: Tree, w: real, g: nat): Part {
    match t
    case Leaf(leaf) => SampleSum(leaf, |leaf.samples|, w, g)
    case Interior(children) =>
      var a := FirstActive(children, 0);
      if a == |children| then ZERO
      else if FirstActive(children, a + 1) == |children| then RootBlend(ar, children[a].tree, w, g)
      else Averaged(ar, BlendSum(ar, t, |children|, g))
  }

  // ----- the evaluator -----

  /** The contributions to all parts, and the partial sums. */
  ghost function SampleAll(leaf: Track, n: nat, w: real, count: nat): (r: seq<Part>)
    requires n <= |leaf.samples|
    ensures |r| == count && forall g :: 0 <= g < count ==> r[g] == SampleSum(leaf, n, w, g)
  {
    seq(count, g requires 0 <= g < count => SampleSum(leaf, n, w, g))
  }

  ghost function BlendAll(ar: Arith, t: Tree, w: real, count: nat): (r: seq<Part>)
    ensures |r| == count && forall g :: 0 <= g < count ==> r[g] == Blend(ar, t, w, g)
  {
    seq(count, g requires 0 <= g < count => Blend(ar, t, w, g))
  }

  ghost function SumAll(ar: Arith, t: Tree, n: nat, count: nat): (r: seq<Part>)
    requires t.Interior? && n <= |t.children|
    ensures |r| == count && forall g :: 0 <= g < count ==> r[g] == BlendSum(ar, t, n, g)
  {
    seq(count, g requires 0 <= g < count => BlendSum(ar, t, n, g))
  }

  ghost function RootAll(ar: Arith, t: Tree, w: real, count: nat): (r: seq<Part>)
    ensures |r| == count && forall g :: 0 <= g < count ==> r[g] == RootBlend(ar, t, w, g)
  {
    seq(count, g requires 0 <= g < count => RootBlend(ar, t, w, g))
  }

  /** What a call leaves in a buffer: skipped parts untouched, the others with
      the contribution added to what was there. */
  ghost predicate Blended(before: seq<Part>, after: seq<Part>, skip: seq<bool>, add: seq<Part>) {
    && |before| == |after| == |add| <= |skip|
    && forall g :: 0 <= g < |before| ==> after[g] == if skip[g] then before[g] else Add(before[g], add[g])
  }

  /** The same after a clear. */
  ghost predicate Replaced(before: seq<Part>, after: seq<Part>, skip: seq<bool>, with: seq<Part>) {
    && |before| == |after| == |with| <= |skip|
    && forall g :: 0 <= g < |before| ==> after[g] == if skip[g] then before[g] else with[g]
  }

  ghost predicate Left(before: seq<Part>, after: seq<Part>, skip: seq<bool>, clear: bool, add: seq<Part>) {
    if clear then Replaced(before, after, skip, add) else Blended(before, after, skip, add)
  }

  /** Parts seen by an active leaf are noted, unless skipped. */
  ghost predicate Noted(before: seq<bool>, after: seq<bool>, skip: seq<bool>, t: Tree, count: nat)
    requires |before| == |after| == |skip| && count <= |skip|
  {
    forall g :: 0 <= g < count ==> (after[g] <==> before[g] || (Animated(t, g) && !skip[g]))
  }

  lemma LeafAll(ar: Arith, leaf: Track, w: real, count: nat)
    ensures BlendAll(ar, Leaf(leaf), w, count) == SampleAll(leaf, |leaf.samples|, w, count)
    ensures RootAll(ar, Leaf(leaf), w, count) == SampleAll(leaf, |leaf.samples|, w, count)
  {
  }

  lemma ClearedThenBlended(a: seq<Part>, b: seq<Part>, c: seq<Part>, skip: seq<bool>, add: seq<Part>)
    requires Replaced(a, b, skip, seq(|a|, _ => ZERO)) && Blended(b, c, skip, add)
    ensures Replaced(a, c, skip, add)
  {
    forall g | 0 <= g < |a|
      ensures c[g] == if skip[g] then a[g] else add[g]
    {
      AddZero(add[g]);
    }
  }

  lemma NoSamples(parts: seq<Part>, skip: seq<bool>, leaf: Track, w: real)
    requires |parts| <= |skip|
    ensures Blended(parts, parts, skip, SampleAll(leaf, 0, w, |parts|))
  {
    forall g | 0 <= g < |parts|
      ensures Add(parts[g], SampleSum(leaf, 0, w, g)) == parts[g]
    {
      AddZero(parts[g]);
    }
  }

  ghost function WithSample(parts: seq<Part>, skip: seq<bool>, part: nat, s: Sample, w: real): seq<Part>
    requires part < |skip| && (part < |parts| || skip[part])
  {
    if skip[part] then parts else parts[part := Add(parts[part], Weighted(s, w))]
  }

  lemma AddAssociates(a: Part, b: Part, c: Part)
    ensures Add(Add(a, b), c) == Add(a, Add(b, c))
  {
  }

  lemma SampleStep(start: seq<Part>, now: seq<Part>, skip: seq<bool>, leaf: Track, i: nat, w: real)
    requires i < |leaf.samples| && Blended(start, now, skip, SampleAll(leaf, i, w, |start|))
    requires leaf.remap.table[i] < |skip| && (leaf.remap.table[i] < |now| || skip[leaf.remap.table[i]])
    ensures Blended(start, WithSample(now, skip, leaf.remap.table[i], leaf.samples[i], w), skip,
                    SampleAll(leaf, i + 1, w, |start|))
  {
    var s := leaf.samples[i];
    var next := WithSample(now, skip, leaf.remap.table[i], s, w);
    forall g: nat | g < |start| && !skip[g]
      ensures next[g] == Add(start[g], SampleSum(leaf, i + 1, w, g))
    {
      AddAssociates(start[g], SampleSum(leaf, i, w, g), Weighted(s, w));
      assert now[g] == Add(start[g], SampleSum(leaf, i, w, g));
    }
  }

  lemma TrackPart(leaf: Track, count: nat, i: nat)
    requires SoundTrack(leaf, count) && i < |leaf.samples|
    ensures leaf.remap.table[i] < count || leaf.remap.table[i] == MISSING
  {
  }

  // ----- one interior node -----

  /** With one active child a node is that child. */
  lemma SingleChild(ar: Arith, t: Tree, a: nat, w: real, count: nat)
    requires t.Interior? && a < |t.children| && a == FirstActive(t.children, 0)
    requires FirstActive(t.children, a + 1) == |t.children|
    ensures BlendAll(ar, t, w, count) == BlendAll(ar, t.children[a].tree, w, count)
    ensures RootAll(ar, t, w, count) == RootAll(ar, t.children[a].tree, w, count)
    ensures forall g :: Animated(t, g) <==> Animated(t.children[a].tree, g)
  {
    assert forall k :: 0 <= k < |t.children| && k != a ==> t.children[k].weight == 0.0;
    forall g: nat | Animated(t.children[a].tree, g)
      ensures Animated(t, g)
    {
      assert t.children[a].weight != 0.0;
    }
  }

  lemma NoChild(ar: Arith, t: Tree, w: real, count: nat)
    requires t.Interior? && FirstActive(t.children, 0) == |t.children|
    ensures BlendAll(ar, t, w, count) == RootAll(ar, t, w, count) == seq(count, _ => ZERO)
    ensures forall g :: !Animated(t, g)
  {
  }

  lemma {:induction false} NothingYet(ar: Arith, t: Tree, n: nat, g: nat)
    requires t.Interior? && n <= |t.children| && forall k :: 0 <= k < n ==> t.children[k].weight == 0.0
    ensures BlendSum(ar, t, n, g) == ZERO
  {
    if n > 0 {
      NothingYet(ar, t, n - 1, g);
    }
  }

  /** The first active child, stored over whatever was there, starts the sum. */
  lemma FirstSum(ar: Arith, t: Tree, a: nat, count: nat)
    requires t.Interior? && a < |t.children| && a == FirstActive(t.children, 0)
    ensures SumAll(ar, t, a + 1, count) == BlendAll(ar, t.children[a].tree, t.children[a].weight, count)
    ensures forall g :: AnimatedBefore(t, a + 1, g) <==> Animated(t.children[a].tree, g)
  {
    forall g: nat | g < count
      ensures BlendSum(ar, t, a + 1, g) == Blend(ar, t.children[a].tree, t.children[a].weight, g)
    {
      NothingYet(ar, t, a, g);
      AddZero(Blend(ar, t.children[a].tree, t.children[a].weight, g));
    }
  }

  lemma SkipSum(ar: Arith, t: Tree, n: nat, m: nat, count: nat)
    requires t.Interior? && n <= m <= |t.children| && forall k :: n <= k < m ==> t.children[k].weight == 0.0
    ensures SumAll(ar, t, m, count) == SumAll(ar, t, n, count)
    ensures forall g :: AnimatedBefore(t, m, g) <==> AnimatedBefore(t, n, g)
    decreases m
  {
    if n < m {
      SkipSum(ar, t, n, m - 1, count);
    }
  }

  lemma SumStep(ar: Arith, t: Tree, n: nat, skip: seq<bool>, start: seq<Part>, now: seq<Part>, next: seq<Part>)
    requires t.Interior? && n < |t.children| && t.children[n].weight != 0.0
    requires Replaced(start, now, skip, SumAll(ar, t, n, |start|))
    requires Blended(now, next, skip, BlendAll(ar, t.children[n].tree, t.children[n].weight, |start|))
    ensures Replaced(start, next, skip, SumAll(ar, t, n + 1, |start|))
  {
  }

  /** Notes taken child by child. */
  ghost predicate NotedBefore(before: seq<bool>, after: seq<bool>, skip: seq<bool>, t: Tree, n: nat, count: nat)
    requires |before| == |after| == |skip| && count <= |skip| && t.Interior? && n <= |t.children|
  {
    forall g :: 0 <= g < count ==> (after[g] <==> before[g] || (AnimatedBefore(t, n, g) && !skip[g]))
  }

  lemma NotedStep(before: seq<bool>, now: seq<bool>, next: seq<bool>, skip: seq<bool>, t: Tree, n: nat, count: nat)
    requires |before| == |now| == |next| == |skip| && count <= |skip| && t.Interior? && n < |t.children|
    requires t.children[n].weight != 0.0
    requires NotedBefore(before, now, skip, t, n, count) && Noted(now, next, skip, t.children[n].tree, count)
    ensures NotedBefore(before, next, skip, t, n + 1, count)
  {
    forall g: nat | g < count
      ensures next[g] <==> before[g] || (AnimatedBefore(t, n + 1, g) && !skip[g])
    {
      AnimatedNext(t, n + 1, g);
    }
  }

  lemma NotedSkip(before: seq<bool>, now: seq<bool>, skip: seq<bool>, t: Tree, n: nat, m: nat, count: nat)
    requires |before| == |now| == |skip| && count <= |skip| && t.Interior? && n <= m <= |t.children|
    requires forall k :: n <= k < m ==> t.children[k].weight == 0.0
    requires NotedBefore(before, now, skip, t, n, count)
    ensures NotedBefore(before, now, skip, t, m, count)
  {
  }

  lemma NotedAll(before: seq<bool>, after: seq<bool>, skip: seq<bool>, t: Tree, count: nat)
    requires |before| == |after| == |skip| && count <= |skip| && t.Interior?
    requires NotedBefore(before, after, skip, t, |t.children|, count)
    ensures Noted(before, after, skip, t, count)
  {
    forall g: nat | g < count
      ensures AnimatedBefore(t, |t.children|, g) <==> Animated(t, g)
    {
    }
  }

  // ----- the three ways to finish -----

  /** xanim_eval_merge_normalized_eval_parts, one part. */
  function Merge(ar: Arith, dest: Part, child: Part, w: real): Part {
    var turned := if ar.length(child.q) != 0.0
                  then dest.(q := AddQ(dest.q, ScaleQ(ar, ar.over(w, ar.length(child.q)), child.q))) else dest;
    if child.weight != 0.0
    then turned.(weight := dest.weight + w, t := AddT(dest.t, ScaleT(ar, ar.over(w, child.weight), child.t)))
    else turned
  }

  lemma MergeAdds(ar: Arith, dest: Part, child: Part, w: real)
    ensures Merge(ar, dest, child, w) == Add(dest, Rescaled(ar, child, w))
  {
  }

  /** xanim_eval_scale_normalized_eval_parts, one part. */
  function ScaleIn(ar: Arith, p: Part, w: real): Part {
    Part(if ar.length(p.q) != 0.0 then ScaleQ(ar, ar.over(w, ar.length(p.q)), p.q) else p.q,
         if p.weight != 0.0 then ScaleT(ar, ar.over(w, p.weight), p.t) else p.t,
         if p.weight != 0.0 then w else p.weight)
  }

  lemma ScaleInRescales(ar: Arith, p: Part, w: real, animated: bool)
    requires ArithOk(ar) && SumOk(p, animated)
    ensures ScaleIn(ar, p, w) == Rescaled(ar, p, w)
  {
  }

  class Evaluator {
    const ar: Arith
    const count: nat
    const skip: seq<bool>
    var bits: seq<bool>

    ghost predicate Ready()
      reads this
    {
      ArithOk(ar) && count <= MISSING && |skip| == |bits| == 128 && skip[MISSING]
    }

    constructor (ar: Arith, count: nat, skip: seq<bool>, bits: seq<bool>)
      ensures this.ar == ar && this.count == count && this.skip == skip && this.bits == bits
    {
      this.ar, this.count, this.skip, this.bits := ar, count, skip, bits;
    }

    /** XAnimClearData. */
    method Clear(parts: array<Part>)
      requires Ready() && parts.Length == count
      modifies parts
      ensures Replaced(old(parts[..]), parts[..], skip, seq(count, _ => ZERO))
    {
      for part := 0 to count
        invariant forall g :: 0 <= g < part ==> parts[g] == if skip[g] then old(parts[g]) else ZERO
        invariant forall g :: part <= g < count ==> parts[g] == old(parts[g])
      {
        if !skip[part] {
          parts[part] := ZERO;
        }
      }
    }

    /** The sample loops of a leaf. */
    method AddSamples(leaf: Track, w: real, parts: array<Part>)
      requires Ready() && parts.Length == count && SoundTrack(leaf, count)
      modifies parts
      ensures Blended(old(parts[..]), parts[..], skip, SampleAll(leaf, |leaf.samples|, w, count))
    {
      hide Blended, WithSample, SampleAll, SoundTrack;
      NoSamples(parts[..], skip, leaf, w);
      for i := 0 to |leaf.samples|
        invariant Blended(old(parts[..]), parts[..], skip, SampleAll(leaf, i, w, count))
      {
        TrackPart(leaf, count, i);
        SampleStep(old(parts[..]), parts[..], skip, leaf, i, w);
        AddSample(leaf.remap.table[i], leaf.samples[i], w, parts);
      }
    }

    method AddSample(part: nat, s: Sample, w: real, parts: array<Part>)
      requires Ready() && parts.Length == count && (part < count || part == MISSING)
      modifies parts
      ensures parts[..] == WithSample(old(parts[..]), skip, part, s, w)
    {
      if !skip[part] {
        parts[part] := Add(parts[part], Weighted(s, w));
      }
    }

    /** The mask update of XAnimCalcData. */
    method NoteLeaf(leaf: Track)
      requires Ready() && SoundTrack(leaf, count)
      modifies this
      ensures Ready() && Noted(old(bits), bits, skip, Leaf(leaf), count)
    {
      var noted := bits;
      bits := seq(128, g requires 0 <= g < 128 => noted[g] || (leaf.remap.mask[g] && !skip[g]));
    }

    method CalcLeaf(leaf: Track, w: real, parts: array<Part>, clear: bool)
      requires Ready() && parts.Length == count && Valid(Leaf(leaf), count)
      modifies this, parts
      ensures Ready() && Left(old(parts[..]), parts[..], skip, clear, BlendAll(ar, Leaf(leaf), w, count))
      ensures Noted(old(bits), bits, skip, Leaf(leaf), count)
    {
      NoteLeaf(leaf);
      if clear {
        Clear(parts);
        ghost var cleared := parts[..];
        AddSamples(leaf, w, parts);
        ClearedThenBlended(old(parts[..]), cleared, parts[..], skip, SampleAll(leaf, |leaf.samples|, w, count));
      } else {
        AddSamples(leaf, w, parts);
      }
      LeafAll(ar, leaf, w, count);
    }

    /** XAnimCalc: whatever the flags, the buffer ends up with the contribution
        of the subtree and skipped parts stay as they were. */
    method Calc(t: Tree, w: real, parts: array<Part>, clear: bool, normalize: bool)
      requires Ready() && parts.Length == count && Valid(t, count) && w > 0.0 && (normalize || clear)
      modifies this, parts
      ensures Ready() && Noted(old(bits), bits, skip, t, count)
      ensures normalize ==> Left(old(parts[..]), parts[..], skip, clear, BlendAll(ar, t, w, count))
      ensures !normalize ==> Replaced(old(parts[..]), parts[..], skip, RootAll(ar, t, w, count))
      decreases t, 2
    {
      if t.Leaf? {
        LeafAll(ar, t.leaf, w, count);
        CalcLeaf(t.leaf, w, parts, clear);
        return;
      }
      var a := FirstActive(t.children, 0);
      if a == |t.children| {
        CalcNothing(t, w, parts, clear);
        return;
      }
      var b := FirstActive(t.children, a + 1);
      if b == |t.children| {
        SingleChild(ar, t, a, w, count);
        Calc(t.children[a].tree, w, parts, clear, normalize);
        return;
      }
      CalcSeveral(t, w, parts, clear, normalize, a, b);
    }

    method CalcNothing(t: Tree, w: real, parts: array<Part>, clear: bool)
      requires Ready() && parts.Length == count && t.Interior? && FirstActive(t.children, 0) == |t.children|
      modifies parts
      ensures Ready() && Noted(bits, bits, skip, t, count)
      ensures Left(old(parts[..]), parts[..], skip, clear, BlendAll(ar, t, w, count))
      ensures BlendAll(ar, t, w, count) == RootAll(ar, t, w, count)
    {
      NoChild(ar, t, w, count);
      if clear {
        Clear(parts);
      } else {
        AllZero(parts[..], skip);
      }
    }

    method CalcSeveral(t: Tree, w: real, parts: array<Part>, clear: bool, normalize: bool, a: nat, b: nat)
      requires Ready() && parts.Length == count && Valid(t, count) && w > 0.0 && (normalize || clear)
      requires t.Interior? && a == FirstActive(t.children, 0) < |t.children|
      requires b == FirstActive(t.children, a + 1) < |t.children|
      modifies this, parts
      ensures Ready() && Noted(old(bits), bits, skip, t, count)
      ensures normalize ==> Left(old(parts[..]), parts[..], skip, clear, BlendAll(ar, t, w, count))
      ensures !normalize ==> Replaced(old(parts[..]), parts[..], skip, RootAll(ar, t, w, count))
      decreases t, 1
    {
      var blendParts := parts;
      if !clear {
        blendParts := new Part[count];
      }
      ghost var start := blendParts[..];
      SumChildren(t, blendParts, a, b);
      if !normalize {
        AverageParts(t, w, parts, start);
      } else if !clear {
        MergeParts(t, w, parts, blendParts, start);
      } else {
        ScaleParts(t, w, parts, start);
      }
    }

    /** The child loop: the first active child clears the buffer. */
    method SumChildren(t: Tree, parts: array<Part>, a: nat, b: nat)
      requires Ready() && parts.Length == count && Valid(t, count)
      requires t.Interior? && a == FirstActive(t.children, 0) < |t.children|
      requires b == FirstActive(t.children, a + 1) < |t.children|
      modifies this, parts
      ensures Ready() && Noted(old(bits), bits, skip, t, count)
      ensures Replaced(old(parts[..]), parts[..], skip, SumAll(ar, t, |t.children|, count))
      decreases t, 0, 2
    {
      hide Noted, NotedBefore, Replaced, SumAll, Valid;
      AddFirst(t, parts, a);
      SkipSum(ar, t, a + 1, b, count);
      NotedSkip(old(bits), bits, skip, t, a + 1, b, count);
      AddChild(t, b, parts, old(parts[..]), old(bits));
      for child := b + 1 to |t.children|
        invariant Ready() && NotedBefore(old(bits), bits, skip, t, child, count)
        invariant Replaced(old(parts[..]), parts[..], skip, SumAll(ar, t, child, count))
      {
        AddIfActive(t, child, parts, old(parts[..]), old(bits));
      }
      NotedAll(old(bits), bits, skip, t, count);
    }

    method AddFirst(t: Tree, parts: array<Part>, a: nat)
      requires Ready() && parts.Length == count && Valid(t, count)
      requires t.Interior? && a == FirstActive(t.children, 0) < |t.children|
      modifies this, parts
      ensures Ready() && NotedBefore(old(bits), bits, skip, t, a + 1, count)
      ensures Replaced(old(parts[..]), parts[..], skip, SumAll(ar, t, a + 1, count))
      decreases t, 0, 0
    {
      FirstSum(ar, t, a, count);
      Calc(t.children[a].tree, t.children[a].weight, parts, true, true);
    }

    method AddIfActive(t: Tree, n: nat, parts: array<Part>, ghost start: seq<Part>, ghost noted: seq<bool>)
      requires Ready() && parts.Length == count && Valid(t, count) && |noted| == |skip|
      requires t.Interior? && n < |t.children|
      requires NotedBefore(noted, bits, skip, t, n, count)
      requires Replaced(start, parts[..], skip, SumAll(ar, t, n, count))
      modifies this, parts
      ensures Ready() && NotedBefore(noted, bits, skip, t, n + 1, count)
      ensures Replaced(start, parts[..], skip, SumAll(ar, t, n + 1, count))
      decreases t, 0, 1
    {
      if t.children[n].weight != 0.0 {
        AddChild(t, n, parts, start, noted);
      } else {
        SkipSum(ar, t, n, n + 1, count);
      }
    }

    method AddChild(t: Tree, n: nat, parts: array<Part>, ghost start: seq<Part>, ghost noted: seq<bool>)
      requires Ready() && parts.Length == count && Valid(t, count) && |noted| == |skip|
      requires t.Interior? && n < |t.children| && t.children[n].weight != 0.0
      requires NotedBefore(noted, bits, skip, t, n, count)
      requires Replaced(start, parts[..], skip, SumAll(ar, t, n, count))
      modifies this, parts
      ensures Ready() && NotedBefore(noted, bits, skip, t, n + 1, count)
      ensures Replaced(start, parts[..], skip, SumAll(ar, t, n + 1, count))
      decreases t, 0, 0
    {
      ghost var now, marks := parts[..], bits;
      Calc(t.children[n].tree, t.children[n].weight, parts, false, true);
      SumStep(ar, t, n, skip, start, now, parts[..]);
      NotedStep(noted, marks, bits, skip, t, n, count);
    }

    /** xanim_eval_normalize_eval_parts. */
    method AverageParts(ghost t: Tree, ghost w: real, parts: array<Part>, ghost start: seq<Part>)
      requires Ready() && parts.Length == count && Several(t)
      requires Replaced(start, parts[..], skip, SumAll(ar, t, |t.children|, count))
      modifies parts
      ensures Replaced(start, parts[..], skip, RootAll(ar, t, w, count))
    {
      for g := 0 to count
        invariant forall k :: 0 <= k < g ==> parts[k] == if skip[k] then old(parts[k]) else Averaged(ar, old(parts[k]))
        invariant forall k :: g <= k < count ==> parts[k] == old(parts[k])
      {
        if !skip[g] && parts[g].weight != 0.0 {
          parts[g] := Averaged(ar, parts[g]);
        }
      }
      SeveralFinish(ar, t, w, count);
    }

    /** xanim_eval_merge_normalized_eval_parts. */
    method MergeParts(ghost t: Tree, w: real, parts: array<Part>, child: array<Part>, ghost start: seq<Part>)
      requires Ready() && parts.Length == count == child.Length && parts != child && Several(t)
      requires Replaced(start, child[..], skip, SumAll(ar, t, |t.children|, count))
      modifies parts
      ensures Blended(old(parts[..]), parts[..], skip, BlendAll(ar, t, w, count))
    {
      for g := 0 to count
        invariant forall k :: 0 <= k < g ==>
                    parts[k] == if skip[k] then old(parts[k]) else Merge(ar, old(parts[k]), child[k], w)
        invariant forall k :: g <= k < count ==> parts[k] == old(parts[k])
      {
        if !skip[g] {
          parts[g] := Merge(ar, parts[g], child[g], w);
        }
      }
      SeveralFinish(ar, t, w, count);
      forall k | 0 <= k < count && !skip[k]
        ensures parts[k] == Add(old(parts[k]), Rescaled(ar, child[k], w))
      {
        MergeAdds(ar, old(parts[k]), child[k], w);
      }
    }

    /** xanim_eval_scale_normalized_eval_parts. */
    method ScaleParts(ghost t: Tree, w: real, parts: array<Part>, ghost start: seq<Part>)
      requires Ready() && parts.Length == count && Several(t) && Valid(t, count)
      requires Replaced(start, parts[..], skip, SumAll(ar, t, |t.children|, count))
      modifies parts
      ensures Replaced(start, parts[..], skip, BlendAll(ar, t, w, count))
    {
      for g := 0 to count
        invariant forall k :: 0 <= k < g ==>
                    parts[k] == if skip[k] then old(parts[k]) else ScaleIn(ar, old(parts[k]), w)
        invariant forall k :: g <= k < count ==> parts[k] == old(parts[k])
      {
        if !skip[g] {
          parts[g] := ScaleIn(ar, parts[g], w);
        }
      }
      SeveralFinish(ar, t, w, count);
      forall k: nat | k < count && !skip[k]
        ensures parts[k] == Rescaled(ar, old(parts[k]), w)
      {
        SumWeight(ar, t, |t.children|, k, count);
        ScaleInRescales(ar, old(parts[k]), w, AnimatedBefore(t, |t.children|, k));
      }
    }
  }

  /** At least two active children. */
  predicate Several(t: Tree) {
    && t.Interior?
    && var a := FirstActive(t.children, 0);
       a < |t.children| && FirstActive(t.children, a + 1) < |t.children|
  }

  lemma SeveralFinish(ar: Arith, t: Tree, w: real, count: nat)
    requires Several(t)
    ensures forall g :: 0 <= g < count ==>
              BlendAll(ar, t, w, count)[g] == Rescaled(ar, SumAll(ar, t, |t.children|, count)[g], w)
    ensures forall g :: 0 <= g < count ==>
              RootAll(ar, t, w, count)[g] == Averaged(ar, SumAll(ar, t, |t.children|, count)[g])
  {
  }

  lemma AllZero(parts: seq<Part>, skip: seq<bool>)
    requires |parts| <= |skip|
    ensures Blended(parts, parts, skip, seq(|parts|, _ => ZERO))
  {
    forall g | 0 <= g < |parts|
      ensures Add(parts[g], ZERO) == parts[g]
    {
      AddZero(parts[g]);
    }
  }

  // ----- the pose of a DObj -----

  /** A model's base pose: its root parts are at rest, the others have rotations. */
  datatype ModelPose = ModelPose(rootParts: nat, rotations: seq<Quat>)

  const REST: Quat := Quat(0.0, 0.0, 0.0, 1.0)

  function Turns(m: ModelPose): (r: seq<Quat>)
    ensures |r| == m.rootParts + |m.rotations|
  {
    seq(m.rootParts, _ => REST) + m.rotations
  }

  /** The base rotations of all parts in DObj order. */
  function BaseTurns(models: seq<ModelPose>): seq<Quat> {
    if models == [] then [] else BaseTurns(models[..|models| - 1]) + Turns(models[|models| - 1])
  }

  lemma {:induction false} BaseGrows(models: seq<ModelPose>, k: nat)
    requires k <= |models|
    ensures BaseTurns(models[..k]) <= BaseTurns(models)
  {
    if k == |models| {
      assert models[..k] == models;
    } else {
      assert models[..|models| - 1][..k] == models[..k];
      BaseGrows(models[..|models| - 1], k);
    }
  }

  /** Parts from one index to another take their base pose unless already marked. */
  ghost predicate BaseFilled(before: seq<Part>, after: seq<Part>, bits: seq<bool>, turns: seq<Quat>, from: nat, to: nat)
    requires |before| == |after| <= |bits| && to <= |turns|
  {
    forall g :: 0 <= g < |before| ==>
      after[g] == if from <= g < to && !bits[g] then before[g].(q := turns[g], t := ZERO_T) else before[g]
  }

  method FillPart(output: array<Part>, bits: seq<bool>, g: nat, q: Quat)
    requires g < output.Length <= |bits|
    modifies output
    ensures output[..] ==
            if bits[g] then old(output[..]) else old(output[..])[g := old(output[g]).(q := q, t := ZERO_T)]
  {
    if !bits[g] {
      output[g] := output[g].(q := q, t := ZERO_T);
    }
  }

  /** The two part loops of one model. */
  method FillModel(output: array<Part>, bits: seq<bool>, m: ModelPose, from: nat, ghost turns: seq<Quat>,
                   ghost start: seq<Part>) returns (next: nat)
    requires from + |Turns(m)| <= output.Length == |start| == |turns| <= |bits|
    requires turns[from..from + |Turns(m)|] == Turns(m) && BaseFilled(start, output[..], bits, turns, 0, from)
    modifies output
    ensures next == from + |Turns(m)| && BaseFilled(start, output[..], bits, turns, 0, next)
  {
    next := from;
    for root := 0 to m.rootParts
      invariant next == from + root && BaseFilled(start, output[..], bits, turns, 0, next)
    {
      assert turns[from..from + |Turns(m)|][root] == turns[next];
      FillPart(output, bits, next, REST);
      next := next + 1;
    }
    for part := 0 to |m.rotations|
      invariant next == from + m.rootParts + part && BaseFilled(start, output[..], bits, turns, 0, next)
    {
      assert turns[from..from + |Turns(m)|][m.rootParts + part] == turns[next];
      FillPart(output, bits, next, m.rotations[part]);
      next := next + 1;
    }
  }

  method FillBase(output: array<Part>, bits: seq<bool>, models: seq<ModelPose>)
    requires output.Length == |BaseTurns(models)| <= |bits|
    modifies output
    ensures BaseFilled(old(output[..]), output[..], bits, BaseTurns(models), 0, output.Length)
  {
    var next := 0;
    for i := 0 to |models|
      invariant next == |BaseTurns(models[..i])| <= output.Length
      invariant BaseFilled(old(output[..]), output[..], bits, BaseTurns(models), 0, next)
    {
      BaseStep(models, i);
      next := FillModel(output, bits, models[i], next, BaseTurns(models), old(output[..]));
    }
    assert models[..|models|] == models;
  }

  lemma BaseStep(models: seq<ModelPose>, i: nat)
    requires i < |models|
    ensures var n := |BaseTurns(models[..i])|;
            && |BaseTurns(models[..i + 1])| == n + |Turns(models[i])| <= |BaseTurns(models)|
            && BaseTurns(models)[n..n + |Turns(models[i])|] == Turns(models[i])
  {
    assert models[..i + 1][..i] == models[..i];
    BaseGrows(models, i + 1);
    BaseGrows(models, i);
  }

  /** Part `at` of the models' parts: a root part is at rest, any other has its
      own rotation in its model. */
  lemma {:induction false} BaseTurnAt(models: seq<ModelPose>, m: nat, at: nat)
    requires m < |models| && at < models[m].rootParts + |models[m].rotations|
    ensures var n := PartsBefore(models, m);
            && n + at < |BaseTurns(models)|
            && BaseTurns(models)[n + at] ==
               if at < models[m].rootParts then Quat(0.0, 0.0, 0.0, 1.0)
               else models[m].rotations[at - models[m].rootParts]
  {
    BaseStep(models, m);
    BaseSize(models, m);
    var n := |BaseTurns(models[..m])|;
    assert BaseTurns(models)[n..n + |Turns(models[m])|][at] == BaseTurns(models)[n + at];
  }

  /** The parts of the first m models. */
  function PartsBefore(models: seq<ModelPose>, m: nat): nat
    requires m <= |models|
  {
    if m == 0 then 0 else PartsBefore(models, m - 1) + models[m - 1].rootParts + |models[m - 1].rotations|
  }

  lemma {:induction false} BaseSize(models: seq<ModelPose>, m: nat)
    requires m <= |models|
    ensures |BaseTurns(models[..m])| == PartsBefore(models, m)
  {
    if m > 0 {
      BaseSize(models, m - 1);
      BaseStep(models, m - 1);
    }
  }

  class PoseStorage {
    var evaluated: seq<bool>
    const output: array<Part>

    constructor (count: nat)
      ensures fresh(output) && output.Length == count && evaluated == seq(128, _ => false)
    {
      evaluated := seq(128, _ => false);
      output := new Part[count];
    }

    /** DObjCalcAnim: a part that was not asked for or already had its pose
        keeps it; every other one gets its blend if the tree animates it and the
        base pose of its model if not. */
    method CalcAnim(ar: Arith, tree: Option<Tree>, requested: seq<bool>, models: seq<ModelPose>,
                    ghost bones: seq<L.Name>)
      requires ArithOk(ar) && |requested| == |evaluated| == 128
      requires output.Length == |BaseTurns(models)| == |bones| <= MISSING
      requires tree.Some? ==> Remapped(tree.value, bones)
      modifies this, output
      ensures |evaluated| == 128 && forall g :: 0 <= g < 128 ==> (evaluated[g] <==> old(evaluated)[g] || requested[g])
      ensures forall g :: 0 <= g < output.Length && (!requested[g] || old(evaluated)[g]) ==>
                output[g] == old(output[g])
      ensures forall g :: 0 <= g < output.Length && requested[g] && !old(evaluated)[g] ==>
                if tree.Some? && Animated(tree.value, g)
                then output[g] == RootBlend(ar, tree.value, 1.0, g)
                else output[g].q == BaseTurns(models)[g] && output[g].t == ZERO_T
      ensures RealArith(ar) && RealLength(ar) && tree.Some? ==>
                forall g :: 0 <= g < output.Length && requested[g] && !old(evaluated)[g] && Animated(tree.value, g) ==>
                  RootBrings(tree.value, g, output[g])
    {
      hide RootBrings, RealArith, RealLength;
      var done := evaluated;
      var bits := seq(128, g requires 0 <= g < 128 => !requested[g] || done[g]);
      if forall g :: 0 <= g < 128 ==> bits[g] {
        forall g | 0 <= g < 128
          ensures done[g] <==> done[g] || requested[g]
        {
          assert bits[g];
        }
        return;
      }
      evaluated := seq(128, g requires 0 <= g < 128 => done[g] || requested[g]);
      if tree.Some? {
        RemappedIsValid(tree.value, bones);
        var evaluator := new Evaluator(ar, output.Length, bits[MISSING := true], bits);
        evaluator.Calc(tree.value, 1.0, output, true, false);
        bits := evaluator.bits;
      }
      ghost var blended := output[..];
      FillBase(output, bits, models);
      assert forall g :: 0 <= g < output.Length ==>
          output[..][g] == if bits[g] then blended[g] else blended[g].(q := BaseTurns(models)[g], t := ZERO_T);
      if RealArith(ar) && RealLength(ar) && tree.Some? {
        forall g: nat | g < output.Length
          ensures RootBrings(tree.value, g, RootBlend(ar, tree.value, 1.0, g))
        {
          RootIsBrought(ar, tree.value, g, output.Length);
        }
      }
    }
  }

  // ----- which parts a tree animates, by name -----

  /** Some active leaf below animates a part of this name. */
  ghost predicate Names(t: Tree, name: L.Name) {
    match t
    case Leaf(leaf) => name in leaf.names
    case Interior(children) =>
      exists i :: 0 <= i < |children| && children[i].weight != 0.0 && Names(children[i].tree, name)
  }

  /** A tree animates exactly the parts that a lookup of their name finds and
      whose name an active leaf has. */
  lemma {:induction false} AnimatedByName(d: L.DObj, t: Tree, g: nat)
    requires L.ValidDObj(d) && L.DistinctPerModel(d) && Remapped(t, Bones(d)) && g < d.boneCount
    ensures Animated(t, g) <==> L.FindPart(d, L.NameOf(d, g)) == g && Names(t, L.NameOf(d, g))
  {
    match t
    case Leaf(leaf) => TrackByName(d, leaf, g);
    case Interior(children) =>
      forall i | 0 <= i < |children|
        ensures Animated(children[i].tree, g) <==>
                L.FindPart(d, L.NameOf(d, g)) == g && Names(children[i].tree, L.NameOf(d, g))
      {
        AnimatedByName(d, children[i].tree, g);
      }
  }

  lemma TrackByName(d: L.DObj, leaf: Track, g: nat)
    requires L.ValidDObj(d) && L.DistinctPerModel(d) && IsPayload(leaf.names, Bones(d), leaf.remap) && g < d.boneCount
    ensures Animated(Leaf(leaf), g) <==> L.FindPart(d, L.NameOf(d, g)) == g && L.NameOf(d, g) in leaf.names
  {
    var name := L.NameOf(d, g);
    FirstIsFound(d, name);
    if name in leaf.names {
      var a := LastAt(leaf.names, name);
      assert leaf.remap.table[a] == Mapped(leaf.names, Bones(d), a);
    }
  }

  lemma {:induction false} LastAt(names: seq<L.Name>, name: L.Name) returns (a: nat)
    requires name in names
    ensures a < |names| && names[a] == name && LastOccurrence(names, a)
  {
    a := |names| - 1;
    if names[a] != name {
      a := LastAt(names[..a], name);
    }
  }

  // ----- translations stay in range -----

  function Lane(t: Vec, k: nat): real {
    if k == 0 then t.x else if k == 1 then t.y else t.z
  }

  /** Real products and quotients. */
  ghost predicate RealArith(ar: Arith) {
    && (forall a, b :: ar.times(a, b) == a * b)
    && (forall a, b :: b != 0.0 ==> ar.over(a, b) == a / b)
  }

  /** Every sample of the part lies between two bounds in a lane. */
  ghost predicate SamplesBetween(t: Tree, g: nat, k: nat, lo: real, hi: real) {
    match t
    case Leaf(leaf) =>
      forall i, w :: 0 <= i < |leaf.samples| && leaf.remap.table[i] == g && w > 0.0 ==>
                       Between(Weighted(leaf.samples[i], w), k, lo, hi)
    case Interior(children) =>
      forall i :: 0 <= i < |children| ==> SamplesBetween(children[i].tree, g, k, lo, hi)
  }

  /** The lane divided by the weight lies between the bounds. */
  ghost predicate Between(p: Part, k: nat, lo: real, hi: real) {
    p.weight * lo <= Lane(p.t, k) <= p.weight * hi
  }

  lemma AddBetween(a: Part, b: Part, k: nat, lo: real, hi: real)
    requires Between(a, k, lo, hi) && Between(b, k, lo, hi)
    ensures Between(Add(a, b), k, lo, hi)
  {
    assert (a.weight + b.weight) * lo == a.weight * lo + b.weight * lo;
    assert (a.weight + b.weight) * hi == a.weight * hi + b.weight * hi;
  }

  lemma ScaledBound(f: real, a: real, b: real)
    requires f >= 0.0 && a <= b
    ensures f * a <= f * b
  {
  }

  lemma RatioTimes(w: real, s: real, x: real)
    requires s != 0.0
    ensures (w / s) * (s * x) == w * x
  {
    var f := w / s;
    assert f * s == w;
    assert f * (s * x) == (f * s) * x;
  }

  lemma RatioPositive(w: real, s: real)
    requires w > 0.0 && s > 0.0
    ensures w / s >= 0.0
  {
  }

  lemma RatioBounds(w: real, s: real, x: real, lo: real, hi: real)
    requires w > 0.0 && s > 0.0 && s * lo <= x <= s * hi
    ensures w * lo <= (w / s) * x <= w * hi
  {
    RatioPositive(w, s);
    RatioTimes(w, s, lo);
    RatioTimes(w, s, hi);
    ScaledBound(w / s, s * lo, x);
    ScaledBound(w / s, x, s * hi);
  }

  lemma LaneScale(ar: Arith, f: real, t: Vec, k: nat)
    requires RealArith(ar)
    ensures Lane(ScaleT(ar, f, t), k) == f * Lane(t, k)
  {
  }

  /** Rescaling keeps the bounds. */
  lemma RescaledBetween(ar: Arith, p: Part, w: real, k: nat, lo: real, hi: real)
    requires RealArith(ar) && p.weight > 0.0 && w > 0.0 && Between(p, k, lo, hi)
    ensures Between(Rescaled(ar, p, w), k, lo, hi)
  {
    var f := ar.over(w, p.weight);
    assert f == w / p.weight;
    LaneScale(ar, f, p.t, k);
    RatioBounds(w, p.weight, Lane(p.t, k), lo, hi);
    assert Rescaled(ar, p, w).t == ScaleT(ar, f, p.t) && Rescaled(ar, p, w).weight == w;
  }

  lemma ZeroBetween(k: nat, lo: real, hi: real)
    ensures Between(ZERO, k, lo, hi)
  {
  }

  lemma {:induction false} BlendBetween(ar: Arith, t: Tree, w: real, g: nat, count: nat, k: nat, lo: real, hi: real)
    requires ArithOk(ar) && RealArith(ar) && Valid(t, count) && w > 0.0 && g < count <= MISSING
    requires SamplesBetween(t, g, k, lo, hi)
    ensures Between(Blend(ar, t, w, g), k, lo, hi)
    decreases t, if t.Interior? then |t.children| + 1 else 0
  {
    ZeroBetween(k, lo, hi);
    match t
    case Leaf(leaf) => LeafWeight(leaf, w, g, count);
    case Interior(children) =>
      var a := FirstActive(children, 0);
      if a < |children| {
        if FirstActive(children, a + 1) == |children| {
          BlendBetween(ar, children[a].tree, w, g, count, k, lo, hi);
        } else {
          var sum := BlendSum(ar, t, |children|, g);
          SumBetween(ar, t, |children|, g, count, k, lo, hi);
          SumWeight(ar, t, |children|, g, count);
          if sum.weight > 0.0 {
            RescaledBetween(ar, sum, w, k, lo, hi);
          }
        }
      }
  }

  lemma {:induction false} SumBetween(ar: Arith, t: Tree, n: nat, g: nat, count: nat, k: nat, lo: real, hi: real)
    requires ArithOk(ar) && RealArith(ar) && t.Interior? && n <= |t.children| && Valid(t, count)
    requires g < count <= MISSING && SamplesBetween(t, g, k, lo, hi)
    ensures Between(BlendSum(ar, t, n, g), k, lo, hi)
    decreases t, n
  {
    ZeroBetween(k, lo, hi);
    if n > 0 {
      var c := t.children[n - 1];
      SumBetween(ar, t, n - 1, g, count, k, lo, hi);
      if c.weight != 0.0 {
        BlendBetween(ar, c.tree, c.weight, g, count, k, lo, hi);
        AddBetween(BlendSum(ar, t, n - 1, g), Blend(ar, c.tree, c.weight, g), k, lo, hi);
      }
    }
  }

  /** A blended translation never leaves the range of the samples that feed it. */
  lemma {:induction false} RootBetween(ar: Arith, t: Tree, g: nat, count: nat, k: nat, lo: real, hi: real)
    requires ArithOk(ar) && RealArith(ar) && Valid(t, count) && g < count <= MISSING
    requires SamplesBetween(t, g, k, lo, hi) && Animated(t, g)
    ensures lo <= Lane(RootBlend(ar, t, 1.0, g).t, k) <= hi
  {
    match t
    case Leaf(leaf) =>
      LeafWeight(leaf, 1.0, g, count);
    case Interior(children) =>
      var a := FirstActive(children, 0);
      if FirstActive(children, a + 1) == |children| {
        SingleChild(ar, t, a, 1.0, count);
        RootBetween(ar, children[a].tree, g, count, k, lo, hi);
      } else {
        var sum := BlendSum(ar, t, |children|, g);
        SumBetween(ar, t, |children|, g, count, k, lo, hi);
        SumWeight(ar, t, |children|, g, count);
        assert AnimatedBefore(t, |children|, g);
        RescaledBetween(ar, sum, 1.0, k, lo, hi);
        assert Averaged(ar, sum).t == Rescaled(ar, sum, 1.0).t;
      }
  }

  // ----- what a blend comes to, lane by lane -----

  function Plus(a: Quat, b: Quat): Quat {
    Quat(a.x + b.x, a.y + b.y, a.z + b.z, a.w + b.w)
  }

  function Times(k: real, q: Quat): Quat {
    Quat(k * q.x, k * q.y, k * q.z, k * q.w)
  }

  function PlusT(a: Vec, b: Vec): Vec {
    Vec(a.x + b.x, a.y + b.y, a.z + b.z)
  }

  function TimesT(k: real, t: Vec): Vec {
    Vec(k * t.x, k * t.y, k * t.z)
  }

  function Norm(q: Quat): real {
    q.x * q.x + q.y * q.y + q.z * q.z + q.w * q.w
  }

  /** The length is the real length. */
  ghost predicate RealLength(ar: Arith) {
    forall q :: ar.length(q) >= 0.0 && ar.length(q) * ar.length(q) == Norm(q)
  }

  ghost predicate NoneActive(children: seq<Child>) {
    forall i :: 0 <= i < |children| ==> children[i].weight == 0.0
  }

  ghost predicate Alone(children: seq<Child>, a: nat) {
    && a < |children| && children[a].weight != 0.0
    && forall i :: 0 <= i < |children| && i != a ==> children[i].weight == 0.0
  }

  /** What the active ones of the first n children add up to, given what each brings. */
  ghost function TotalQ(children: seq<Child>, ps: seq<Part>, n: nat): Quat
    requires n <= |children| == |ps|
  {
    if n == 0 then ZERO_Q
    else if children[n - 1].weight == 0.0 then TotalQ(children, ps, n - 1)
    else Plus(TotalQ(children, ps, n - 1), ps[n - 1].q)
  }

  ghost function TotalT(children: seq<Child>, ps: seq<Part>, n: nat): Vec
    requires n <= |children| == |ps|
  {
    if n == 0 then ZERO_T
    else if children[n - 1].weight == 0.0 then TotalT(children, ps, n - 1)
    else PlusT(TotalT(children, ps, n - 1), ps[n - 1].t)
  }

  /** The weights of those that animate the part. */
  ghost function TotalWeight(children: seq<Child>, n: nat, g: nat): real
    requires n <= |children|
  {
    if n == 0 then 0.0
    else TotalWeight(children, n - 1, g) + if Animated(children[n - 1].tree, g) then children[n - 1].weight else 0.0
  }

  /** p is what a subtree of weight w brings to part g: a leaf its sample at that
      weight; a single active child all it would bring in the subtree's place;
      several what they bring by their own weights, turned to length w and with
      the translation averaged and weighted by w. */
  ghost predicate Brings(t: Tree, w: real, g: nat, p: Part)
    decreases t, 1
  {
    && p.weight == (if Animated(t, g) then w else 0.0)
    && match t
       case Leaf(leaf) => LeafBrings(leaf, w, g, p)
       case Interior(children) =>
         if NoneActive(children) then p == ZERO
         else if exists a: nat :: Alone(children, a)
         then exists a: nat :: Alone(children, a) && Brings(children[a].tree, w, g, p)
         else exists ps: seq<Part> :: |ps| == |children| && ChildrenBring(t, g, ps) &&
                                      Resized(TotalQ(children, ps, |ps|), w, p.q) &&
                                      Averages(TotalT(children, ps, |ps|), TotalWeight(children, |ps|, g), w, p.t)
  }

  ghost predicate LeafBrings(leaf: Track, w: real, g: nat, p: Part) {
    if exists i :: 0 <= i < |leaf.samples| && leaf.remap.table[i] == g
    then forall i :: 0 <= i < |leaf.samples| && leaf.remap.table[i] == g ==>
           p.q == leaf.samples[i].q(w) && p.t == leaf.samples[i].t(w)
    else p == ZERO
  }

  ghost predicate ChildrenBring(t: Tree, g: nat, ps: seq<Part>)
    requires t.Interior?
    decreases t, 0
  {
    forall i :: 0 <= i < |ps| && i < |t.children| && t.children[i].weight != 0.0 ==>
      Brings(t.children[i].tree, t.children[i].weight, g, ps[i])
  }

  /** The same direction at length w; nothing stays nothing. */
  ghost predicate Resized(total: Quat, w: real, q: Quat) {
    if total == ZERO_Q then q == ZERO_Q else Norm(q) == w * w && exists f :: f > 0.0 && q == Times(f, total)
  }

  /** The total over its weight, times w. */
  ghost predicate Averages(total: Vec, weight: real, w: real, t: Vec) {
    if weight == 0.0 then t == ZERO_T else TimesT(weight, t) == TimesT(w, total)
  }

  /** p is the pose of part g at the root: several active children are averaged
      lane by lane, the rotation like the translation. */
  ghost predicate RootBrings(t: Tree, g: nat, p: Part) {
    match t
    case Leaf(leaf) => LeafBrings(leaf, 1.0, g, p) && p.weight == if Animated(t, g) then 1.0 else 0.0
    case Interior(children) =>
      if NoneActive(children) then p == ZERO
      else if exists a: nat :: Alone(children, a)
      then exists a: nat :: Alone(children, a) && RootBrings(children[a].tree, g, p)
      else exists ps: seq<Part> :: |ps| == |children| && ChildrenBring(t, g, ps) &&
                                   p.weight == TotalWeight(children, |ps|, g) &&
                                   Averages(TotalT(children, ps, |ps|), p.weight, 1.0, p.t) &&
                                   MeanTurn(TotalQ(children, ps, |ps|), p.weight, p.q)
  }

  ghost predicate MeanTurn(total: Quat, weight: real, q: Quat) {
    if weight == 0.0 then q == ZERO_Q else Times(weight, q) == total
  }

  lemma LeafIsBrought(leaf: Track, w: real, g: nat, count: nat)
    requires g < count <= MISSING && Valid(Leaf(leaf), count)
    ensures LeafBrings(leaf, w, g, SampleSum(leaf, |leaf.samples|, w, g))
  {
    LeafWeight(leaf, w, g, count);
  }

  lemma ActiveCases(children: seq<Child>)
    ensures var a := FirstActive(children, 0);
            if a == |children| then NoneActive(children)
            else !NoneActive(children) &&
                 if FirstActive(children, a + 1) == |children| then Alone(children, a)
                 else forall b: nat :: !Alone(children, b)
  {
    var a := FirstActive(children, 0);
    if a < |children| {
      var b := FirstActive(children, a + 1);
      if b < |children| {
        assert children[a].weight != 0.0 && children[b].weight != 0.0 && a != b;
      }
    }
  }

  /** What every child brings. */
  ghost function Brought(ar: Arith, t: Tree, g: nat): (ps: seq<Part>)
    requires t.Interior?
    ensures |ps| == |t.children|
    ensures forall i :: 0 <= i < |ps| ==> ps[i] == Blend(ar, t.children[i].tree, t.children[i].weight, g)
  {
    seq(|t.children|, i requires 0 <= i < |t.children| => Blend(ar, t.children[i].tree, t.children[i].weight, g))
  }

  lemma {:induction false} SumIsTotal(ar: Arith, t: Tree, n: nat, g: nat, count: nat)
    requires ArithOk(ar) && t.Interior? && n <= |t.children| && Valid(t, count) && g < count <= MISSING
    ensures var ps := Brought(ar, t, g);
            BlendSum(ar, t, n, g) ==
            Part(TotalQ(t.children, ps, n), TotalT(t.children, ps, n), TotalWeight(t.children, n, g))
    decreases n
  {
    hide Blend, ArithOk, Animated;
    if n > 0 {
      SumIsTotal(ar, t, n - 1, g, count);
      var c := t.children[n - 1];
      if c.weight != 0.0 {
        BlendWeight(ar, c.tree, c.weight, g, count);
      }
    }
  }

  lemma RescaledResizes(ar: Arith, p: Part, w: real)
    requires ArithOk(ar) && RealArith(ar) && RealLength(ar) && w > 0.0
    ensures Resized(p.q, w, Rescaled(ar, p, w).q)
  {
    if p.q != ZERO_Q {
      var l := ar.length(p.q);
      var f := ar.over(w, l);
      FactorLength(w, l, p.q);
      assert Rescaled(ar, p, w).q == Times(f, p.q);
    }
  }

  lemma FactorLength(w: real, l: real, q: Quat)
    requires w > 0.0 && l > 0.0 && l * l == Norm(q)
    ensures w / l > 0.0 && Norm(Times(w / l, q)) == w * w
  {
    var f := w / l;
    assert f * l == w;
    NormTimes(f, q);
    assert f * f * (l * l) == (f * l) * (f * l);
  }

  lemma NormTimes(f: real, q: Quat)
    ensures Norm(Times(f, q)) == f * f * Norm(q)
  {
    SquareTimes(f, q.x);
    SquareTimes(f, q.y);
    SquareTimes(f, q.z);
    SquareTimes(f, q.w);
    var k := f * f;
    assert k * Norm(q) == k * (q.x * q.x) + k * (q.y * q.y) + k * (q.z * q.z) + k * (q.w * q.w);
  }

  lemma SquareTimes(f: real, x: real)
    ensures (f * x) * (f * x) == f * f * (x * x)
  {
  }

  lemma RescaledAverages(ar: Arith, p: Part, w: real)
    requires RealArith(ar)
    ensures Averages(p.t, p.weight, w, Rescaled(ar, p, w).t)
  {
    if p.weight != 0.0 {
      OverTimes(w, p.weight, p.t.x);
      OverTimes(w, p.weight, p.t.y);
      OverTimes(w, p.weight, p.t.z);
    }
  }

  lemma OverTimes(w: real, s: real, x: real)
    requires s != 0.0
    ensures s * ((w / s) * x) == w * x
  {
    var f := w / s;
    assert s * f == w;
    assert s * (f * x) == (s * f) * x;
  }

  lemma AveragedMeans(ar: Arith, p: Part)
    requires RealArith(ar) && (p.weight == 0.0 ==> p == ZERO)
    ensures MeanTurn(p.q, p.weight, Averaged(ar, p).q) && Averages(p.t, p.weight, 1.0, Averaged(ar, p).t)
  {
    if p.weight != 0.0 {
      var s := p.weight;
      OverTimes(1.0, s, p.q.x);
      OverTimes(1.0, s, p.q.y);
      OverTimes(1.0, s, p.q.z);
      OverTimes(1.0, s, p.q.w);
      OverTimes(1.0, s, p.t.x);
      OverTimes(1.0, s, p.t.y);
      OverTimes(1.0, s, p.t.z);
    }
  }

  /** The evaluator's sum brings exactly that. */
  lemma {:induction false} BlendBrings(ar: Arith, t: Tree, w: real, g: nat, count: nat)
    requires ArithOk(ar) && RealArith(ar) && RealLength(ar)
    requires Valid(t, count) && w > 0.0 && g < count <= MISSING
    ensures Brings(t, w, g, Blend(ar, t, w, g))
    decreases t, 1
  {
    hide RealArith, RealLength, ArithOk, Resized, Averages, LeafBrings, ChildrenBring;
    BlendWeight(ar, t, w, g, count);
    match t
    case Leaf(leaf) => LeafIsBrought(leaf, w, g, count);
    case Interior(children) =>
      ActiveCases(children);
      var a := FirstActive(children, 0);
      if a < |children| {
        if FirstActive(children, a + 1) == |children| {
          BlendBrings(ar, children[a].tree, w, g, count);
        } else {
          var ps := Brought(ar, t, g);
          ChildrenBrought(ar, t, g, count);
          SumIsTotal(ar, t, |children|, g, count);
          RescaledResizes(ar, BlendSum(ar, t, |children|, g), w);
          RescaledAverages(ar, BlendSum(ar, t, |children|, g), w);
          assert ChildrenBring(t, g, ps);
        }
      }
  }

  lemma {:induction false} ChildrenBrought(ar: Arith, t: Tree, g: nat, count: nat)
    requires ArithOk(ar) && RealArith(ar) && RealLength(ar) && t.Interior? && Valid(t, count) && g < count <= MISSING
    ensures ChildrenBring(t, g, Brought(ar, t, g))
    decreases t, 0
  {
    var ps := Brought(ar, t, g);
    forall i | 0 <= i < |ps| && t.children[i].weight != 0.0
      ensures Brings(t.children[i].tree, t.children[i].weight, g, ps[i])
    {
      BlendBrings(ar, t.children[i].tree, t.children[i].weight, g, count);
    }
  }

  /** And the root leaves behind the average. */
  lemma {:induction false} RootIsBrought(ar: Arith, t: Tree, g: nat, count: nat)
    requires ArithOk(ar) && RealArith(ar) && RealLength(ar) && Valid(t, count) && g < count <= MISSING
    ensures RootBrings(t, g, RootBlend(ar, t, 1.0, g))
  {
    hide RealArith, RealLength, ArithOk, MeanTurn, Averages, LeafBrings, ChildrenBring;
    match t
    case Leaf(leaf) =>
      LeafIsBrought(leaf, 1.0, g, count);
      BlendWeight(ar, t, 1.0, g, count);
    case Interior(children) =>
      ActiveCases(children);
      var a := FirstActive(children, 0);
      if a < |children| {
        if FirstActive(children, a + 1) == |children| {
          RootIsBrought(ar, children[a].tree, g, count);
        } else {
          var ps := Brought(ar, t, g);
          ChildrenBrought(ar, t, g, count);
          SumIsTotal(ar, t, |children|, g, count);
          SumWeight(ar, t, |children|, g, count);
          AveragedMeans(ar, BlendSum(ar, t, |children|, g));
          assert ChildrenBring(t, g, ps);
        }
      }
  }

  // ----- rotations stay among their samples -----

  /** A set of rotations with all sums and positive multiples of its members. */
  ghost predicate Cone(c: Quat -> bool) {
    && (forall a, b {:trigger Plus(a, b)} :: c(a) && c(b) ==> c(Plus(a, b)))
    && (forall k, a {:trigger Times(k, a)} :: c(a) && k > 0.0 ==> c(Times(k, a)))
  }

  /** Every sample of the part that an active leaf can give lies in the set. */
  ghost predicate SamplesIn(t: Tree, g: nat, c: Quat -> bool) {
    match t
    case Leaf(leaf) =>
      forall i, w :: 0 <= i < |leaf.samples| && leaf.remap.table[i] == g && w > 0.0 ==> c(leaf.samples[i].q(w))
    case Interior(children) =>
      forall i :: 0 <= i < |children| && children[i].weight != 0.0 ==> SamplesIn(children[i].tree, g, c)
  }

  ghost predicate InCone(q: Quat, animated: bool, c: Quat -> bool) {
    if animated then c(q) else q == ZERO_Q
  }

  lemma ResizedInCone(total: Quat, w: real, q: Quat, animated: bool, c: Quat -> bool)
    requires Cone(c) && Resized(total, w, q) && InCone(total, animated, c)
    ensures InCone(q, animated, c)
  {
    if total != ZERO_Q {
      var f :| f > 0.0 && q == Times(f, total);
    }
  }

  lemma PlusInCone(a: Quat, b: Quat, x: bool, y: bool, c: Quat -> bool)
    requires Cone(c) && InCone(a, x, c) && InCone(b, y, c)
    ensures InCone(Plus(a, b), x || y, c)
  {
    if !x {
      assert Plus(a, b) == b;
    } else if !y {
      assert Plus(a, b) == a;
    }
  }

  lemma {:induction false} BringsInCone(t: Tree, w: real, g: nat, p: Part, count: nat, c: Quat -> bool)
    requires Cone(c) && Brings(t, w, g, p) && Valid(t, count) && w > 0.0 && SamplesIn(t, g, c)
    ensures InCone(p.q, Animated(t, g), c)
    decreases t, 1
  {
    hide Cone, Resized, Averages;
    match t
    case Leaf(leaf) =>
    case Interior(children) =>
      if NoneActive(children) {
      } else if exists a: nat :: Alone(children, a) {
        var a: nat :| Alone(children, a) && Brings(children[a].tree, w, g, p);
        BringsInCone(children[a].tree, w, g, p, count, c);
      } else {
        var ps: seq<Part> :| |ps| == |children| && ChildrenBring(t, g, ps) &&
                             Resized(TotalQ(children, ps, |ps|), w, p.q) &&
                             Averages(TotalT(children, ps, |ps|), TotalWeight(children, |ps|, g), w, p.t);
        TotalInCone(t, ps, |ps|, g, count, c);
        assert AnimatedBefore(t, |ps|, g) <==> Animated(t, g);
        ResizedInCone(TotalQ(children, ps, |ps|), w, p.q, Animated(t, g), c);
      }
  }

  lemma {:induction false} TotalInCone(t: Tree, ps: seq<Part>, n: nat, g: nat, count: nat, c: Quat -> bool)
    requires Cone(c) && t.Interior? && n <= |t.children| == |ps| && ChildrenBring(t, g, ps) && Valid(t, count)
    requires SamplesIn(t, g, c)
    ensures InCone(TotalQ(t.children, ps, n), AnimatedBefore(t, n, g), c)
    decreases t, 0, n
  {
    hide Cone;
    if n > 0 {
      TotalInCone(t, ps, n - 1, g, count, c);
      AnimatedNext(t, n, g);
      var child := t.children[n - 1];
      if child.weight != 0.0 {
        BringsInCone(child.tree, child.weight, g, ps[n - 1], count, c);
        PlusInCone(TotalQ(t.children, ps, n - 1), ps[n - 1].q, AnimatedBefore(t, n - 1, g), Animated(child.tree, g), c);
      }
    }
  }

  lemma {:induction false} TotalPositive(t: Tree, n: nat, g: nat, count: nat)
    requires t.Interior? && n <= |t.children| && Valid(t, count)
    ensures TotalWeight(t.children, n, g) >= 0.0
    ensures AnimatedBefore(t, n, g) <==> TotalWeight(t.children, n, g) > 0.0
    decreases n
  {
    if n > 0 {
      TotalPositive(t, n - 1, g, count);
      AnimatedNext(t, n, g);
    }
  }

  lemma MeanInCone(total: Quat, weight: real, q: Quat, c: Quat -> bool)
    requires Cone(c) && MeanTurn(total, weight, q) && weight > 0.0 && c(total)
    ensures c(q)
  {
    var f := 1.0 / weight;
    assert f * weight == 1.0;
    Undo(f, weight, q.x);
    Undo(f, weight, q.y);
    Undo(f, weight, q.z);
    Undo(f, weight, q.w);
    assert q == Times(f, total);
  }

  lemma Undo(f: real, s: real, x: real)
    requires f * s == 1.0
    ensures f * (s * x) == x
  {
    assert f * (s * x) == (f * s) * x;
  }

  /** A blended rotation is a sum of positive multiples of the samples that feed it. */
  lemma {:induction false} RootInCone(t: Tree, g: nat, p: Part, count: nat, c: Quat -> bool)
    requires Cone(c) && RootBrings(t, g, p) && Valid(t, count) && Animated(t, g) && SamplesIn(t, g, c)
    ensures c(p.q)
  {
    hide Cone, Averages, MeanTurn;
    match t
    case Leaf(leaf) =>
    case Interior(children) =>
      if exists a: nat :: Alone(children, a) {
        var a: nat :| Alone(children, a) && RootBrings(children[a].tree, g, p);
        RootInCone(children[a].tree, g, p, count, c);
      } else {
        var ps: seq<Part> :| |ps| == |children| && ChildrenBring(t, g, ps) &&
                             p.weight == TotalWeight(children, |ps|, g) &&
                             Averages(TotalT(children, ps, |ps|), p.weight, 1.0, p.t) &&
                             MeanTurn(TotalQ(children, ps, |ps|), p.weight, p.q);
        assert AnimatedBefore(t, |ps|, g);
        TotalInCone(t, ps, |ps|, g, count, c);
        TotalPositive(t, |ps|, g, count);
        MeanInCone(TotalQ(children, ps, |ps|), p.weight, p.q, c);
      }
  }

  /** Poses that agree up to a positive factor blend to the same rotation, up to one. */
  lemma OneRotation(t: Tree, g: nat, p: Part, count: nat, r: Quat)
    requires RootBrings(t, g, p) && Valid(t, count) && Animated(t, g)
    requires SamplesIn(t, g, q => exists k :: k > 0.0 && q == Times(k, r))
    ensures exists k :: k > 0.0 && p.q == Times(k, r)
  {
    var c: Quat -> bool := q => exists k :: k > 0.0 && q == Times(k, r);
    forall a, b | c(a) && c(b) ensures c(Plus(a, b)) {
      var j :| j > 0.0 && a == Times(j, r);
      var k :| k > 0.0 && b == Times(k, r);
      TimesPlus(j, k, r);
    }
    forall f, a | c(a) && f > 0.0 ensures c(Times(f, a)) {
      var k :| k > 0.0 && a == Times(k, r);
      TimesTimes(f, k, r);
    }
    RootInCone(t, g, p, count, c);
  }

  lemma TimesPlus(j: real, k: real, r: Quat)
    ensures Plus(Times(j, r), Times(k, r)) == Times(j + k, r)
  {
  }

  lemma TimesTimes(f: real, k: real, r: Quat)
    requires f > 0.0 && k > 0.0
    ensures Times(f, Times(k, r)) == Times(f * k, r) && f * k > 0.0
  {
    Associates(f, k, r.x);
    Associates(f, k, r.y);
    Associates(f, k, r.z);
    Associates(f, k, r.w);
  }

  lemma Associates(f: real, k: real, x: real)
    ensures f * (k * x) == f * k * x
  {
  }

  function Dot(d: Quat, q: Quat): real {
    d.x * q.x + d.y * q.y + d.z * q.z + d.w * q.w
  }

  /** A blended rotation stays on the side of any plane on which its samples lie;
      with a unit vector for d this is the sign of a lane. */
  lemma SideKept(t: Tree, g: nat, p: Part, count: nat, d: Quat)
    requires RootBrings(t, g, p) && Valid(t, count) && Animated(t, g)
    requires SamplesIn(t, g, q => Dot(d, q) >= 0.0)
    ensures Dot(d, p.q) >= 0.0
  {
    var c: Quat -> bool := q => Dot(d, q) >= 0.0;
    forall a, b | c(a) && c(b) ensures c(Plus(a, b)) {
      DotPlus(d, a, b);
    }
    forall f, a | c(a) && f > 0.0 ensures c(Times(f, a)) {
      DotTimes(d, f, a);
    }
    RootInCone(t, g, p, count, c);
  }

  lemma DotPlus(d: Quat, a: Quat, b: Quat)
    ensures Dot(d, Plus(a, b)) == Dot(d, a) + Dot(d, b)
  {
  }

  lemma DotTimes(d: Quat, f: real, a: Quat)
    requires f > 0.0 && Dot(d, a) >= 0.0
    ensures Dot(d, Times(f, a)) >= 0.0
  {
    Turned(d.x, f, a.x);
    Turned(d.y, f, a.y);
    Turned(d.z, f, a.z);
    Turned(d.w, f, a.w);
    assert Dot(d, Times(f, a)) == f * (d.x * a.x) + f * (d.y * a.y) + f * (d.z * a.z) + f * (d.w * a.w);
    assert f * Dot(d, a) >= 0.0;
    assert f * Dot(d, a) == f * (d.x * a.x) + f * (d.y * a.y) + f * (d.z * a.z) + f * (d.w * a.w);
  }

  lemma Turned(d: real, f: real, x: real)
    ensures d * (f * x) == f * (d * x)
  {
  }
}
