/** Weights of animation nodes: how a lane moves towards its goal, what setting
    and clearing a goal writes, and what one update does to a whole subtree. */
module AnimWeights {
  import opened AnimPool
  import opened Words

  const BLEND_EPSILON: real := 0.001
  const WEIGHT_EPSILON: real := 0.000001

  function Abs(x: real): real {
    if x < 0.0 then -x else x
  }

  /** The lane state after a goal weight is set. */
  function AimAt(s: State, weight: real, blendTime: real, rate: real): State {
    var remaining := Abs(weight - s.current) * blendTime;
    if remaining < BLEND_EPSILON then
      s.(target := weight, blend := 0.0, current := weight, rate := rate)
    else
      s.(target := weight, blend := remaining, rate := rate,
         current := if s.current == 0.0 then weight * BLEND_EPSILON else s.current)
  }

  /** The lane state after one blend step. */
  function BlendStep(s: State, step: real): State
    requires step >= 0.0
  {
    if s.blend < step + BLEND_EPSILON then s.(current := s.target, blend := 0.0)
    else
      var raw := (s.target - s.current) / s.blend * step + s.current;
      s.(current := if raw < WEIGHT_EPSILON then s.target * BLEND_EPSILON else raw, blend := s.blend - step)
  }

  // ----- blending -----

  /** Inside the blend the distance left and the time left shrink in proportion. */
  lemma StepKeepsSlope(s: State, step: real)
    requires step >= 0.0 && s.blend >= step + BLEND_EPSILON && BlendStep(s, step).current >= WEIGHT_EPSILON
    requires (s.target - s.current) / s.blend * step + s.current >= WEIGHT_EPSILON
    ensures var r := BlendStep(s, step);
            r.blend > 0.0 && (s.target - r.current) * s.blend == (s.target - s.current) * r.blend
  {
    var slope := (s.target - s.current) / s.blend;
    var r := BlendStep(s, step);
    SlopeTimes(s.target - s.current, s.blend);
    assert r.current == slope * step + s.current && r.blend == s.blend - step;
    assert (s.target - r.current) == slope * s.blend - slope * step == slope * r.blend;
    assert slope * r.blend * s.blend == slope * s.blend * r.blend;
  }

  lemma SlopeTimes(d: real, b: real)
    requires b != 0.0
    ensures d / b * b == d
  {
  }

  lemma SlopeUnique(d: real, b: real, m: real)
    requires b != 0.0 && d == m * b
    ensures d / b == m
  {
    var q := d / b;
    assert q * b == d;
    assert (q - m) * b == 0.0;
  }

  /** The step before it reaches the end of the blend. */
  lemma StepInside(s: State, slope: real, step: real)
    requires step >= 0.0 && s.blend >= step + BLEND_EPSILON && s.target - s.current == slope * s.blend
    requires slope * step + s.current >= WEIGHT_EPSILON
    ensures BlendStep(s, step) == s.(current := slope * step + s.current, blend := s.blend - step)
  {
    SlopeUnique(s.target - s.current, s.blend, slope);
  }

  /** Two short frames blend as far as one long one. */
  lemma StepsAdd(s: State, a: real, b: real)
    requires a >= 0.0 && b >= 0.0 && s.blend >= a + b + BLEND_EPSILON
    requires (s.target - s.current) / s.blend * a + s.current >= WEIGHT_EPSILON
    requires (s.target - s.current) / s.blend * (a + b) + s.current >= WEIGHT_EPSILON
    ensures BlendStep(BlendStep(s, a), b) == BlendStep(s, a + b)
  {
    hide BlendStep;
    var slope := (s.target - s.current) / s.blend;
    SlopeTimes(s.target - s.current, s.blend);
    StepInside(s, slope, a);
    StepInside(s, slope, a + b);
    var r := BlendStep(s, a);
    assert s.target - r.current == slope * s.blend - slope * a == slope * r.blend;
    assert slope * b + r.current == slope * (a + b) + s.current;
    StepInside(r, slope, b);
  }

  function Blended(s: State, steps: seq<real>): State
    requires forall i :: 0 <= i < |steps| ==> steps[i] >= 0.0
    decreases |steps|
  {
    if steps == [] then s else Blended(BlendStep(s, steps[0]), steps[1..])
  }

  function Sum(steps: seq<real>): real {
    if steps == [] then 0.0 else steps[0] + Sum(steps[1..])
  }

  /** However the frames fall, the goal is reached once the blend time has passed, and kept. */
  lemma {:induction false} BlendArrives(s: State, steps: seq<real>)
    requires forall i :: 0 <= i < |steps| ==> steps[i] >= 0.0
    requires steps != [] && s.blend <= Sum(steps)
    ensures var r := Blended(s, steps);
            r.current == r.target == s.target && r.blend == 0.0
    decreases |steps|
  {
    var next, rest := BlendStep(s, steps[0]), steps[1..];
    if rest != [] {
      if s.blend < steps[0] + BLEND_EPSILON {
        SumPositive(rest);
      }
      BlendArrives(next, rest);
    } else {
      assert Sum(steps) == steps[0];
    }
  }

  lemma {:induction false} SumPositive(steps: seq<real>)
    requires forall i :: 0 <= i < |steps| ==> steps[i] >= 0.0
    ensures Sum(steps) >= 0.0
  {
    if steps != [] {
      SumPositive(steps[1..]);
    }
  }

  // ----- goals -----

  /** A node record after a goal weight is set; the root always goes to full weight. */
  function Aimed(x: Info, root: bool, lane: Lane, weight: real, blendTime: real, rate: real, name: Word,
                 notifyType: Word, child: Word): Info
  {
    var s := if root then AimAt(x.On(lane), 1.0, 0.0, 1.0) else AimAt(x.On(lane), weight, blendTime, rate);
    var y := x.With(lane, s);
    if lane.Client? then y.(notifyType := notifyType)
    else y.(name := name, notifyIndex := -1, notifyChild := child)
  }

  /** A lane that lets go of its goal: at once if the node has no effect, else over the blend time. */
  function LetGo(s: State, effective: bool, blendTime: real): State {
    if !effective then s.(current := 0.0, blend := 0.0, target := 0.0)
    else if s.target != 0.0 then s.(target := 0.0, blend := blendTime)
    else if blendTime < s.blend then s.(blend := blendTime)
    else s
  }

  /** On the server lane the notify goes with the goal. */
  function Cleared(x: Info, lane: Lane, effective: bool, blendTime: real): Info {
    var y := x.With(lane, LetGo(x.On(lane), effective, blendTime));
    if lane.Client? then y else y.(name := 0, notifyIndex := -1)
  }

  /** Weights too small to see count as none. */
  function Clipped(weight: real): real {
    if weight < BLEND_EPSILON then 0.0 else weight
  }

  // ----- the descendant that carries a notify -----

  /** The part of the runtime these operations work on. */
  datatype View = View(handles: seq<nat>, info: seq<Info>)

  function TargetIn(v: View, j: nat, lane: Lane): real {
    if j < |v.handles| && 0 < v.handles[j] < |v.info| then v.info[v.handles[j]].On(lane).target else 0.0
  }

  datatype Pick = Pick(weight: real, leaf: nat)

  /** XAnimGetDescendantWithGreatestWeight: down the heaviest goals to a leaf;
      zero when no child heads for a weight and has such a leaf. */
  ghost function Greatest(src: Source, lane: Lane, v: View, i: nat): nat
    requires ValidSource(src) && i < |src.first|
    decreases |src.first| - i, 0, 0
  {
    if src.count[i] == 0 then i else GreatestOf(src, lane, v, i, src.count[i]).leaf
  }

  ghost function GreatestOf(src: Source, lane: Lane, v: View, i: nat, n: nat): Pick
    requires ValidSource(src) && i < |src.first| && n <= src.count[i]
    decreases |src.first| - i - 1, 1, n
  {
    if n == 0 then Pick(0.0, 0)
    else
      var best := GreatestOf(src, lane, v, i, n - 1);
      var c := src.first[i] + n - 1;
      Better(best, TargetIn(v, c, lane), Greatest(src, lane, v, c))
  }

  function Better(best: Pick, weight: real, leaf: nat): Pick {
    if best.weight < weight && leaf != 0 then Pick(weight, leaf) else best
  }

  /** What the notify child of a node becomes when it gets this notify name. */
  ghost function ChildFor(src: Source, lane: Lane, v: View, i: nat, name: Word): Word
    requires ValidSource(src) && i < |src.first|
  {
    if WantsChild(src, lane, i, name) then Greatest(src, lane, v, i) % 65536 else 0
  }

  /** Only a named sync node on the server lane looks for one. */
  predicate WantsChild(src: Source, lane: Lane, i: nat, name: Word)
    requires i < |src.count| == |src.sync|
  {
    lane.Server? && name != 0 && src.count[i] != 0 && src.sync[i]
  }

  /** j is a leaf below i, and it and every node between head for a weight. */
  ghost predicate Wanted(src: Source, lane: Lane, v: View, i: nat, j: nat)
    requires ValidSource(src) && i < |src.first| && j < |src.first|
  {
    src.count[j] == 0 && Headed(src, lane, v, i, j)
  }

  ghost predicate Headed(src: Source, lane: Lane, v: View, i: nat, j: nat)
    requires ValidSource(src) && i < |src.first| && j < |src.first|
  {
    j == i || (j > 0 && TargetIn(v, j, lane) > 0.0 && Headed(src, lane, v, i, src.parent[j]))
  }

  lemma {:induction false} HeadedDown(src: Source, lane: Lane, v: View, i: nat, c: nat, j: nat)
    requires ValidSource(src) && 0 < c < |src.first| && j < |src.first| && i == src.parent[c]
    requires TargetIn(v, c, lane) > 0.0 && Headed(src, lane, v, c, j)
    ensures Headed(src, lane, v, i, j) && j != i
    ensures c <= j
  {
    if j != c {
      HeadedDown(src, lane, v, i, c, src.parent[j]);
    }
  }

  /** The child of i on the way to a leaf it heads for. */
  lemma {:induction false} HeadedChild(src: Source, lane: Lane, v: View, i: nat, j: nat) returns (c: nat)
    requires ValidSource(src) && i < |src.first| && j < |src.first| && Headed(src, lane, v, i, j) && j != i
    ensures src.first[i] <= c < src.first[i] + src.count[i] && 0 < c < |src.first| && src.parent[c] == i
    ensures TargetIn(v, c, lane) > 0.0 && Headed(src, lane, v, c, j)
  {
    if src.parent[j] == i {
      c := j;
    } else {
      c := HeadedChild(src, lane, v, i, src.parent[j]);
    }
  }

  ghost predicate NoneWanted(src: Source, lane: Lane, v: View, i: nat)
    requires ValidSource(src) && i < |src.first|
  {
    forall j :: 0 <= j < |src.first| ==> !Wanted(src, lane, v, i, j)
  }

  /** A leaf is found exactly if there is one, and what is found is one. */
  lemma {:induction false} GreatestIsWanted(src: Source, lane: Lane, v: View, i: nat)
    requires ValidSource(src) && i < |src.first| && (i > 0 || src.count[i] > 0)
    ensures var j := Greatest(src, lane, v, i);
            if j == 0 then NoneWanted(src, lane, v, i) else j < |src.first| && Wanted(src, lane, v, i, j)
    decreases |src.first| - i, 0, 0
  {
    if src.count[i] > 0 {
      GreatestOfWanted(src, lane, v, i, src.count[i]);
      if Greatest(src, lane, v, i) == 0 {
        forall j | 0 <= j < |src.first| ensures !Wanted(src, lane, v, i, j) {
          if j != i && Headed(src, lane, v, i, j) {
            var c := HeadedChild(src, lane, v, i, j);
            assert Heavier(src, lane, v, i, src.count[i], c);
            assert !Wanted(src, lane, v, c, j);
          }
        }
      }
    }
  }

  /** A child that outweighs the pick of the first n has no leaf to offer. */
  ghost predicate Heavier(src: Source, lane: Lane, v: View, i: nat, n: nat, c: nat)
    requires ValidSource(src) && i < |src.first| && n <= src.count[i]
  {
    src.first[i] <= c < src.first[i] + n && TargetIn(v, c, lane) > GreatestOf(src, lane, v, i, n).weight ==>
      Greatest(src, lane, v, c) == 0 && NoneWanted(src, lane, v, c)
  }

  lemma {:induction false} GreatestOfWanted(src: Source, lane: Lane, v: View, i: nat, n: nat)
    requires ValidSource(src) && i < |src.first| && n <= src.count[i]
    ensures var best := GreatestOf(src, lane, v, i, n);
            && best.weight >= 0.0 && (best.leaf == 0 <==> best.weight == 0.0)
            && (best.leaf != 0 ==> best.leaf < |src.first| && Wanted(src, lane, v, i, best.leaf))
    ensures forall c: nat {:trigger Heavier(src, lane, v, i, n, c)} :: Heavier(src, lane, v, i, n, c)
    decreases |src.first| - i - 1, 1, n
  {
    if n > 0 {
      var c := src.first[i] + n - 1;
      GreatestOfWanted(src, lane, v, i, n - 1);
      GreatestIsWanted(src, lane, v, c);
      var leaf := Greatest(src, lane, v, c);
      if leaf != 0 && TargetIn(v, c, lane) > 0.0 {
        HeadedDown(src, lane, v, i, c, leaf);
      }
      hide NoneWanted, Wanted;
      forall d: nat ensures Heavier(src, lane, v, i, n, d) {
        assert Heavier(src, lane, v, i, n - 1, d);
      }
    }
  }

  // ----- what setting goals changes -----

  /** `a` is a proper ancestor of `i`. */
  ghost predicate Above(s: Source, a: nat, i: nat)
    requires ValidSource(s) && i < |s.first|
  {
    i != 0 && (a == s.parent[i] || Above(s, a, s.parent[i]))
  }

  lemma {:induction false} AboveParent(s: Source, a: nat, i: nat)
    requires ValidSource(s) && i < |s.first| && Above(s, a, i)
    ensures a < i
    ensures a != 0 ==> Above(s, s.parent[a], i)
  {
    if a != s.parent[i] {
      AboveParent(s, a, s.parent[i]);
    }
  }

  // ----- how many records a goal takes from the pool -----

  ghost function DeadAbove(src: Source, handles: seq<nat>, i: nat): nat
    requires ValidSource(src) && i < |src.first| == |handles|
  {
    if i == 0 then 0
    else (if handles[src.parent[i]] == 0 then 1 else 0) + DeadAbove(src, handles, src.parent[i])
  }

  /** The node itself, if it is dead and gets a weight, and its dead ancestors. */
  ghost function Missing(src: Source, handles: seq<nat>, i: nat, weight: real): nat
    requires ValidSource(src) && i < |src.first| == |handles|
  {
    (if handles[i] == 0 && weight != 0.0 then 1 else 0) + DeadAbove(src, handles, i)
  }

  ghost function DeadAncestors(src: Source, handles: seq<nat>, i: nat): set<nat>
    requires ValidSource(src) && i < |src.first| == |handles|
  {
    set a | 0 <= a < |handles| && handles[a] == 0 && Above(src, a, i)
  }

  lemma {:induction false} DeadAboveCounts(src: Source, handles: seq<nat>, i: nat)
    requires ValidSource(src) && i < |src.first| == |handles|
    ensures DeadAbove(src, handles, i) == |DeadAncestors(src, handles, i)|
  {
    if i == 0 {
      assert DeadAncestors(src, handles, 0) == {};
    } else {
      var p := src.parent[i];
      DeadAboveCounts(src, handles, p);
      if Above(src, p, p) {
        AboveParent(src, p, p);
      }
      assert DeadAncestors(src, handles, i) == DeadAncestors(src, handles, p) + (if handles[p] == 0 then {p} else {});
    }
  }

  lemma {:induction false} DeadAboveSame(src: Source, a: seq<nat>, b: seq<nat>, i: nat)
    requires ValidSource(src) && i < |src.first| == |a| == |b|
    requires forall j :: 0 <= j < i ==> a[j] == b[j]
    ensures DeadAbove(src, a, i) == DeadAbove(src, b, i)
  {
    if i != 0 {
      DeadAboveSame(src, a, b, src.parent[i]);
    }
  }

  /** Above a live node of a closed stretch nothing is dead. */
  lemma {:induction false} NoneDeadAbove(src: Source, handles: seq<nat>, i: nat)
    requires ValidSource(src) && i < |src.first| == |handles| && handles[i] != 0
    requires forall j :: 1 <= j <= i && handles[j] != 0 ==> handles[src.parent[j]] != 0
    ensures DeadAbove(src, handles, i) == 0
  {
    if i != 0 {
      NoneDeadAbove(src, handles, src.parent[i]);
    }
  }

  ghost predicate SameShape(src: Source, v: View, r: View) {
    ValidSource(src) && |v.handles| == |r.handles| == |src.first| && |v.info| == |r.info|
  }

  /** The record a node has, or the one it would start with. */
  ghost function RecordIn(v: View, j: nat): Info
    requires j < |v.handles|
  {
    if 0 < v.handles[j] < |v.info| then v.info[v.handles[j]] else BLANK
  }

  ghost predicate LiveWith(r: View, j: nat, x: Info)
    requires j < |r.handles|
  {
    0 < r.handles[j] < |r.info| && r.info[r.handles[j]] == x
  }

  /** A missing ancestor that came to life: heading for no weight, except the root. */
  ghost predicate Raised(src: Source, lane: Lane, blendTime: real, i: nat, v: View, r: View, j: nat)
    requires SameShape(src, v, r) && i < |src.first| && j < |src.first|
  {
    v.handles[j] == 0 && Above(src, j, i) && LiveWith(r, j, Aimed(BLANK, j == 0, lane, 0.0, blendTime, 1.0, 0, 0, 0))
  }

  /** Only missing ancestors of node i came to life. */
  ghost predicate ParentsRaised(src: Source, lane: Lane, blendTime: real, i: nat, v: View, r: View) {
    && SameShape(src, v, r) && i < |src.first|
    && forall j: nat {:trigger NodeKept(v, r, j)} :: j < |src.first| ==>
         NodeKept(v, r, j) || Raised(src, lane, blendTime, i, v, r, j)
  }

  lemma NoneRaised(src: Source, lane: Lane, blendTime: real, i: nat, v: View)
    requires SameShape(src, v, v) && i < |src.first|
    ensures ParentsRaised(src, lane, blendTime, i, v, v)
  {
  }

  lemma RaiseOne(src: Source, lane: Lane, blendTime: real, i: nat, v: View, m: View, r: View, p: nat)
    requires ParentsRaised(src, lane, blendTime, i, v, m) && SameShape(src, m, r) && p < |src.first|
    requires m.handles[p] == 0 && Above(src, p, i) && OthersKept(m, r, p)
    requires LiveWith(r, p, Aimed(BLANK, p == 0, lane, 0.0, blendTime, 1.0, 0, 0, 0))
    ensures ParentsRaised(src, lane, blendTime, i, v, r)
  {
    forall j: nat | j < |src.first|
      ensures NodeKept(v, r, j) || Raised(src, lane, blendTime, i, v, r, j)
    {
      assert NodeKept(v, m, j) || Raised(src, lane, blendTime, i, v, m, j);
      assert j != p ==> NodeKept(m, r, j);
    }
  }

  /** Node i has its goal, unless it was dead and was asked for no weight. */
  ghost predicate HasGoal(src: Source, i: nat, lane: Lane, weight: real, blendTime: real, rate: real, name: Word,
                          notifyType: Word, v: View, r: View)
    requires SameShape(src, v, r) && i < |src.first|
  {
    if r.handles[i] == 0 then v.handles[i] == 0 && weight == 0.0
    else LiveWith(r, i, Aimed(RecordIn(v, i), i == 0, lane, weight, blendTime, rate, name, notifyType,
                              ChildFor(src, lane, v, i, name)))
  }

  /** The same, and no other node changed. */
  ghost predicate NodeAimed(src: Source, i: nat, lane: Lane, weight: real, blendTime: real, rate: real, name: Word,
                            notifyType: Word, v: View, r: View)
  {
    && SameShape(src, v, r) && i < |src.first| && OthersKept(v, r, i)
    && HasGoal(src, i, lane, weight, blendTime, rate, name, notifyType, v, r)
  }

  /** A goal of one node: its record, and nothing else but the missing ancestors. */
  ghost predicate GoalSet(src: Source, i: nat, lane: Lane, weight: real, blendTime: real, rate: real, name: Word,
                          notifyType: Word, v: View, r: View)
  {
    && SameShape(src, v, r) && i < |src.first|
    && (forall j: nat {:trigger NodeKept(v, r, j)} :: j < |src.first| && j != i ==>
          NodeKept(v, r, j) || Raised(src, lane, blendTime, i, v, r, j))
    && HasGoal(src, i, lane, weight, blendTime, rate, name, notifyType, v, r)
  }

  lemma GoalThenParents(src: Source, i: nat, lane: Lane, weight: real, blendTime: real, rate: real, name: Word,
                        notifyType: Word, v: View, m: View, r: View)
    requires NodeAimed(src, i, lane, weight, blendTime, rate, name, notifyType, v, m)
    requires ParentsRaised(src, lane, blendTime, i, m, r)
    ensures GoalSet(src, i, lane, weight, blendTime, rate, name, notifyType, v, r)
  {
    assert NodeKept(m, r, i) || Raised(src, lane, blendTime, i, m, r, i);
    if Above(src, i, i) {
      AboveParent(src, i, i);
    }
    forall j: nat | j < |src.first| && j != i
      ensures NodeKept(v, r, j) || Raised(src, lane, blendTime, i, v, r, j)
    {
      assert NodeKept(v, m, j);
      assert NodeKept(m, r, j) || Raised(src, lane, blendTime, i, m, r, j);
    }
  }

  /** Node i has its goal; every ancestor from `from` up to it is live and heads
      for a weight: an idle or missing one for full weight, the others as before. */
  ghost predicate CompleteSet(src: Source, i: nat, lane: Lane, weight: real, blendTime: real, rate: real, name: Word,
                              notifyType: Word, from: nat, v: View, r: View)
  {
    && SameShape(src, v, r) && i < |src.first|
    && (forall j: nat {:trigger CompletedAt(src, i, lane, blendTime, from, v, r, j)} :: j < |src.first| && j != i ==>
          CompletedAt(src, i, lane, blendTime, from, v, r, j))
    && HasGoal(src, i, lane, weight, blendTime, rate, name, notifyType, v, r)
  }

  lemma CompleteStarts(src: Source, i: nat, lane: Lane, weight: real, blendTime: real, rate: real, name: Word,
                       notifyType: Word, v: View, r: View)
    requires NodeAimed(src, i, lane, weight, blendTime, rate, name, notifyType, v, r)
    ensures CompleteSet(src, i, lane, weight, blendTime, rate, name, notifyType, i, v, r)
  {
    forall j: nat | j < |src.first| && j != i
      ensures CompletedAt(src, i, lane, blendTime, i, v, r, j)
    {
      assert NodeKept(v, r, j);
      if Above(src, j, i) {
        AboveParent(src, j, i);
      }
    }
  }

  /** What the complete walk leaves at node j. */
  ghost predicate CompletedAt(src: Source, i: nat, lane: Lane, blendTime: real, from: nat, v: View, r: View, j: nat)
    requires SameShape(src, v, r) && i < |src.first| && j < |src.first|
  {
    if from <= j && Above(src, j, i) && RecordIn(v, j).On(lane).target == 0.0
    then LiveWith(r, j, Aimed(RecordIn(v, j), j == 0, lane, 1.0, blendTime, 1.0, 0, 0, 0))
    else NodeKept(v, r, j)
  }

  lemma CompleteOne(src: Source, i: nat, lane: Lane, weight: real, blendTime: real, rate: real, name: Word,
                    notifyType: Word, from: nat, p: nat, v: View, m: View, r: View)
    requires CompleteSet(src, i, lane, weight, blendTime, rate, name, notifyType, from, v, m)
    requires SameShape(src, m, r) && p < from < |src.first| && (from == i || Above(src, from, i))
    requires p == src.parent[from] && OthersKept(m, r, p)
    requires if RecordIn(m, p).On(lane).target == 0.0
             then LiveWith(r, p, Aimed(RecordIn(m, p), p == 0, lane, 1.0, blendTime, 1.0, 0, 0, 0))
             else NodeKept(m, r, p)
    ensures CompleteSet(src, i, lane, weight, blendTime, rate, name, notifyType, p, v, r)
    ensures Above(src, p, i)
  {
    if from != i {
      AboveParent(src, from, i);
    }
    AboveParent(src, p, i);
    assert NodeKept(m, r, i);
    forall j: nat | j < |src.first| && j != i
      ensures CompletedAt(src, i, lane, blendTime, p, v, r, j)
    {
      assert CompletedAt(src, i, lane, blendTime, from, v, m, j);
      if j != p {
        assert NodeKept(m, r, j);
        if Above(src, j, i) && p < j < from {
          NothingBetween(src, j, from, i);
        }
      }
    }
  }

  /** Ancestors of a node between one of them and its parent: none. */
  lemma {:induction false} NothingBetween(src: Source, j: nat, from: nat, i: nat)
    requires ValidSource(src) && i < |src.first| && Above(src, j, i) && 0 < from < |src.first|
    requires (from == i || Above(src, from, i)) && src.parent[from] < j < from
    ensures false
  {
    if from == i {
      if j != src.parent[i] {
        AboveParent(src, j, src.parent[i]);
      }
    } else if from == src.parent[i] {
      if j != src.parent[i] {
        NothingBetween(src, j, from, src.parent[i]);
      }
    } else {
      AboveParent(src, from, src.parent[i]);
      if j != src.parent[i] {
        NothingBetween(src, j, from, src.parent[i]);
      }
    }
  }

  // ----- effective weights -----

  function WeightIn(v: View, j: nat, lane: Lane): real {
    if j < |v.handles| && 0 < v.handles[j] < |v.info| then v.info[v.handles[j]].On(lane).current else 0.0
  }

  /** XAnimHasEffectiveParentWeight: every ancestor is live and has weight; a
      dead one reads record 0, which has none. */
  function HasParentWeight(src: Source, lane: Lane, v: View, i: nat): bool
    requires ValidSource(src) && i < |src.first|
  {
    i == 0 || (WeightIn(v, src.parent[i], lane) != 0.0 && HasParentWeight(src, lane, v, src.parent[i]))
  }

  /** XAnimHasEffectiveChildWeight: some path down to a leaf has weight throughout. */
  function HasChildWeight(src: Source, lane: Lane, v: View, i: nat): bool
    requires ValidSource(src) && i < |src.first|
    decreases |src.first| - i, 1, 0
  {
    WeightIn(v, i, lane) != 0.0 && (src.count[i] == 0 || ChildFrom(src, lane, v, i, 0))
  }

  function ChildFrom(src: Source, lane: Lane, v: View, i: nat, c: nat): bool
    requires ValidSource(src) && i < |src.first| && c <= src.count[i]
    decreases |src.first| - i, 0, src.count[i] - c
  {
    c < src.count[i] && (HasChildWeight(src, lane, v, src.first[i] + c) || ChildFrom(src, lane, v, i, c + 1))
  }

  /** Does a node move anything: weight on every ancestor and down to a leaf. */
  function EffectiveIn(src: Source, lane: Lane, v: View, i: nat): bool
    requires ValidSource(src) && i < |src.first|
  {
    HasParentWeight(src, lane, v, i) && HasChildWeight(src, lane, v, i)
  }

  // ----- knobs -----

  ghost predicate Sibling(src: Source, c: nat, i: nat)
    requires ValidSource(src) && i < |src.first|
  {
    i != 0 && c != i && src.first[src.parent[i]] <= c < src.first[src.parent[i]] + src.count[src.parent[i]]
  }

  /** What clearing the siblings of node i before `end` leaves at node j. */
  ghost predicate ClearedAt(src: Source, lane: Lane, i: nat, time: real, end: int, v: View, r: View, j: nat)
    requires SameShape(src, v, r) && i < |src.first| && j < |src.first|
  {
    if Sibling(src, j, i) && j < end && v.handles[j] != 0
    then LiveWith(r, j, Cleared(RecordIn(v, j), lane, EffectiveIn(src, lane, v, j), time))
    else NodeKept(v, r, j)
  }

  /** The siblings of node i, from the first up to `end`, have let go of their goal. */
  ghost predicate KnobCleared(src: Source, lane: Lane, i: nat, time: real, end: int, v: View, r: View) {
    && SameShape(src, v, r) && i < |src.first| && r.handles == v.handles
    && forall j: nat {:trigger ClearedAt(src, lane, i, time, end, v, r, j)} :: j < |src.first| ==>
         ClearedAt(src, lane, i, time, end, v, r, j)
  }

  lemma ClearOne(src: Source, lane: Lane, i: nat, time: real, c: nat, v: View, m: View, r: View)
    requires KnobCleared(src, lane, i, time, c, v, m) && SameShape(src, m, r) && r.handles == m.handles
    requires c < |src.first| && Sibling(src, c, i) && OthersKept(m, r, c)
    requires if m.handles[c] == 0 then r == m
             else LiveWith(r, c, Cleared(RecordIn(m, c), lane, EffectiveIn(src, lane, m, c), time))
    ensures KnobCleared(src, lane, i, time, c + 1, v, r)
  {
    var end := c + 1;
    EffectiveKept(src, lane, i, time, c, v, m);
    hide EffectiveIn;
    forall j: nat | j < |src.first|
      ensures ClearedAt(src, lane, i, time, end, v, r, j)
    {
      assert ClearedAt(src, lane, i, time, c, v, m, j);
      assert j != c ==> NodeKept(m, r, j);
    }
  }

  /** Whether a sibling has an effect does not depend on the siblings before it. */
  lemma EffectiveKept(src: Source, lane: Lane, i: nat, time: real, c: nat, v: View, m: View)
    requires KnobCleared(src, lane, i, time, c, v, m) && c < |src.first| && Sibling(src, c, i)
    ensures EffectiveIn(src, lane, m, c) == EffectiveIn(src, lane, v, c)
  {
    assert src.parent[c] == src.parent[i];
    forall a: nat | a < |src.first| && Above(src, a, c) ensures NodeKept(v, m, a) {
      AboveParent(src, a, c);
      if a != src.parent[c] {
        AboveParent(src, a, src.parent[c]);
      }
      assert ClearedAt(src, lane, i, time, c, v, m, a);
    }
    forall j: nat | j < |src.first| && (j == c || Above(src, c, j)) ensures NodeKept(v, m, j) {
      if j != c {
        AboveParent(src, c, j);
        if c != src.parent[j] {
          AboveParent(src, c, src.parent[j]);
        }
      }
      assert ClearedAt(src, lane, i, time, c, v, m, j);
    }
    ParentWeightKept(src, lane, v, m, c);
    ChildWeightKept(src, lane, v, m, c);
  }

  lemma {:induction false} ParentWeightKept(src: Source, lane: Lane, v: View, m: View, i: nat)
    requires SameShape(src, v, m) && i < |src.first|
    requires forall a: nat :: a < |src.first| && Above(src, a, i) ==> NodeKept(v, m, a)
    ensures HasParentWeight(src, lane, v, i) == HasParentWeight(src, lane, m, i)
  {
    if i != 0 {
      assert NodeKept(v, m, src.parent[i]);
      ParentWeightKept(src, lane, v, m, src.parent[i]);
    }
  }

  lemma {:induction false} ChildWeightKept(src: Source, lane: Lane, v: View, m: View, i: nat)
    requires SameShape(src, v, m) && i < |src.first|
    requires forall j: nat :: j < |src.first| && (j == i || Above(src, i, j)) ==> NodeKept(v, m, j)
    ensures HasChildWeight(src, lane, v, i) == HasChildWeight(src, lane, m, i)
    decreases |src.first| - i, 1, 0
  {
    assert NodeKept(v, m, i);
    ChildFromKept(src, lane, v, m, i, 0);
  }

  lemma {:induction false} ChildFromKept(src: Source, lane: Lane, v: View, m: View, i: nat, c: nat)
    requires SameShape(src, v, m) && i < |src.first| && c <= src.count[i]
    requires forall j: nat :: j < |src.first| && (j == i || Above(src, i, j)) ==> NodeKept(v, m, j)
    ensures ChildFrom(src, lane, v, i, c) == ChildFrom(src, lane, m, i, c)
    decreases |src.first| - i, 0, src.count[i] - c
  {
    if c < src.count[i] {
      var d := src.first[i] + c;
      forall j: nat | j < |src.first| && (j == d || Above(src, d, j)) ensures NodeKept(v, m, j) {
        BelowChild(src, i, d, j);
      }
      ChildWeightKept(src, lane, v, m, d);
      ChildFromKept(src, lane, v, m, i, c + 1);
    }
  }

  lemma {:induction false} BelowChild(src: Source, i: nat, d: nat, j: nat)
    requires ValidSource(src) && i < |src.first| && j < |src.first| && 0 < d < |src.first| && src.parent[d] == i
    requires j == d || Above(src, d, j)
    ensures Above(src, i, j)
  {
    if j != d {
      AboveParent(src, d, j);
      BelowChild(src, i, d, src.parent[j]);
    }
  }

  lemma SkipOne(src: Source, lane: Lane, i: nat, time: real, v: View, r: View)
    requires KnobCleared(src, lane, i, time, i, v, r)
    ensures KnobCleared(src, lane, i, time, i + 1, v, r)
  {
    var end := i + 1;
    forall j: nat | j < |src.first|
      ensures ClearedAt(src, lane, i, time, end, v, r, j)
    {
      assert ClearedAt(src, lane, i, time, i, v, r, j);
    }
  }

  lemma NoneCleared(src: Source, lane: Lane, i: nat, time: real, v: View)
    requires SameShape(src, v, v) && 0 < i < |src.first|
    ensures KnobCleared(src, lane, i, time, src.first[src.parent[i]], v, v)
  {
  }

  /** The largest weight among the first n children from `lo`, that of node i
      counted by its distance to its new goal. */
  function Heaviest(v: View, lane: Lane, i: nat, weight: real, lo: nat, n: nat): real {
    if n == 0 then 0.0
    else
      var c := lo + n - 1;
      var most := Heaviest(v, lane, i, weight, lo, n - 1);
      var w := if c == i then Abs(weight - WeightIn(v, c, lane)) else WeightIn(v, c, lane);
      if most < w then w else most
  }

  function Scaled(most: real, blendTime: real): real {
    if most * blendTime < BLEND_EPSILON then 0.0 else most * blendTime
  }

  /** How long the siblings of a node take to let go. */
  function KnobTime(src: Source, lane: Lane, i: nat, weight: real, blendTime: real, v: View): real
    requires ValidSource(src) && i < |src.first|
  {
    var p := if i == 0 then 0 else src.parent[i];
    Scaled(Heaviest(v, lane, i, weight, src.first[p], src.count[p]), blendTime)
  }

  /** All siblings of a node have let go; the root has none. */
  ghost predicate KnobDone(src: Source, lane: Lane, i: nat, weight: real, blendTime: real, v: View, r: View) {
    && SameShape(src, v, r) && i < |src.first|
    && if i == 0 then r == v
       else KnobCleared(src, lane, i, KnobTime(src, lane, i, weight, blendTime, v),
                        src.first[src.parent[i]] + src.count[src.parent[i]], v, r)
  }

  lemma KnobEnds(src: Source, lane: Lane, i: nat, weight: real, blendTime: real, v: View, r: View)
    requires ValidSource(src) && 0 < i < |src.first|
    requires KnobCleared(src, lane, i, KnobTime(src, lane, i, weight, blendTime, v),
                         src.first[src.parent[i]] + src.count[src.parent[i]], v, r)
    ensures KnobDone(src, lane, i, weight, blendTime, v, r)
  {
  }

  /** A live node and nothing else got a goal. */
  ghost predicate OnlyGoal(src: Source, i: nat, lane: Lane, weight: real, blendTime: real, v: View, r: View) {
    && SameShape(src, v, r) && i < |src.first| && OthersKept(v, r, i)
    && LiveWith(r, i, Aimed(RecordIn(v, i), i == 0, lane, weight, blendTime, 1.0, 0, 0, 0))
  }

  /** One ancestor of a knob: its siblings let go, it goes to full weight. */
  ghost predicate KnobStepped(src: Source, lane: Lane, blendTime: real, i: nat, v: View, r: View) {
    exists mid :: KnobDone(src, lane, i, 1.0, blendTime, v, mid) && OnlyGoal(src, i, lane, 1.0, blendTime, mid, r)
  }

  /** The k-th ancestor of a node; the root is its own. */
  function Ancestor(src: Source, i: nat, k: nat): (a: nat)
    requires ValidSource(src) && i < |src.first|
    ensures a < |src.first|
  {
    if k == 0 then i
    else var below := Ancestor(src, i, k - 1); if below == 0 then 0 else src.parent[below]
  }

  /** The states a knob walk passes through, one ancestor after another. */
  ghost predicate KnobTrail(src: Source, lane: Lane, blendTime: real, i: nat, trail: seq<View>) {
    && ValidSource(src) && i < |src.first| && trail != []
    && forall k :: 0 <= k < |trail| - 1 ==>
         KnobStepped(src, lane, blendTime, Ancestor(src, i, k + 1), trail[k], trail[k + 1])
  }

  lemma TrailGrows(src: Source, lane: Lane, blendTime: real, i: nat, trail: seq<View>, r: View)
    requires KnobTrail(src, lane, blendTime, i, trail)
    requires KnobStepped(src, lane, blendTime, Ancestor(src, i, |trail|), trail[|trail| - 1], r)
    ensures KnobTrail(src, lane, blendTime, i, trail + [r])
  {
  }

  /** Nodes other than i keep handle and record. */
  ghost predicate OthersKept(v: View, r: View, i: int) {
    && |v.handles| == |r.handles| && |v.info| == |r.info|
    && forall j :: 0 <= j < |v.handles| && j != i ==> NodeKept(v, r, j)
  }

  ghost predicate NodeKept(v: View, r: View, j: int)
    requires 0 <= j < |v.handles| == |r.handles|
  {
    && r.handles[j] == v.handles[j]
    && (0 < v.handles[j] < |v.info| && v.handles[j] < |r.info| ==> r.info[v.handles[j]] == v.info[v.handles[j]])
  }

  // ----- one update of a subtree -----

  /** Node i is live; every index involved exists. */
  ghost predicate LiveAt(src: Source, v: View, i: nat) {
    i < |src.first| == |src.count| && i < |v.handles| && 0 < v.handles[i] < |v.info|
  }

  ghost function Written(v: View, h: nat, lane: Lane, s: State): View
    requires h < |v.info|
  {
    v.(info := v.info[h := v.info[h].With(lane, s)])
  }

  /** No child is left. */
  ghost predicate NoChild(src: Source, v: View, i: nat)
    requires i < |src.first| == |src.count|
  {
    forall c :: src.first[i] <= c < src.first[i] + src.count[i] && c < |v.handles| ==> v.handles[c] == 0
  }

  /** A node goes when no lane holds it and no child is left. */
  ghost function Settle(src: Source, v: View, i: nat): View {
    if LiveAt(src, v, i) && NoChild(src, v, i) && v.info[v.handles[i]].Weightless()
    then v.(handles := v.handles[i := 0]) else v
  }

  function Arrived(s: State): State {
    s.(blend := 0.0, current := s.target)
  }

  ghost function Put(src: Source, lane: Lane, v: View, i: nat, s: State): View {
    if LiveAt(src, v, i) then Written(v, v.handles[i], lane, s) else v
  }

  /** Below a node without weight every live node jumps to its goal. */
  ghost function Snap(src: Source, lane: Lane, v: View, i: nat): View
    decreases |src.first| - i, 0, 0
  {
    if !LiveAt(src, v, i) then v
    else
      var v1 := Put(src, lane, v, i, Arrived(v.info[v.handles[i]].On(lane)));
      Settle(src, SnapChildren(src, lane, v1, i, src.count[i]), i)
  }

  ghost function SnapChildren(src: Source, lane: Lane, v: View, i: nat, n: nat): View
    requires i < |src.first|
    decreases |src.first| - i - 1, 1, n
  {
    var c := src.first[i] + n - 1;
    if n == 0 || !(i < c < |src.first|) then v else Snap(src, lane, SnapChildren(src, lane, v, i, n - 1), c)
  }

  /** Where a node is in its animation, and where it was. */
  datatype Clock = Clock(oldTime: real, time: real, oldCycle: Int16, cycle: Int16)

  function ClockOf(s: State): Clock {
    Clock(s.oldTime, s.time, s.oldCycle, s.cycle)
  }

  function Timed(s: State, c: Clock): State {
    s.(oldTime := c.oldTime, time := c.time, oldCycle := c.oldCycle, cycle := c.cycle)
  }

  /** The clock one time step on: past the end a loop comes round and counts,
      anything else stays at the end. */
  function Ticked(c: Clock, step: real, loops: bool): Clock {
    var raw := c.time + step;
    if raw < 1.0 then Clock(c.time, raw, c.cycle, c.cycle)
    else if loops then Clock(c.time, raw - raw.Floor as real, c.cycle, Wrap16(c.cycle + raw.Floor))
    else Clock(c.time, 1.0, c.cycle, c.cycle)
  }

  /** However the frames fall, the client's time and cycle come out the same. */
  lemma TicksAdd(c: Clock, a: real, b: real, loops: bool)
    requires a >= 0.0 && b >= 0.0 && c.time <= 1.0
    ensures var x, y := Ticked(Ticked(c, a, loops), b, loops), Ticked(c, a + b, loops);
            x.time == y.time && x.cycle == y.cycle
  {
    hide Wrap16;
    if c.time + a >= 1.0 && loops {
      TurnsAdd(c.cycle, c.time + a, b);
    }
  }

  /** The fraction left after whole turns, and the turns, add up. */
  lemma TurnsAdd(cycle: int, raw: real, b: real)
    requires raw >= 1.0 && b >= 0.0
    ensures var rest := raw - raw.Floor as real;
            && 0.0 <= rest < 1.0
            && (rest + b) - (rest + b).Floor as real == (raw + b) - (raw + b).Floor as real
            && (rest + b < 1.0 ==> (rest + b).Floor == 0)
            && Wrap16(Wrap16(cycle + raw.Floor) + (rest + b).Floor) == Wrap16(cycle + (raw + b).Floor)
            && (rest + b < 1.0 ==> Wrap16(cycle + raw.Floor) == Wrap16(cycle + (raw + b).Floor))
  {
    var rest := raw - raw.Floor as real;
    FloorShift(raw + b, raw.Floor);
    assert raw + b - raw.Floor as real == rest + b;
    Wrap16Adds(cycle + raw.Floor, (rest + b).Floor);
    hide Wrap16;
  }

  lemma FloorShift(x: real, n: int)
    ensures (x - n as real).Floor == x.Floor - n
  {
  }

  /** How one update walks a subtree: the server's frame stamp, or the client's
      times, which run freely or follow the clock of a sync node. */
  datatype Walk = Stamp | Free(delta: real) | Follow(clock: Clock) {
    function On(): Lane {
      if Stamp? then Server else Client
    }
  }

  predicate AtRest(s: State) {
    s.current == 0.0 && s.target == 0.0
  }

  function TimeStep(frequency: real, rate: real, delta: real): real {
    frequency * rate * delta
  }

  /** Whether a client node keeps its own time. */
  predicate Ticks(src: Source, i: nat, s: State)
    requires i < |src.count| == |src.sync|
  {
    !AtRest(s) && (src.count[i] == 0 || src.sync[i])
  }

  /** The lane state of node i after its own part of the walk. */
  function Moved(src: Source, w: Walk, step: real, frequency: real, i: nat, s: State): State
    requires step >= 0.0 && i < |src.count| == |src.sync| == |src.loops|
  {
    match w
    case Stamp => BlendStep(s.(oldTime := s.time, oldCycle := s.cycle), step)
    case Follow(clock) => Timed(BlendStep(s, step), clock)
    case Free(delta) =>
      var b := BlendStep(s, step);
      if Ticks(src, i, b) then Timed(b, Ticked(ClockOf(b), TimeStep(frequency, b.rate, delta), src.loops[i])) else b
  }

  /** How the walk goes on below node i, which is now in this state. */
  function WalkBelow(src: Source, w: Walk, i: nat, s: State): Walk
    requires i < |src.sync|
  {
    if !w.Free? then w else if src.sync[i] then Follow(ClockOf(s)) else Free(w.delta * s.rate)
  }

  lemma MovedWeights(src: Source, w: Walk, step: real, frequency: real, i: nat, s: State)
    requires step >= 0.0 && i < |src.count| == |src.sync| == |src.loops|
    ensures var r, b := Moved(src, w, step, frequency, i, s), BlendStep(s, step);
            r.current == b.current && r.target == b.target && r.blend == b.blend && r.rate == b.rate
  {
  }

  // ----- the frequency of a sync node -----

  datatype Mean = Mean(weight: real, sum: real)

  function Share(w: real, frequency: real, rate: real): real {
    frequency * rate * w
  }

  function With(m: Mean, w: real, rate: real, frequency: real): Mean {
    if w == 0.0 || frequency == 0.0 then m else Mean(m.weight + w, m.sum + Share(w, frequency, rate))
  }

  function MeanOf(m: Mean): real {
    if m.weight != 0.0 then m.sum / m.weight else 0.0
  }

  function StateIn(v: View, j: nat, lane: Lane): State {
    if j < |v.handles| && 0 < v.handles[j] < |v.info| then v.info[v.handles[j]].On(lane) else ZERO_STATE
  }

  /** XAnimGetAverageRateFrequency on the client lane: the weighted mean of the
      children that have a weight and a frequency. */
  ghost function Frequency(src: Source, v: View, i: nat): real
    requires ValidSource(src) && i < |src.first|
    decreases |src.first| - i, 0, 0
  {
    if src.count[i] == 0 then src.frequency[i] else MeanOf(FrequencyOf(src, v, i, src.count[i]))
  }

  ghost function FrequencyOf(src: Source, v: View, i: nat, n: nat): Mean
    requires ValidSource(src) && i < |src.first| && n <= src.count[i]
    decreases |src.first| - i - 1, 1, n
  {
    if n == 0 then Mean(0.0, 0.0)
    else
      var c := src.first[i] + n - 1;
      var s := StateIn(v, c, Client);
      With(FrequencyOf(src, v, i, n - 1), s.current, s.rate, Frequency(src, v, c))
  }

  // ----- the update walk -----

  /** One update: every live node blends one step and moves its time; below a
      node that has come to rest without weight the rest jumps to its goal; what
      nothing holds goes. */
  ghost function Advance(src: Source, w: Walk, step: real, v: View, i: nat): View
    requires ValidSource(src) && step >= 0.0
    decreases |src.first| - i, 0, 0
  {
    if !LiveAt(src, v, i) then v
    else
      var s := Moved(src, w, step, Frequency(src, v, i), i, StateIn(v, i, w.On()));
      var v1 := Put(src, w.On(), v, i, s);
      if src.count[i] == 0 then Settle(src, v1, i)
      else if AtRest(s) then Settle(src, SnapChildren(src, w.On(), v1, i, src.count[i]), i)
      else AdvanceChildren(src, WalkBelow(src, w, i, s), step, v1, i, src.count[i])
  }

  ghost function AdvanceChildren(src: Source, w: Walk, step: real, v: View, i: nat, n: nat): View
    requires ValidSource(src) && i < |src.first| && step >= 0.0
    decreases |src.first| - i - 1, 1, n
  {
    var c := src.first[i] + n - 1;
    if n == 0 || !(i < c < |src.first|) then v
    else Advance(src, w, step, AdvanceChildren(src, w, step, v, i, n - 1), c)
  }

  lemma SnapNone(src: Source, lane: Lane, v: View, i: nat)
    requires i < |src.first|
    ensures SnapChildren(src, lane, v, i, 0) == v
  {
  }

  lemma AdvanceNone(src: Source, w: Walk, step: real, v: View, i: nat)
    requires ValidSource(src) && i < |src.first| && step >= 0.0
    ensures AdvanceChildren(src, w, step, v, i, 0) == v
  {
  }

  lemma SnapStep(src: Source, lane: Lane, v: View, i: nat, n: nat)
    requires ValidSource(src) && i < |src.first| && n < src.count[i]
    ensures SnapChildren(src, lane, v, i, n + 1) == Snap(src, lane, SnapChildren(src, lane, v, i, n), src.first[i] + n)
  {
  }

  lemma AdvanceStep(src: Source, w: Walk, step: real, v: View, i: nat, n: nat)
    requires ValidSource(src) && i < |src.first| && n < src.count[i] && step >= 0.0
    ensures AdvanceChildren(src, w, step, v, i, n + 1) ==
            Advance(src, w, step, AdvanceChildren(src, w, step, v, i, n), src.first[i] + n)
  {
  }
}
