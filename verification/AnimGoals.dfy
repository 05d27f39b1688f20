/** What a goal weight comes to for the node that gets it and for its relatives:
    what the lane heads for, how fast it gets there, and what is left alone. */
module AnimGoals {
  import opened AnimPool
  import opened AnimWeights
  import opened Words

  // ----- one lane -----

  predicate SameClock(s: State, r: State) {
    r.time == s.time && r.oldTime == s.oldTime && r.cycle == s.cycle && r.oldCycle == s.oldCycle
  }

  /** The lane heads for `goal` at this rate. A way too short to see is taken at
      once; any other takes its length times the blend time, from where the lane
      was, or from just above nothing. */
  predicate Heading(s: State, r: State, goal: real, blendTime: real, rate: real) {
    && r.target == goal && r.rate == rate && SameClock(s, r)
    && var way := Abs(goal - s.current) * blendTime;
       if way < BLEND_EPSILON then r.current == goal && r.blend == 0.0
       else r.blend == way && r.current == if s.current == 0.0 then goal * BLEND_EPSILON else s.current
  }

  ghost predicate Frames(steps: seq<real>) {
    forall i :: 0 <= i < |steps| ==> steps[i] >= 0.0
  }

  /** Once frames of length `time` have passed, the lane is at its goal. */
  ghost predicate ArrivesAfter(r: State, goal: real, time: real) {
    forall steps: seq<real> :: Frames(steps) && steps != [] && Sum(steps) >= time ==> Blended(r, steps).current == goal
  }

  lemma HeadingArrives(s: State, r: State, goal: real, blendTime: real, rate: real)
    requires Heading(s, r, goal, blendTime, rate)
    ensures ArrivesAfter(r, goal, Abs(goal - s.current) * blendTime)
    ensures blendTime == 0.0 ==> r.current == goal
  {
    forall steps: seq<real> | Frames(steps) && steps != [] && Sum(steps) >= Abs(goal - s.current) * blendTime
      ensures Blended(r, steps).current == goal
    {
      SumPositive(steps);
      BlendArrives(r, steps);
    }
  }

  /** Until then it moves steadily: the share of the way done is the share of
      the time passed, unless what is left becomes too small to see. */
  lemma HeadingSteady(s: State, r: State, goal: real, blendTime: real, rate: real, steps: seq<real>, there: real)
    requires Heading(s, r, goal, blendTime, rate) && Frames(steps)
    requires Sum(steps) + BLEND_EPSILON <= Abs(goal - s.current) * blendTime
    requires (there - r.current) * (Abs(goal - s.current) * blendTime) == (goal - r.current) * Sum(steps)
    requires r.current >= WEIGHT_EPSILON && there >= WEIGHT_EPSILON
    ensures Blended(r, steps).current == there
  {
    hide Heading, Abs, Sum, Blended;
    SumPositive(steps);
    InBlend(s, r, goal, blendTime, rate, Sum(steps));
    var slope := SlopeOf(goal - r.current, r.blend);
    ShareOf(slope, r.blend, goal - r.current, Sum(steps), there - r.current);
    SteadyBlend(r, slope, steps);
  }

  lemma InBlend(s: State, r: State, goal: real, blendTime: real, rate: real, passed: real)
    requires Heading(s, r, goal, blendTime, rate)
    requires 0.0 <= passed <= Abs(goal - s.current) * blendTime - BLEND_EPSILON
    ensures r.blend == Abs(goal - s.current) * blendTime && r.target == goal
    ensures r.blend >= passed + BLEND_EPSILON && r.blend > 0.0
  {
  }

  lemma SlopeOf(way: real, left: real) returns (slope: real)
    requires left > 0.0
    ensures way == slope * left
  {
    slope := way / left;
  }

  lemma ShareOf(slope: real, left: real, way: real, passed: real, done: real)
    requires way == slope * left && done * left == way * passed && left > 0.0
    ensures done == slope * passed
  {
    assert (done - slope * passed) * left == done * left - (slope * left) * passed;
  }

  /** Blending along a slope. */
  lemma {:induction false} SteadyBlend(s: State, slope: real, steps: seq<real>)
    requires Frames(steps) && s.target - s.current == slope * s.blend && Sum(steps) + BLEND_EPSILON <= s.blend
    requires s.current >= WEIGHT_EPSILON && s.current + slope * Sum(steps) >= WEIGHT_EPSILON
    ensures Blended(s, steps) == s.(current := s.current + slope * Sum(steps), blend := s.blend - Sum(steps))
    decreases |steps|
  {
    hide BlendStep;
    if steps == [] {
      assert slope * Sum(steps) == 0.0;
    } else {
      var first, rest := steps[0], steps[1..];
      SumPositive(rest);
      Between(s.current, slope, Sum(steps), first);
      StepInside(s, slope, first);
      var next := BlendStep(s, first);
      assert next.target - next.current == slope * s.blend - slope * first == slope * next.blend;
      assert slope * first + slope * Sum(rest) == slope * Sum(steps);
      SteadyBlend(next, slope, rest);
    }
  }

  /** Part of the way lies between its ends. */
  lemma Between(a: real, slope: real, whole: real, part: real)
    requires 0.0 <= part <= whole && a >= WEIGHT_EPSILON && slope * whole + a >= WEIGHT_EPSILON
    ensures slope * part + a >= WEIGHT_EPSILON
  {
    if slope >= 0.0 {
      assert slope * part >= 0.0;
    } else {
      assert slope * part >= slope * whole;
    }
  }

  /** A lane that heads for a weight has one from the start, after every frame. */
  lemma HeadingVisible(s: State, r: State, goal: real, blendTime: real, rate: real, steps: seq<real>)
    requires Heading(s, r, goal, blendTime, rate) && Frames(steps) && goal > 0.0 && s.current >= 0.0
    ensures Blended(r, steps).current > 0.0
  {
    StaysVisible(r, steps);
  }

  lemma {:induction false} StaysVisible(s: State, steps: seq<real>)
    requires Frames(steps) && s.target > 0.0 && s.current > 0.0
    ensures Blended(s, steps).current > 0.0
    decreases |steps|
  {
    if steps != [] {
      StaysVisible(BlendStep(s, steps[0]), steps[1..]);
    }
  }

  /** A lane that lets go never shows a weight too small to see. */
  lemma {:induction false} FadesClean(s: State, steps: seq<real>)
    requires Frames(steps) && s.target == 0.0 && (s.current == 0.0 || s.current >= WEIGHT_EPSILON)
    ensures var c := Blended(s, steps).current;
            c == 0.0 || c >= WEIGHT_EPSILON
    decreases |steps|
  {
    if steps != [] {
      FadesClean(BlendStep(s, steps[0]), steps[1..]);
    }
  }

  /** The lane lets go: it heads for nothing, at once if it has no effect, else
      within the blend time, unless it was to be there sooner anyway. */
  predicate LettingGo(s: State, r: State, effective: bool, blendTime: real) {
    && r.target == 0.0 && r.rate == s.rate && SameClock(s, r)
    && (!effective ==> r.current == 0.0 && r.blend == 0.0)
    && (effective ==> r.current == s.current && r.blend <= blendTime)
    && (effective && s.target != 0.0 ==> r.blend == blendTime)
    && (effective && s.target == 0.0 && s.blend <= blendTime ==> r.blend == s.blend)
    && (effective && s.target == 0.0 && s.blend > blendTime ==> r.blend == blendTime)
  }

  lemma LettingGoArrives(s: State, r: State, effective: bool, blendTime: real)
    requires LettingGo(s, r, effective, blendTime) && blendTime >= 0.0
    ensures ArrivesAfter(r, 0.0, blendTime)
  {
    forall steps: seq<real> | Frames(steps) && steps != [] && Sum(steps) >= blendTime
      ensures Blended(r, steps).current == 0.0
    {
      BlendArrives(r, steps);
    }
  }

  // ----- one record -----

  /** The other lane is as it was. */
  predicate OtherLaneKept(x: Info, y: Info, lane: Lane) {
    if lane.Client? then y.server == x.server else y.client == x.client
  }

  /** The client keeps the name and gets the type; the server keeps the type,
      gets the name and starts looking for notes afresh. */
  predicate Renamed(x: Info, y: Info, lane: Lane, name: Word, notifyType: Word, child: Word) {
    if lane.Client? then
      && y.notifyType == notifyType
      && y.name == x.name && y.notifyIndex == x.notifyIndex && y.notifyChild == x.notifyChild
    else
      y.notifyType == x.notifyType && y.name == name && y.notifyIndex == -1 && y.notifyChild == child
  }

  /** What a goal makes of a record; the root always goes to full weight, at once. */
  predicate GoalOn(x: Info, y: Info, root: bool, lane: Lane, weight: real, blendTime: real, rate: real, name: Word,
                   notifyType: Word, child: Word)
  {
    && OtherLaneKept(x, y, lane) && Renamed(x, y, lane, name, notifyType, child)
    && if root then Heading(x.On(lane), y.On(lane), 1.0, 0.0, 1.0)
       else Heading(x.On(lane), y.On(lane), weight, blendTime, rate)
  }

  lemma AimedIsGoal(x: Info, root: bool, lane: Lane, weight: real, blendTime: real, rate: real, name: Word,
                    notifyType: Word, child: Word)
    ensures GoalOn(x, Aimed(x, root, lane, weight, blendTime, rate, name, notifyType, child), root, lane, weight,
                   blendTime, rate, name, notifyType, child)
  {
  }

  /** What a clear makes of a record: on the server lane the notify goes too. */
  predicate ClearOn(x: Info, y: Info, lane: Lane, effective: bool, blendTime: real) {
    && OtherLaneKept(x, y, lane) && LettingGo(x.On(lane), y.On(lane), effective, blendTime)
    && y.notifyChild == x.notifyChild && y.notifyType == x.notifyType
    && if lane.Client? then y.name == x.name && y.notifyIndex == x.notifyIndex else y.name == 0 && y.notifyIndex == -1
  }

  lemma ClearedIsClear(x: Info, lane: Lane, effective: bool, blendTime: real)
    ensures ClearOn(x, Cleared(x, lane, effective, blendTime), lane, effective, blendTime)
  {
  }

  // ----- a node and its ancestors -----

  /** Only a named sync node on the server lane follows a leaf: one that it
      heads for, if there is any. */
  ghost predicate Follows(src: Source, lane: Lane, v: View, i: nat, name: Word, child: Word)
    requires ValidSource(src) && i < |src.first|
  {
    if lane.Server? && name != 0 && src.count[i] != 0 && src.sync[i]
    then (child == 0 && NoneWanted(src, lane, v, i)) ||
         exists j: nat :: j < |src.first| && Wanted(src, lane, v, i, j) && child == j % 65536
    else child == 0
  }

  lemma ChildFollows(src: Source, lane: Lane, v: View, i: nat, name: Word)
    requires ValidSource(src) && i < |src.first|
    ensures Follows(src, lane, v, i, name, ChildFor(src, lane, v, i, name))
  {
    if lane.Server? && name != 0 && src.count[i] != 0 && src.sync[i] {
      GreatestIsWanted(src, lane, v, i);
    }
  }

  /** Node i has its goal; a dead one that was asked for no weight stays dead. */
  ghost predicate GoalAt(src: Source, i: nat, lane: Lane, weight: real, blendTime: real, rate: real, name: Word,
                         notifyType: Word, v: View, r: View)
    requires SameShape(src, v, r) && i < |src.first|
  {
    if r.handles[i] == 0 then v.handles[i] == 0 && weight == 0.0
    else exists child: Word ::
      GoalWith(src, i, lane, weight, blendTime, rate, name, notifyType, v, RecordIn(r, i), child)
  }

  ghost predicate GoalWith(src: Source, i: nat, lane: Lane, weight: real, blendTime: real, rate: real, name: Word,
                           notifyType: Word, v: View, y: Info, child: Word)
    requires ValidSource(src) && i < |src.first| == |v.handles|
  {
    && (lane.Server? ==> Follows(src, lane, v, i, name, child))
    && GoalOn(RecordIn(v, i), y, i == 0, lane, weight, blendTime, rate, name, notifyType, child)
  }

  lemma HasGoalMeans(src: Source, i: nat, lane: Lane, weight: real, blendTime: real, rate: real, name: Word,
                     notifyType: Word, v: View, r: View)
    requires SameShape(src, v, r) && i < |src.first|
    requires HasGoal(src, i, lane, weight, blendTime, rate, name, notifyType, v, r)
    ensures GoalAt(src, i, lane, weight, blendTime, rate, name, notifyType, v, r)
  {
    var child := ChildFor(src, lane, v, i, name);
    ChildFollows(src, lane, v, i, name);
    AimedIsGoal(RecordIn(v, i), i == 0, lane, weight, blendTime, rate, name, notifyType, child);
    hide Aimed, ChildFor, Follows, GoalOn;
    if r.handles[i] != 0 {
      assert GoalWith(src, i, lane, weight, blendTime, rate, name, notifyType, v, RecordIn(r, i), child);
    }
  }

  /** Node j came to life as an ancestor: full weight for the root, else none for now. */
  ghost predicate RaisedAt(src: Source, i: nat, lane: Lane, v: View, r: View, j: nat)
    requires SameShape(src, v, r) && i < |src.first| && j < |src.first|
  {
    && v.handles[j] == 0 && r.handles[j] != 0 && Above(src, j, i)
    && var w := if j == 0 then 1.0 else 0.0;
       RecordIn(r, j) == BLANK.With(lane, ZERO_STATE.(target := w, current := w, rate := 1.0))
  }

  /** Node i has its goal, missing ancestors came to life, and nothing else changed. */
  ghost predicate GoalReached(src: Source, i: nat, lane: Lane, weight: real, blendTime: real, rate: real, name: Word,
                              notifyType: Word, v: View, r: View)
  {
    && SameShape(src, v, r) && i < |src.first|
    && GoalAt(src, i, lane, weight, blendTime, rate, name, notifyType, v, r)
    && forall j: nat {:trigger NodeKept(v, r, j)} :: j < |src.first| && j != i ==>
         NodeKept(v, r, j) || RaisedAt(src, i, lane, v, r, j)
  }

  lemma RaisedMeans(src: Source, lane: Lane, blendTime: real, i: nat, v: View, r: View, j: nat)
    requires SameShape(src, v, r) && i < |src.first| && j < |src.first| && Raised(src, lane, blendTime, i, v, r, j)
    ensures RaisedAt(src, i, lane, v, r, j)
  {
  }

  /** What a goal comes to. */
  lemma GoalMeans(src: Source, i: nat, lane: Lane, weight: real, blendTime: real, rate: real, name: Word,
                  notifyType: Word, v: View, r: View)
    requires GoalSet(src, i, lane, weight, blendTime, rate, name, notifyType, v, r)
    ensures GoalReached(src, i, lane, weight, blendTime, rate, name, notifyType, v, r)
  {
    HasGoalMeans(src, i, lane, weight, blendTime, rate, name, notifyType, v, r);
    hide HasGoal, GoalAt, RaisedAt, Raised, Above;
    forall j: nat | j < |src.first| && j != i
      ensures NodeKept(v, r, j) || RaisedAt(src, i, lane, v, r, j)
    {
      if !NodeKept(v, r, j) {
        RaisedMeans(src, lane, blendTime, i, v, r, j);
      }
    }
  }

  /** Ancestor j of a complete goal is live and heads for a weight: one that was
      idle or missing for full weight, any other as before. */
  ghost predicate CompleteAt(src: Source, lane: Lane, blendTime: real, v: View, r: View, j: nat)
    requires SameShape(src, v, r) && j < |src.first|
  {
    && r.handles[j] != 0
    && if RecordIn(v, j).On(lane).target == 0.0
       then GoalOn(RecordIn(v, j), RecordIn(r, j), j == 0, lane, 1.0, blendTime, 1.0, 0, 0, 0)
       else NodeKept(v, r, j)
  }

  ghost predicate CompleteReached(src: Source, i: nat, lane: Lane, weight: real, blendTime: real, rate: real,
                                  name: Word, notifyType: Word, v: View, r: View)
  {
    && SameShape(src, v, r) && i < |src.first|
    && GoalAt(src, i, lane, weight, blendTime, rate, name, notifyType, v, r)
    && (forall j: nat :: j < |src.first| && Above(src, j, i) ==> CompleteAt(src, lane, blendTime, v, r, j))
    && forall j: nat {:trigger NodeKept(v, r, j)} :: j < |src.first| && j != i && !Above(src, j, i) ==>
         NodeKept(v, r, j)
  }

  lemma CompletedMeans(src: Source, i: nat, lane: Lane, blendTime: real, v: View, r: View, j: nat)
    requires SameShape(src, v, r) && i < |src.first| && j < |src.first| && Above(src, j, i)
    requires CompletedAt(src, i, lane, blendTime, 0, v, r, j)
    ensures CompleteAt(src, lane, blendTime, v, r, j)
  {
    if RecordIn(v, j).On(lane).target == 0.0 {
      AimedIsGoal(RecordIn(v, j), j == 0, lane, 1.0, blendTime, 1.0, 0, 0, 0);
      hide Aimed;
    }
  }

  /** What a complete goal comes to. */
  lemma CompleteMeans(src: Source, i: nat, lane: Lane, weight: real, blendTime: real, rate: real, name: Word,
                      notifyType: Word, v: View, r: View)
    requires CompleteSet(src, i, lane, weight, blendTime, rate, name, notifyType, 0, v, r)
    ensures CompleteReached(src, i, lane, weight, blendTime, rate, name, notifyType, v, r)
  {
    HasGoalMeans(src, i, lane, weight, blendTime, rate, name, notifyType, v, r);
    forall j: nat | j < |src.first| && Above(src, j, i) ensures CompleteAt(src, lane, blendTime, v, r, j) {
      AboveParent(src, j, i);
      assert CompletedAt(src, i, lane, blendTime, 0, v, r, j);
      CompletedMeans(src, i, lane, blendTime, v, r, j);
    }
    hide HasGoal, GoalAt, CompleteAt;
    forall j: nat | j < |src.first| && j != i && !Above(src, j, i) ensures NodeKept(v, r, j) {
      assert CompletedAt(src, i, lane, blendTime, 0, v, r, j);
    }
  }

  // ----- who has an effect -----

  /** Every node from j up to i has a weight. */
  ghost predicate Weighted(src: Source, lane: Lane, v: View, i: nat, j: nat)
    requires ValidSource(src) && i < |src.first| && j < |src.first|
  {
    WeightIn(v, j, lane) != 0.0 && (j == i || (j > 0 && Weighted(src, lane, v, i, src.parent[j])))
  }

  /** The child of i on a weighted way up to it. */
  lemma {:induction false} WeightedChild(src: Source, lane: Lane, v: View, i: nat, j: nat) returns (c: nat)
    requires ValidSource(src) && i < |src.first| && j < |src.first| && Weighted(src, lane, v, i, j) && j != i
    ensures src.first[i] <= c < src.first[i] + src.count[i] && 0 < c < |src.first|
    ensures Weighted(src, lane, v, c, j) && WeightIn(v, i, lane) != 0.0
  {
    if src.parent[j] == i {
      c := j;
    } else {
      c := WeightedChild(src, lane, v, i, src.parent[j]);
    }
  }

  lemma {:induction false} WeightedUp(src: Source, lane: Lane, v: View, c: nat, j: nat)
    requires ValidSource(src) && 0 < c < |src.first| && j < |src.first| && Weighted(src, lane, v, c, j)
    requires WeightIn(v, src.parent[c], lane) != 0.0
    ensures Weighted(src, lane, v, src.parent[c], j)
  {
    if j != c {
      WeightedUp(src, lane, v, c, src.parent[j]);
    }
  }

  /** j is a leaf with weight all the way up to i. */
  ghost predicate Moves(src: Source, lane: Lane, v: View, i: nat, j: nat)
    requires ValidSource(src) && i < |src.first|
  {
    j < |src.first| && src.count[j] == 0 && Weighted(src, lane, v, i, j)
  }

  lemma {:induction false} ChildWeightMeans(src: Source, lane: Lane, v: View, i: nat)
    requires ValidSource(src) && i < |src.first|
    ensures HasChildWeight(src, lane, v, i) <==> exists j: nat :: Moves(src, lane, v, i, j)
    decreases |src.first| - i, 1, 0
  {
    if src.count[i] == 0 {
      if HasChildWeight(src, lane, v, i) {
        assert Moves(src, lane, v, i, i);
      }
      forall j: nat | Moves(src, lane, v, i, j) ensures j == i {
        if j != i {
          var c := WeightedChild(src, lane, v, i, j);
        }
      }
    } else {
      ChildFromMeans(src, lane, v, i, 0);
      forall j: nat | Moves(src, lane, v, i, j) ensures HasChildWeight(src, lane, v, i) {
        var c := WeightedChild(src, lane, v, i, j);
        assert Moves(src, lane, v, c, j);
      }
      if HasChildWeight(src, lane, v, i) {
        var c: nat, j: nat :| src.first[i] <= c < src.first[i] + src.count[i] && Moves(src, lane, v, c, j);
        WeightedUp(src, lane, v, c, j);
        assert Moves(src, lane, v, i, j);
      }
    }
  }

  lemma {:induction false} ChildFromMeans(src: Source, lane: Lane, v: View, i: nat, k: nat)
    requires ValidSource(src) && i < |src.first| && k <= src.count[i]
    ensures ChildFrom(src, lane, v, i, k) <==>
            exists c: nat, j: nat ::
              src.first[i] + k <= c < src.first[i] + src.count[i] && Moves(src, lane, v, c, j)
    decreases |src.first| - i, 0, src.count[i] - k
  {
    if k < src.count[i] {
      ChildWeightMeans(src, lane, v, src.first[i] + k);
      ChildFromMeans(src, lane, v, i, k + 1);
    }
  }

  /** The way to the root, cut at a node on it. */
  lemma {:induction false} WayCut(src: Source, lane: Lane, v: View, i: nat, j: nat)
    requires ValidSource(src) && i < |src.first| && j < |src.first| && (j == i || Above(src, i, j))
    ensures Weighted(src, lane, v, 0, j) <==> HasParentWeight(src, lane, v, i) && Weighted(src, lane, v, i, j)
  {
    if j == i {
      if i != 0 {
        WayCut(src, lane, v, src.parent[i], src.parent[i]);
      }
    } else {
      AboveParent(src, i, j);
      if src.parent[j] != i {
        AboveParent(src, i, src.parent[j]);
      }
      WayCut(src, lane, v, i, src.parent[j]);
    }
  }

  lemma {:induction false} WeightedIsBelow(src: Source, lane: Lane, v: View, i: nat, j: nat)
    requires ValidSource(src) && i < |src.first| && j < |src.first| && Weighted(src, lane, v, i, j)
    ensures j == i || Above(src, i, j)
  {
    if j != i {
      WeightedIsBelow(src, lane, v, i, src.parent[j]);
    }
  }

  /** A leaf below i that moves something: weight all the way up to the root. */
  ghost predicate Effect(src: Source, lane: Lane, v: View, i: nat, j: nat)
    requires ValidSource(src)
  {
    j < |src.first| && src.count[j] == 0 && (j == i || Above(src, i, j)) && Weighted(src, lane, v, 0, j)
  }

  /** A node has an effect exactly if some leaf at or below it has weight all the way up to the root. */
  lemma EffectiveMeans(src: Source, lane: Lane, v: View, i: nat)
    requires ValidSource(src) && i < |src.first|
    ensures EffectiveIn(src, lane, v, i) <==> exists j: nat :: Effect(src, lane, v, i, j)
  {
    ChildWeightMeans(src, lane, v, i);
    if EffectiveIn(src, lane, v, i) {
      var j: nat :| Moves(src, lane, v, i, j);
      WeightedIsBelow(src, lane, v, i, j);
      WayCut(src, lane, v, i, j);
      assert Effect(src, lane, v, i, j);
    }
    forall j: nat | Effect(src, lane, v, i, j) ensures EffectiveIn(src, lane, v, i) {
      WayCut(src, lane, v, i, j);
      assert Moves(src, lane, v, i, j);
    }
  }

  // ----- knobs -----

  /** How far child c is from where a knob at node i sends it. */
  function Way(v: View, lane: Lane, i: nat, weight: real, c: nat): real {
    if c == i then Abs(weight - WeightIn(v, c, lane)) else WeightIn(v, c, lane)
  }

  /** The longest of the ways of n children from `lo` on, or none at all. */
  ghost predicate Longest(v: View, lane: Lane, i: nat, weight: real, lo: nat, n: nat, most: real) {
    && most >= 0.0 && (forall c :: lo <= c < lo + n ==> Way(v, lane, i, weight, c) <= most)
    && (most != 0.0 ==> exists c :: lo <= c < lo + n && Way(v, lane, i, weight, c) == most)
  }

  lemma {:induction false} HeaviestIsLongest(v: View, lane: Lane, i: nat, weight: real, lo: nat, n: nat)
    ensures Longest(v, lane, i, weight, lo, n, Heaviest(v, lane, i, weight, lo, n))
  {
    if n > 0 {
      HeaviestIsLongest(v, lane, i, weight, lo, n - 1);
      assert Way(v, lane, i, weight, lo + n - 1) <= Heaviest(v, lane, i, weight, lo, n);
    }
  }

  /** The siblings of node i let go within the time that the longest way of the
      family takes, and nothing else changed. */
  ghost predicate FamilyLetGo(src: Source, lane: Lane, i: nat, weight: real, blendTime: real, v: View, r: View) {
    && SameShape(src, v, r) && i < |src.first| && r.handles == v.handles
    && (i == 0 ==> r == v)
    && (i != 0 ==>
          exists most ::
            && Longest(v, lane, i, weight, src.first[src.parent[i]], src.count[src.parent[i]], most)
            && LetGoIn(src, lane, i, if most * blendTime < BLEND_EPSILON then 0.0 else most * blendTime, v, r))
  }

  ghost predicate LetGoIn(src: Source, lane: Lane, i: nat, time: real, v: View, r: View)
    requires SameShape(src, v, r) && i < |src.first|
  {
    forall j: nat {:trigger NodeKept(v, r, j)} :: j < |src.first| ==>
      if Sibling(src, j, i) && v.handles[j] != 0
      then ClearOn(RecordIn(v, j), RecordIn(r, j), lane, EffectiveIn(src, lane, v, j), time)
      else NodeKept(v, r, j)
  }

  lemma ClearedMeans(src: Source, lane: Lane, i: nat, time: real, end: int, v: View, r: View)
    requires KnobCleared(src, lane, i, time, end, v, r) && 0 < i
    requires end == src.first[src.parent[i]] + src.count[src.parent[i]]
    ensures LetGoIn(src, lane, i, time, v, r)
  {
    hide EffectiveIn, Cleared;
    forall j: nat | j < |src.first|
      ensures if Sibling(src, j, i) && v.handles[j] != 0
              then ClearOn(RecordIn(v, j), RecordIn(r, j), lane, EffectiveIn(src, lane, v, j), time)
              else NodeKept(v, r, j)
    {
      assert ClearedAt(src, lane, i, time, end, v, r, j);
      ClearedIsClear(RecordIn(v, j), lane, EffectiveIn(src, lane, v, j), time);
    }
  }

  /** What clearing the family of a knob comes to. */
  lemma KnobMeans(src: Source, lane: Lane, i: nat, weight: real, blendTime: real, v: View, r: View)
    requires KnobDone(src, lane, i, weight, blendTime, v, r)
    ensures FamilyLetGo(src, lane, i, weight, blendTime, v, r)
  {
    if i != 0 {
      var p := src.parent[i];
      var most := Heaviest(v, lane, i, weight, src.first[p], src.count[p]);
      HeaviestIsLongest(v, lane, i, weight, src.first[p], src.count[p]);
      assert Longest(v, lane, i, weight, src.first[p], src.count[p], most);
      assert KnobTime(src, lane, i, weight, blendTime, v) ==
             if most * blendTime < BLEND_EPSILON then 0.0 else most * blendTime;
      hide LetGoIn, Longest, Heaviest;
      ClearedMeans(src, lane, i, KnobTime(src, lane, i, weight, blendTime, v), src.first[p] + src.count[p], v, r);
    }
  }

  // ----- a knob up to an ancestor -----

  /** One ancestor of a knob: its family lets go, then it heads for full weight. */
  ghost predicate KnobRound(src: Source, lane: Lane, blendTime: real, a: nat, v: View, r: View) {
    exists mid ::
      && FamilyLetGo(src, lane, a, 1.0, blendTime, v, mid) && SameShape(src, mid, r) && OthersKept(mid, r, a)
      && r.handles[a] != 0 && GoalOn(RecordIn(mid, a), RecordIn(r, a), a == 0, lane, 1.0, blendTime, 1.0, 0, 0, 0)
  }

  lemma StepIsRound(src: Source, lane: Lane, blendTime: real, a: nat, v: View, r: View)
    requires KnobStepped(src, lane, blendTime, a, v, r)
    ensures KnobRound(src, lane, blendTime, a, v, r)
  {
    hide KnobDone, FamilyLetGo, Aimed;
    var mid :| KnobDone(src, lane, a, 1.0, blendTime, v, mid) && OnlyGoal(src, a, lane, 1.0, blendTime, mid, r);
    KnobMeans(src, lane, a, 1.0, blendTime, v, mid);
    AimedIsGoal(RecordIn(mid, a), a == 0, lane, 1.0, blendTime, 1.0, 0, 0, 0);
    assert FamilyLetGo(src, lane, a, 1.0, blendTime, v, mid);
  }

  /** Node a heads for full weight, its live siblings for none. */
  ghost predicate Leads(src: Source, lane: Lane, v: View, a: nat)
    requires ValidSource(src) && a < |src.first| == |v.handles|
  {
    && v.handles[a] != 0 && RecordIn(v, a).On(lane).target == 1.0 && RecordIn(v, a).On(lane).rate == 1.0
    && forall c: nat :: c < |src.first| && Sibling(src, c, a) && v.handles[c] != 0 ==>
         RecordIn(v, c).On(lane).target == 0.0
  }

  lemma FamilyFacts(src: Source, lane: Lane, i: nat, weight: real, blendTime: real, v: View, r: View, j: nat)
    requires FamilyLetGo(src, lane, i, weight, blendTime, v, r) && j < |src.first|
    ensures !Sibling(src, j, i) ==> NodeKept(v, r, j)
    ensures r.handles[j] == v.handles[j]
    ensures Sibling(src, j, i) && v.handles[j] != 0 ==> RecordIn(r, j).On(lane).target == 0.0
  {
    hide EffectiveIn, Longest;
    assert NodeKept(v, r, j) || Sibling(src, j, i);
  }

  lemma RoundLeads(src: Source, lane: Lane, blendTime: real, a: nat, v: View, r: View)
    requires KnobRound(src, lane, blendTime, a, v, r)
    ensures SameShape(src, v, r) && a < |src.first| && Leads(src, lane, r, a)
    ensures forall j: nat {:trigger NodeKept(v, r, j)} :: j < |src.first| && j != a && !Sibling(src, j, a) ==>
              NodeKept(v, r, j)
  {
    var mid :|
      && FamilyLetGo(src, lane, a, 1.0, blendTime, v, mid) && SameShape(src, mid, r) && OthersKept(mid, r, a)
      && r.handles[a] != 0 && GoalOn(RecordIn(mid, a), RecordIn(r, a), a == 0, lane, 1.0, blendTime, 1.0, 0, 0, 0);
    forall j: nat | j < |src.first| && j != a
      ensures !Sibling(src, j, a) ==> NodeKept(v, r, j)
      ensures Sibling(src, j, a) && r.handles[j] != 0 ==> RecordIn(r, j).On(lane).target == 0.0
    {
      assert NodeKept(mid, r, j);
      FamilyFacts(src, lane, a, 1.0, blendTime, v, mid, j);
    }
  }

  /** Neither an ancestor nor its family is touched by a round further up. */
  lemma RoundAbove(src: Source, a: nat, x: nat)
    requires ValidSource(src) && a < |src.first| && 0 < x < |src.first| && src.parent[x] >= a
    ensures x != a && !Sibling(src, x, a)
  {
  }

  /** The first n ancestors of a node all have a node above them, save perhaps the last. */
  ghost predicate Climbed(src: Source, i: nat, n: int)
    requires ValidSource(src) && i < |src.first|
  {
    forall k :: 0 <= k < n ==> Ancestor(src, i, k) != 0
  }

  lemma {:induction false} AncestorsFall(src: Source, i: nat, k: nat, n: nat)
    requires ValidSource(src) && i < |src.first| && Climbed(src, i, n) && k <= n
    ensures Ancestor(src, i, k) >= Ancestor(src, i, n)
    ensures k < n ==> src.parent[Ancestor(src, i, k)] >= Ancestor(src, i, n)
  {
    if k < n {
      AncestorsFall(src, i, k, n - 1);
      var below := Ancestor(src, i, n - 1);
      assert below != 0 && Ancestor(src, i, n) == src.parent[below] < below;
      hide Ancestor, ValidSource, Climbed;
    }
  }

  /** What a knob trail leaves after n rounds. */
  ghost predicate TrailLeads(src: Source, lane: Lane, i: nat, n: nat, first: View, v: View)
    requires SameShape(src, first, v) && i < |src.first|
  {
    && (forall k: nat :: 1 <= k <= n ==> Leads(src, lane, v, Ancestor(src, i, k)))
    && forall j: nat {:trigger NodeKept(first, v, j)} :: j < |src.first| && Apart(src, i, n, j) ==>
         NodeKept(first, v, j)
  }

  /** j is none of the first n ancestors of i and no sibling of one. */
  ghost predicate Apart(src: Source, i: nat, n: nat, j: nat)
    requires ValidSource(src) && i < |src.first|
  {
    forall k: nat :: 1 <= k <= n ==> j != Ancestor(src, i, k) && !Sibling(src, j, Ancestor(src, i, k))
  }

  lemma SelfApart(src: Source, i: nat, n: nat)
    requires ValidSource(src) && i < |src.first| && Climbed(src, i, n)
    ensures Apart(src, i, n, i) || n == 0
  {
    forall k: nat | 1 <= k <= n ensures i != Ancestor(src, i, k) && !Sibling(src, i, Ancestor(src, i, k)) {
      AncestorsFall(src, i, 0, k);
      RoundAbove(src, Ancestor(src, i, k), i);
    }
  }

  /** A round at the next ancestor leaves those below it leading. */
  lemma LeadsKept(src: Source, lane: Lane, i: nat, k: nat, n: nat, v: View, r: View)
    requires SameShape(src, v, r) && i < |src.first| && Climbed(src, i, n + 1) && 1 <= k <= n
    requires Leads(src, lane, v, Ancestor(src, i, k))
    requires forall j: nat {:trigger NodeKept(v, r, j)} :: j < |src.first| && j != Ancestor(src, i, n + 1) &&
                                                            !Sibling(src, j, Ancestor(src, i, n + 1)) ==>
               NodeKept(v, r, j)
    ensures Leads(src, lane, r, Ancestor(src, i, k))
  {
    var a, top := Ancestor(src, i, k), Ancestor(src, i, n + 1);
    AncestorsFall(src, i, k, n + 1);
    assert a != 0;
    RoundAbove(src, top, a);
    assert NodeKept(v, r, a);
    forall c: nat | c < |src.first| && Sibling(src, c, a) && r.handles[c] != 0
      ensures RecordIn(r, c).On(lane).target == 0.0
    {
      assert src.parent[c] == src.parent[a] && c > 0;
      RoundAbove(src, top, c);
      assert NodeKept(v, r, c);
    }
  }

  lemma {:induction false} TrailMeans(src: Source, lane: Lane, blendTime: real, i: nat, trail: seq<View>, n: nat)
    requires KnobTrail(src, lane, blendTime, i, trail) && n < |trail| && Climbed(src, i, n)
    requires SameShape(src, trail[0], trail[0])
    ensures SameShape(src, trail[0], trail[n]) && TrailLeads(src, lane, i, n, trail[0], trail[n])
  {
    if n > 0 {
      var m := n - 1;
      TrailMeans(src, lane, blendTime, i, trail, m);
      var top, v, r := Ancestor(src, i, n), trail[m], trail[n];
      assert KnobStepped(src, lane, blendTime, Ancestor(src, i, m + 1), trail[m], trail[m + 1]);
      StepIsRound(src, lane, blendTime, top, v, r);
      RoundLeads(src, lane, blendTime, top, v, r);
      hide KnobRound, KnobStepped, KnobTrail, Leads, TrailLeads, Ancestor, Sibling;
      TrailStep(src, lane, i, m, trail[0], v, r);
    }
  }

  lemma TrailStep(src: Source, lane: Lane, i: nat, m: nat, first: View, v: View, r: View)
    requires SameShape(src, first, v) && SameShape(src, v, r) && i < |src.first| && Climbed(src, i, m + 1)
    requires TrailLeads(src, lane, i, m, first, v) && Leads(src, lane, r, Ancestor(src, i, m + 1))
    requires forall j: nat {:trigger NodeKept(v, r, j)} :: j < |src.first| && j != Ancestor(src, i, m + 1) &&
                                                            !Sibling(src, j, Ancestor(src, i, m + 1)) ==>
               NodeKept(v, r, j)
    ensures SameShape(src, first, r) && TrailLeads(src, lane, i, m + 1, first, r)
  {
    hide Leads, Ancestor, Climbed, Sibling;
    var n := m + 1;
    forall k: nat | 1 <= k <= n ensures Leads(src, lane, r, Ancestor(src, i, k)) {
      if k < n {
        LeadsKept(src, lane, i, k, m, v, r);
      }
    }
    forall j: nat | j < |src.first| && Apart(src, i, n, j) ensures NodeKept(first, r, j) {
      assert Apart(src, i, m, j);
      assert NodeKept(first, v, j) && NodeKept(v, r, j);
    }
  }

  /** What a knob up to an ancestor comes to: the node has its goal, every
      ancestor on the way heads for full weight and its siblings for none. */
  lemma KnobAllMeans(src: Source, i: nat, lane: Lane, weight: real, blendTime: real, rate: real, name: Word,
                     notifyType: Word, mid: View, trail: seq<View>)
    requires KnobTrail(src, lane, blendTime, i, trail) && Climbed(src, i, |trail| - 1)
    requires GoalReached(src, i, lane, weight, blendTime, rate, name, notifyType, mid, trail[0])
    ensures var now := trail[|trail| - 1];
            && SameShape(src, mid, now) && TrailLeads(src, lane, i, |trail| - 1, trail[0], now)
            && GoalAt(src, i, lane, weight, blendTime, rate, name, notifyType, mid, now)
  {
    var n := |trail| - 1;
    TrailMeans(src, lane, blendTime, i, trail, n);
    SelfApart(src, i, n);
    hide GoalWith;
    assert NodeKept(trail[0], trail[n], i);
    assert RecordIn(trail[n], i) == RecordIn(trail[0], i);
    assert GoalAt(src, i, lane, weight, blendTime, rate, name, notifyType, mid, trail[0]);
  }
}
