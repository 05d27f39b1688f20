/** How far a frame moves every animation: what becomes of the time and the
    weight of each node that is left after an update of the whole tree. */
module AnimClocks {
  import opened AnimPool
  import opened AnimUpdates
  import opened AnimWeights
  import opened Words

  // ----- how far one clock moves -----

  /** The weight took one step towards its goal; goal and rate stay. */
  predicate StepTaken(s: State, r: State, step: real)
    requires step >= 0.0
  {
    && r.target == s.target && r.rate == s.rate
    && r.current == BlendStep(s, step).current && r.blend == BlendStep(s, step).blend
  }

  predicate SameTime(s: State, r: State) {
    r.time == s.time && r.oldTime == s.oldTime && r.cycle == s.cycle && r.oldCycle == s.oldCycle
  }

  /** Whole turns that take the sum of cycle and time from one clock as far as `way`. */
  predicate Turns(s: State, r: State, way: real, n: int) {
    r.time + n as real == s.time + way && (r.cycle - s.cycle - n) % 65536 == 0
  }

  /** The clock moved on by `way` and remembers where it was: a loop takes whole
      turns to the cycle, anything else stays at the end. */
  ghost predicate Travelled(s: State, r: State, way: real, loops: bool) {
    && r.oldTime == s.time && r.oldCycle == s.cycle
    && if loops then r.time < 1.0 && (s.time + way >= 0.0 ==> r.time >= 0.0) && exists n :: Turns(s, r, way, n)
       else r.cycle == s.cycle && r.time == if s.time + way < 1.0 then s.time + way else 1.0
  }

  lemma TickedTravels(s: State, b: State, step: real, loops: bool)
    requires SameTime(s, b)
    ensures Travelled(s, Timed(b, Ticked(ClockOf(b), step, loops)), step, loops)
  {
    var c := Ticked(ClockOf(b), step, loops);
    var r := Timed(b, c);
    var raw := s.time + step;
    if raw < 1.0 {
      assert Turns(s, r, step, 0);
    } else if loops {
      TurnsCount(s.cycle, raw.Floor);
      assert Turns(s, r, step, raw.Floor);
    }
  }

  lemma TurnsCount(cycle: int, n: int)
    ensures (Wrap16(cycle + n) - cycle - n) % 65536 == 0
  {
  }

  lemma BlendKeepsTime(s: State, step: real)
    requires step >= 0.0
    ensures SameTime(s, BlendStep(s, step)) && StepTaken(s, BlendStep(s, step), step)
  {
  }

  // ----- how fast a node runs -----

  /** The rates of all proper ancestors multiplied. */
  ghost function RateAbove(src: Source, v: View, j: nat): real
    requires ValidSource(src) && j < |src.first|
  {
    if j == 0 then 1.0 else RateAbove(src, v, src.parent[j]) * StateIn(v, src.parent[j], Client).rate
  }

  /** No proper ancestor is a sync node. */
  ghost predicate NoSyncAbove(src: Source, j: nat)
    requires ValidSource(src) && j < |src.first|
  {
    j == 0 || (!src.sync[src.parent[j]] && NoSyncAbove(src, src.parent[j]))
  }

  /** Sums over those of n children from `lo` on that have a weight and a frequency. */
  ghost function WeightSum(v: View, lo: nat, fs: seq<real>, n: nat): real
    requires n <= |fs|
  {
    if n == 0 then 0.0
    else
      var w := StateIn(v, lo + n - 1, Client).current;
      WeightSum(v, lo, fs, n - 1) + if fs[n - 1] != 0.0 then w else 0.0
  }

  /** What a child brings: its weight times its frequency times its rate. */
  function Part(w: real, f: real, rate: real): real {
    w * (f * rate)
  }

  ghost function RateSum(v: View, lo: nat, fs: seq<real>, n: nat): real
    requires n <= |fs|
  {
    if n == 0 then 0.0
    else
      var s := StateIn(v, lo + n - 1, Client);
      RateSum(v, lo, fs, n - 1) + Part(s.current, fs[n - 1], s.rate)
  }

  /** f is how often node i runs through in a second: a leaf has its frequency;
      any other node the mean over its children, weighted, of frequency times rate. */
  ghost predicate Runs(src: Source, v: View, i: nat, f: real)
    requires ValidSource(src) && i < |src.first|
    decreases |src.first| - i
  {
    if src.count[i] == 0 then f == src.frequency[i]
    else exists fs: seq<real> :: |fs| == src.count[i] && ChildrenRun(src, v, i, fs) && IsMean(v, src.first[i], fs, f)
  }

  ghost predicate ChildrenRun(src: Source, v: View, i: nat, fs: seq<real>)
    requires ValidSource(src) && i < |src.first|
    decreases |src.first| - i, 0
  {
    forall k: nat :: k < |fs| && k < src.count[i] ==> Runs(src, v, src.first[i] + k, fs[k])
  }

  ghost predicate IsMean(v: View, lo: nat, fs: seq<real>, f: real) {
    Divides(WeightSum(v, lo, fs, |fs|), RateSum(v, lo, fs, |fs|), f)
  }

  /** f is the sum over the weight; without weight it is nothing. */
  predicate Divides(weight: real, sum: real, f: real) {
    if weight != 0.0 then f * weight == sum else f == 0.0
  }

  ghost function ChildFrequencies(src: Source, v: View, i: nat): (fs: seq<real>)
    requires ValidSource(src) && i < |src.first|
    ensures |fs| == src.count[i]
    ensures forall k :: 0 <= k < |fs| ==> fs[k] == Frequency(src, v, src.first[i] + k)
  {
    seq(src.count[i], k requires 0 <= k < src.count[i] => Frequency(src, v, src.first[i] + k))
  }

  /** The frequency that the walk uses is the mean. */
  lemma {:induction false} FrequencyRuns(src: Source, v: View, i: nat)
    requires ValidSource(src) && i < |src.first|
    ensures Runs(src, v, i, Frequency(src, v, i))
    decreases |src.first| - i
  {
    if src.count[i] != 0 {
      var fs := ChildFrequencies(src, v, i);
      assert ChildrenRun(src, v, i, fs) by {
        forall k: nat | k < |fs| && k < src.count[i] ensures Runs(src, v, src.first[i] + k, fs[k]) {
          FrequencyRuns(src, v, src.first[i] + k);
        }
      }
      MeanHere(src, v, i, fs);
    }
  }

  lemma MeanHere(src: Source, v: View, i: nat, fs: seq<real>)
    requires ValidSource(src) && i < |src.first| && src.count[i] != 0 && |fs| == src.count[i]
    requires forall k :: 0 <= k < |fs| ==> fs[k] == Frequency(src, v, src.first[i] + k)
    ensures IsMean(v, src.first[i], fs, Frequency(src, v, i))
  {
    hide FrequencyOf, WeightSum, RateSum, MeanOf, Divides;
    MeanSums(src, v, i, fs, |fs|);
    MeanDivides(WeightSum(v, src.first[i], fs, |fs|), RateSum(v, src.first[i], fs, |fs|), Frequency(src, v, i));
  }

  lemma MeanDivides(w: real, sum: real, f: real)
    requires f == MeanOf(Mean(w, sum))
    ensures Divides(w, sum, f)
  {
  }

  lemma {:induction false} MeanSums(src: Source, v: View, i: nat, fs: seq<real>, n: nat)
    requires ValidSource(src) && i < |src.first| && n <= |fs| == src.count[i]
    requires forall k :: 0 <= k < |fs| ==> fs[k] == Frequency(src, v, src.first[i] + k)
    ensures FrequencyOf(src, v, i, n) == Mean(WeightSum(v, src.first[i], fs, n), RateSum(v, src.first[i], fs, n))
    decreases n
  {
    hide With, Frequency, StateIn, Part;
    if n > 0 {
      MeanSums(src, v, i, fs, n - 1);
      var s := StateIn(v, src.first[i] + n - 1, Client);
      WithAdds(FrequencyOf(src, v, i, n - 1), s.current, s.rate, fs[n - 1]);
    }
  }

  lemma WithAdds(m: Mean, w: real, rate: real, f: real)
    ensures With(m, w, rate, f) == Mean(m.weight + if f != 0.0 then w else 0.0, m.sum + Part(w, f, rate))
  {
  }

  /** Above the first sync node a walk runs at the frame times the rates above. */
  lemma {:induction false} FreeWalk(src: Source, v: View, delta: real, step: real, j: nat)
    requires ValidSource(src) && j < |src.first| && step >= 0.0 && Region(src, 0, j) && NoSyncAbove(src, j)
    ensures WalkAt(src, v, Free(delta), step, 0, j) == Free(delta * RateAbove(src, v, j))
  {
    if j != 0 {
      var p := src.parent[j];
      FreeWalk(src, v, delta, step, p);
      var above := Free(delta * RateAbove(src, v, p));
      MovedWeights(src, above, step, Frequency(src, v, p), p, StateIn(v, p, Client));
      BlendKeepsTime(StateIn(v, p, Client), step);
      Regroup(delta, RateAbove(src, v, p), StateIn(v, p, Client).rate);
    }
  }

  lemma FreeWalkAs(src: Source, v: View, delta: real, step: real, j: nat, below: real)
    requires ValidSource(src) && j < |src.first| && step >= 0.0 && Region(src, 0, j) && NoSyncAbove(src, j)
    requires below == delta * RateAbove(src, v, j)
    ensures WalkAt(src, v, Free(delta), step, 0, j) == Free(below)
  {
    hide WalkAt, RateAbove;
    FreeWalk(src, v, delta, step, j);
  }

  lemma Regroup(a: real, b: real, c: real)
    ensures a * b * c == a * (b * c)
  {
  }

  // ----- a whole frame -----

  /** A survivor at the end of a path of weights with no sync node above it. */
  ghost predicate OwnClock(src: Source, step: real, v: View, r: View, j: nat)
    requires Sound(src, v) && j < |src.first| && Region(src, 0, j) && step >= 0.0
  {
    NoSyncAbove(src, j) && Moving(src, v, Client, step, 0, j) && j < |r.handles| && r.handles[j] != 0
  }

  /** What a client frame makes of such a node: a leaf or a sync node that
      carries weight moves its clock by frequency, own rate, frame and the rates
      above; any other keeps its clock. The server lane and the rest stay. */
  ghost predicate ClockMoved(src: Source, delta: real, step: real, v: View, r: View, j: nat)
    requires ValidSource(src) && j < |src.first| && step >= 0.0
  {
    && j < |v.handles| && 0 < v.handles[j] < |v.info| == |r.info|
    && var x, y := v.info[v.handles[j]], r.info[v.handles[j]];
       && y == x.(client := y.client) && StepTaken(x.client, y.client, step)
       && if (y.client.current != 0.0 || y.client.target != 0.0) && (src.count[j] == 0 || src.sync[j])
          then RanOn(src, delta, v, j, x.client, y.client)
          else SameTime(x.client, y.client)
  }

  /** How far: its frequency times its rate times the frame times the rates above. */
  ghost predicate RanOn(src: Source, delta: real, v: View, j: nat, s: State, r: State)
    requires ValidSource(src) && j < |src.first|
  {
    exists f, way :: Runs(src, v, j, f) && Travelled(s, r, way, src.loops[j]) &&
                     way == f * s.rate * (delta * RateAbove(src, v, j))
  }

  lemma MovedTravels(src: Source, delta: real, step: real, f: real, i: nat, s: State, way: real)
    requires way == f * s.rate * delta && step >= 0.0 && i < |src.count| == |src.sync| == |src.loops|
    ensures var r := Moved(src, Free(delta), step, f, i, s);
            && StepTaken(s, r, step)
            && if (r.current != 0.0 || r.target != 0.0) && (src.count[i] == 0 || src.sync[i])
               then Travelled(s, r, way, src.loops[i]) else SameTime(s, r)
  {
    BlendKeepsTime(s, step);
    var b := BlendStep(s, step);
    hide BlendStep, Ticked, Travelled;
    assert TimeStep(f, b.rate, delta) == way;
    TickedTravels(s, b, way, src.loops[i]);
  }

  /** A survivor's record before and after. */
  lemma SurvivorStepped(src: Source, w: Walk, step: real, v: View, r: View, j: nat)
    requires Swept(src, w, step, v, r) && j < |src.first| && Region(src, 0, j)
    requires Moving(src, v, w.On(), step, 0, j) && r.handles[j] != 0
    ensures Sound(src, v) && step >= 0.0 && 0 < v.handles[j] < |v.info| == |r.info|
    ensures r.info[v.handles[j]] ==
            v.info[v.handles[j]].With(w.On(), MovedAt(src, v, WalkAt(src, v, w, step, 0, j), step, j))
  {
    hide WalkAt, MovedAt;
    assert Supported(src, r, j);
    WalkLane(src, v, w, step, 0, j);
  }

  /** Every client animation moves as far as its frequency and the rates say. */
  lemma SweptTravels(src: Source, delta: real, step: real, v: View, r: View, j: nat)
    requires Swept(src, Free(delta), step, v, r) && j < |src.first| && Region(src, 0, j)
    requires OwnClock(src, step, v, r, j)
    ensures ClockMoved(src, delta, step, v, r, j)
  {
    hide Frequency, Runs, RateAbove, Travelled, Moved, WalkAt, Swept, Moving, NoSyncAbove;
    SurvivorStepped(src, Free(delta), step, v, r, j);
    FrequencyRuns(src, v, j);
    var below, f, x := delta * RateAbove(src, v, j), Frequency(src, v, j), v.info[v.handles[j]].client;
    FreeWalkAs(src, v, delta, step, j, below);
    var way := f * x.rate * below;
    MovedTravels(src, below, step, f, j, x, way);
    var y := r.info[v.handles[j]].client;
    if (y.current != 0.0 || y.target != 0.0) && (src.count[j] == 0 || src.sync[j]) {
      assert Runs(src, v, j, f) && Travelled(x, y, way, src.loops[j]);
    }
  }

  /** What a server frame makes of a survivor at the end of a path of weights:
      it remembers where the frame found it and stays there. */
  ghost predicate Stamped(step: real, v: View, r: View, j: nat)
    requires step >= 0.0
  {
    && j < |v.handles| && 0 < v.handles[j] < |v.info| == |r.info|
    && var x, y := v.info[v.handles[j]], r.info[v.handles[j]];
       && y == x.(server := y.server) && StepTaken(x.server, y.server, step)
       && y.server.time == x.server.time && y.server.cycle == x.server.cycle
       && y.server.oldTime == x.server.time && y.server.oldCycle == x.server.cycle
  }

  lemma SweptStamps(src: Source, step: real, v: View, r: View, j: nat)
    requires Swept(src, Stamp, step, v, r) && j < |src.first| && Region(src, 0, j)
    requires Moving(src, v, Server, step, 0, j) && r.handles[j] != 0
    ensures Stamped(step, v, r, j)
  {
    hide Frequency, WalkAt, Swept, Moving;
    SurvivorStepped(src, Stamp, step, v, r, j);
    WalkLane(src, v, Stamp, step, 0, j);
    BlendKeepsTime(StateIn(v, j, Server), step);
  }

  // ----- below a node at rest -----

  /** If node j is left, its lane has jumped to its goal and nothing else in its
      record changed. */
  ghost predicate Jumped(v: View, r: View, lane: Lane, j: nat) {
    && j < |v.handles| == |r.handles| && |v.info| == |r.info|
    && (r.handles[j] != 0 ==>
          && 0 < v.handles[j] == r.handles[j] < |v.info|
          && var x, y := v.info[v.handles[j]], r.info[v.handles[j]];
             y == x.With(lane, x.On(lane).(current := x.On(lane).target, blend := 0.0)))
  }

  lemma JumpedKept(v: View, m: View, r: View, lane: Lane, j: nat)
    requires Jumped(v, m, lane, j) && |m.handles| == |r.handles| && |m.info| == |r.info| && NodeKept(m, r, j)
    ensures Jumped(v, r, lane, j)
  {
  }

  lemma JumpedFrom(src: Source, v: View, m: View, r: View, lane: Lane, j: nat)
    requires Sound(src, v) && Sound(src, m) && |v.info| == |m.info| && j < |src.first| && NodeKept(v, m, j)
    requires Jumped(m, r, lane, j)
    ensures Jumped(v, r, lane, j)
  {
  }

  lemma SettleJumped(src: Source, v: View, r: View, lane: Lane, i: nat, j: nat)
    requires Sound(src, r) && i < |src.first| && Jumped(v, r, lane, j)
    ensures Jumped(v, Settle(src, r, i), lane, j)
  {
  }

  /** Below a node without weight every survivor has jumped to its goal. */
  lemma {:induction false} SnapJumps(src: Source, lane: Lane, v: View, i: nat, j: nat)
    requires Sound(src, v) && i < |src.first| && j < |src.first| && ClosedIn(src, v, i) && Region(src, i, j)
    ensures Jumped(v, Snap(src, lane, v, i), lane, j)
    decreases |src.first| - i, 0, 0
  {
    if v.handles[i] == 0 {
      DeadBelow(src, v, i, j);
    } else {
      var v1 := Put(src, lane, v, i, Arrived(v.info[v.handles[i]].On(lane)));
      PutTouches(src, lane, v, i, Arrived(v.info[v.handles[i]].On(lane)));
      var v2 := SnapChildren(src, lane, v1, i, src.count[i]);
      SnapChildrenTouch(src, lane, v1, i, src.count[i]);
      if j == i {
        StillLive(src, v1, v2, i);
      } else {
        var c := ChildAbove(src, i, j);
        PutAlike(src, lane, v, i, Arrived(v.info[v.handles[i]].On(lane)), c);
        SnapChildrenJump(src, lane, v1, i, src.count[i], c, j);
        JumpedFrom(src, v, v1, v2, lane, j);
      }
      SettleJumped(src, v, v2, lane, i, j);
    }
  }

  lemma {:induction false} SnapChildrenJump(src: Source, lane: Lane, v: View, i: nat, n: nat, c: nat, j: nat)
    requires Sound(src, v) && i < |src.first| && j < |src.first| && n <= src.count[i] && ClosedIn(src, v, i)
    requires src.first[i] <= c < src.first[i] + n && c < |src.first| && Region(src, c, j)
    ensures Jumped(v, SnapChildren(src, lane, v, i, n), lane, j)
    decreases |src.first| - i - 1, 1, n
  {
    hide Jumped, ClosedIn, Snap, EarlierOnly, Region;
    var d := src.first[i] + n - 1;
    ChildFacts(src, i, d);
    SnapChildrenTidy(src, lane, v, i, n - 1);
    var m := SnapChildren(src, lane, v, i, n - 1);
    SnapChildrenTouch(src, lane, v, i, n - 1);
    SnapTouches(src, lane, m, d);
    if c == d {
      ClosedLater(src, v, m, i, n - 1, c);
      LaterKept(src, v, m, i, n - 1, c, j);
      SnapJumps(src, lane, m, c, j);
      JumpedFrom(src, v, m, Snap(src, lane, m, c), lane, j);
    } else {
      SnapChildrenJump(src, lane, v, i, n - 1, c, j);
      Apart(src, i, c, d, j);
      assert NodeKept(m, Snap(src, lane, m, d), j);
      JumpedKept(v, m, Snap(src, lane, m, d), lane, j);
    }
  }

  /** Node a is reached on a path of weights and comes to rest with this step. */
  ghost predicate Rests(src: Source, v: View, lane: Lane, step: real, i: nat, a: nat)
    requires Sound(src, v) && i < |src.first| && a < |src.first| && Region(src, i, a) && step >= 0.0
  {
    Moving(src, v, lane, step, i, a) && !Carries(v, lane, step, a)
  }

  lemma RestsKept(src: Source, v: View, m: View, w: Walk, step: real, c: nat, a: nat)
    requires Alike(src, v, m, c) && a < |src.first| && step >= 0.0 && Region(src, c, a)
    requires Rests(src, v, w.On(), step, c, a)
    ensures Rests(src, m, w.On(), step, c, a)
  {
    PathKept(src, v, m, w, step, c, a);
    AlikeBelow(src, v, m, c, a);
    AlikeHere(src, v, m, a, w.On());
  }

  lemma RestsChild(src: Source, v: View, lane: Lane, step: real, i: nat, a: nat, c: nat)
    requires Sound(src, v) && i < |src.first| && a < |src.first| && step >= 0.0
    requires IsChild(src, i, c) && c < |src.first| && Region(src, c, a) && Region(src, i, a)
    requires Rests(src, v, lane, step, i, a)
    ensures Rests(src, v, lane, step, c, a) && Carries(v, lane, step, i) && v.handles[i] != 0
  {
    MovingChild(src, v, lane, step, i, a, c);
  }

  /** Below a node that comes to rest in an update every survivor has jumped. */
  lemma {:induction false} AdvanceJumps(src: Source, w: Walk, step: real, v: View, i: nat, a: nat, j: nat)
    requires Sound(src, v) && i < |src.first| && a < |src.first| && j < |src.first| && step >= 0.0
    requires ClosedIn(src, v, i) && Region(src, i, a) && Above(src, a, j) && Rests(src, v, w.On(), step, i, a)
    ensures Jumped(v, Advance(src, w, step, v, i), w.On(), j)
    decreases |src.first| - i, 0, 0
  {
    hide Jumped, ClosedIn, Settle, Frequency, Put, SnapChildren, AdvanceChildren, Above, Moved;
    var s := MovedAt(src, v, w, step, i);
    var v1 := Put(src, w.On(), v, i, s);
    if a == i {
      RestsHere(src, v, w, step, i, j);
      RestJumps(src, w.On(), v, i, s, j);
    } else {
      var c := ChildAbove(src, i, a);
      RestsChild(src, v, w.On(), step, i, a, c);
      MovedWeights(src, w, step, Frequency(src, v, i), i, StateIn(v, i, w.On()));
      var below := WalkBelow(src, w, i, s);
      PutAlike(src, w.On(), v, i, s, c);
      RestsKept(src, v, v1, below, step, c, a);
      PutClosed(src, w.On(), v, i, s);
      AdvanceChildrenJump(src, below, step, v1, i, src.count[i], c, a, j);
      RegionThen(src, c, a, j);
      AlikeBelow(src, v, v1, c, j);
      AlikeHere(src, v, v1, j, w.On());
      JumpedFrom(src, v, v1, AdvanceChildren(src, below, step, v1, i, src.count[i]), w.On(), j);
    }
  }

  lemma PutClosed(src: Source, lane: Lane, v: View, i: nat, s: State)
    requires Sound(src, v) && i < |src.first| && ClosedIn(src, v, i)
    ensures var r := Put(src, lane, v, i, s);
            Sound(src, r) && ClosedIn(src, r, i) && |r.info| == |v.info|
  {
    PutTouches(src, lane, v, i, s);
  }

  /** A node that rests has children to jump. */
  lemma RestsHere(src: Source, v: View, w: Walk, step: real, i: nat, j: nat)
    requires Sound(src, v) && i < |src.first| && j < |src.first| && step >= 0.0 && Above(src, i, j)
    requires Rests(src, v, w.On(), step, i, i)
    ensures LiveAt(src, v, i) && src.count[i] != 0 && AtRest(MovedAt(src, v, w, step, i))
  {
    var c := ChildAbove(src, i, j);
    MovedWeights(src, w, step, Frequency(src, v, i), i, StateIn(v, i, w.On()));
  }

  lemma RestJumps(src: Source, lane: Lane, v: View, i: nat, s: State, j: nat)
    requires Sound(src, v) && i < |src.first| && j < |src.first| && ClosedIn(src, v, i) && Above(src, i, j)
    ensures Jumped(v, Settle(src, SnapChildren(src, lane, Put(src, lane, v, i, s), i, src.count[i]), i), lane, j)
  {
    hide Jumped, ClosedIn, Settle, SnapChildren, Put;
    var v1 := Put(src, lane, v, i, s);
    var v2 := SnapChildren(src, lane, v1, i, src.count[i]);
    PutClosed(src, lane, v, i, s);
    var c := ChildAbove(src, i, j);
    PutAlike(src, lane, v, i, s, c);
    SnapChildrenTouch(src, lane, v1, i, src.count[i]);
    SnapChildrenJump(src, lane, v1, i, src.count[i], c, j);
    assert NodeKept(v, v1, j);
    JumpedFrom(src, v, v1, v2, lane, j);
    SettleJumped(src, v, v2, lane, i, j);
  }

  lemma {:induction false} AdvanceChildrenJump(src: Source, w: Walk, step: real, v: View, i: nat, n: nat,
                                               c: nat, a: nat, j: nat)
    requires Sound(src, v) && i < |src.first| && a < |src.first| && j < |src.first| && step >= 0.0
    requires n <= src.count[i] && ClosedIn(src, v, i)
    requires src.first[i] <= c < src.first[i] + n && c < |src.first| && Region(src, c, a) && Above(src, a, j)
    requires Rests(src, v, w.On(), step, c, a)
    ensures Jumped(v, AdvanceChildren(src, w, step, v, i, n), w.On(), j)
    decreases |src.first| - i - 1, 1, n
  {
    hide Jumped, ClosedIn, Rests, Advance, EarlierOnly, Above, Alike;
    var d := src.first[i] + n - 1;
    ChildFacts(src, i, d);
    RegionThen(src, c, a, j);
    AdvanceChildrenTidy(src, w, step, v, i, n - 1);
    var m := AdvanceChildren(src, w, step, v, i, n - 1);
    AdvanceChildrenTouch(src, w, step, v, i, n - 1);
    AdvanceTouches(src, w, step, m, d);
    if c == d {
      ClosedLater(src, v, m, i, n - 1, c);
      LaterKept(src, v, m, i, n - 1, c, j);
      LaterAlike(src, v, m, i, n - 1, c);
      RestsKept(src, v, m, w, step, c, a);
      AdvanceJumps(src, w, step, m, c, a, j);
      JumpedFrom(src, v, m, Advance(src, w, step, m, c), w.On(), j);
    } else {
      AdvanceChildrenJump(src, w, step, v, i, n - 1, c, a, j);
      Apart(src, i, c, d, j);
      assert NodeKept(m, Advance(src, w, step, m, d), j);
      JumpedKept(v, m, Advance(src, w, step, m, d), w.On(), j);
    }
  }

  // ----- a whole tree -----

  /** Below the first sync node on its path a survivor ends the frame on the
      clock of the sync node. */
  ghost predicate Followed(src: Source, step: real, v: View, r: View, a: nat, j: nat)
    requires step >= 0.0
  {
    && a < |v.handles| && j < |v.handles| && 0 < v.handles[a] < |v.info| == |r.info| && 0 < v.handles[j] < |v.info|
    && var x, y := v.info[v.handles[j]], r.info[v.handles[j]];
       && y == x.(client := y.client) && StepTaken(x.client, y.client, step)
       && SameTime(r.info[v.handles[a]].client, y.client)
  }

  lemma SweptFollows(src: Source, delta: real, step: real, v: View, r: View, a: nat, j: nat)
    requires Swept(src, Free(delta), step, v, r) && a < |src.first| && j < |src.first|
    requires Region(src, 0, a) && Region(src, 0, j) && Above(src, a, j) && src.sync[a] && NoSyncAbove(src, a)
    requires Moving(src, v, Client, step, 0, j) && r.handles[j] != 0 && r.handles[a] != 0
    ensures Followed(src, step, v, r, a, j)
  {
    hide Frequency, WalkAt, Moving, NoSyncAbove, Above;
    FreeWalk(src, v, delta, step, a);
    SyncedTogether(src, Free(delta), step, v, r, a, j);
    SurvivorStepped(src, Free(delta), step, v, r, j);
    WalkLane(src, v, Free(delta), step, 0, j);
    hide Swept;
    MovedWeights(src, WalkAt(src, v, Free(delta), step, 0, j), step, Frequency(src, v, j), j, StateIn(v, j, Client));
    BlendKeepsTime(StateIn(v, j, Client), step);
  }

  /** Some node above j was reached and came to rest with this step. */
  ghost predicate RestAbove(src: Source, v: View, lane: Lane, step: real, j: nat)
    requires Sound(src, v) && j < |src.first| && step >= 0.0
  {
    exists a: nat :: a < |src.first| && Above(src, a, j) && Region(src, 0, a) && Rests(src, v, lane, step, 0, a)
  }

  /** A live node of a closed tree is either on a path of weights or below one that ends. */
  lemma {:induction false} MovingOrResting(src: Source, v: View, lane: Lane, step: real, j: nat)
    requires Sound(src, v) && ClosedIn(src, v, 0) && j < |src.first| && Region(src, 0, j) && step >= 0.0
    requires v.handles[j] != 0
    ensures Moving(src, v, lane, step, 0, j) || RestAbove(src, v, lane, step, j)
  {
    if j != 0 {
      var p := src.parent[j];
      RootRegion(src, p);
      MovingOrResting(src, v, lane, step, p);
      if Moving(src, v, lane, step, 0, p) {
        if !Carries(v, lane, step, p) {
          assert Rests(src, v, lane, step, 0, p) && Above(src, p, j);
        }
      } else {
        var a: nat :|
          a < |src.first| && Above(src, a, p) && Region(src, 0, a) && Rests(src, v, lane, step, 0, a);
        assert Above(src, a, j);
      }
    }
  }

  /** What a frame makes of node j, if it is left: on a path of weights the client
      moves its clock, or takes that of a sync node, and the server stamps it;
      below a node that comes to rest it jumps to its goal. */
  ghost predicate FrameAt(src: Source, w: Walk, step: real, v: View, r: View, j: nat)
    requires Sound(src, v) && j < |src.first| && Region(src, 0, j) && step >= 0.0
  {
    && (w.Free? && OwnClock(src, step, v, r, j) ==> ClockMoved(src, w.delta, step, v, r, j))
    && (w.Free? && Moving(src, v, Client, step, 0, j) ==>
          forall a: nat :: a < |src.first| && Above(src, a, j) && src.sync[a] && NoSyncAbove(src, a) &&
                           a < |r.handles| && r.handles[a] != 0 && j < |r.handles| && r.handles[j] != 0 ==>
            Followed(src, step, v, r, a, j))
    && (w.Stamp? && Moving(src, v, Server, step, 0, j) && j < |r.handles| && r.handles[j] != 0 ==>
          Stamped(step, v, r, j))
    && (!Moving(src, v, w.On(), step, 0, j) ==> Jumped(v, r, w.On(), j))
  }

  ghost predicate FrameMoves(src: Source, w: Walk, step: real, v: View, r: View) {
    && Sound(src, v) && step >= 0.0
    && forall j: nat :: j < |src.first| ==> Region(src, 0, j) && FrameAt(src, w, step, v, r, j)
  }

  lemma RestingJumps(src: Source, w: Walk, step: real, v: View, j: nat)
    requires Sound(src, v) && ClosedIn(src, v, 0) && j < |src.first| && Region(src, 0, j) && step >= 0.0
    requires !Moving(src, v, w.On(), step, 0, j)
    ensures Jumped(v, Advance(src, w, step, v, 0), w.On(), j)
  {
    hide Moving, Advance, ClosedIn;
    if v.handles[j] == 0 {
      AdvanceTouches(src, w, step, v, 0);
    } else {
      MovingOrResting(src, v, w.On(), step, j);
      var a: nat :|
        a < |src.first| && Above(src, a, j) && Region(src, 0, a) && Rests(src, v, w.On(), step, 0, a);
      AdvanceJumps(src, w, step, v, 0, a, j);
    }
  }

  /** One frame, node by node. */
  lemma AdvanceMoves(src: Source, w: Walk, step: real, v: View)
    requires Sound(src, v) && ClosedIn(src, v, 0) && step >= 0.0
    ensures FrameMoves(src, w, step, v, Advance(src, w, step, v, 0))
  {
    var r := Advance(src, w, step, v, 0);
    SweptWhole(src, w, step, v);
    hide Advance, Swept, ClosedIn;
    forall j: nat | j < |src.first|
      ensures Region(src, 0, j) && FrameAt(src, w, step, v, r, j)
    {
      RootRegion(src, j);
      FrameHere(src, w, step, v, j);
    }
  }

  lemma FrameHere(src: Source, w: Walk, step: real, v: View, j: nat)
    requires Sound(src, v) && ClosedIn(src, v, 0) && step >= 0.0 && j < |src.first| && Region(src, 0, j)
    requires Swept(src, w, step, v, Advance(src, w, step, v, 0))
    ensures FrameAt(src, w, step, v, Advance(src, w, step, v, 0), j)
  {
    hide Advance, Swept, ClosedIn, Moving, OwnClock, Above, NoSyncAbove, ClockMoved, Followed, Stamped, Jumped;
    var r := Advance(src, w, step, v, 0);
    if w.Free? && OwnClock(src, step, v, r, j) {
      SweptTravels(src, w.delta, step, v, r, j);
    }
    if w.Free? && Moving(src, v, Client, step, 0, j) {
      forall a: nat | a < |src.first| && Above(src, a, j) && src.sync[a] && NoSyncAbove(src, a) &&
                      a < |r.handles| && r.handles[a] != 0 && j < |r.handles| && r.handles[j] != 0
        ensures Followed(src, step, v, r, a, j)
      {
        RootRegion(src, a);
        SweptFollows(src, w.delta, step, v, r, a, j);
      }
    }
    if w.Stamp? && Moving(src, v, Server, step, 0, j) && j < |r.handles| && r.handles[j] != 0 {
      SweptStamps(src, step, v, r, j);
    }
    if !Moving(src, v, w.On(), step, 0, j) {
      RestingJumps(src, w, step, v, j);
    }
  }
}
