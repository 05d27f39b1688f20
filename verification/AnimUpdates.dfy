/** What one update of a subtree comes to: which nodes it can touch, which
    records end up blended, and that nothing unsupported stays behind. */
module AnimUpdates {
  import opened AnimPool
  import opened AnimWeights
  import opened Words

  /** Live nodes have records of their own. */
  ghost predicate Sound(src: Source, v: View) {
    && ValidSource(src) && |v.handles| == |src.first|
    && (forall j :: 0 <= j < |v.handles| ==> v.handles[j] < |v.info|)
    && forall j, k :: 0 <= j < |v.handles| && 0 <= k < |v.handles| && j != k && v.handles[j] != 0 ==>
         v.handles[j] != v.handles[k]
  }

  /** j is i or lies below it. */
  ghost predicate Region(src: Source, i: nat, j: nat)
    requires ValidSource(src) && j < |src.first|
  {
    j == i || Above(src, i, j)
  }

  ghost predicate IsChild(src: Source, i: nat, c: nat)
    requires ValidSource(src) && i < |src.first|
  {
    src.first[i] <= c < src.first[i] + src.count[i]
  }

  lemma ChildFacts(src: Source, i: nat, c: nat)
    requires ValidSource(src) && i < |src.first| && IsChild(src, i, c)
    ensures i < c < |src.first| && src.parent[c] == i
  {
  }

  lemma {:induction false} RegionUp(src: Source, i: nat, c: nat, j: nat)
    requires ValidSource(src) && i < |src.first| && j < |src.first| && IsChild(src, i, c) && Region(src, c, j)
    ensures Above(src, i, j)
  {
    ChildFacts(src, i, c);
    if j != c {
      AboveParent(src, c, j);
      if src.parent[j] != c {
        RegionUp(src, i, c, src.parent[j]);
      }
    }
  }

  /** Sibling subtrees are disjoint. */
  lemma {:induction false} Apart(src: Source, i: nat, c: nat, d: nat, j: nat)
    requires ValidSource(src) && i < |src.first| && j < |src.first| && c != d
    requires IsChild(src, i, c) && IsChild(src, i, d) && Region(src, c, j)
    ensures !Region(src, d, j)
    decreases j
  {
    ChildFacts(src, i, c);
    ChildFacts(src, i, d);
    if j == c {
      if Above(src, d, c) {
        AboveParent(src, d, c);
        if d != i {
          AboveParent(src, d, i);
        }
      }
    } else {
      AboveParent(src, c, j);
      if Region(src, d, j) {
        if j == d {
          if c != src.parent[d] {
            AboveParent(src, c, i);
          }
        } else if src.parent[j] == d {
          if c != d {
            Apart(src, i, d, c, d);
          }
        } else {
          Apart(src, i, c, d, src.parent[j]);
        }
      }
    }
  }

  /** Nodes only die; those outside a region keep handle and record. */
  ghost predicate Touches(src: Source, v: View, r: View, i: nat, whole: bool) {
    && Sound(src, v) && Sound(src, r) && |r.info| == |v.info|
    && (forall j :: 0 <= j < |v.handles| ==> r.handles[j] == v.handles[j] || r.handles[j] == 0)
    && forall j: nat {:trigger NodeKept(v, r, j)} :: j < |src.first| ==>
         NodeKept(v, r, j) || (if whole then Region(src, i, j) else Above(src, i, j))
  }

  lemma TouchesNothing(src: Source, v: View, i: nat, whole: bool)
    requires Sound(src, v)
    ensures Touches(src, v, v, i, whole)
  {
  }

  lemma PutTouches(src: Source, lane: Lane, v: View, i: nat, s: State)
    requires Sound(src, v) && i < |src.first|
    ensures Touches(src, v, Put(src, lane, v, i, s), i, true)
  {
  }

  lemma SettleTouches(src: Source, v: View, i: nat)
    requires Sound(src, v) && i < |src.first|
    ensures Touches(src, v, Settle(src, v, i), i, true)
  {
  }

  /** A child's work lies below its parent. */
  lemma ChildTouches(src: Source, v: View, m: View, r: View, i: nat, c: nat)
    requires Touches(src, v, m, i, false) && i < |src.first| && IsChild(src, i, c) && Touches(src, m, r, c, true)
    ensures Touches(src, v, r, i, false)
  {
    forall j: nat | j < |src.first|
      ensures NodeKept(v, r, j) || Above(src, i, j)
    {
      assert NodeKept(v, m, j) || Above(src, i, j);
      assert NodeKept(m, r, j) || Region(src, c, j);
      if Region(src, c, j) {
        RegionUp(src, i, c, j);
      }
    }
  }

  lemma TouchesThen(src: Source, v: View, m: View, r: View, i: nat, whole: bool)
    requires Touches(src, v, m, i, true) && Touches(src, m, r, i, whole)
    ensures Touches(src, v, r, i, true)
  {
    forall j: nat | j < |src.first|
      ensures NodeKept(v, r, j) || Region(src, i, j)
    {
      assert NodeKept(v, m, j) || Region(src, i, j);
      assert NodeKept(m, r, j) || Region(src, i, j);
    }
  }

  lemma {:induction false} SnapTouches(src: Source, lane: Lane, v: View, i: nat)
    requires Sound(src, v) && i < |src.first|
    ensures Touches(src, v, Snap(src, lane, v, i), i, true)
    decreases |src.first| - i, 0, 0
  {
    TouchesNothing(src, v, i, true);
    if LiveAt(src, v, i) {
      var s := Arrived(v.info[v.handles[i]].On(lane));
      var v1 := Put(src, lane, v, i, s);
      PutTouches(src, lane, v, i, s);
      SnapChildrenTouch(src, lane, v1, i, src.count[i]);
      var v2 := SnapChildren(src, lane, v1, i, src.count[i]);
      TouchesThen(src, v, v1, v2, i, false);
      SettleTouches(src, v2, i);
      TouchesThen(src, v, v2, Settle(src, v2, i), i, true);
    }
  }

  lemma {:induction false} SnapChildrenTouch(src: Source, lane: Lane, v: View, i: nat, n: nat)
    requires Sound(src, v) && i < |src.first| && n <= src.count[i]
    ensures Touches(src, v, SnapChildren(src, lane, v, i, n), i, false)
    decreases |src.first| - i - 1, 1, n
  {
    TouchesNothing(src, v, i, false);
    if n > 0 {
      var c := src.first[i] + n - 1;
      ChildFacts(src, i, c);
      SnapChildrenTouch(src, lane, v, i, n - 1);
      var m := SnapChildren(src, lane, v, i, n - 1);
      SnapTouches(src, lane, m, c);
      ChildTouches(src, v, m, Snap(src, lane, m, c), i, c);
    }
  }

  /** The state of node j after its own part of the walk. */
  ghost function MovedAt(src: Source, v: View, w: Walk, step: real, j: nat): State
    requires ValidSource(src) && j < |src.first| && step >= 0.0
  {
    Moved(src, w, step, Frequency(src, v, j), j, StateIn(v, j, w.On()))
  }

  /** An update touches nothing outside its subtree. */
  lemma {:induction false} AdvanceTouches(src: Source, w: Walk, step: real, v: View, i: nat)
    requires Sound(src, v) && i < |src.first| && step >= 0.0
    ensures Touches(src, v, Advance(src, w, step, v, i), i, true)
    decreases |src.first| - i, 0, 0
  {
    TouchesNothing(src, v, i, true);
    if LiveAt(src, v, i) {
      var s := MovedAt(src, v, w, step, i);
      var v1 := Put(src, w.On(), v, i, s);
      PutTouches(src, w.On(), v, i, s);
      if src.count[i] == 0 {
        SettleTouches(src, v1, i);
        TouchesThen(src, v, v1, Settle(src, v1, i), i, true);
      } else if AtRest(s) {
        SnapChildrenTouch(src, w.On(), v1, i, src.count[i]);
        var v2 := SnapChildren(src, w.On(), v1, i, src.count[i]);
        TouchesThen(src, v, v1, v2, i, false);
        SettleTouches(src, v2, i);
        TouchesThen(src, v, v2, Settle(src, v2, i), i, true);
      } else {
        var below := WalkBelow(src, w, i, s);
        AdvanceChildrenTouch(src, below, step, v1, i, src.count[i]);
        TouchesThen(src, v, v1, AdvanceChildren(src, below, step, v1, i, src.count[i]), i, false);
      }
    }
  }

  lemma {:induction false} AdvanceChildrenTouch(src: Source, w: Walk, step: real, v: View, i: nat, n: nat)
    requires Sound(src, v) && i < |src.first| && n <= src.count[i] && step >= 0.0
    ensures Touches(src, v, AdvanceChildren(src, w, step, v, i, n), i, false)
    decreases |src.first| - i - 1, 1, n
  {
    TouchesNothing(src, v, i, false);
    if n > 0 {
      var c := src.first[i] + n - 1;
      ChildFacts(src, i, c);
      AdvanceChildrenTouch(src, w, step, v, i, n - 1);
      var m := AdvanceChildren(src, w, step, v, i, n - 1);
      AdvanceTouches(src, w, step, m, c);
      ChildTouches(src, v, m, Advance(src, w, step, m, c), i, c);
    }
  }

  /** The child of i on the way down to j. */
  lemma {:induction false} ChildAbove(src: Source, i: nat, j: nat) returns (c: nat)
    requires ValidSource(src) && i < |src.first| && j < |src.first| && Above(src, i, j)
    ensures IsChild(src, i, c) && Region(src, c, j) && i < c < |src.first|
  {
    if src.parent[j] == i {
      c := j;
    } else {
      c := ChildAbove(src, i, src.parent[j]);
    }
    ChildFacts(src, i, c);
  }

  // ----- nothing unsupported stays -----

  /** A node is dead, has a live child, or some lane has or wants weight. */
  ghost predicate Supported(src: Source, v: View, j: nat)
    requires Sound(src, v) && j < |src.first|
  {
    v.handles[j] == 0 || !NoChild(src, v, j) || !v.info[v.handles[j]].Weightless()
  }

  /** Being supported depends on the node and its children only. */
  lemma SupportedKept(src: Source, v: View, r: View, j: nat)
    requires Sound(src, v) && Sound(src, r) && |v.info| == |r.info| && j < |src.first| && Supported(src, v, j)
    requires NodeKept(v, r, j) && forall c: nat :: IsChild(src, j, c) && c < |src.first| ==> NodeKept(v, r, c)
    ensures Supported(src, r, j)
  {
    if !NoChild(src, v, j) {
      var c: nat :| IsChild(src, j, c) && c < |v.handles| && v.handles[c] != 0;
      assert NodeKept(v, r, c);
    }
  }

  /** All nodes below the first n children of i are supported. */
  ghost predicate Tidy(src: Source, v: View, i: nat, n: nat)
    requires Sound(src, v) && i < |src.first| && n <= src.count[i]
  {
    forall c: nat, j: nat :: src.first[i] <= c < src.first[i] + n && j < |src.first| && Region(src, c, j) ==>
      Supported(src, v, j)
  }

  /** Work on a later child leaves the earlier ones tidy. */
  lemma TidyMore(src: Source, m: View, r: View, i: nat, n: nat)
    requires Sound(src, m) && Sound(src, r) && i < |src.first| && n < src.count[i] && Tidy(src, m, i, n)
    requires Touches(src, m, r, src.first[i] + n, true)
    requires forall j: nat :: j < |src.first| && Region(src, src.first[i] + n, j) ==> Supported(src, r, j)
    ensures Tidy(src, r, i, n + 1)
  {
    var d := src.first[i] + n;
    forall c: nat, j: nat | src.first[i] <= c < src.first[i] + n + 1 && j < |src.first| && Region(src, c, j)
      ensures Supported(src, r, j)
    {
      if c != d {
        Apart(src, i, c, d, j);
        assert NodeKept(m, r, j);
        forall k: nat | IsChild(src, j, k) && k < |src.first|
          ensures NodeKept(m, r, k)
        {
          ChildFacts(src, j, k);
          assert Region(src, c, k);
          Apart(src, i, c, d, k);
          assert NodeKept(m, r, k);
        }
        SupportedKept(src, m, r, j);
      }
    }
  }

  /** With all children tidy and the node itself supported, the subtree is. */
  lemma TidyWhole(src: Source, v: View, i: nat)
    requires Sound(src, v) && i < |src.first| && Tidy(src, v, i, src.count[i]) && Supported(src, v, i)
    ensures forall j: nat :: j < |src.first| && Region(src, i, j) ==> Supported(src, v, j)
  {
    forall j: nat | j < |src.first| && Region(src, i, j)
      ensures Supported(src, v, j)
    {
      if j != i {
        var c := ChildAbove(src, i, j);
      }
    }
  }

  lemma SettleTidies(src: Source, v: View, i: nat)
    requires Sound(src, v) && i < |src.first| && v.handles[i] != 0 && Tidy(src, v, i, src.count[i])
    ensures Sound(src, Settle(src, v, i))
    ensures forall j: nat :: j < |src.first| && Region(src, i, j) ==> Supported(src, Settle(src, v, i), j)
  {
    var r := Settle(src, v, i);
    SettleTouches(src, v, i);
    forall c: nat, j: nat | IsChild(src, i, c) && j < |src.first| && Region(src, c, j)
      ensures Supported(src, r, j)
    {
      RegionUp(src, i, c, j);
      AboveParent(src, i, j);
      assert NodeKept(v, r, j);
      forall k: nat | IsChild(src, j, k) && k < |src.first|
        ensures NodeKept(v, r, k)
      {
        ChildFacts(src, j, k);
      }
      SupportedKept(src, v, r, j);
    }
    TidyWhole(src, r, i);
  }

  /** Below i every live node has a live parent. */
  ghost predicate ClosedIn(src: Source, v: View, i: nat)
    requires Sound(src, v) && i < |src.first|
  {
    forall j: nat :: j < |src.first| && Above(src, i, j) && v.handles[j] != 0 ==> v.handles[src.parent[j]] != 0
  }

  lemma {:induction false} DeadBelow(src: Source, v: View, i: nat, j: nat)
    requires Sound(src, v) && i < |src.first| && j < |src.first| && ClosedIn(src, v, i)
    requires v.handles[i] == 0 && Region(src, i, j)
    ensures v.handles[j] == 0
  {
    if j != i && src.parent[j] != i {
      DeadBelow(src, v, i, src.parent[j]);
    }
  }

  /** After work on earlier children a later child's subtree is as closed as before. */
  lemma ClosedLater(src: Source, v: View, m: View, i: nat, n: nat, c: nat)
    requires Sound(src, v) && i < |src.first| && ClosedIn(src, v, i) && n < src.count[i] && c == src.first[i] + n
    requires Sound(src, m) && EarlierOnly(src, v, m, i, n)
    ensures ClosedIn(src, m, c)
  {
    forall j: nat | j < |src.first| && Above(src, c, j) && m.handles[j] != 0
      ensures m.handles[src.parent[j]] != 0
    {
      RegionUp(src, i, c, j);
      assert Region(src, c, src.parent[j]);
      LaterKept(src, v, m, i, n, c, j);
      LaterKept(src, v, m, i, n, c, src.parent[j]);
    }
  }

  /** Only the subtrees of the first n children have changed. */
  ghost predicate EarlierOnly(src: Source, v: View, m: View, i: nat, n: nat)
    requires ValidSource(src) && i < |src.first| == |v.handles| == |m.handles|
  {
    forall j: nat {:trigger NodeKept(v, m, j)} :: j < |src.first| ==>
      NodeKept(v, m, j) || exists c: nat :: src.first[i] <= c < src.first[i] + n && Region(src, c, j)
  }

  lemma LaterKept(src: Source, v: View, m: View, i: nat, n: nat, c: nat, j: nat)
    requires ValidSource(src) && i < |src.first| == |v.handles| == |m.handles| && n < src.count[i]
    requires EarlierOnly(src, v, m, i, n) && c == src.first[i] + n && j < |src.first| && Region(src, c, j)
    ensures NodeKept(v, m, j)
  {
    assert NodeKept(v, m, j) || exists d: nat :: src.first[i] <= d < src.first[i] + n && Region(src, d, j);
    if d: nat :| src.first[i] <= d < src.first[i] + n && Region(src, d, j) {
      Apart(src, i, d, c, j);
    }
  }

  lemma EarlierMore(src: Source, v: View, m: View, r: View, i: nat, n: nat)
    requires Sound(src, v) && i < |src.first| == |m.handles| && n < src.count[i] && EarlierOnly(src, v, m, i, n)
    requires Touches(src, m, r, src.first[i] + n, true)
    ensures EarlierOnly(src, v, r, i, n + 1)
  {
    forall j: nat | j < |src.first|
      ensures NodeKept(v, r, j) || exists c: nat :: src.first[i] <= c < src.first[i] + n + 1 && Region(src, c, j)
    {
      assert NodeKept(v, m, j) || exists c: nat :: src.first[i] <= c < src.first[i] + n && Region(src, c, j);
      assert NodeKept(m, r, j) || Region(src, src.first[i] + n, j);
    }
  }

  /** The work on one more child keeps what is known about the earlier ones. */
  lemma TidyStep(src: Source, v: View, m: View, r: View, i: nat, n: nat, c: nat)
    requires Sound(src, v) && Sound(src, m) && Sound(src, r) && i < |src.first| && n < src.count[i]
    requires c == src.first[i] + n && Touches(src, m, r, c, true)
    requires Tidy(src, m, i, n) && EarlierOnly(src, v, m, i, n)
    requires forall j: nat :: j < |src.first| && Region(src, c, j) ==> Supported(src, r, j)
    ensures Tidy(src, r, i, n + 1) && EarlierOnly(src, v, r, i, n + 1)
  {
    hide Tidy, EarlierOnly, Supported, Touches, Sound, Region;
    SoundShape(src, v);
    SoundShape(src, m);
    TidyMore(src, m, r, i, n);
    EarlierMore(src, v, m, r, i, n);
  }

  lemma SoundShape(src: Source, v: View)
    requires Sound(src, v)
    ensures ValidSource(src) && |v.handles| == |src.first|
  {
  }

  /** After a snap every node of the subtree is supported. */
  lemma {:induction false} SnapTidies(src: Source, lane: Lane, v: View, i: nat)
    requires Sound(src, v) && i < |src.first| && ClosedIn(src, v, i)
    ensures var r := Snap(src, lane, v, i);
            Sound(src, r) && forall j: nat :: j < |src.first| && Region(src, i, j) ==> Supported(src, r, j)
    decreases |src.first| - i, 0, 0
  {
    if v.handles[i] == 0 {
      DeadIsSupported(src, v, i);
    } else {
      var s := Arrived(v.info[v.handles[i]].On(lane));
      var v1 := Put(src, lane, v, i, s);
      PutTouches(src, lane, v, i, s);
      SnapChildrenTidy(src, lane, v1, i, src.count[i]);
      SnapChildrenTouch(src, lane, v1, i, src.count[i]);
      StillLive(src, v1, SnapChildren(src, lane, v1, i, src.count[i]), i);
      SettleTidies(src, SnapChildren(src, lane, v1, i, src.count[i]), i);
    }
  }

  lemma DeadIsSupported(src: Source, v: View, i: nat)
    requires Sound(src, v) && i < |src.first| && ClosedIn(src, v, i) && v.handles[i] == 0
    ensures forall j: nat :: j < |src.first| && Region(src, i, j) ==> Supported(src, v, j)
  {
    forall j: nat | j < |src.first| && Region(src, i, j)
      ensures v.handles[j] == 0
    {
      DeadBelow(src, v, i, j);
    }
  }

  lemma {:induction false} SnapChildrenTidy(src: Source, lane: Lane, v: View, i: nat, n: nat)
    requires Sound(src, v) && i < |src.first| && n <= src.count[i] && ClosedIn(src, v, i)
    ensures var r := SnapChildren(src, lane, v, i, n);
            Sound(src, r) && Tidy(src, r, i, n) && EarlierOnly(src, v, r, i, n)
    decreases |src.first| - i - 1, 1, n
  {
    if n > 0 {
      var c := src.first[i] + n - 1;
      ChildFacts(src, i, c);
      SnapChildrenTidy(src, lane, v, i, n - 1);
      var m := SnapChildren(src, lane, v, i, n - 1);
      ClosedLater(src, v, m, i, n - 1, c);
      SnapTouches(src, lane, m, c);
      SnapTidies(src, lane, m, c);
      TidyStep(src, v, m, Snap(src, lane, m, c), i, n - 1, c);
    }
  }

  /** After an update every node of the subtree is supported: whatever no lane and no
      child keeps has been freed. */
  lemma {:induction false} AdvanceTidies(src: Source, w: Walk, step: real, v: View, i: nat)
    requires Sound(src, v) && i < |src.first| && ClosedIn(src, v, i) && step >= 0.0
    ensures var r := Advance(src, w, step, v, i);
            Sound(src, r) && forall j: nat :: j < |src.first| && Region(src, i, j) ==> Supported(src, r, j)
    decreases |src.first| - i, 0, 0
  {
    if v.handles[i] == 0 {
      DeadIsSupported(src, v, i);
    } else {
      var s := MovedAt(src, v, w, step, i);
      var v1 := Put(src, w.On(), v, i, s);
      PutTouches(src, w.On(), v, i, s);
      if src.count[i] == 0 {
        SettleTidies(src, v1, i);
      } else if AtRest(s) {
        var v2 := SnapChildren(src, w.On(), v1, i, src.count[i]);
        SnapChildrenTidy(src, w.On(), v1, i, src.count[i]);
        SnapChildrenTouch(src, w.On(), v1, i, src.count[i]);
        StillLive(src, v1, v2, i);
        SettleTidies(src, v2, i);
      } else {
        var below := WalkBelow(src, w, i, s);
        var v2 := AdvanceChildren(src, below, step, v1, i, src.count[i]);
        AdvanceChildrenTidy(src, below, step, v1, i, src.count[i]);
        AdvanceChildrenTouch(src, below, step, v1, i, src.count[i]);
        StillLive(src, v1, v2, i);
        TidyWhole(src, v2, i);
      }
    }
  }

  lemma {:induction false} AdvanceChildrenTidy(src: Source, w: Walk, step: real, v: View, i: nat, n: nat)
    requires Sound(src, v) && i < |src.first| && n <= src.count[i] && ClosedIn(src, v, i) && step >= 0.0
    ensures var r := AdvanceChildren(src, w, step, v, i, n);
            Sound(src, r) && Tidy(src, r, i, n) && EarlierOnly(src, v, r, i, n)
    decreases |src.first| - i - 1, 1, n
  {
    if n > 0 {
      var c := src.first[i] + n - 1;
      ChildFacts(src, i, c);
      AdvanceChildrenTidy(src, w, step, v, i, n - 1);
      var m := AdvanceChildren(src, w, step, v, i, n - 1);
      ClosedLater(src, v, m, i, n - 1, c);
      AdvanceTouches(src, w, step, m, c);
      AdvanceTidies(src, w, step, m, c);
      TidyStep(src, v, m, Advance(src, w, step, m, c), i, n - 1, c);
    }
  }

  /** Work below a node leaves the node itself as it is. */
  lemma StillLive(src: Source, v: View, r: View, i: nat)
    requires Touches(src, v, r, i, false) && i < |src.first|
    ensures NodeKept(v, r, i)
  {
    if Above(src, i, i) {
      AboveParent(src, i, i);
    }
    assert NodeKept(v, r, i);
  }

  // ----- who blends, and by which clock -----

  /** The lane of a node after one step still has or wants weight. */
  ghost predicate Carries(v: View, lane: Lane, step: real, j: nat)
    requires j < |v.handles| && v.handles[j] < |v.info| && step >= 0.0
  {
    !AtRest(BlendStep(v.info[v.handles[j]].On(lane), step))
  }

  /** From i down to j all nodes are live, and all but j itself carry on. */
  ghost predicate Moving(src: Source, v: View, lane: Lane, step: real, i: nat, j: nat)
    requires Sound(src, v) && i < |src.first| && j < |src.first| && Region(src, i, j) && step >= 0.0
  {
    && v.handles[j] != 0
    && (j == i || (Carries(v, lane, step, src.parent[j]) && Moving(src, v, lane, step, i, src.parent[j])))
  }

  /** The walk that reaches j when it starts at i as `w`. */
  ghost function WalkAt(src: Source, v: View, w: Walk, step: real, i: nat, j: nat): Walk
    requires ValidSource(src) && i < |src.first| && j < |src.first| && Region(src, i, j) && step >= 0.0
    decreases j
  {
    if j == i then w
    else
      var p := src.parent[j];
      var above := WalkAt(src, v, w, step, i, p);
      WalkBelow(src, above, p, MovedAt(src, v, above, step, p))
  }

  /** The record of j took one step of this walk and changed in no other way. */
  ghost predicate Stepped(src: Source, v: View, r: View, w: Walk, step: real, j: nat)
    requires ValidSource(src) && j < |src.first| && step >= 0.0
    requires j < |v.handles| && v.handles[j] < |v.info| == |r.info|
  {
    r.info[v.handles[j]] == v.info[v.handles[j]].With(w.On(), MovedAt(src, v, w, step, j))
  }

  lemma {:induction false} WalkLane(src: Source, v: View, w: Walk, step: real, i: nat, j: nat)
    requires ValidSource(src) && i < |src.first| && j < |src.first| && Region(src, i, j) && step >= 0.0
    ensures WalkAt(src, v, w, step, i, j).On() == w.On()
    ensures !w.Free? ==> WalkAt(src, v, w, step, i, j) == w
  {
    if j != i {
      WalkLane(src, v, w, step, i, src.parent[j]);
    }
  }

  lemma {:induction false} RegionThen(src: Source, i: nat, a: nat, j: nat)
    requires ValidSource(src) && i < |src.first| && a < |src.first| && j < |src.first|
    requires Region(src, i, a) && Region(src, a, j)
    ensures Region(src, i, j) && i <= a <= j
  {
    if j != a {
      AboveParent(src, a, j);
      RegionThen(src, i, a, src.parent[j]);
    } else if i != a {
      AboveParent(src, i, a);
    }
  }

  /** A walk can be followed in two stretches. */
  lemma {:induction false} WalkSplit(src: Source, v: View, w: Walk, step: real, i: nat, a: nat, j: nat)
    requires ValidSource(src) && i < |src.first| && a < |src.first| && j < |src.first| && step >= 0.0
    requires Region(src, i, a) && Region(src, a, j)
    ensures Region(src, i, j)
    ensures WalkAt(src, v, w, step, i, j) == WalkAt(src, v, WalkAt(src, v, w, step, i, a), step, a, j)
  {
    RegionThen(src, i, a, j);
    if j != a {
      if j == i {
        AboveParent(src, a, j);
      }
      WalkSplit(src, v, w, step, i, a, src.parent[j]);
    }
  }

  /** Two states that agree on a subtree. */
  ghost predicate Alike(src: Source, v: View, m: View, c: nat) {
    && Sound(src, v) && Sound(src, m) && |v.info| == |m.info| && c < |src.first|
    && forall k: nat {:trigger NodeKept(v, m, k)} :: k < |src.first| && Region(src, c, k) ==> NodeKept(v, m, k)
  }

  lemma AlikeBelow(src: Source, v: View, m: View, c: nat, d: nat)
    requires Alike(src, v, m, c) && d < |src.first| && Region(src, c, d)
    ensures Alike(src, v, m, d)
  {
    forall k: nat | k < |src.first| && Region(src, d, k)
      ensures NodeKept(v, m, k)
    {
      RegionThen(src, c, d, k);
    }
  }

  lemma AlikeHere(src: Source, v: View, m: View, c: nat, lane: Lane)
    requires Alike(src, v, m, c)
    ensures StateIn(v, c, lane) == StateIn(m, c, lane) && NodeKept(v, m, c)
  {
    assert NodeKept(v, m, c);
  }

  lemma {:induction false} FrequencyKept(src: Source, v: View, m: View, i: nat)
    requires Alike(src, v, m, i)
    ensures Frequency(src, v, i) == Frequency(src, m, i)
    decreases |src.first| - i, 0, 0
  {
    FrequencyOfKept(src, v, m, i, src.count[i]);
  }

  lemma {:induction false} FrequencyOfKept(src: Source, v: View, m: View, i: nat, n: nat)
    requires Alike(src, v, m, i) && n <= src.count[i]
    ensures FrequencyOf(src, v, i, n) == FrequencyOf(src, m, i, n)
    decreases |src.first| - i - 1, 1, n
  {
    if n > 0 {
      var c := src.first[i] + n - 1;
      ChildFacts(src, i, c);
      FrequencyOfKept(src, v, m, i, n - 1);
      AlikeBelow(src, v, m, i, c);
      AlikeHere(src, v, m, c, Client);
      FrequencyKept(src, v, m, c);
    }
  }

  lemma MovedKept(src: Source, v: View, m: View, w: Walk, step: real, j: nat)
    requires Alike(src, v, m, j) && step >= 0.0
    ensures MovedAt(src, v, w, step, j) == MovedAt(src, m, w, step, j)
  {
    FrequencyKept(src, v, m, j);
    AlikeHere(src, v, m, j, w.On());
  }

  /** A path through a subtree that two states agree on is the same in both. */
  lemma {:induction false} PathKept(src: Source, v: View, m: View, w: Walk, step: real, c: nat, j: nat)
    requires Alike(src, v, m, c) && j < |src.first| && Region(src, c, j) && step >= 0.0
    ensures WalkAt(src, v, w, step, c, j) == WalkAt(src, m, w, step, c, j)
    ensures Moving(src, v, w.On(), step, c, j) ==> Moving(src, m, w.On(), step, c, j)
  {
    AlikeBelow(src, v, m, c, j);
    AlikeHere(src, v, m, j, w.On());
    if j != c {
      var p := src.parent[j];
      AboveParent(src, c, j);
      PathKept(src, v, m, w, step, c, p);
      AlikeBelow(src, v, m, c, p);
      AlikeHere(src, v, m, p, w.On());
      MovedKept(src, v, m, WalkAt(src, v, w, step, c, p), step, p);
    }
  }

  /** The path down to j starts with the child above it. */
  lemma {:induction false} MovingChild(src: Source, v: View, lane: Lane, step: real, i: nat, j: nat, c: nat)
    requires Sound(src, v) && i < |src.first| && j < |src.first| && step >= 0.0
    requires IsChild(src, i, c) && c < |src.first| && Region(src, c, j) && Region(src, i, j)
    requires Moving(src, v, lane, step, i, j)
    ensures Moving(src, v, lane, step, c, j) && Carries(v, lane, step, i) && v.handles[i] != 0
  {
    ChildFacts(src, i, c);
    if j == c {
      assert Region(src, i, src.parent[j]);
    } else {
      RegionUp(src, i, c, j);
      AboveParent(src, c, j);
      assert Region(src, c, src.parent[j]);
      RegionUp(src, i, c, src.parent[j]);
      MovingChild(src, v, lane, step, i, src.parent[j], c);
    }
  }

  lemma {:induction false} MovingLive(src: Source, v: View, lane: Lane, step: real, i: nat, j: nat)
    requires Sound(src, v) && i < |src.first| && j < |src.first| && step >= 0.0
    requires Region(src, i, j) && Moving(src, v, lane, step, i, j)
    ensures v.handles[i] != 0 && v.handles[j] != 0
  {
    if j != i {
      MovingLive(src, v, lane, step, i, src.parent[j]);
    }
  }

  /** What the walk from i promises of node j below it. */
  ghost predicate SteppedFrom(src: Source, v: View, r: View, w: Walk, step: real, i: nat, j: nat)
    requires ValidSource(src) && i < |src.first| && j < |src.first| && Region(src, i, j) && step >= 0.0
    requires j < |v.handles| && v.handles[j] < |v.info|
  {
    && |r.info| == |v.info| && |r.handles| == |v.handles|
    && (r.handles[j] != 0 ==> Stepped(src, v, r, WalkAt(src, v, w, step, i, j), step, j))
  }

  /** Every node on a moving path that survives has taken exactly one step of
      the walk that reaches it: weight, time and cycle, and nothing else. */
  lemma {:induction false} AdvanceBlends(src: Source, w: Walk, step: real, v: View, i: nat, j: nat)
    requires Sound(src, v) && i < |src.first| && j < |src.first| && step >= 0.0
    requires Region(src, i, j) && Moving(src, v, w.On(), step, i, j)
    ensures SteppedFrom(src, v, Advance(src, w, step, v, i), w, step, i, j)
    decreases |src.first| - i, 0, 0
  {
    MovingLive(src, v, w.On(), step, i, j);
    AdvanceTouches(src, w, step, v, i);
    if j == i {
      OwnRecord(src, w, step, v, i);
    } else {
      var c := ChildAbove(src, i, j);
      MovingChild(src, v, w.On(), step, i, j, c);
      var s := MovedAt(src, v, w, step, i);
      MovedWeights(src, w, step, Frequency(src, v, i), i, StateIn(v, i, w.On()));
      var v1, below := Put(src, w.On(), v, i, s), WalkBelow(src, w, i, s);
      PutAlike(src, w.On(), v, i, s, c);
      PathKept(src, v, v1, below, step, c, j);
      AdvanceChildrenBlend(src, below, step, v1, i, src.count[i], c, j);
      Rebased(src, v, v1, AdvanceChildren(src, below, step, v1, i, src.count[i]), w, below, step, i, c, j);
    }
  }

  /** Writing node i leaves the subtrees of its children alone. */
  lemma PutAlike(src: Source, lane: Lane, v: View, i: nat, s: State, c: nat)
    requires Sound(src, v) && i < |src.first| && IsChild(src, i, c) && c < |src.first|
    ensures Alike(src, v, Put(src, lane, v, i, s), c)
  {
    PutTouches(src, lane, v, i, s);
    forall k: nat | k < |src.first| && Region(src, c, k)
      ensures NodeKept(v, Put(src, lane, v, i, s), k)
    {
      RegionUp(src, i, c, k);
      AboveParent(src, i, k);
    }
  }

  /** What holds from a child's walk on holds from its parent's. */
  lemma Rebased(src: Source, v: View, m: View, r: View, w: Walk, below: Walk, step: real, i: nat, c: nat, j: nat)
    requires Alike(src, v, m, c) && i < |src.first| && j < |src.first| && step >= 0.0
    requires IsChild(src, i, c) && Region(src, c, j) && below == WalkBelow(src, w, i, MovedAt(src, v, w, step, i))
    requires SteppedFrom(src, m, r, below, step, c, j) && v.handles[j] != 0
    ensures Region(src, i, j) && SteppedFrom(src, v, r, w, step, i, j)
  {
    ChildFacts(src, i, c);
    assert WalkAt(src, v, w, step, i, c) == below;
    WalkSplit(src, v, w, step, i, c, j);
    SteppedAlike(src, v, m, r, below, step, c, j);
  }

  /** The walk through a subtree does the same from either of two states that agree on it. */
  lemma SteppedAlike(src: Source, v: View, m: View, r: View, w: Walk, step: real, c: nat, j: nat)
    requires Alike(src, v, m, c) && j < |src.first| && step >= 0.0 && Region(src, c, j)
    requires SteppedFrom(src, m, r, w, step, c, j) && v.handles[j] != 0
    ensures SteppedFrom(src, v, r, w, step, c, j)
  {
    PathKept(src, v, m, w, step, c, j);
    AlikeBelow(src, v, m, c, j);
    AlikeHere(src, v, m, j, w.On());
    MovedKept(src, v, m, WalkAt(src, v, w, step, c, j), step, j);
  }

  lemma OwnRecord(src: Source, w: Walk, step: real, v: View, i: nat)
    requires Sound(src, v) && i < |src.first| && v.handles[i] != 0 && step >= 0.0
    ensures var r := Advance(src, w, step, v, i);
            |r.info| == |v.info| && Stepped(src, v, r, w, step, i)
  {
    var s := MovedAt(src, v, w, step, i);
    var v1, below := Put(src, w.On(), v, i, s), WalkBelow(src, w, i, s);
    PutTouches(src, w.On(), v, i, s);
    SnapChildrenTouch(src, w.On(), v1, i, src.count[i]);
    StillLive(src, v1, SnapChildren(src, w.On(), v1, i, src.count[i]), i);
    AdvanceChildrenTouch(src, below, step, v1, i, src.count[i]);
    StillLive(src, v1, AdvanceChildren(src, below, step, v1, i, src.count[i]), i);
  }

  lemma {:induction false} AdvanceChildrenBlend(src: Source, w: Walk, step: real, v: View, i: nat, n: nat,
                                                c: nat, j: nat)
    requires Sound(src, v) && i < |src.first| && j < |src.first| && step >= 0.0 && n <= src.count[i]
    requires src.first[i] <= c < src.first[i] + n && c < |src.first| && Region(src, c, j)
    requires Moving(src, v, w.On(), step, c, j)
    ensures SteppedFrom(src, v, AdvanceChildren(src, w, step, v, i, n), w, step, c, j)
    decreases |src.first| - i - 1, 1, n
  {
    hide SteppedFrom, Moving, WalkAt, Advance;
    var d := src.first[i] + n - 1;
    ChildFacts(src, i, d);
    var m := AdvanceChildren(src, w, step, v, i, n - 1);
    AdvanceChildrenOnly(src, w, step, v, i, n - 1);
    AdvanceChildrenTouch(src, w, step, v, i, n - 1);
    if c == d {
      LastChildBlends(src, w, step, v, m, i, n - 1, c, j);
    } else {
      AdvanceChildrenBlend(src, w, step, v, i, n - 1, c, j);
      NextChildKeeps(src, w, step, v, m, i, d, c, j);
    }
  }

  lemma NextChildKeeps(src: Source, w: Walk, step: real, v: View, m: View, i: nat, d: nat, c: nat, j: nat)
    requires Touches(src, v, m, i, false) && i < |src.first| && j < |src.first| && d < |src.first|
    requires step >= 0.0 && c != d && IsChild(src, i, c) && IsChild(src, i, d) && Region(src, c, j)
    requires SteppedFrom(src, v, m, w, step, c, j)
    ensures SteppedFrom(src, v, Advance(src, w, step, m, d), w, step, c, j)
  {
    hide SteppedFrom, Advance, WalkAt;
    AdvanceTouches(src, w, step, m, d);
    SteppedKept(src, v, m, Advance(src, w, step, m, d), w, step, i, c, d, j);
  }

  lemma {:induction false} LastChildBlends(src: Source, w: Walk, step: real, v: View, m: View,
                                           i: nat, n: nat, c: nat, j: nat)
    requires Sound(src, v) && Sound(src, m) && |v.info| == |m.info| && i < |src.first| && j < |src.first|
    requires step >= 0.0 && n < src.count[i] && c == src.first[i] + n && i < c < |src.first| && Region(src, c, j)
    requires EarlierOnly(src, v, m, i, n) && Moving(src, v, w.On(), step, c, j)
    ensures SteppedFrom(src, v, Advance(src, w, step, m, c), w, step, c, j)
    decreases |src.first| - i - 1, 1, n
  {
    hide SteppedFrom, EarlierOnly, Alike, WalkAt, Moving, Advance;
    LaterAlike(src, v, m, i, n, c);
    PathKept(src, v, m, w, step, c, j);
    AdvanceBlends(src, w, step, m, c, j);
    MovingLive(src, v, w.On(), step, c, j);
    SteppedAlike(src, v, m, Advance(src, w, step, m, c), w, step, c, j);
  }

  /** Work on earlier children leaves a later one's subtree as it is. */
  lemma LaterAlike(src: Source, v: View, m: View, i: nat, n: nat, c: nat)
    requires Sound(src, v) && Sound(src, m) && |v.info| == |m.info| && i < |src.first|
    requires n < src.count[i] && c == src.first[i] + n && c < |src.first| && EarlierOnly(src, v, m, i, n)
    ensures Alike(src, v, m, c)
  {
    forall k: nat | k < |src.first| && Region(src, c, k)
      ensures NodeKept(v, m, k)
    {
      LaterKept(src, v, m, i, n, c, k);
    }
  }

  lemma SteppedKept(src: Source, v: View, m: View, r: View, w: Walk, step: real, i: nat, c: nat, d: nat, j: nat)
    requires Touches(src, v, m, i, false) && Touches(src, m, r, d, true) && i < |src.first| && j < |src.first|
    requires step >= 0.0 && c != d && IsChild(src, i, c) && IsChild(src, i, d) && Region(src, c, j)
    requires SteppedFrom(src, v, m, w, step, c, j)
    ensures SteppedFrom(src, v, r, w, step, c, j)
  {
    Apart(src, i, c, d, j);
    assert NodeKept(m, r, j);
  }

  lemma {:induction false} AdvanceChildrenOnly(src: Source, w: Walk, step: real, v: View, i: nat, n: nat)
    requires Sound(src, v) && i < |src.first| && n <= src.count[i] && step >= 0.0
    ensures var r := AdvanceChildren(src, w, step, v, i, n);
            Sound(src, r) && |r.info| == |v.info| && EarlierOnly(src, v, r, i, n)
    decreases n
  {
    if n > 0 {
      var c := src.first[i] + n - 1;
      ChildFacts(src, i, c);
      AdvanceChildrenOnly(src, w, step, v, i, n - 1);
      OneMoreOnly(src, w, step, v, AdvanceChildren(src, w, step, v, i, n - 1), i, n - 1, c);
    }
  }

  lemma OneMoreOnly(src: Source, w: Walk, step: real, v: View, m: View, i: nat, n: nat, c: nat)
    requires Sound(src, v) && Sound(src, m) && |m.info| == |v.info| && step >= 0.0 && i < |src.first|
    requires EarlierOnly(src, v, m, i, n) && n < src.count[i] && c == src.first[i] + n < |src.first|
    ensures var r := Advance(src, w, step, m, c);
            Sound(src, r) && |r.info| == |v.info| && EarlierOnly(src, v, r, i, n + 1)
  {
    hide Advance, EarlierOnly;
    AdvanceTouches(src, w, step, m, c);
    EarlierMore(src, v, m, Advance(src, w, step, m, c), i, n);
  }

  // ----- a whole tree -----

  lemma {:induction false} RootRegion(src: Source, j: nat)
    requires ValidSource(src) && j < |src.first|
    ensures Region(src, 0, j)
  {
    if j != 0 {
      RootRegion(src, src.parent[j]);
    }
  }

  /** Every live node is supported, and every survivor on a path of weights has
      taken one step of the walk that reaches it. */
  ghost predicate Swept(src: Source, w: Walk, step: real, v: View, r: View) {
    && Sound(src, v) && Sound(src, r) && |r.info| == |v.info| && step >= 0.0
    && forall j: nat {:trigger Supported(src, r, j)} :: j < |src.first| ==>
         Supported(src, r, j) && Region(src, 0, j) &&
         (Moving(src, v, w.On(), step, 0, j) ==> SteppedFrom(src, v, r, w, step, 0, j))
  }

  lemma SweptWhole(src: Source, w: Walk, step: real, v: View)
    requires Sound(src, v) && ClosedIn(src, v, 0) && step >= 0.0
    ensures Swept(src, w, step, v, Advance(src, w, step, v, 0))
  {
    AdvanceTouches(src, w, step, v, 0);
    AdvanceTidies(src, w, step, v, 0);
    forall j: nat | j < |src.first|
      ensures Region(src, 0, j)
      ensures Supported(src, Advance(src, w, step, v, 0), j)
    {
      RootRegion(src, j);
    }
    forall j: nat | j < |src.first| && Region(src, 0, j) && Moving(src, v, w.On(), step, 0, j)
      ensures SteppedFrom(src, v, Advance(src, w, step, v, 0), w, step, 0, j)
    {
      AdvanceBlends(src, w, step, v, 0, j);
    }
  }

  /** Below a sync node that keeps its own time every survivor on a path of
      weights ends the frame on the clock of the sync node. */
  lemma SyncedTogether(src: Source, w: Walk, step: real, v: View, r: View, a: nat, j: nat)
    requires Swept(src, w, step, v, r) && w.Free? && a < |src.first| && j < |src.first|
    requires src.sync[a] && Above(src, a, j) && Region(src, 0, a) && Region(src, 0, j)
    requires WalkAt(src, v, w, step, 0, a).Free? && Moving(src, v, Client, step, 0, j) && r.handles[j] != 0
    ensures v.handles[a] != 0
    ensures ClockOf(r.info[v.handles[j]].client) == ClockOf(MovedAt(src, v, WalkAt(src, v, w, step, 0, a), step, a))
    ensures r.handles[a] != 0 ==> ClockOf(r.info[v.handles[j]].client) == ClockOf(r.info[v.handles[a]].client)
  {
    AboveParent(src, a, j);
    assert Supported(src, r, j) && Supported(src, r, a);
    var c := ChildAbove(src, a, j);
    MovingSplit(src, v, step, a, j);
    WalkSplit(src, v, w, step, 0, a, j);
    var top := WalkAt(src, v, w, step, 0, a);
    ChildFacts(src, a, c);
    WalkSplit(src, v, top, step, a, c, j);
    WalkLane(src, v, WalkAt(src, v, top, step, a, c), step, c, j);
  }

  /** A moving path from the root moves at every node above its end. */
  lemma {:induction false} MovingSplit(src: Source, v: View, step: real, a: nat, j: nat)
    requires Sound(src, v) && a < |src.first| && j < |src.first| && step >= 0.0
    requires Region(src, 0, a) && Region(src, a, j) && Region(src, 0, j) && Moving(src, v, Client, step, 0, j)
    ensures Moving(src, v, Client, step, 0, a)
  {
    if j != a {
      AboveParent(src, a, j);
      RegionThen(src, 0, a, src.parent[j]);
      MovingSplit(src, v, step, a, src.parent[j]);
    }
  }
}
