/** Whole runs of animation-tree operations. */
module AnimRuns {
  import opened AnimClocks
  import opened AnimPool
  import opened AnimRuntime
  import opened AnimTransfer
  import opened AnimUpdates
  import opened AnimWeights
  import opened Words

  /** How a goal is set: weight, blend time, rate, and what is notified. */
  datatype Aim = Aim(weight: real, blendTime: real, rate: real, name: Word, notifyType: Word)

  datatype Op =
    | NewTree(src: Source)
    | SetWeight(t: nat, i: nat, lane: Lane, aim: Aim)
    | SetComplete(t: nat, i: nat, lane: Lane, aim: Aim)
    | SetKnob(t: nat, i: nat, lane: Lane, aim: Aim, complete: bool)
    | SetKnobAll(t: nat, i: nat, knob: nat, lane: Lane, aim: Aim)
    | ClearWeight(t: nat, i: nat, lane: Lane, blendTime: real)
    | ClientUpdate(t: nat, step: real)
    | ServerUpdate(t: nat, step: real)
    | Clone(a: nat, b: nat)
    | Reload(a: nat, b: nat)
    | Clear(t: nat)

  ghost predicate AllClosed(trees: seq<Tree>) {
    forall t :: 0 <= t < |trees| ==> LiveClosed(trees[t])
  }

  /** What an operation demands of its caller in the current state. */
  predicate Callable(rt: Runtime, op: Op)
    reads rt
  {
    match op
    case NewTree(src) => ValidSource(src)
    case SetWeight(t, i, _, _) => IsNode(rt, t, i)
    case SetComplete(t, i, _, _) => IsNode(rt, t, i)
    case SetKnob(t, i, _, _, _) => IsNode(rt, t, i)
    case SetKnobAll(t, i, _, _, _) => IsNode(rt, t, i)
    case ClearWeight(t, i, _, _) => IsNode(rt, t, i)
    case ClientUpdate(t, step) => t < |rt.trees| && step >= 0.0
    case ServerUpdate(t, step) => t < |rt.trees| && step >= 0.0
    case Clone(a, b) => Matched(rt, a, b)
    case Reload(a, b) => Matched(rt, a, b) && Live(rt.trees[b].handles) == {}
    case Clear(t) => t < |rt.trees|
  }

  predicate IsNode(rt: Runtime, t: nat, i: nat)
    reads rt
  {
    t < |rt.trees| && i < |rt.trees[t].handles|
  }

  /** Two trees over the same source. */
  predicate Matched(rt: Runtime, a: nat, b: nat)
    reads rt
  {
    a < |rt.trees| && b < |rt.trees| && a != b && rt.trees[a].src == rt.trees[b].src
  }

  /** The nodes an operation adds. */
  function NewNodes(op: Op): nat {
    if op.NewTree? then |op.src.first| else 0
  }

  function AllNewNodes(ops: seq<Op>): nat {
    if ops == [] then 0 else AllNewNodes(ops[..|ops| - 1]) + NewNodes(ops[|ops| - 1])
  }

  /** The pool is full while some tree has a dead node. */
  ghost predicate Exhausted(rt: Runtime)
    reads rt
  {
    rt.used == POOL && exists t: nat :: t < |rt.trees| && HasDead(rt.trees[t])
  }

  /** Trees keep their sizes. */
  ghost predicate SameSizes(before: seq<Tree>, after: seq<Tree>) {
    |before| == |after| && forall t :: 0 <= t < |before| ==> |after[t].handles| == |before[t].handles|
  }

  lemma {:induction false} SameNodeCount(before: seq<Tree>, after: seq<Tree>)
    requires SameSizes(before, after)
    ensures NodeCount(before) == NodeCount(after)
  {
    if before != [] {
      SameNodeCount(before[..|before| - 1], after[..|after| - 1]);
    }
  }

  /** A pool that is full while a node is dead belongs to trees that outgrow it. */
  lemma ExhaustedTooBig(rt: Runtime)
    requires rt.Valid() && Exhausted(rt)
    ensures 1 + NodeCount(rt.trees) > POOL
  {
    Census(rt.next, rt.prev, rt.stack, rt.owner, rt.trees);
    LiveAmongNodes(rt.trees);
  }

  /** Every operation keeps every tree closed, unless the pool is full when it
      needs a record; and even then the pool and all references are intact. */
  method Do(rt: Runtime, op: Op) returns (ok: bool)
    requires rt.Valid() && AllClosed(rt.trees) && Callable(rt, op)
    modifies rt
    ensures rt.Valid() && NodeCount(rt.trees) == NodeCount(old(rt.trees)) + NewNodes(op)
    ensures if ok then AllClosed(rt.trees) else Exhausted(rt)
  {
    hide PoolOk, Names, ValidSource;
    ok := true;
    if op.NewTree? {
      AddNodes(rt, op.src);
    } else {
      ghost var before := rt.trees;
      ok := DoTree(rt, op);
      SameNodeCount(before, rt.trees);
    }
  }

  method AddNodes(rt: Runtime, src: Source)
    requires rt.Valid() && AllClosed(rt.trees) && ValidSource(src)
    modifies rt
    ensures rt.Valid() && NodeCount(rt.trees) == NodeCount(old(rt.trees)) + |src.first| && AllClosed(rt.trees)
  {
    hide PoolOk, Names, ValidSource;
    ghost var before := rt.trees;
    var t := rt.AddTree(src);
    assert rt.trees[..|rt.trees| - 1] == before;
  }

  /** The operations on existing trees. */
  method DoTree(rt: Runtime, op: Op) returns (ok: bool)
    requires rt.Valid() && AllClosed(rt.trees) && Callable(rt, op) && !op.NewTree?
    modifies rt
    ensures rt.Valid() && SameSizes(old(rt.trees), rt.trees)
    ensures if ok then AllClosed(rt.trees) else Exhausted(rt)
  {
    hide PoolOk, Names, ValidSource;
    ok := true;
    match op
    case SetWeight(_, _, _, _) => ok := DoGoal(rt, op);
    case SetComplete(_, _, _, _) => ok := DoGoal(rt, op);
    case SetKnob(_, _, _, _, _) => ok := DoGoal(rt, op);
    case SetKnobAll(_, _, _, _, _) => ok := DoGoal(rt, op);
    case ClearWeight(t, i, lane, b) => rt.ClearGoalWeight(t, i, lane, b);
    case ClientUpdate(t, step) => Frame(rt, t, Free(step), step);
    case ServerUpdate(t, step) => Frame(rt, t, Stamp, step);
    case Clone(a, b) => ok := DoTransfer(rt, a, b, false);
    case Reload(a, b) => ok := DoTransfer(rt, a, b, true);
    case Clear(t) => rt.ClearTree(t);
  }

  /** The goal setters. */
  method DoGoal(rt: Runtime, op: Op) returns (ok: bool)
    requires rt.Valid() && AllClosed(rt.trees) && Callable(rt, op)
    requires op.SetWeight? || op.SetComplete? || op.SetKnob? || op.SetKnobAll?
    modifies rt
    ensures rt.Valid() && Grown(old(rt.trees), rt.trees, op.t)
    ensures if ok then AllClosed(rt.trees) else Exhausted(rt)
  {
    hide PoolOk, Names, ValidSource, HasDead, LiveClosed, GoalSet, CompleteSet, KnobDone, KnobAllSet;
    var aim := op.aim;
    var code;
    ghost var mid, trail;
    match op
    case SetWeight(t, i, lane, _) =>
      ok, code := rt.SetGoalWeight(t, i, lane, aim.weight, aim.blendTime, aim.rate, aim.name, aim.notifyType);
    case SetComplete(t, i, lane, _) =>
      ok := rt.SetCompleteGoalWeight(t, i, lane, aim.weight, aim.blendTime, aim.rate, aim.name, aim.notifyType);
    case SetKnob(t, i, lane, _, complete) =>
      ok, code, mid := rt.SetGoalWeightKnob(t, i, lane, aim.weight, aim.blendTime, aim.rate, aim.name, aim.notifyType,
                                            complete);
    case SetKnobAll(t, i, knob, lane, _) =>
      ok, code, mid, trail := rt.SetGoalWeightKnobAll(t, i, knob, lane, aim.weight, aim.blendTime, aim.rate,
                                                      aim.name, aim.notifyType);
  }

  /** A runtime tree as the update relations see it. */
  lemma TreeIsSound(rt: Runtime, t: nat)
    requires rt.Valid() && t < |rt.trees| && LiveClosed(rt.trees[t])
    ensures Sound(rt.trees[t].src, rt.Now(t)) && ClosedIn(rt.trees[t].src, rt.Now(t), 0)
  {
    rt.ShapeOk(t);
    forall j | 0 <= j < |rt.trees[t].handles| && rt.trees[t].handles[j] != 0
      ensures rt.trees[t].handles[j] < POOL
      ensures forall k :: 0 <= k < |rt.trees[t].handles| && k != j ==> rt.trees[t].handles[k] != rt.trees[t].handles[j]
    {
      rt.LiveNode(t, j);
      rt.HandlesApart(t, j);
    }
  }

  /** The walks of DObjUpdateClientInfo, which moves times by the frame, and
      DObjInitServerTime, which stamps it, over a whole tree: afterwards a lane
      or a child supports every live node, and every survivor on a path of
      weights has taken one step of the walk. */
  method Frame(rt: Runtime, t: nat, w: Walk, step: real)
    requires rt.Valid() && AllClosed(rt.trees) && t < |rt.trees| && step >= 0.0 && !w.Follow?
    modifies rt
    ensures rt.Valid() && AllClosed(rt.trees) && SameSizes(old(rt.trees), rt.trees)
    ensures rt.trees[t].src == old(rt.trees)[t].src
    ensures Swept(rt.trees[t].src, w, step, old(rt.Now(t)), rt.Now(t))
    ensures FrameMoves(rt.trees[t].src, w, step, old(rt.Now(t)), rt.Now(t))
  {
    hide PoolOk, Names, ValidSource, Swept, Advance, Sound, ClosedIn, FrameMoves;
    TreeIsSound(rt, t);
    rt.ShapeOk(t);
    SweptWhole(rt.trees[t].src, w, step, rt.Now(t));
    AdvanceMoves(rt.trees[t].src, w, step, rt.Now(t));
    if w.Free? {
      rt.UpdateClient(t, 0, w.delta, step);
    } else {
      rt.UpdateSync(t, 0, w, step);
    }
  }

  method DoTransfer(rt: Runtime, a: nat, b: nat, reload: bool) returns (ok: bool)
    requires rt.Valid() && AllClosed(rt.trees) && Matched(rt, a, b)
    requires reload ==> Live(rt.trees[b].handles) == {}
    modifies rt
    ensures rt.Valid() && OtherTrees(old(rt.trees), rt.trees, b)
    ensures if ok then AllClosed(rt.trees) else Exhausted(rt)
  {
    if reload {
      ok := SaveAndLoad(rt, a, b);
    } else {
      ok := CloneTree(rt, a, b);
    }
    hide PoolOk, Names, ValidSource, HasDead;
    if ok {
      SameIsClosed(rt, a, b);
    }
  }

  /** A whole run, skipping calls that break a caller's obligation; it stops
      only at a call that finds the pool full. */
  method RunAll(rt: Runtime, ops: seq<Op>) returns (ok: bool)
    requires rt.Valid() && AllClosed(rt.trees)
    modifies rt
    ensures rt.Valid() && NodeCount(rt.trees) <= NodeCount(old(rt.trees)) + AllNewNodes(ops)
    ensures if ok then AllClosed(rt.trees) else Exhausted(rt)
  {
    hide PoolOk, Names, Exhausted, NodeCount;
    ok := true;
    for i := 0 to |ops|
      invariant rt.Valid() && ok && AllClosed(rt.trees)
      invariant NodeCount(rt.trees) <= NodeCount(old(rt.trees)) + AllNewNodes(ops[..i])
    {
      NewNodesStep(ops, i);
      if Callable(rt, ops[i]) {
        ok := Do(rt, ops[i]);
        if !ok {
          NewNodesGrow(ops, i + 1);
          return;
        }
      }
    }
    assert ops[..|ops|] == ops;
  }

  lemma NewNodesStep(ops: seq<Op>, i: nat)
    requires i < |ops|
    ensures AllNewNodes(ops[..i + 1]) == AllNewNodes(ops[..i]) + NewNodes(ops[i])
  {
    assert ops[..i + 1][..i] == ops[..i];
  }

  lemma {:induction false} NewNodesGrow(ops: seq<Op>, i: nat)
    requires i <= |ops|
    ensures AllNewNodes(ops[..i]) <= AllNewNodes(ops)
  {
    if i == |ops| {
      assert ops[..i] == ops;
    } else {
      assert ops[..|ops| - 1][..i] == ops[..i];
      NewNodesGrow(ops[..|ops| - 1], i);
    }
  }

  /** A run from the initial pool over trees that fit it never fails; and after
      any run that did not fail, clearing every tree leaves every record free
      and every name released. */
  method RunAndClear(ops: seq<Op>) returns (rt: Runtime, ok: bool)
    ensures rt.Valid()
    ensures 1 + AllNewNodes(ops) <= POOL ==> ok
    ensures ok ==> rt.used == 1 && |rt.stack| == POOL - 1 && forall name :: 1 <= name < NAMES ==> rt.refs[name] == 0
  {
    rt := new Runtime();
    ok := RunAll(rt, ops);
    if ok {
      ClearAll(rt);
    } else {
      ExhaustedTooBig(rt);
    }
  }

  /** After any run of operations, clearing every tree gives the whole pool back:
      no record leaks, although clearing stops at dead nodes. */
  method ClearAll(rt: Runtime)
    requires rt.Valid() && AllClosed(rt.trees)
    modifies rt
    ensures rt.Valid() && AllClosed(rt.trees) && |rt.trees| == |old(rt.trees)|
    ensures rt.used == 1 && |rt.stack| == POOL - 1
    ensures forall name :: 1 <= name < NAMES ==> rt.refs[name] == 0
  {
    var t := 0;
    while t < |rt.trees|
      invariant 0 <= t <= |rt.trees| == |old(rt.trees)| && rt.Valid() && AllClosed(rt.trees)
      invariant forall u :: 0 <= u < t ==> Live(rt.trees[u].handles) == {}
    {
      rt.ClearTree(t);
      t := t + 1;
    }
    NothingLeft(rt);
  }

  lemma NothingLeft(rt: Runtime)
    requires rt.Valid() && forall u :: 0 <= u < |rt.trees| ==> Live(rt.trees[u].handles) == {}
    ensures rt.used == 1 && |rt.stack| == POOL - 1
    ensures forall name :: 1 <= name < NAMES ==> rt.refs[name] == 0
  {
    NobodyHolds(rt.owner, rt.trees);
    Conservation(rt.next, rt.prev, rt.stack, rt.owner);
    assert HeldSet(rt.owner, POOL) == {};
    forall name | 1 <= name < NAMES ensures rt.refs[name] == 0 {
      assert Holders(rt.owner, rt.info, 0, name) == {};
    }
  }

  lemma NobodyHolds(owner: seq<Owner>, trees: seq<Tree>)
    requires Owned(owner, trees)
    requires forall u :: 0 <= u < |trees| ==> Live(trees[u].handles) == {}
    ensures forall h :: 0 <= h < POOL ==> !owner[h].Held?
  {
    forall h | 0 <= h < POOL && owner[h].Held? ensures owner[h].node in Live(trees[owner[h].tree].handles) {
    }
  }
}
