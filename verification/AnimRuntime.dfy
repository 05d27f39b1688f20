/** Runtime animation trees over the shared node pool: every operation that
    takes nodes from the pool, gives them back or changes their weights. */
module AnimRuntime {
  import opened AnimGoals
  import opened AnimPool
  import opened AnimWeights
  import opened Words

  /** Tree `t` lost some nodes from index `from` on; nothing else changed in the handle tables. */
  ghost predicate Pruned(before: seq<Tree>, after: seq<Tree>, t: nat, from: nat) {
    && t < |before| == |after|
    && (forall u :: 0 <= u < |before| && u != t ==> after[u] == before[u])
    && after[t].src == before[t].src && |after[t].handles| == |before[t].handles|
    && (forall j :: 0 <= j < |before[t].handles| ==>
                      after[t].handles[j] == before[t].handles[j] || (from <= j && after[t].handles[j] == 0))
  }

  /** From node `i` of tree `t` on, records may have changed and left use; those
      that left use carry no weight, and none came into use. */
  ghost predicate Freed(owner0: seq<Owner>, info0: seq<Info>, owner: seq<Owner>, info: seq<Info>, t: nat, i: nat) {
    && |owner0| == |info0| == |owner| == |info| == POOL
    && forall h :: 0 <= h < POOL ==>
                     && (owner[h].Held? ==> owner[h] == owner0[h])
                     && (info[h] != info0[h] ==> owner0[h].Held? && owner0[h].tree == t && owner0[h].node >= i)
                     && (owner0[h].Held? && !owner[h].Held? ==> info[h].Weightless())
  }

  /** All children of a node are dead. */
  ghost predicate Childless(t: Tree, i: nat) {
    && i < |t.src.first| == |t.src.count|
    && DeadRange(t.handles, t.src.first[i], t.src.first[i] + t.src.count[i])
  }

  ghost predicate DeadRange(handles: seq<nat>, lo: nat, hi: nat) {
    forall c :: lo <= c < hi && c < |handles| ==> handles[c] == 0
  }

  /** Changes from index `hi` on leave the dead range below it alone. */
  lemma DeadRangeStep(before: seq<nat>, after: seq<nat>, lo: nat, hi: nat)
    requires lo <= hi < |before| == |after|
    requires forall j :: 0 <= j < hi ==> after[j] == before[j]
    ensures DeadRange(after, lo, hi + 1) <==> DeadRange(before, lo, hi) && after[hi] == 0
  {
  }

  lemma NothingFreed(owner: seq<Owner>, info: seq<Info>, t: nat, i: nat)
    requires |owner| == |info| == POOL
    ensures Freed(owner, info, owner, info, t, i)
  {
  }

  lemma SettleCase(t: Tree, info: seq<Info>, i: nat)
    requires i < |t.src.first| == |t.src.count| && LiveAt(t.src, View(t.handles, info), i)
    ensures var goes := Childless(t, i) && info[t.handles[i]].Weightless();
            Settle(t.src, View(t.handles, info), i) == View(if goes then t.handles[i := 0] else t.handles, info)
  {
  }

  lemma FreedOne(owner: seq<Owner>, info: seq<Info>, h: nat, t: nat, i: nat, depth: nat)
    requires |owner| == |info| == POOL && h < POOL && info[h].Weightless()
    ensures Freed(owner, info, owner[h := OnFree(depth)], info, t, i)
  {
  }

  lemma FreedThen(o0: seq<Owner>, x0: seq<Info>, o1: seq<Owner>, x1: seq<Info>, o2: seq<Owner>, x2: seq<Info>,
                  t: nat, i: nat, c: nat)
    requires Freed(o0, x0, o1, x1, t, i) && Freed(o1, x1, o2, x2, t, c) && i <= c
    ensures Freed(o0, x0, o2, x2, t, i)
  {
  }

  lemma PrunedThen(a: seq<Tree>, b: seq<Tree>, c: seq<Tree>, t: nat, i: nat, j: nat)
    requires Pruned(a, b, t, i) && Pruned(b, c, t, j) && i <= j
    ensures Pruned(a, c, t, i)
  {
  }

  lemma PruneLeaf(t: Tree, i: nat)
    requires TreeOk(t) && LiveClosed(t) && i < |t.handles| && Childless(t, i)
    ensures LiveClosed(Tree(t.src, t.handles[i := 0], t.active - 1))
  {
  }

  /** Tree `t` gained at most nodes; nothing else changed in the handle tables. */
  ghost predicate Grown(before: seq<Tree>, after: seq<Tree>, t: nat) {
    && t < |before| == |after|
    && (forall u :: 0 <= u < |before| && u != t ==> after[u] == before[u])
    && after[t].src == before[t].src && |after[t].handles| == |before[t].handles|
    && (forall j :: 0 <= j < |before[t].handles| ==>
                      after[t].handles[j] == before[t].handles[j] || before[t].handles[j] == 0)
  }

  lemma GrownThen(a: seq<Tree>, b: seq<Tree>, c: seq<Tree>, t: nat)
    requires Grown(a, b, t) && Grown(b, c, t)
    ensures Grown(a, c, t) && t < |b| == |c| && c[t].src == b[t].src && |c[t].handles| == |b[t].handles|
  {
  }

  /** Only node `i` may be live below a dead parent. */
  ghost predicate ClosedExcept(t: Tree, i: nat) {
    |t.handles| == |t.src.parent| &&
    forall j :: 1 <= j < |t.handles| && j != i && t.handles[j] != 0 ==>
                  t.src.parent[j] < |t.handles| && t.handles[t.src.parent[j]] != 0
  }

  /** Everything about the pool except string references. */
  ghost predicate PoolOk(next: seq<nat>, prev: seq<nat>, stack: seq<nat>, owner: seq<Owner>, info: seq<Info>,
                         used: int, high: int, trees: seq<Tree>)
  {
    && Ring(next, prev, stack, owner) && Owned(owner, trees) && TreesOk(trees)
    && |info| == POOL && used + |stack| == POOL && used <= high
    && info[0].Weightless() && info[0].name == 0
  }

  lemma FreeStep(next: seq<nat>, prev: seq<nat>, stack: seq<nat>, owner: seq<Owner>, info: seq<Info>,
                 used: int, high: int, trees: seq<Tree>, t: nat, i: nat)
    requires PoolOk(next, prev, stack, owner, info, used, high, trees)
    requires t < |trees| && i < |trees[t].handles| && trees[t].handles[i] != 0
    ensures 1 <= trees[t].handles[i] < POOL && owner[trees[t].handles[i]].Held? && next[0] < POOL
    ensures
      var h, tree := trees[t].handles[i], trees[t];
      PoolOk(next[h := next[0]][0 := h], prev[h := 0][next[0] := h], stack + [h], owner[h := OnFree(|stack|)], info,
             used - 1, high, trees[t := Tree(tree.src, tree.handles[i := 0], tree.active - 1)])
  {
    PushRing(next, prev, stack, owner, trees[t].handles[i]);
    OwnedRelease(owner, trees, t, i, |stack|);
    TreeSet(trees[t], i, 0);
  }

  lemma AllocStep(next: seq<nat>, prev: seq<nat>, stack: seq<nat>, owner: seq<Owner>, info: seq<Info>,
                  used: int, high: int, trees: seq<Tree>, t: nat, i: nat)
    requires PoolOk(next, prev, stack, owner, info, used, high, trees)
    requires t < |trees| && i < |trees[t].handles| && trees[t].handles[i] == 0
    ensures next[0] == 0 <==> used == POOL
    ensures next[0] != 0 ==>
              && stack != [] && 1 <= next[0] < POOL && next[next[0]] < POOL && owner[next[0]].OnFree?
              && var h, tree, next1 := next[0], trees[t], next[0 := next[next[0]]];
                 PoolOk(next1, prev[next1[0] := 0], stack[..|stack| - 1], owner[h := Held(t, i)], info,
                        used + 1, if used + 1 > high then used + 1 else high,
                        trees[t := Tree(tree.src, tree.handles[i := h], tree.active + 1)])
  {
    if next[0] != 0 {
      PopRing(next, prev, stack, owner, Held(t, i));
      OwnedTake(owner, trees, t, i, next[0]);
      TreeSet(trees[t], i, next[0]);
    }
  }

  /** Some node of the tree is dead. */
  ghost predicate HasDead(t: Tree) {
    exists i :: 0 <= i < |t.handles| && t.handles[i] == 0
  }

  /** The wrap loop or the clamp of a client time, with 16-bit cycles. */
  method Tick(c: Clock, step: real, loops: bool) returns (r: Clock)
    ensures r == Ticked(c, step, loops)
  {
    var time: real, cycle: int := c.time + step, c.cycle;
    if 1.0 <= time {
      if loops {
        ghost var turns := 0;
        while 1.0 <= time
          invariant 0.0 <= time && time == c.time + step - turns as real && cycle == Wrap16(c.cycle + turns)
          decreases time.Floor
        {
          time, cycle, turns := time - 1.0, Wrap16(cycle + 1), turns + 1;
        }
        FloorShift(c.time + step, turns);
      } else {
        time := 1.0;
      }
    }
    r := Clock(c.time, time, c.cycle, cycle);
  }

  /** A stamping or following walk does not look at the frequency. */
  lemma MovedHere(src: Source, w: Walk, step: real, v: View, i: nat)
    requires ValidSource(src) && LiveAt(src, v, i) && step >= 0.0 && !w.Free?
    ensures Moved(src, w, step, 0.0, i, v.info[v.handles[i]].On(w.On())) ==
            Moved(src, w, step, Frequency(src, v, i), i, StateIn(v, i, w.On()))
  {
  }

  /** The three ways one live node of an update can go on. */
  lemma AdvanceCase(src: Source, w: Walk, step: real, v: View, i: nat, s: State, v1: View, r: View)
    requires ValidSource(src) && LiveAt(src, v, i) && step >= 0.0
    requires s == Moved(src, w, step, Frequency(src, v, i), i, StateIn(v, i, w.On())) && v1 == Put(src, w.On(), v, i, s)
    requires if src.count[i] == 0 then r == Settle(src, v1, i)
             else if AtRest(s) then r == Settle(src, SnapChildren(src, w.On(), v1, i, src.count[i]), i)
             else r == AdvanceChildren(src, WalkBelow(src, w, i, s), step, v1, i, src.count[i])
    ensures r == Advance(src, w, step, v, i)
  {
  }

  class Runtime {
    var next: seq<nat>
    var prev: seq<nat>
    var info: seq<Info>
    var used: int
    var high: int
    var trees: seq<Tree>
    /** References this subsystem holds, per script string. */
    var refs: seq<nat>
    ghost var stack: seq<nat>
    ghost var owner: seq<Owner>

    ghost predicate Core()
      reads this
    {
      PoolOk(next, prev, stack, owner, info, used, high, trees)
    }

    ghost predicate Valid()
      reads this
    {
      Core() && Names(owner, info, refs, 0)
    }

    /** XAnimInit over a zeroed pool: all records but record 0 are free. */
    constructor ()
      ensures Valid() && trees == [] && used == 1 && |stack| == POOL - 1
    {
      var n, p := [], [];
      for index := 0 to POOL
        invariant |n| == |p| == index
        invariant forall k :: 0 <= k < index ==> n[k] == (k + 1) % POOL && p[k] == (k + POOL - 1) % POOL
      {
        n := n + [(index + 1) % POOL];
        p := p + [(index + POOL - 1) % POOL];
      }
      next, prev := n, p;
      info := seq(POOL, _ => BLANK);
      used, high := 1, 1;
      trees := [];
      refs := seq(NAMES, _ => 0);
      stack := seq(POOL - 1, k requires 0 <= k => if k < POOL then POOL - 1 - k else 0);
      owner := seq(POOL, h requires 0 <= h =>
                     if h == 0 then Sentinel else if h < POOL then OnFree(POOL - 1 - h) else Sentinel);
      new;
      assert Ring(next, prev, stack, owner);
      forall name | 1 <= name < NAMES ensures refs[name] == |Holders(owner, info, 0, name)| {
        assert Holders(owner, info, 0, name) == {};
      }
    }

    /** XAnimAllocRuntimeTree: a tree with no live node. */
    method AddTree(src: Source) returns (t: nat)
      requires Valid() && ValidSource(src)
      modifies this
      ensures Valid() && t == |old(trees)|
      ensures trees == old(trees) + [Tree(src, seq(|src.first|, _ => 0), 0)] && LiveClosed(trees[t])
      ensures next == old(next) && prev == old(prev) && info == old(info) && refs == old(refs) && used == old(used)
    {
      t := |trees|;
      var tree := Tree(src, seq(|src.first|, _ => 0), 0);
      assert Live(tree.handles) == {};
      trees := trees + [tree];
    }

    /** SL_RemoveRefToString: callers must hold a reference. */
    method ReleaseName(name: nat)
      requires name != 0 ==> name < |refs| && refs[name] > 0
      modifies this`refs
      ensures refs == Release(old(refs), name)
    {
      if name != 0 {
        refs := refs[name := refs[name] - 1];
      }
    }

    lemma Sizes()
      requires Core()
      ensures |next| == |prev| == |owner| == |info| == POOL
    {
    }

    /** XAnimFreeInfo and the handle store that follows each of its calls. */
    method FreeInfo(t: nat, i: nat)
      requires Valid() && t < |trees| && i < |trees[t].handles| && trees[t].handles[i] != 0
      modifies this
      ensures Valid()
      ensures trees == old(trees)[t := Tree(old(trees)[t].src, old(trees)[t].handles[i := 0], old(trees)[t].active - 1)]
      ensures used == old(used) - 1 && info == old(info) && high == old(high)
      ensures refs == Release(old(refs), old(info)[old(trees)[t].handles[i]].name)
      ensures owner == old(owner)[old(trees)[t].handles[i] := OnFree(|old(stack)|)]
    {
      var h, head, tree := trees[t].handles[i], next[0], trees[t];
      FreeStep(next, prev, stack, owner, info, used, high, trees, t, i);
      NamesFree(owner, info, refs, h, |stack|);
      Sizes();
      hide PoolOk, Names, Release;
      var prev1, next1 := prev[h := 0][head := h], next[h := head][0 := h];
      var trees1 := trees[t := Tree(tree.src, tree.handles[i := 0], tree.active - 1)];
      ghost var owner1, stack1 := owner[h := OnFree(|stack|)], stack + [h];
      assert PoolOk(next1, prev1, stack1, owner1, info, used - 1, high, trees1);
      ReleaseName(info[h].name);
      prev, next, used, trees := prev1, next1, used - 1, trees1;
      owner, stack := owner1, stack1;
    }

    /** XAnimAllocInfo. The record keeps whatever name it was freed with, which
        is not counted until the caller has overwritten it. */
    method AllocInfo(t: nat, i: nat) returns (ok: bool)
      requires Valid() && t < |trees| && i < |trees[t].handles| && trees[t].handles[i] == 0
      modifies this
      ensures ok <==> old(used) < POOL
      ensures !ok ==> Valid() && trees == old(trees) && info == old(info) && refs == old(refs) && used == old(used)
      ensures ok ==> Core() && used == old(used) + 1 && info == old(info) && refs == old(refs)
      ensures ok ==> var h := old(next)[0];
                1 <= h < POOL && owner[h] == Held(t, i) && Names(owner, info, refs, h) &&
                trees == old(trees)[t := Tree(old(trees)[t].src, old(trees)[t].handles[i := h],
                                              old(trees)[t].active + 1)]
    {
      AllocStep(next, prev, stack, owner, info, used, high, trees, t, i);
      if next[0] == 0 {
        return false;
      }
      TakeRecord(t, i);
      return true;
    }

    method TakeRecord(t: nat, i: nat)
      requires Valid() && t < |trees| && i < |trees[t].handles| && trees[t].handles[i] == 0 && next[0] != 0
      modifies this
      ensures Core() && used == old(used) + 1 && info == old(info) && refs == old(refs)
      ensures var h := old(next)[0];
                1 <= h < POOL && owner[h] == Held(t, i) && Names(owner, info, refs, h) &&
                trees == old(trees)[t := Tree(old(trees)[t].src, old(trees)[t].handles[i := h],
                                              old(trees)[t].active + 1)]
    {
      var h, tree := next[0], trees[t];
      AllocStep(next, prev, stack, owner, info, used, high, trees, t, i);
      Sizes();
      hide PoolOk, Names;
      NamesOwner(owner, info, refs, h, Held(t, i), 0, h);
      var after := next[h];
      var next1, prev1 := next[0 := after], prev[after := 0];
      var high1 := if used + 1 > high then used + 1 else high;
      var trees1 := trees[t := Tree(tree.src, tree.handles[i := h], tree.active + 1)];
      ghost var owner1, stack1 := owner[h := Held(t, i)], stack[..|stack| - 1];
      assert PoolOk(next1, prev1, stack1, owner1, info, used + 1, high1, trees1);
      next, prev, used, high, trees := next1, prev1, used + 1, high1, trees1;
      owner, stack := owner1, stack1;
    }

    /** Overwrites a record in use whose old name has been released. */
    method WriteInfo(h: nat, x: Info)
      requires Core() && 1 <= h < POOL && owner[h].Held? && Names(owner, info, refs, h)
      modifies this`info, this`refs
      ensures Valid() && info == old(info)[h := x] && refs == Retain(old(refs), x.name)
    {
      NamesRetain(owner, info, refs, h, x);
      info := info[h := x];
      if x.name != 0 {
        refs := refs[x.name := refs[x.name] + 1];
      }
    }

    /** Rewrites the lane state of a record and leaves its name alone. */
    method WriteLane(h: nat, lane: Lane, s: State)
      requires Valid() && 1 <= h < POOL
      modifies this`info
      ensures Valid() && info == old(info)[h := old(info)[h].With(lane, s)]
    {
      NamesKeep(owner, info, refs, h, info[h].With(lane, s));
      info := info[h := info[h].With(lane, s)];
    }

    /** A live node of a valid runtime owns its record. */
    lemma LiveNode(t: nat, i: nat)
      requires Core() && t < |trees| && i < |trees[t].handles| && trees[t].handles[i] != 0
      ensures 1 <= trees[t].handles[i] < POOL && owner[trees[t].handles[i]] == Held(t, i)
    {
    }

    // ----- giving nodes back -----

    /** The subtree below `i` may have changed; the pool is intact and no live
        node has lost its parent. */
    ghost predicate Kept(before: seq<Tree>, t: nat, i: nat)
      reads this
    {
      Valid() && Pruned(before, trees, t, i) && LiveClosed(trees[t])
    }

    /** A tree's handles with the records. */
    ghost function Now(t: nat): View
      requires t < |trees|
      reads this
    {
      View(trees[t].handles, info)
    }

    /** The children of node i are being walked since an earlier state. */
    ghost predicate Walking(t: nat, i: nat, src: Source, trees0: seq<Tree>, owner0: seq<Owner>, info0: seq<Info>)
      reads this
    {
      && t < |trees| && i < |src.first| == |src.count| && trees[t].src == src
      && Kept(trees0, t, i + 1) && Freed(owner0, info0, owner, info, t, i + 1)
    }

    lemma WalkStarts(t: nat, i: nat)
      requires Valid() && t < |trees| && LiveClosed(trees[t]) && i < |trees[t].handles|
      ensures Walking(t, i, trees[t].src, trees, owner, info)
    {
    }

    lemma WalkFacts(t: nat, i: nat, src: Source, trees0: seq<Tree>, owner0: seq<Owner>, info0: seq<Info>)
      requires Walking(t, i, src, trees0, owner0, info0)
      ensures Valid() && t < |trees| && trees[t].src == src && LiveClosed(trees[t])
      ensures ValidSource(src) && i < |trees[t].handles| == |src.first| && |owner| == |info| == POOL
      ensures Pruned(trees0, trees, t, i + 1) && Freed(owner0, info0, owner, info, t, i + 1)
    {
      ShapeOk(t);
    }

    lemma PrunedHere(before: seq<Tree>, t: nat, i: nat)
      requires Kept(before, t, i)
      ensures t < |before| == |trees| && |trees[t].handles| == |before[t].handles|
      ensures forall j :: 0 <= j < i && j < |before[t].handles| ==> trees[t].handles[j] == before[t].handles[j]
    {
    }

    /** The walk over the children of i after the child c. */
    lemma WalkOn(t: nat, i: nat, c: nat, src: Source, trees0: seq<Tree>, owner0: seq<Owner>, info0: seq<Info>,
                 trees1: seq<Tree>, owner1: seq<Owner>, info1: seq<Info>)
      requires t < |trees1| && trees1[t].src == src && i < c && i < |src.first| == |src.count|
      requires Pruned(trees0, trees1, t, i + 1) && Freed(owner0, info0, owner1, info1, t, i + 1)
      requires Kept(trees1, t, c) && Freed(owner1, info1, owner, info, t, c)
      ensures Walking(t, i, src, trees0, owner0, info0) && t < |trees| && trees[t].src == src
    {
      FreedThen(owner0, info0, owner1, info1, owner, info, t, i + 1, c);
      PrunedThen(trees0, trees1, trees, t, i + 1, c);
    }

    ghost predicate At(t: nat, v: View)
      reads this
    {
      t < |trees| && Now(t) == v
    }

    lemma ShapeOk(t: nat)
      requires Core() && t < |trees|
      ensures ValidSource(trees[t].src) && |trees[t].handles| == |trees[t].src.first| && |owner| == |info| == POOL
      ensures TreeOk(trees[t])
    {
    }

    /** A live node of the runtime is live in the view. */
    lemma LiveNow(t: nat, i: nat)
      requires Core() && t < |trees| && i < |trees[t].handles|
      ensures trees[t].handles[i] != 0 <==> LiveAt(trees[t].src, Now(t), i)
    {
    }

    /** A node that stays live has weight or a live child. */
    ghost predicate Needed(t: nat, i: nat)
      reads this
    {
      && t < |trees| && i < |trees[t].handles| && |info| == POOL
      && (trees[t].handles[i] != 0 ==>
            trees[t].handles[i] < POOL && (!Childless(trees[t], i) || !info[trees[t].handles[i]].Weightless()))
    }

    /** Frees a live node all of whose children are dead. */
    method Drop(t: nat, i: nat)
      requires Valid() && t < |trees| && i < |trees[t].handles| && trees[t].handles[i] != 0
      requires LiveClosed(trees[t]) && Childless(trees[t], i)
      modifies this
      ensures Kept(old(trees), t, i) && trees[t].handles == old(trees)[t].handles[i := 0]
      ensures used == old(used) - 1 && info == old(info) && trees[t].active == old(trees)[t].active - 1
      ensures owner == old(owner)[old(trees)[t].handles[i] := OnFree(|old(stack)|)]
    {
      PruneLeaf(trees[t], i);
      FreeInfo(t, i);
    }

    /** XAnimClearTreeWeights: stops at dead nodes, yet leaves nothing live below. */
    method ClearTreeWeights(t: nat, i: nat)
      requires Valid() && t < |trees| && LiveClosed(trees[t]) && i < |trees[t].handles|
      modifies this
      ensures Kept(old(trees), t, i) && trees[t].handles[i] == 0 && info == old(info)
      ensures used - trees[t].active == old(used) - old(trees)[t].active
      decreases |trees[t].handles| - i
    {
      if trees[t].handles[i] == 0 {
        return;
      }
      var first, count := trees[t].src.first[i], trees[t].src.count[i];
      var c := first;
      while c < first + count
        invariant first <= c <= first + count
        invariant Kept(old(trees), t, i + 1) && info == old(info)
        invariant used - trees[t].active == old(used) - old(trees)[t].active
        invariant DeadRange(trees[t].handles, first, c)
      {
        ghost var t1 := trees;
        ClearTreeWeights(t, c);
        PrunedThen(old(trees), t1, trees, t, i + 1, c);
        DeadRangeStep(t1[t].handles, trees[t].handles, first, c);
        c := c + 1;
      }
      Drop(t, i);
    }

    /** XAnimClearTree: every node of the tree is returned to the pool. */
    method ClearTree(t: nat)
      requires Valid() && t < |trees| && LiveClosed(trees[t])
      modifies this
      ensures Kept(old(trees), t, 0) && info == old(info)
      ensures Live(trees[t].handles) == {} && trees[t].active == 0
      ensures used == old(used) - old(trees)[t].active
    {
      ClearTreeWeights(t, 0);
      forall j | 0 <= j < |trees[t].handles| ensures trees[t].handles[j] == 0 {
        DeadRootDeadTree(trees[t], j);
      }
    }

    /** Frees a live node that nothing holds any more. */
    method SettleNode(t: nat, i: nat, anyLive: bool)
      requires Valid() && t < |trees| && LiveClosed(trees[t]) && i < |trees[t].handles| && trees[t].handles[i] != 0
      requires !anyLive <==> Childless(trees[t], i)
      modifies this
      ensures Kept(old(trees), t, i) && Freed(old(owner), old(info), owner, info, t, i) && Needed(t, i)
      ensures Now(t) == Settle(trees[t].src, old(Now(t)), i)
    {
      LiveNode(t, i);
      LiveNow(t, i);
      ShapeOk(t);
      SettleCase(trees[t], info, i);
      var h := trees[t].handles[i];
      if !anyLive && info[h].Weightless() {
        hide PoolOk, Names, Settle, Freed;
        FreedOne(owner, info, h, t, i, |stack|);
        Drop(t, i);
      } else {
        NothingFreed(owner, info, t, i);
        hide PoolOk, Names, Settle, Freed;
      }
    }

    /** Writes one lane of a live node. */
    method PutLane(t: nat, i: nat, lane: Lane, s: State)
      requires Valid() && t < |trees| && LiveClosed(trees[t]) && i < |trees[t].handles| && trees[t].handles[i] != 0
      modifies this`info
      ensures Kept(old(trees), t, i + 1) && Freed(old(owner), old(info), owner, info, t, i)
      ensures Now(t) == Put(trees[t].src, lane, old(Now(t)), i, s)
    {
      LiveNode(t, i);
      LiveNow(t, i);
      WriteLane(trees[t].handles[i], lane, s);
    }

    /** XAnimUpdateInfoNoWeightClient and XAnimUpdateOldServerTimeNoWeight: the
        same walk over one lane or the other. */
    method UpdateNoWeight(t: nat, i: nat, lane: Lane) returns (live: bool)
      requires Valid() && t < |trees| && LiveClosed(trees[t]) && i < |trees[t].handles|
      modifies this
      ensures Kept(old(trees), t, i) && Freed(old(owner), old(info), owner, info, t, i)
      ensures live == (trees[t].handles[i] != 0) && Needed(t, i)
      ensures Now(t) == Snap(trees[t].src, lane, old(Now(t)), i)
      decreases |trees[t].handles| - i, 1, 1
    {
      LiveNow(t, i);
      var h := trees[t].handles[i];
      if h == 0 {
        return false;
      }
      LiveNode(t, i);
      PutLane(t, i, lane, Arrived(info[h].On(lane)));
      ghost var o1, x1 := owner, info;
      SettleWeightless(t, i, lane);
      FreedThen(old(owner), old(info), o1, x1, owner, info, t, i, i);
      live := trees[t].handles[i] != 0;
    }

    /** The child loop of the no-weight walks. */
    method UpdateNoWeightChildren(t: nat, i: nat, lane: Lane) returns (anyLive: bool)
      requires Valid() && t < |trees| && LiveClosed(trees[t]) && i < |trees[t].handles|
      modifies this
      ensures Kept(old(trees), t, i + 1) && Freed(old(owner), old(info), owner, info, t, i + 1)
      ensures !anyLive <==> Childless(trees[t], i)
      ensures Now(t) == SnapChildren(trees[t].src, lane, old(Now(t)), i, trees[t].src.count[i])
      decreases |trees[t].handles| - i, 0
    {
      WalkStarts(t, i);
      ShapeOk(t);
      anyLive := UpdateNoWeightRange(t, i, lane, trees[t].src.count[i], trees[t].src, trees, owner, info, Now(t));
    }

    /** The first k children of a node are dead. */
    ghost predicate DeadSoFar(t: nat, i: nat, src: Source, k: nat)
      requires i < |src.first|
      reads this
    {
      t < |trees| && DeadRange(trees[t].handles, src.first[i], src.first[i] + k)
    }

    lemma NoneSoFar(t: nat, i: nat, src: Source, trees0: seq<Tree>, owner0: seq<Owner>, info0: seq<Info>)
      requires Walking(t, i, src, trees0, owner0, info0)
      ensures i < |src.first| && DeadSoFar(t, i, src, 0)
    {
    }

    method UpdateNoWeightRange(t: nat, i: nat, lane: Lane, count: nat, ghost src: Source, ghost trees0: seq<Tree>,
                               ghost owner0: seq<Owner>, ghost info0: seq<Info>, ghost v0: View)
      returns (anyLive: bool)
      requires Walking(t, i, src, trees0, owner0, info0) && At(t, v0) && count == src.count[i]
      modifies this
      ensures Walking(t, i, src, trees0, owner0, info0) && At(t, SnapChildren(src, lane, v0, i, count))
      ensures !anyLive <==> DeadSoFar(t, i, src, count)
      decreases |src.first| - i - 1, 2, 1
    {
      hide Walking, Snap, SnapChildren, At, DeadSoFar;
      anyLive := false;
      NoneSoFar(t, i, src, trees0, owner0, info0);
      SnapNone(src, lane, v0, i);
      for k := 0 to count
        invariant Walking(t, i, src, trees0, owner0, info0) && At(t, SnapChildren(src, lane, v0, i, k))
        invariant !anyLive <==> DeadSoFar(t, i, src, k)
      {
        var live := UpdateNoWeightChild(t, i, k, lane, src, trees0, owner0, info0, SnapChildren(src, lane, v0, i, k));
        SnapStep(src, lane, v0, i, k);
        anyLive := anyLive || live;
      }
    }

    method UpdateNoWeightChild(t: nat, i: nat, k: nat, lane: Lane, ghost src: Source, ghost trees0: seq<Tree>,
                               ghost owner0: seq<Owner>, ghost info0: seq<Info>, ghost v: View)
      returns (live: bool)
      requires Walking(t, i, src, trees0, owner0, info0) && At(t, v) && k < src.count[i]
      modifies this
      ensures Walking(t, i, src, trees0, owner0, info0) && At(t, Snap(src, lane, v, src.first[i] + k))
      ensures ValidSource(src)
      ensures DeadSoFar(t, i, src, k + 1) <==> old(DeadSoFar(t, i, src, k)) && !live
      decreases |src.first| - i - 1, 2, 0
    {
      hide PoolOk, Names, Freed, Snap, Needed, Kept, Walking, DeadRange;
      WalkFacts(t, i, src, trees0, owner0, info0);
      var c := trees[t].src.first[i] + k;
      assert i < c < |trees[t].handles|;
      ghost var o1, x1, t1 := owner, info, trees;
      live := UpdateNoWeight(t, c, lane);
      PrunedHere(t1, t, c);
      WalkOn(t, i, c, src, trees0, owner0, info0, t1, o1, x1);
      DeadRangeStep(t1[t].handles, trees[t].handles, src.first[i], c);
    }

    /** A node at rest without weight: its children jump to their goals, then it
        is settled itself. */
    method SettleWeightless(t: nat, i: nat, lane: Lane)
      requires Valid() && t < |trees| && LiveClosed(trees[t]) && i < |trees[t].handles| && trees[t].handles[i] != 0
      modifies this
      ensures Kept(old(trees), t, i) && Freed(old(owner), old(info), owner, info, t, i) && Needed(t, i)
      ensures Now(t) == Settle(trees[t].src, SnapChildren(trees[t].src, lane, old(Now(t)), i, trees[t].src.count[i]), i)
      decreases |trees[t].handles| - i, 1, 0
    {
      var anyLive := UpdateNoWeightChildren(t, i, lane);
      ghost var o1, x1, t1 := owner, info, trees;
      SettleNode(t, i, anyLive);
      FreedThen(old(owner), old(info), o1, x1, owner, info, t, i, i);
    }

    /** XAnimUpdateServerInfoSyncInternal stamps the frame start; below a sync
        node XAnimUpdateClientInfoSyncInternal hands its clock down. Both blend
        one lane, free what has no weight left, and recurse. */
    method UpdateSync(t: nat, i: nat, w: Walk, step: real)
      requires Valid() && t < |trees| && LiveClosed(trees[t]) && i < |trees[t].handles| && step >= 0.0 && !w.Free?
      modifies this
      ensures Kept(old(trees), t, i) && Freed(old(owner), old(info), owner, info, t, i) && Needed(t, i)
      ensures Now(t) == Advance(trees[t].src, w, step, old(Now(t)), i)
      decreases |trees[t].handles| - i, 2
    {
      LiveNow(t, i);
      var h := trees[t].handles[i];
      if h == 0 {
        return;
      }
      LiveNode(t, i);
      ShapeOk(t);
      ghost var v := Now(t);
      var s := Moved(trees[t].src, w, step, 0.0, i, info[h].On(w.On()));
      MovedHere(trees[t].src, w, step, v, i);
      hide PoolOk, Names, ValidSource, Advance, AdvanceChildren, SnapChildren, Settle, Moved, BlendStep;
      PutLane(t, i, w.On(), s);
      ghost var o1, x1, v1 := owner, info, Now(t);
      if trees[t].src.count[i] == 0 {
        SettleNode(t, i, false);
      } else if AtRest(s) {
        SettleWeightless(t, i, w.On());
      } else {
        UpdateBelow(t, i, w, step, s);
      }
      AdvanceCase(trees[t].src, w, step, v, i, s, v1, Now(t));
      FreedThen(old(owner), old(info), o1, x1, owner, info, t, i, i);
    }

    method UpdateSyncChildren(t: nat, i: nat, w: Walk, step: real)
      requires Valid() && t < |trees| && LiveClosed(trees[t]) && i < |trees[t].handles| && step >= 0.0 && !w.Free?
      requires ValidSource(trees[t].src) && |trees[t].handles| == |trees[t].src.first|
      modifies this
      ensures Kept(old(trees), t, i + 1) && Freed(old(owner), old(info), owner, info, t, i + 1)
      ensures Now(t) == AdvanceChildren(trees[t].src, w, step, old(Now(t)), i, trees[t].src.count[i])
      decreases |trees[t].handles| - i - 1, 3, 2
    {
      WalkStarts(t, i);
      UpdateSyncRange(t, i, w, step, trees[t].src.count[i], trees[t].src, trees, owner, info, Now(t));
    }

    method UpdateSyncRange(t: nat, i: nat, w: Walk, step: real, count: nat, ghost src: Source,
                           ghost trees0: seq<Tree>, ghost owner0: seq<Owner>, ghost info0: seq<Info>, ghost v0: View)
      requires Walking(t, i, src, trees0, owner0, info0) && At(t, v0) && step >= 0.0 && !w.Free?
      requires ValidSource(src) && i < |src.first| && count == src.count[i]
      modifies this
      ensures Walking(t, i, src, trees0, owner0, info0) && At(t, AdvanceChildren(src, w, step, v0, i, count))
      decreases |src.first| - i - 1, 3, 1
    {
      AdvanceNone(src, w, step, v0, i);
      hide Walking, Advance, AdvanceChildren, At, ValidSource;
      for k := 0 to count
        invariant Walking(t, i, src, trees0, owner0, info0) && At(t, AdvanceChildren(src, w, step, v0, i, k))
      {
        UpdateSyncChild(t, i, k, w, step, src, trees0, owner0, info0, AdvanceChildren(src, w, step, v0, i, k));
        AdvanceStep(src, w, step, v0, i, k);
      }
    }

    method UpdateSyncChild(t: nat, i: nat, k: nat, w: Walk, step: real, ghost src: Source,
                           ghost trees0: seq<Tree>, ghost owner0: seq<Owner>, ghost info0: seq<Info>, ghost v: View)
      requires Walking(t, i, src, trees0, owner0, info0) && At(t, v) && step >= 0.0 && !w.Free?
      requires ValidSource(src) && i < |src.first| && k < src.count[i]
      modifies this
      ensures Walking(t, i, src, trees0, owner0, info0) && At(t, Advance(src, w, step, v, src.first[i] + k))
      decreases |src.first| - i - 1, 3, 0
    {
      hide PoolOk, Names, Freed, Advance, Needed, Kept, Walking;
      WalkFacts(t, i, src, trees0, owner0, info0);
      var c := trees[t].src.first[i] + k;
      assert i < c < |trees[t].handles|;
      ghost var o1, x1, t1 := owner, info, trees;
      UpdateSync(t, c, w, step);
      WalkOn(t, i, c, src, trees0, owner0, info0, t1, o1, x1);
    }

    /** XAnimGetAverageRateFrequency, on the client lane. */
    method AverageFrequency(t: nat, i: nat) returns (f: real)
      requires Valid() && t < |trees| && i < |trees[t].handles|
      requires ValidSource(trees[t].src) && |trees[t].handles| == |trees[t].src.first|
      ensures f == Frequency(trees[t].src, Now(t), i)
      decreases |trees[t].handles| - i, 0
    {
      var src := trees[t].src;
      if src.count[i] == 0 {
        return src.frequency[i];
      }
      var m := Mean(0.0, 0.0);
      for k := 0 to src.count[i]
        invariant m == FrequencyOf(src, Now(t), i, k)
      {
        m := AddFrequency(t, i, k, m);
      }
      f := MeanOf(m);
    }

    /** One child of a sync node. */
    method AddFrequency(t: nat, i: nat, k: nat, m0: Mean) returns (m: Mean)
      requires Valid() && t < |trees| && i < |trees[t].handles|
      requires ValidSource(trees[t].src) && |trees[t].handles| == |trees[t].src.first| && k < trees[t].src.count[i]
      requires m0 == FrequencyOf(trees[t].src, Now(t), i, k)
      ensures m == FrequencyOf(trees[t].src, Now(t), i, k + 1)
      decreases |trees[t].handles| - i - 1, 1
    {
      m := m0;
      var c := trees[t].src.first[i] + k;
      assert i < c < |trees[t].handles|;
      var h := trees[t].handles[c];
      hide PoolOk, Names, ValidSource;
      if h != 0 {
        LiveNode(t, c);
        var s := info[h].client;
        assert s == StateIn(Now(t), c, Client);
        if s.current != 0.0 {
          var frequency := AverageFrequency(t, c);
          if frequency != 0.0 {
            m := Mean(m.weight + s.current, m.sum + Share(s.current, frequency, s.rate));
          }
        }
      }
    }

    /** XAnimUpdateClientInfoInternal: leaves and sync nodes move their own time,
        and a sync node hands its clock to everything below it. */
    method UpdateClient(t: nat, i: nat, delta: real, step: real)
      requires Valid() && t < |trees| && LiveClosed(trees[t]) && i < |trees[t].handles| && step >= 0.0
      modifies this
      ensures Kept(old(trees), t, i) && Freed(old(owner), old(info), owner, info, t, i) && Needed(t, i)
      ensures Now(t) == Advance(trees[t].src, Free(delta), step, old(Now(t)), i)
      decreases |trees[t].handles| - i, 4
    {
      LiveNow(t, i);
      if trees[t].handles[i] == 0 {
        return;
      }
      LiveNode(t, i);
      ShapeOk(t);
      ghost var v := Now(t);
      hide PoolOk, Names, ValidSource, Advance, AdvanceChildren, SnapChildren, Settle, Moved, BlendStep;
      var s := ClientState(t, i, delta, step);
      PutLane(t, i, Client, s);
      ghost var o1, x1, v1 := owner, info, Now(t);
      if trees[t].src.count[i] == 0 {
        SettleClientLeaf(t, i, s);
      } else if AtRest(s) {
        SettleWeightless(t, i, Client);
      } else {
        UpdateBelow(t, i, WalkBelow(trees[t].src, Free(delta), i, s), step, s);
      }
      AdvanceCase(trees[t].src, Free(delta), step, v, i, s, v1, Now(t));
      FreedThen(old(owner), old(info), o1, x1, owner, info, t, i, i);
    }

    /** The children of a node that carries on; the node itself stays. */
    method UpdateBelow(t: nat, i: nat, w: Walk, step: real, s: State)
      requires Valid() && t < |trees| && LiveClosed(trees[t]) && i < |trees[t].handles| && step >= 0.0
      requires ValidSource(trees[t].src) && |trees[t].handles| == |trees[t].src.first|
      requires 0 < trees[t].handles[i] < POOL && info[trees[t].handles[i]].On(w.On()) == s && !AtRest(s)
      modifies this
      ensures Kept(old(trees), t, i) && Freed(old(owner), old(info), owner, info, t, i) && Needed(t, i)
      ensures Now(t) == AdvanceChildren(trees[t].src, w, step, old(Now(t)), i, trees[t].src.count[i])
      decreases |trees[t].handles| - i - 1, 6
    {
      hide PoolOk, Names, ValidSource, AdvanceChildren;
      LiveNode(t, i);
      if w.Free? {
        UpdateClientChildren(t, i, w.delta, step);
      } else {
        UpdateSyncChildren(t, i, w, step);
      }
    }

    /** The blend and the time step of one live client node. */
    method ClientState(t: nat, i: nat, delta: real, step: real) returns (s: State)
      requires Valid() && t < |trees| && i < |trees[t].handles| && trees[t].handles[i] != 0 && step >= 0.0
      requires ValidSource(trees[t].src) && |trees[t].handles| == |trees[t].src.first|
      ensures s == Moved(trees[t].src, Free(delta), step, Frequency(trees[t].src, Now(t), i), i,
                         StateIn(Now(t), i, Client))
    {
      hide PoolOk, Names, Frequency;
      LiveNode(t, i);
      ShapeOk(t);
      var src := trees[t].src;
      s := BlendStep(info[trees[t].handles[i]].client, step);
      if Ticks(src, i, s) {
        var frequency := AverageFrequency(t, i);
        var clock := Tick(ClockOf(s), TimeStep(frequency, s.rate, delta), src.loops[i]);
        s := Timed(s, clock);
      }
    }

    /** A leaf that keeps a client weight stays. */
    method SettleClientLeaf(t: nat, i: nat, s: State)
      requires Valid() && t < |trees| && LiveClosed(trees[t]) && i < |trees[t].handles| && trees[t].handles[i] != 0
      requires trees[t].src.count[i] == 0 && trees[t].handles[i] < POOL && info[trees[t].handles[i]].client == s
      modifies this
      ensures Kept(old(trees), t, i) && Freed(old(owner), old(info), owner, info, t, i) && Needed(t, i)
      ensures Now(t) == Settle(trees[t].src, old(Now(t)), i)
    {
      LiveNow(t, i);
      if AtRest(s) {
        SettleNode(t, i, false);
      }
    }

    method UpdateClientChildren(t: nat, i: nat, delta: real, step: real)
      requires Valid() && t < |trees| && LiveClosed(trees[t]) && i < |trees[t].handles| && step >= 0.0
      requires ValidSource(trees[t].src) && |trees[t].handles| == |trees[t].src.first|
      modifies this
      ensures Kept(old(trees), t, i + 1) && Freed(old(owner), old(info), owner, info, t, i + 1)
      ensures Now(t) == AdvanceChildren(trees[t].src, Free(delta), step, old(Now(t)), i, trees[t].src.count[i])
      decreases |trees[t].handles| - i - 1, 5, 2
    {
      WalkStarts(t, i);
      UpdateClientRange(t, i, delta, step, trees[t].src.count[i], trees[t].src, trees, owner, info, Now(t));
    }

    method UpdateClientRange(t: nat, i: nat, delta: real, step: real, count: nat, ghost src: Source,
                             ghost trees0: seq<Tree>, ghost owner0: seq<Owner>, ghost info0: seq<Info>, ghost v0: View)
      requires Walking(t, i, src, trees0, owner0, info0) && At(t, v0) && step >= 0.0
      requires ValidSource(src) && i < |src.first| && count == src.count[i]
      modifies this
      ensures Walking(t, i, src, trees0, owner0, info0) && At(t, AdvanceChildren(src, Free(delta), step, v0, i, count))
      decreases |src.first| - i - 1, 5, 1
    {
      AdvanceNone(src, Free(delta), step, v0, i);
      hide Walking, Advance, AdvanceChildren, At, ValidSource;
      for k := 0 to count
        invariant Walking(t, i, src, trees0, owner0, info0) && At(t, AdvanceChildren(src, Free(delta), step, v0, i, k))
      {
        UpdateClientChild(t, i, k, delta, step, src, trees0, owner0, info0,
                          AdvanceChildren(src, Free(delta), step, v0, i, k));
        AdvanceStep(src, Free(delta), step, v0, i, k);
      }
    }

    method UpdateClientChild(t: nat, i: nat, k: nat, delta: real, step: real, ghost src: Source,
                             ghost trees0: seq<Tree>, ghost owner0: seq<Owner>, ghost info0: seq<Info>, ghost v: View)
      requires Walking(t, i, src, trees0, owner0, info0) && At(t, v) && step >= 0.0
      requires ValidSource(src) && i < |src.first| && k < src.count[i]
      modifies this
      ensures Walking(t, i, src, trees0, owner0, info0)
      ensures At(t, Advance(src, Free(delta), step, v, src.first[i] + k))
      decreases |src.first| - i - 1, 5, 0
    {
      hide PoolOk, Names, Freed, Advance, Needed, Kept, Walking;
      WalkFacts(t, i, src, trees0, owner0, info0);
      var c := trees[t].src.first[i] + k;
      assert i < c < |trees[t].handles|;
      ghost var o1, x1, t1 := owner, info, trees;
      UpdateClient(t, c, delta, step);
      WalkOn(t, i, c, src, trees0, owner0, info0, t1, o1, x1);
    }

    // ----- goal weights -----

    /** The current weight of a node in a lane; dead nodes read record 0. */
    function Weight(t: nat, i: nat, lane: Lane): real
      requires Valid() && t < |trees| && i < |trees[t].handles|
      reads this
    {
      if trees[t].handles[i] != 0 then LiveNode(t, i); info[trees[t].handles[i]].On(lane).current
      else info[0].On(lane).current
    }

    /** Drops the name of a record in use; the caller writes the record next. */
    method Unname(h: nat)
      requires Valid() && 1 <= h < POOL && owner[h].Held?
      modifies this`refs
      ensures Core() && Names(owner, info, refs, h) && refs == Release(old(refs), info[h].name)
    {
      NamesRelease(owner, info, refs, h);
      ReleaseName(info[h].name);
    }

    /** Replaces the record of a live node; on the client lane the name stays. */
    method Rewrite(t: nat, i: nat, lane: Lane, x: Info)
      requires Valid() && t < |trees| && i < |trees[t].handles| && trees[t].handles[i] != 0
      requires lane.Client? ==> forall h :: h == trees[t].handles[i] && h < POOL ==> x.name == info[h].name
      modifies this`info, this`refs
      ensures Valid() && trees[t].handles[i] < POOL && info == old(info)[trees[t].handles[i] := x]
    {
      LiveNode(t, i);
      var h := trees[t].handles[i];
      if lane.Client? {
        NamesKeep(owner, info, refs, h, x);
        info := info[h := x];
      } else {
        Unname(h);
        WriteInfo(h, x);
      }
    }

    /** XAnimHasEffectiveWeight. */
    function Effective(t: nat, i: nat, lane: Lane): bool
      requires Core() && t < |trees| && i < |trees[t].handles|
      reads this
    {
      ShapeOk(t);
      EffectiveIn(trees[t].src, lane, View(trees[t].handles, info), i)
    }

    /** The record of a node, live or not; dead nodes read record 0. */
    ghost function RecordOf(t: nat, i: nat): Info
      requires t < |trees| && i < |trees[t].handles| && |info| == POOL
      reads this
    {
      if trees[t].handles[i] < POOL then info[trees[t].handles[i]] else info[0]
    }

    /** XAnimClearGoalWeight: weights only; on the server lane the notify is dropped too. */
    method ClearGoalWeight(t: nat, i: nat, lane: Lane, blendTime: real)
      requires Valid() && t < |trees| && i < |trees[t].handles|
      modifies this`info, this`refs
      ensures Valid()
      ensures trees[t].handles[i] == 0 ==> info == old(info) && refs == old(refs)
      ensures trees[t].handles[i] != 0 ==> trees[t].handles[i] < POOL
      ensures var x := Cleared(old(RecordOf(t, i)), lane, old(Effective(t, i, lane)), blendTime);
              trees[t].handles[i] != 0 ==> info == old(info)[trees[t].handles[i] := x]
      ensures trees[t].handles[i] != 0 ==>
                ClearOn(old(RecordOf(t, i)), RecordOf(t, i), lane, old(Effective(t, i, lane)), blendTime)
      ensures OthersKept(old(Now(t)), Now(t), i)
    {
      if trees[t].handles[i] == 0 {
        return;
      }
      LiveNode(t, i);
      HandlesApart(t, i);
      var x := info[trees[t].handles[i]];
      ClearedIsClear(x, lane, Effective(t, i, lane), blendTime);
      Rewrite(t, i, lane, Cleared(x, lane, Effective(t, i, lane), blendTime));
    }

    /** Takes a record for a dead node and writes it; fails exactly on a full pool. */
    method CreateNode(t: nat, i: nat, x: Info) returns (ok: bool)
      requires Valid() && t < |trees| && i < |trees[t].handles| && trees[t].handles[i] == 0
      modifies this
      ensures Valid() && (ok <==> old(used) < POOL)
      ensures !ok ==> trees == old(trees) && info == old(info) && used == POOL
      ensures ok ==> 0 < old(next)[0] < POOL && info == old(info)[old(next)[0] := x] && used == old(used) + 1
      ensures ok ==> trees == old(trees)[t := Tree(old(trees)[t].src, old(trees)[t].handles[i := old(next)[0]],
                                                   old(trees)[t].active + 1)]
    {
      var h := next[0];
      ok := AllocInfo(t, i);
      if ok {
        WriteInfo(h, x);
      }
    }

    /** XAnimGetDescendantWithGreatestWeight. */
    method GreatestDescendant(t: nat, i: nat, lane: Lane) returns (leaf: nat)
      requires Valid() && t < |trees| && i < |trees[t].handles|
      requires ValidSource(trees[t].src) && |trees[t].handles| == |trees[t].src.first|
      ensures leaf == Greatest(trees[t].src, lane, Now(t), i)
      decreases |trees[t].handles| - i, 0
    {
      var src := trees[t].src;
      if src.count[i] == 0 {
        return i;
      }
      var best := Pick(0.0, 0);
      for k := 0 to src.count[i]
        invariant best == GreatestOf(src, lane, Now(t), i, k)
      {
        best := TryChild(t, i, k, lane, best);
      }
      leaf := best.leaf;
    }

    /** One child: looked into only if it outweighs the best so far. */
    method TryChild(t: nat, i: nat, k: nat, lane: Lane, best0: Pick) returns (best: Pick)
      requires Valid() && t < |trees| && i < |trees[t].handles|
      requires ValidSource(trees[t].src) && |trees[t].handles| == |trees[t].src.first| && k < trees[t].src.count[i]
      requires best0 == GreatestOf(trees[t].src, lane, Now(t), i, k)
      ensures best == GreatestOf(trees[t].src, lane, Now(t), i, k + 1)
      decreases |trees[t].handles| - i - 1, 1
    {
      best := best0;
      var c := trees[t].src.first[i] + k;
      assert i < c < |trees[t].handles|;
      var h := trees[t].handles[c];
      RecordZero();
      if h != 0 {
        LiveNode(t, c);
      }
      hide PoolOk, Names, ValidSource;
      var weight := info[h].On(lane).target;
      assert weight == TargetIn(Now(t), c, lane);
      if weight > best.weight {
        var leaf := GreatestDescendant(t, c, lane);
        if leaf != 0 {
          best := Pick(weight, leaf);
        }
      }
    }

    lemma RecordZero()
      requires Core()
      ensures |info| == POOL && info[0].Weightless()
    {
    }

    /** The notify child of a node about to be set. Finding it does not look at
        the node's own record, so it may come before the record is written. */
    method FindChild(t: nat, i: nat, lane: Lane, name: Word) returns (child: Word)
      requires Valid() && t < |trees| && i < |trees[t].handles|
      requires ValidSource(trees[t].src) && |trees[t].handles| == |trees[t].src.first|
      ensures child == ChildFor(trees[t].src, lane, Now(t), i, name)
    {
      child := 0;
      if WantsChild(trees[t].src, lane, i, name) {
        var leaf := GreatestDescendant(t, i, lane);
        child := leaf % 65536;
      }
    }

    /** Does setting this goal take a record from the pool. */
    ghost predicate NeedsRecord(t: nat, i: nat, weight: real, create: bool)
      requires t < |trees| && i < |trees[t].handles|
      reads this
    {
      trees[t].handles[i] == 0 && (create || weight != 0.0)
    }

    /** The pool is full and the tree could have used a record. */
    ghost predicate Stuck(t: nat)
      reads this
    {
      used == POOL && t < |trees| && HasDead(trees[t])
    }

    /** XAnimSetGoalWeightInternal. */
    method SetGoalWeightInternal(t: nat, i: nat, lane: Lane, weight: real, blendTime: real, rate: real,
                                 create: bool, name: Word, notifyType: Word)
      returns (ok: bool, code: nat)
      requires Valid() && t < |trees| && i < |trees[t].handles|
      requires ValidSource(trees[t].src) && |trees[t].handles| == |trees[t].src.first|
      modifies this
      ensures Valid() && Grown(old(trees), trees, t) && OthersKept(old(Now(t)), Now(t), i)
      ensures ok <==> !old(NeedsRecord(t, i, weight, create)) || old(used) < POOL
      ensures used == old(used) + if ok && old(NeedsRecord(t, i, weight, create)) then 1 else 0
      ensures !ok ==> trees == old(trees) && Stuck(t)
      ensures ok && (create || weight != 0.0) ==> trees[t].handles[i] != 0
      ensures ok && !create && weight == 0.0 ==> trees == old(trees)
      ensures forall j :: 0 <= j < |trees[t].handles| && j != i ==> trees[t].handles[j] == old(trees)[t].handles[j]
      ensures ok && trees[t].handles[i] != 0 ==>
                RecordOf(t, i) == Aimed(if old(trees)[t].handles[i] == 0 then BLANK else old(RecordOf(t, i)),
                                        i == 0, lane, weight, blendTime, rate, name, notifyType,
                                        ChildFor(trees[t].src, lane, old(Now(t)), i, name))
      ensures ok ==> code == CodeFor(trees[t].src, lane, old(Now(t)), i, name, trees[t].handles[i] != 0)
    {
      Unchanged(t, i);
      code := 0;
      if trees[t].handles[i] == 0 && weight == 0.0 && !create {
        return true, 0;
      }
      hide PoolOk, Names, Grown, OthersKept, ChildFor, ValidSource, HasDead;
      var child := FindChild(t, i, lane, name);
      if WantsChild(trees[t].src, lane, i, name) && child == 0 {
        code := 2;
      }
      if trees[t].handles[i] == 0 {
        hide Aimed;
        ok := CreateGoal(t, i, Aimed(BLANK, i == 0, lane, weight, blendTime, rate, name, notifyType, child));
      } else {
        LiveNode(t, i);
        var x := info[trees[t].handles[i]];
        RewriteGoal(t, i, lane, Aimed(x, i == 0, lane, weight, blendTime, rate, name, notifyType, child));
        ok := true;
      }
    }

    lemma Unchanged(t: nat, i: nat)
      requires t < |trees|
      ensures Grown(trees, trees, t) && OthersKept(Now(t), Now(t), i)
    {
    }

    /** A dead node comes to life with this record. */
    method CreateGoal(t: nat, i: nat, x: Info) returns (ok: bool)
      requires Valid() && t < |trees| && i < |trees[t].handles| && trees[t].handles[i] == 0
      modifies this
      ensures Valid() && Grown(old(trees), trees, t) && OthersKept(old(Now(t)), Now(t), i)
      ensures t < |trees| && trees[t].src == old(trees)[t].src && |trees[t].handles| == |old(trees)[t].handles|
      ensures |info| == POOL
      ensures ok <==> old(used) < POOL
      ensures used == old(used) + if ok then 1 else 0
      ensures !ok ==> trees == old(trees) && Stuck(t)
      ensures ok ==> trees[t].handles[i] != 0 && RecordOf(t, i) == x
      ensures forall j :: 0 <= j < |trees[t].handles| && j != i ==> trees[t].handles[j] == old(trees)[t].handles[j]
    {
      ShapeOk(t);
      ok := CreateNode(t, i, x);
    }

    /** A live node gets this record. */
    method RewriteGoal(t: nat, i: nat, lane: Lane, x: Info)
      requires Valid() && t < |trees| && i < |trees[t].handles| && trees[t].handles[i] != 0
      requires lane.Client? ==> forall h :: h == trees[t].handles[i] && h < POOL ==> x.name == info[h].name
      modifies this`info, this`refs
      ensures Valid() && Grown(trees, trees, t) && OthersKept(old(Now(t)), Now(t), i)
      ensures |info| == POOL && RecordOf(t, i) == x
    {
      HandlesApart(t, i);
      ShapeOk(t);
      Rewrite(t, i, lane, x);
    }

    /** No other live node of the tree uses the record of node i. */
    lemma HandlesApart(t: nat, i: nat)
      requires Core() && t < |trees| && i < |trees[t].handles| && trees[t].handles[i] != 0
      ensures forall j :: 0 <= j < |trees[t].handles| && j != i && trees[t].handles[j] != 0 ==>
                trees[t].handles[j] != trees[t].handles[i]
    {
    }

    /** The goal of one node, as the relations on views put it. */
    lemma GoalNow(t: nat, i: nat, v: View, x: Info)
      requires Core() && t < |trees| && i < |trees[t].handles| && |v.handles| == |trees[t].handles| && |v.info| == POOL
      requires trees[t].handles[i] != 0 ==> RecordOf(t, i) == x
      ensures SameShape(trees[t].src, v, Now(t))
      ensures trees[t].handles[i] != 0 ==> LiveWith(Now(t), i, x)
    {
      if trees[t].handles[i] != 0 {
        LiveNode(t, i);
      }
    }

    lemma RecordNow(t: nat, i: nat)
      requires Core() && t < |trees| && i < |trees[t].handles|
      ensures RecordIn(Now(t), i) == if trees[t].handles[i] == 0 then BLANK else RecordOf(t, i)
      ensures SameShape(trees[t].src, Now(t), Now(t)) && |info| == POOL
    {
      if trees[t].handles[i] != 0 {
        LiveNode(t, i);
      }
    }

    /** The goal weight of one node: its record and nothing else changes. */
    method AimNode(t: nat, i: nat, lane: Lane, weight: real, blendTime: real, rate: real, create: bool,
                   name: Word, notifyType: Word) returns (ok: bool, code: nat)
      requires Valid() && t < |trees| && i < |trees[t].handles|
      requires ValidSource(trees[t].src) && |trees[t].handles| == |trees[t].src.first|
      modifies this
      ensures Valid() && Grown(old(trees), trees, t)
      ensures ok <==> !old(NeedsRecord(t, i, weight, create)) || old(used) < POOL
      ensures used == old(used) + if ok && old(NeedsRecord(t, i, weight, create)) then 1 else 0
      ensures !ok ==> trees == old(trees) && Stuck(t)
      ensures forall j :: 0 <= j < |trees[t].handles| && j != i ==> trees[t].handles[j] == old(trees)[t].handles[j]
      ensures ok && (create || weight != 0.0) ==> trees[t].handles[i] != 0
      ensures ok ==> NodeAimed(trees[t].src, i, lane, weight, blendTime, rate, name, notifyType, old(Now(t)), Now(t))
      ensures ok ==> code == CodeFor(trees[t].src, lane, old(Now(t)), i, name, trees[t].handles[i] != 0)
    {
      hide PoolOk, Names, Greatest, Aimed, HasDead;
      RecordNow(t, i);
      ghost var v := Now(t);
      ok, code := SetGoalWeightInternal(t, i, lane, weight, blendTime, rate, create, name, notifyType);
      ShapeOk(t);
      GoalNow(t, i, v, RecordOf(t, i));
    }

    /** The dead ancestors of a node, each of which a goal below it brings to life. */
    ghost function DeadAboveAt(t: nat, i: nat): nat
      requires Core() && t < |trees| && i < |trees[t].handles|
      reads this
    {
      ShapeOk(t);
      DeadAbove(trees[t].src, trees[t].handles, i)
    }

    /** The records that a goal for this node takes from the pool. */
    ghost function MissingAt(t: nat, i: nat, weight: real): nat
      requires Core() && t < |trees| && i < |trees[t].handles|
      reads this
    {
      ShapeOk(t);
      Missing(trees[t].src, trees[t].handles, i, weight)
    }

    lemma OwnedNow()
      requires Core()
      ensures Owned(owner, trees) && |info| == POOL
    {
    }

    lemma UsedFits()
      requires Core()
      ensures used <= POOL
    {
    }

    /** XAnimEnsureGoalWeightParent: creates the missing ancestors and nothing
        else; it fails exactly when the pool cannot supply them. */
    method EnsureGoalWeightParent(t: nat, i0: nat, lane: Lane, blendTime: real) returns (ok: bool)
      requires Valid() && t < |trees| && i0 < |trees[t].handles| && ClosedExcept(trees[t], i0)
      modifies this
      ensures Valid() && Grown(old(trees), trees, t)
      ensures ok <==> old(used) + old(DeadAboveAt(t, i0)) <= POOL
      ensures ok ==> used == old(used) + old(DeadAboveAt(t, i0)) && LiveClosed(trees[t])
      ensures ok ==> ParentsRaised(trees[t].src, lane, blendTime, i0, old(Now(t)), Now(t))
      ensures ok && i0 != 0 ==> ParentLive(trees[t], i0)
      ensures !ok ==> Stuck(t)
    {
      hide PoolOk, Names, DeadAbove;
      ShapeOk(t);
      RecordNow(t, i0);
      NoneRaised(trees[t].src, lane, blendTime, i0, Now(t));
      ok := RaiseParents(t, i0, lane, blendTime, trees[t].src, old(trees), old(Now(t)), used + DeadAboveAt(t, i0));
    }

    /** The loop of XAnimEnsureGoalWeightParent has come to node i. */
    ghost predicate Raising(t: nat, i: nat, i0: nat, lane: Lane, blendTime: real, src: Source, trees0: seq<Tree>,
                            v: View, total: int)
      reads this
    {
      && Valid() && Grown(trees0, trees, t) && t < |trees|
      && RaisePoint(src, trees[t], i, i0, lane, blendTime, v, Now(t), used, total)
    }

    /** The loop of XAnimEnsureGoalWeightParent. */
    method RaiseParents(t: nat, i0: nat, lane: Lane, blendTime: real, ghost src: Source, ghost trees0: seq<Tree>,
                        ghost v: View, ghost total: int) returns (ok: bool)
      requires Raising(t, i0, i0, lane, blendTime, src, trees0, v, total)
      modifies this
      ensures Valid() && Grown(trees0, trees, t) && (ok <==> total <= POOL)
      ensures ok ==> trees[t].src == src && LiveClosed(trees[t]) && ParentsRaised(src, lane, blendTime, i0, v, Now(t))
      ensures ok ==> used == total && (i0 != 0 ==> ParentLive(trees[t], i0))
      ensures !ok ==> Stuck(t)
    {
      hide PoolOk, Names, Raising, Grown, LiveClosed, ParentsRaised, ParentLive, HasDead;
      var i: nat := i0;
      while i != 0
        invariant Raising(t, i, i0, lane, blendTime, src, trees0, v, total)
        decreases i
      {
        var done;
        ok, done, i := RaiseUp(t, i, i0, lane, blendTime, src, trees0, v, total);
        if !ok || done {
          return;
        }
      }
      RaisedAll(t, i0, lane, blendTime, src, trees0, v, total);
      return true;
    }

    lemma RaisedAll(t: nat, i0: nat, lane: Lane, blendTime: real, src: Source, trees0: seq<Tree>, v: View, total: int)
      requires Raising(t, 0, i0, lane, blendTime, src, trees0, v, total)
      ensures Valid() && Grown(trees0, trees, t) && trees[t].src == src && LiveClosed(trees[t])
      ensures ParentsRaised(src, lane, blendTime, i0, v, Now(t)) && (i0 != 0 ==> ParentLive(trees[t], i0))
      ensures used == total <= POOL
    {
      ShapeOk(t);
      UsedFits();
      RaisePointFacts(src, trees[t], 0, i0, lane, blendTime, v, Now(t), used, total);
    }

    /** One ancestor: a live one ends the walk, a missing one is created. */
    method RaiseUp(t: nat, i: nat, i0: nat, lane: Lane, blendTime: real, ghost src: Source, ghost trees0: seq<Tree>,
                   ghost v: View, ghost total: int) returns (ok: bool, done: bool, p: nat)
      requires Raising(t, i, i0, lane, blendTime, src, trees0, v, total) && i != 0
      modifies this
      ensures Valid() && Grown(trees0, trees, t)
      ensures !ok ==> total > POOL && Stuck(t)
      ensures ok && !done ==> p < i && Raising(t, p, i0, lane, blendTime, src, trees0, v, total)
      ensures ok && done ==> trees[t].src == src && LiveClosed(trees[t]) && used == total <= POOL
      ensures ok && done ==> ParentsRaised(src, lane, blendTime, i0, v, Now(t))
      ensures ok && done && i0 != 0 ==> ParentLive(trees[t], i0)
    {
      hide PoolOk, Names, RaisePoint, ParentsRaised, Grown, HasDead;
      ShapeOk(t);
      RaisePointFacts(src, trees[t], i, i0, lane, blendTime, v, Now(t), used, total);
      UsedFits();
      p := trees[t].src.parent[i];
      if trees[t].handles[p] != 0 {
        return true, true, p;
      }
      ghost var t1, v1, used1 := trees, Now(t), used;
      done := false;
      var code;
      ok, code := AimNode(t, p, lane, 0.0, blendTime, 1.0, true, 0, 0);
      GrownThen(trees0, t1, trees, t);
      if ok {
        ShapeOk(t);
        RaiseOn(src, t1[t], trees[t], i, p, i0, lane, blendTime, v, v1, Now(t), used1, total);
      }
    }

    /** A goal with all it has to create. */
    ghost predicate GoalFits(t: nat, i: nat, weight: real)
      requires Core() && t < |trees| && i < |trees[t].handles|
      reads this
    {
      used + MissingAt(t, i, weight) <= POOL
    }

    /** After the node itself, what is left to create are its dead ancestors. */
    lemma AfterAim(t: nat, i: nat, weight: real, before: seq<nat>, used0: int)
      requires Core() && t < |trees| && i < |trees[t].handles| == |before|
      requires forall j :: 0 <= j < |before| && j != i ==> trees[t].handles[j] == before[j]
      requires used == used0 + if before[i] == 0 && weight != 0.0 then 1 else 0
      ensures ValidSource(trees[t].src) && |before| == |trees[t].src.first|
      ensures used + DeadAboveAt(t, i) == used0 + Missing(trees[t].src, before, i, weight)
      ensures DeadAboveAt(t, i) == DeadAbove(trees[t].src, trees[t].handles, i)
    {
      ShapeOk(t);
      DeadAboveSame(trees[t].src, before, trees[t].handles, i);
    }

    /** The node and then its missing ancestors; it fails exactly when the pool
        cannot supply the node, if it needs a record, and its dead ancestors. */
    method AimAndRaise(t: nat, i: nat, lane: Lane, weight: real, blendTime: real, rate: real,
                       name: Word, notifyType: Word)
      returns (ok: bool, code: nat)
      requires Valid() && t < |trees| && i < |trees[t].handles| && LiveClosed(trees[t])
      modifies this
      ensures Valid() && Grown(old(trees), trees, t)
      ensures ok <==> old(GoalFits(t, i, weight))
      ensures ok ==> LiveClosed(trees[t]) && used == old(used) + old(MissingAt(t, i, weight))
      ensures ok ==> GoalSet(trees[t].src, i, lane, weight, blendTime, rate, name, notifyType, old(Now(t)), Now(t))
      ensures ok ==> code == CodeFor(trees[t].src, lane, old(Now(t)), i, name, trees[t].handles[i] != 0)
      ensures ok && i != 0 ==> ParentLive(trees[t], i)
      ensures !ok ==> Stuck(t)
    {
      hide PoolOk, Names, DeadAbove, CodeFor, NodeAimed, GoalSet, ValidSource, ParentLive, HasDead;
      ShapeOk(t);
      UsedFits();
      ghost var trees0, used0, v0 := trees, used, Now(t);
      ok, code := AimNode(t, i, lane, weight, blendTime, rate, false, name, notifyType);
      if ok {
        AfterAim(t, i, weight, trees0[t].handles, used0);
        hide LiveClosed;
        ok := RaiseRest(t, i, lane, weight, blendTime, rate, name, notifyType, trees0, v0);
      }
    }

    /** The ancestors of a node that has just got its goal. */
    method RaiseRest(t: nat, i: nat, lane: Lane, weight: real, blendTime: real, ghost rate: real,
                     ghost name: Word, ghost notifyType: Word, ghost trees0: seq<Tree>, ghost v0: View)
      returns (ok: bool)
      requires Valid() && Grown(trees0, trees, t) && t < |trees| && i < |trees[t].handles|
      requires ClosedExcept(trees[t], i)
      requires NodeAimed(trees[t].src, i, lane, weight, blendTime, rate, name, notifyType, v0, Now(t))
      modifies this
      ensures Valid() && Grown(trees0, trees, t)
      ensures trees[t].src == old(trees)[t].src && |trees[t].handles| == |old(trees)[t].handles|
      ensures ok <==> old(used) + old(DeadAboveAt(t, i)) <= POOL
      ensures ok ==> used == old(used) + old(DeadAboveAt(t, i)) && LiveClosed(trees[t])
      ensures ok ==> GoalSet(trees[t].src, i, lane, weight, blendTime, rate, name, notifyType, v0, Now(t))
      ensures ok ==> trees[t].handles[i] == old(trees)[t].handles[i] && (i != 0 ==> ParentLive(trees[t], i))
      ensures !ok ==> Stuck(t)
    {
      hide PoolOk, Names, DeadAbove, NodeAimed, GoalSet, ValidSource, ParentLive, Grown, LiveClosed, HasDead;
      ShapeOk(t);
      ghost var v1, t1 := Now(t), trees;
      ok := EnsureGoalWeightParent(t, i, lane, blendTime);
      GrownThen(trees0, t1, trees, t);
      if ok {
        GoalThenParents(trees[t].src, i, lane, weight, blendTime, rate, name, notifyType, v0, v1, Now(t));
        SameLife(trees[t].src, lane, blendTime, i, v1, Now(t));
      }
    }

    /** XAnimSetGoalWeight. */
    method SetGoalWeight(t: nat, i: nat, lane: Lane, weight0: real, blendTime: real, rate: real,
                         name: Word, notifyType: Word)
      returns (ok: bool, code: nat)
      requires Valid() && t < |trees| && i < |trees[t].handles| && LiveClosed(trees[t])
      modifies this
      ensures Valid() && Grown(old(trees), trees, t)
      ensures ok <==> old(GoalFits(t, i, Clipped(weight0)))
      ensures ok ==> LiveClosed(trees[t]) && used == old(used) + old(MissingAt(t, i, Clipped(weight0)))
      ensures ok ==> GoalSet(trees[t].src, i, lane, Clipped(weight0), blendTime, rate, name, notifyType,
                             old(Now(t)), Now(t))
      ensures ok ==> GoalReached(trees[t].src, i, lane, if weight0 < 0.001 then 0.0 else weight0, blendTime, rate,
                                 name, notifyType, old(Now(t)), Now(t))
      ensures ok ==> code == CodeFor(trees[t].src, lane, old(Now(t)), i, name, trees[t].handles[i] != 0)
      ensures !ok ==> Stuck(t)
    {
      hide PoolOk, Names, GoalSet, GoalReached, Missing, CodeFor, LiveClosed, HasDead;
      ghost var v := Now(t);
      ok, code := AimAndRaise(t, i, lane, Clipped(weight0), blendTime, rate, name, notifyType);
      if ok {
        GoalMeans(trees[t].src, i, lane, Clipped(weight0), blendTime, rate, name, notifyType, v, Now(t));
      }
    }

    lemma WeightNow(t: nat, c: nat, lane: Lane)
      requires Valid() && t < |trees| && c < |trees[t].handles|
      ensures Weight(t, c, lane) == WeightIn(Now(t), c, lane)
    {
      if trees[t].handles[c] != 0 {
        LiveNode(t, c);
      }
    }

    /** The first loop of the knob: the longest distance any child has to go. */
    method LongestWay(t: nat, i: nat, lane: Lane, weight: real) returns (most: real)
      requires Valid() && t < |trees| && 0 < i < |trees[t].handles|
      ensures var p := trees[t].src.parent[i];
              most == Heaviest(Now(t), lane, i, weight, trees[t].src.first[p], trees[t].src.count[p])
    {
      hide PoolOk, Names;
      ShapeOk(t);
      var p := trees[t].src.parent[i];
      var first := trees[t].src.first[p];
      most := 0.0;
      for k := 0 to trees[t].src.count[p]
        invariant most == Heaviest(Now(t), lane, i, weight, first, k)
      {
        WeightNow(t, first + k, lane);
        var w := Weight(t, first + k, lane);
        var way := if first + k == i then Abs(weight - w) else w;
        if most < way {
          most := way;
        }
      }
    }

    /** XAnimClearGoalWeightKnobInternal: the siblings of a node lose their goal
        weight, over a time that the longest way among them sets. */
    method ClearKnob(t: nat, i: nat, lane: Lane, weight: real, blendTime: real)
      requires Valid() && t < |trees| && i < |trees[t].handles|
      modifies this`info, this`refs
      ensures Valid()
      ensures KnobDone(trees[t].src, lane, i, weight, blendTime, old(Now(t)), Now(t))
    {
      hide PoolOk, Names, KnobCleared;
      ShapeOk(t);
      RecordNow(t, i);
      if i == 0 {
        return;
      }
      var most := LongestWay(t, i, lane, weight);
      var time := Scaled(most, blendTime);
      assert time == KnobTime(trees[t].src, lane, i, weight, blendTime, Now(t));
      ClearSiblings(t, i, lane, time);
      KnobEnds(trees[t].src, lane, i, weight, blendTime, old(Now(t)), Now(t));
    }

    /** The sibling loop of the knob. */
    method ClearSiblings(t: nat, i: nat, lane: Lane, time: real)
      requires Valid() && t < |trees| && 0 < i < |trees[t].handles|
      requires ValidSource(trees[t].src) && |trees[t].handles| == |trees[t].src.first|
      modifies this`info, this`refs
      ensures Valid()
      ensures KnobCleared(trees[t].src, lane, i, time,
                          trees[t].src.first[trees[t].src.parent[i]] + trees[t].src.count[trees[t].src.parent[i]],
                          old(Now(t)), Now(t))
    {
      hide PoolOk, Names, KnobCleared, SameShape;
      RecordNow(t, i);
      var p := trees[t].src.parent[i];
      var first, count := trees[t].src.first[p], trees[t].src.count[p];
      NoneCleared(trees[t].src, lane, i, time, Now(t));
      for k := 0 to count
        invariant Valid() && KnobCleared(trees[t].src, lane, i, time, first + k, old(Now(t)), Now(t))
      {
        if first + k != i {
          ClearSibling(t, i, first + k, lane, time, old(Now(t)));
        } else {
          SkipOne(trees[t].src, lane, i, time, old(Now(t)), Now(t));
        }
      }
    }

    method ClearSibling(t: nat, i: nat, c: nat, lane: Lane, time: real, ghost v: View)
      requires Valid() && t < |trees| && i < |trees[t].handles| && c < |trees[t].handles|
      requires KnobCleared(trees[t].src, lane, i, time, c, v, Now(t)) && Sibling(trees[t].src, c, i)
      modifies this`info, this`refs
      ensures Valid() && KnobCleared(trees[t].src, lane, i, time, c + 1, v, Now(t))
    {
      hide PoolOk, Names;
      RecordNow(t, c);
      ghost var m := Now(t);
      if trees[t].handles[c] != 0 {
        LiveNode(t, c);
      }
      ClearGoalWeight(t, c, lane, time);
      ClearOne(trees[t].src, lane, i, time, c, v, m, Now(t));
    }

    /** XAnimSetGoalWeightKnob and XAnimSetCompleteGoalWeightKnob; only the first
        reports a code. */
    method SetGoalWeightKnob(t: nat, i: nat, lane: Lane, weight0: real, blendTime: real, rate: real,
                             name: Word, notifyType: Word, complete: bool)
      returns (ok: bool, code: nat, ghost mid: View)
      requires Valid() && t < |trees| && i < |trees[t].handles| && LiveClosed(trees[t])
      modifies this
      ensures Valid() && Grown(old(trees), trees, t)
      ensures ok <==> old(GoalFits(t, i, Clipped(weight0)))
      ensures ok ==> LiveClosed(trees[t]) && used == old(used) + old(MissingAt(t, i, Clipped(weight0)))
      ensures KnobDone(trees[t].src, lane, i, if complete then weight0 else Clipped(weight0), blendTime,
                       old(Now(t)), mid)
      ensures FamilyLetGo(trees[t].src, lane, i, if !complete && weight0 < 0.001 then 0.0 else weight0, blendTime,
                          old(Now(t)), mid)
      ensures ok && !complete ==> GoalSet(trees[t].src, i, lane, Clipped(weight0), blendTime, rate,
                                          name, notifyType, mid, Now(t))
      ensures ok && !complete ==> GoalReached(trees[t].src, i, lane, if weight0 < 0.001 then 0.0 else weight0,
                                              blendTime, rate, name, notifyType, mid, Now(t))
      ensures ok && complete ==> CompleteReached(trees[t].src, i, lane, if weight0 < 0.001 then 0.0 else weight0,
                                                 blendTime, rate, name, notifyType, mid, Now(t))
      ensures ok && !complete ==> code == CodeFor(trees[t].src, lane, mid, i, name, trees[t].handles[i] != 0)
      ensures ok && complete ==> CompleteSet(trees[t].src, i, lane, Clipped(weight0), blendTime, rate,
                                             name, notifyType, 0, mid, Now(t))
      ensures !ok ==> Stuck(t)
    {
      hide PoolOk, Names, Missing, KnobDone, GoalSet, CompleteSet, GoalReached, CompleteReached, FamilyLetGo;
      ShapeOk(t);
      var weight := if complete then weight0 else Clipped(weight0);
      ClearKnob(t, i, lane, weight, blendTime);
      mid := Now(t);
      KnobMeans(trees[t].src, lane, i, weight, blendTime, old(Now(t)), mid);
      code := 0;
      if complete {
        ok := SetCompleteGoalWeight(t, i, lane, weight, blendTime, rate, name, notifyType);
      } else {
        ok, code := SetGoalWeight(t, i, lane, weight, blendTime, rate, name, notifyType);
      }
    }

    /** The head of XAnimSetCompleteGoalWeightKnobAll: the node itself. */
    method KnobHead(t: nat, i: nat, lane: Lane, weight: real, blendTime: real, rate: real,
                    name: Word, notifyType: Word) returns (ok: bool, code: nat, ghost mid: View)
      requires Valid() && t < |trees| && i < |trees[t].handles| && LiveClosed(trees[t])
      modifies this
      ensures Valid() && Grown(old(trees), trees, t)
      ensures ok <==> old(GoalFits(t, i, weight))
      ensures ok ==> LiveClosed(trees[t]) && used == old(used) + old(MissingAt(t, i, weight))
      ensures KnobDone(trees[t].src, lane, i, weight, blendTime, old(Now(t)), mid)
      ensures ok ==> GoalSet(trees[t].src, i, lane, weight, blendTime, rate, name, notifyType, mid, Now(t))
      ensures ok ==> code == CodeFor(trees[t].src, lane, mid, i, name, trees[t].handles[i] != 0)
      ensures ok && i != 0 ==> ParentLive(trees[t], i)
      ensures !ok ==> Stuck(t)
    {
      hide PoolOk, Names, Missing, KnobDone, GoalSet, CodeFor, LiveClosed, HasDead;
      ClearKnob(t, i, lane, weight, blendTime);
      mid := Now(t);
      ok, code := AimAndRaise(t, i, lane, weight, blendTime, rate, name, notifyType);
    }

    /** XAnimSetCompleteGoalWeightKnobAll: the node gets its goal as a knob, then
        each ancestor below the given one goes to full weight as a knob. The code
        is that of the node if the given ancestor was met on the way, else 1. */
    method SetGoalWeightKnobAll(t: nat, i0: nat, knob: nat, lane: Lane, weight0: real, blendTime: real, rate: real,
                                name: Word, notifyType: Word)
      returns (ok: bool, code: nat, ghost mid: View, ghost trail: seq<View>)
      requires Valid() && t < |trees| && i0 < |trees[t].handles| && LiveClosed(trees[t])
      modifies this
      ensures Valid() && Grown(old(trees), trees, t)
      ensures ok <==> old(GoalFits(t, i0, Clipped(weight0)))
      ensures ok ==> LiveClosed(trees[t]) && used == old(used) + old(MissingAt(t, i0, Clipped(weight0)))
      ensures KnobDone(trees[t].src, lane, i0, Clipped(weight0), blendTime, old(Now(t)), mid)
      ensures FamilyLetGo(trees[t].src, lane, i0, if weight0 < 0.001 then 0.0 else weight0, blendTime,
                          old(Now(t)), mid)
      ensures ok ==> KnobAllReached(trees[t].src, i0, knob, lane, if weight0 < 0.001 then 0.0 else weight0, blendTime,
                                    rate, name, notifyType, mid, trail, Now(t))
      ensures ok ==> KnobAllSet(trees[t].src, i0, knob, lane, Clipped(weight0), blendTime, rate, name, notifyType,
                                mid, trail, Now(t), code)
      ensures !ok ==> Stuck(t)
    {
      hide PoolOk, Names, Climbing, KnobTrail, KnobDone, KnobAllSet, GoalSet, Above, Ancestor, Missing, CodeFor;
      hide LiveClosed, ParentLive, HasDead, FamilyLetGo, KnobAllReached, Climbed;
      ShapeOk(t);
      trail := [];
      var head: nat;
      ok, head, mid := KnobHead(t, i0, lane, Clipped(weight0), blendTime, rate, name, notifyType);
      code := head;
      KnobMeans(trees[t].src, lane, i0, Clipped(weight0), blendTime, old(Now(t)), mid);
      if ok {
        ghost var start := Now(t);
        ClimbStarts(t, i0, knob, lane, blendTime, old(trees), used);
        var found;
        found, trail := KnobClimb(t, i0, knob, lane, blendTime, trees[t].src, old(trees), [start], used);
        if !found {
          code := 1;
        }
        KnobAllEnds(trees[t].src, i0, knob, lane, Clipped(weight0), blendTime, rate, name, notifyType,
                    mid, trail, Now(t), head, found);
        KnobAllFollows(trees[t].src, i0, knob, lane, Clipped(weight0), blendTime, rate, name, notifyType,
                       mid, trail, Now(t), code);
      }
    }

    /** The knob walk has come to node i. */
    ghost predicate Climbing(t: nat, i: nat, i0: nat, knob: nat, lane: Lane, blendTime: real, src: Source,
                             trees0: seq<Tree>, trail: seq<View>, used0: int)
      reads this
    {
      && Valid() && Grown(trees0, trees, t) && trees[t].src == src && i < |src.first| && LiveClosed(trees[t])
      && used == used0 && (i != 0 ==> ParentLive(trees[t], i))
      && ValidSource(src) && i0 < |src.first|
      && KnobTrail(src, lane, blendTime, i0, trail) && trail != [] && trail[|trail| - 1] == Now(t)
      && i == Ancestor(src, i0, |trail| - 1) && Above(src, knob, i0) == Above(src, knob, i)
      && Climbed(src, i0, |trail| - 1)
    }

    lemma ClimbStarts(t: nat, i: nat, knob: nat, lane: Lane, blendTime: real, trees0: seq<Tree>, used0: int)
      requires Valid() && Grown(trees0, trees, t) && i < |trees[t].handles| && LiveClosed(trees[t]) && used == used0
      requires i != 0 ==> ParentLive(trees[t], i)
      ensures Climbing(t, i, i, knob, lane, blendTime, trees[t].src, trees0, [Now(t)], used0)
    {
      ShapeOk(t);
    }

    /** The ancestor loop of XAnimSetCompleteGoalWeightKnobAll: every ancestor is
        live by now, so nothing is created and nothing fails. */
    method KnobClimb(t: nat, i0: nat, knob: nat, lane: Lane, blendTime: real, ghost src: Source,
                     ghost trees0: seq<Tree>, ghost start: seq<View>, ghost used0: int)
      returns (found: bool, ghost trail: seq<View>)
      requires Climbing(t, i0, i0, knob, lane, blendTime, src, trees0, start, used0) && |start| == 1
      modifies this
      ensures Valid() && Grown(trees0, trees, t) && trees[t].src == src && LiveClosed(trees[t]) && used == used0
      ensures ValidSource(src) && i0 < |src.first|
      ensures KnobTrail(src, lane, blendTime, i0, trail) && trail[|trail| - 1] == Now(t) && trail[0] == start[0]
      ensures found <==> Above(src, knob, i0)
      ensures Ancestor(src, i0, if found then |trail| else |trail| - 1) == if found then knob else 0
      ensures Climbed(src, i0, if found then |trail| else |trail| - 1)
    {
      hide PoolOk, Names, Climbing, KnobTrail, LiveClosed, Grown, Above, Ancestor, ValidSource, Climbed;
      var i: nat := i0;
      trail := start;
      while i != 0
        invariant Climbing(t, i, i0, knob, lane, blendTime, src, trees0, trail, used0)
        invariant trail != [] && trail[0] == start[0]
        decreases i
      {
        var p, met;
        ghost var next;
        p, met, next := KnobUp(t, i, i0, knob, lane, blendTime, src, trees0, trail, used0);
        if met {
          ClimbFacts(t, i, i0, knob, lane, blendTime, src, trees0, trail, used0);
          return true, trail;
        }
        i, trail := p, next;
      }
      ClimbFacts(t, i, i0, knob, lane, blendTime, src, trees0, trail, used0);
      return false, trail;
    }

    lemma ClimbFacts(t: nat, i: nat, i0: nat, knob: nat, lane: Lane, blendTime: real, src: Source,
                     trees0: seq<Tree>, trail: seq<View>, used0: int)
      requires Climbing(t, i, i0, knob, lane, blendTime, src, trees0, trail, used0)
      ensures Valid() && Grown(trees0, trees, t) && trees[t].src == src && LiveClosed(trees[t]) && used == used0
      ensures ValidSource(src) && i0 < |src.first|
      ensures KnobTrail(src, lane, blendTime, i0, trail) && trail[|trail| - 1] == Now(t)
      ensures i == 0 ==> !Above(src, knob, i0) && Ancestor(src, i0, |trail| - 1) == 0
      ensures Climbed(src, i0, if i == 0 then |trail| - 1 else |trail|)
    {
      hide KnobTrail, Ancestor, LiveClosed, PoolOk, Names, ValidSource;
    }

    /** What the walk knows at node i. */
    lemma ClimbHere(t: nat, i: nat, i0: nat, knob: nat, lane: Lane, blendTime: real, src: Source,
                    trees0: seq<Tree>, trail: seq<View>, used0: int)
      requires Climbing(t, i, i0, knob, lane, blendTime, src, trees0, trail, used0) && i != 0
      ensures Valid() && t < |trees| && trees[t].src == src && ValidSource(src) && LiveClosed(trees[t]) && used == used0
      ensures i < |src.first| && src.parent[i] < i && src.parent[i] < |trees[t].handles|
      ensures trees[t].handles[src.parent[i]] != 0 && Grown(trees0, trees, t) && i0 < |src.first|
      ensures KnobTrail(src, lane, blendTime, i0, trail) && trail != [] && trail[|trail| - 1] == Now(t)
      ensures Ancestor(src, i0, |trail|) == src.parent[i] && Climbed(src, i0, |trail|)
      ensures src.parent[i] == knob ==> Above(src, knob, i0)
      ensures src.parent[i] != knob ==> Above(src, knob, i0) == Above(src, knob, src.parent[i])
    {
      hide KnobTrail, Above, Ancestor, Climbed, PoolOk, Names;
      ShapeOk(t);
      NextAncestor(src, i0, i, |trail|, knob);
    }

    lemma ClimbOn(t: nat, p: nat, i0: nat, knob: nat, lane: Lane, blendTime: real, src: Source,
                  trees0: seq<Tree>, trail: seq<View>, used0: int)
      requires Valid() && t < |trees| && trees[t].src == src && Grown(trees0, trees, t) && LiveClosed(trees[t])
      requires ValidSource(src) && p < |src.first| && i0 < |src.first| && (p != 0 ==> ParentLive(trees[t], p))
      requires KnobTrail(src, lane, blendTime, i0, trail) && trail != [] && used == used0
      requires KnobStepped(src, lane, blendTime, p, trail[|trail| - 1], Now(t))
      requires Ancestor(src, i0, |trail|) == p && Above(src, knob, i0) == Above(src, knob, p)
      requires Climbed(src, i0, |trail|)
      ensures Climbing(t, p, i0, knob, lane, blendTime, src, trees0, trail + [Now(t)], used0)
    {
      TrailGrows(src, lane, blendTime, i0, trail, Now(t));
    }

    /** One round of the ancestor loop. */
    method KnobUp(t: nat, i: nat, i0: nat, knob: nat, lane: Lane, blendTime: real, ghost src: Source,
                  ghost trees0: seq<Tree>, ghost trail: seq<View>, ghost used0: int)
      returns (p: nat, met: bool, ghost next: seq<View>)
      requires Climbing(t, i, i0, knob, lane, blendTime, src, trees0, trail, used0) && i != 0
      modifies this
      ensures Valid() && Grown(trees0, trees, t) && ValidSource(src) && i0 < |src.first|
      ensures met ==> Climbing(t, i, i0, knob, lane, blendTime, src, trees0, trail, used0)
      ensures met ==> Above(src, knob, i0) && Ancestor(src, i0, |trail|) == knob
      ensures !met ==> Climbing(t, p, i0, knob, lane, blendTime, src, trees0, next, used0)
      ensures !met ==> p < i && next != [] && next[0] == trail[0]
    {
      ClimbHere(t, i, i0, knob, lane, blendTime, src, trees0, trail, used0);
      ghost var t1 := trees;
      p, met, next := trees[t].src.parent[i], false, trail;
      hide PoolOk, Names, KnobTrail, KnobStepped, Grown, Climbing, Above, Ancestor, LiveClosed, ValidSource, Climbed;
      if p == knob {
        return p, true, trail;
      }
      KnobStep(t, p, lane, blendTime);
      GrownThen(trees0, t1, trees, t);
      ClimbOn(t, p, i0, knob, lane, blendTime, src, trees0, trail, used0);
      next := trail + [Now(t)];
    }

    /** One ancestor of the knob walk: its siblings let go, it goes to full weight. */
    method KnobStep(t: nat, i: nat, lane: Lane, blendTime: real)
      requires Valid() && t < |trees| && i < |trees[t].handles| && LiveClosed(trees[t]) && trees[t].handles[i] != 0
      modifies this
      ensures Valid() && Grown(old(trees), trees, t) && t < |trees| && trees[t].handles == old(trees)[t].handles
      ensures LiveClosed(trees[t]) && (i != 0 ==> ParentLive(trees[t], i)) && used == old(used)
      ensures KnobStepped(trees[t].src, lane, blendTime, i, old(Now(t)), Now(t))
    {
      hide PoolOk, Names, KnobDone, Greatest;
      ShapeOk(t);
      ClearKnob(t, i, lane, 1.0, blendTime);
      ghost var mid := Now(t);
      var ok, code := AimNode(t, i, lane, 1.0, blendTime, 1.0, false, 0, 0);
      assert trees[t].handles == old(trees)[t].handles;
      assert OnlyGoal(trees[t].src, i, lane, 1.0, blendTime, mid, Now(t));
    }

    /** XAnimSetCompleteGoalWeight: every ancestor ends up live with a goal weight. */
    method SetCompleteGoalWeight(t: nat, i0: nat, lane: Lane, weight0: real, blendTime: real, rate: real,
                                 name: Word, notifyType: Word)
      returns (ok: bool)
      requires Valid() && t < |trees| && i0 < |trees[t].handles| && LiveClosed(trees[t])
      modifies this
      ensures Valid() && Grown(old(trees), trees, t)
      ensures ok <==> old(GoalFits(t, i0, Clipped(weight0)))
      ensures ok ==> LiveClosed(trees[t]) && used == old(used) + old(MissingAt(t, i0, Clipped(weight0)))
      ensures ok ==> CompleteSet(trees[t].src, i0, lane, Clipped(weight0), blendTime, rate, name, notifyType,
                                 0, old(Now(t)), Now(t))
      ensures ok ==> CompleteReached(trees[t].src, i0, lane, if weight0 < 0.001 then 0.0 else weight0, blendTime, rate,
                                     name, notifyType, old(Now(t)), Now(t))
      ensures !ok ==> Stuck(t)
    {
      hide PoolOk, Names, DeadAbove, CodeFor, NodeAimed, CompleteSet, ValidSource, HasDead, CompleteReached;
      ShapeOk(t);
      UsedFits();
      var weight := Clipped(weight0);
      ghost var g := Goal(i0, lane, weight, blendTime, rate, name, notifyType);
      ghost var trees0, used0, v0 := trees, used, Now(t);
      var code;
      ok, code := AimNode(t, i0, lane, weight, blendTime, rate, false, name, notifyType);
      if ok {
        AfterAim(t, i0, weight, trees0[t].handles, used0);
        hide LiveClosed;
        ok := CompleteRest(t, i0, lane, blendTime, trees0, g, v0);
        if ok {
          CompleteMeans(trees[t].src, i0, lane, weight, blendTime, rate, name, notifyType, v0, Now(t));
        }
      }
    }

    /** The ancestors of a node that has just got its goal. */
    method CompleteRest(t: nat, i0: nat, lane: Lane, blendTime: real, ghost trees0: seq<Tree>, ghost g: Goal,
                        ghost v0: View) returns (ok: bool)
      requires Valid() && Grown(trees0, trees, t) && t < |trees| && i0 < |trees[t].handles|
      requires ClosedExcept(trees[t], i0)
      requires g.node == i0 && g.lane == lane && g.blendTime == blendTime
      requires NodeAimed(trees[t].src, i0, lane, g.weight, blendTime, g.rate, g.name, g.notifyType, v0, Now(t))
      modifies this
      ensures Valid() && Grown(trees0, trees, t)
      ensures trees[t].src == old(trees)[t].src
      ensures ok <==> old(used) + old(DeadAboveAt(t, i0)) <= POOL
      ensures ok ==> used == old(used) + old(DeadAboveAt(t, i0)) && LiveClosed(trees[t])
      ensures ok ==> CompleteSet(trees[t].src, i0, lane, g.weight, blendTime, g.rate, g.name, g.notifyType, 0,
                                 v0, Now(t))
      ensures !ok ==> Stuck(t)
    {
      hide PoolOk, Names, DeadAbove, NodeAimed, CompleteSet, ValidSource, Grown, LiveClosed, HasDead, CompletePoint;
      ShapeOk(t);
      ghost var src, total := trees[t].src, used + DeadAboveAt(t, i0);
      CompleteStarts(src, i0, lane, g.weight, blendTime, g.rate, g.name, g.notifyType, v0, Now(t));
      CompletePointStart(src, trees[t], g, v0, Now(t), used);
      ok := CompleteClimb(t, i0, lane, blendTime, src, trees0, g, v0, total);
    }

    /** The complete walk has come to node i. */
    ghost predicate Completing(t: nat, i: nat, src: Source, trees0: seq<Tree>, g: Goal, v: View, total: int)
      reads this
    {
      && Valid() && Grown(trees0, trees, t) && t < |trees|
      && CompletePoint(src, trees[t], i, g, v, Now(t), used, total)
    }

    /** The ancestor loop of XAnimSetCompleteGoalWeight. */
    method CompleteClimb(t: nat, i0: nat, lane: Lane, blendTime: real, ghost src: Source, ghost trees0: seq<Tree>,
                         ghost g: Goal, ghost v: View, ghost total: int) returns (ok: bool)
      requires Completing(t, i0, src, trees0, g, v, total) && g.lane == lane && g.blendTime == blendTime
      modifies this
      ensures Valid() && Grown(trees0, trees, t) && trees[t].src == src && (ok <==> total <= POOL)
      ensures ok ==> used == total && LiveClosed(trees[t])
      ensures ok ==> CompleteSet(src, g.node, g.lane, g.weight, g.blendTime, g.rate, g.name, g.notifyType, 0, v, Now(t))
      ensures !ok ==> Stuck(t)
    {
      hide PoolOk, Names, Completing, Grown, HasDead, LiveClosed, CompleteSet;
      var i: nat := i0;
      CompletingFacts(t, i, src, trees0, g, v, total);
      while i != 0
        invariant Completing(t, i, src, trees0, g, v, total) && Valid() && Grown(trees0, trees, t) && t < |trees|
        decreases i
      {
        ok, i := CompleteUp(t, i, lane, blendTime, src, trees0, g, v, total);
        if !ok {
          return;
        }
      }
      CompletingFacts(t, 0, src, trees0, g, v, total);
      return true;
    }

    lemma CompletingFacts(t: nat, i: nat, src: Source, trees0: seq<Tree>, g: Goal, v: View, total: int)
      requires Completing(t, i, src, trees0, g, v, total)
      ensures Valid() && Grown(trees0, trees, t) && t < |trees| && trees[t].src == src
      ensures i == 0 ==> used == total <= POOL && LiveClosed(trees[t])
      ensures i == 0 ==> CompleteSet(src, g.node, g.lane, g.weight, g.blendTime, g.rate, g.name, g.notifyType, 0,
                                     v, Now(t))
    {
      UsedFits();
      ShapeOk(t);
      CompletePointFacts(src, trees[t], i, g, v, Now(t), used, total);
    }

    method CompleteUp(t: nat, i: nat, lane: Lane, blendTime: real, ghost src: Source, ghost trees0: seq<Tree>,
                      ghost g: Goal, ghost v: View, ghost total: int) returns (ok: bool, p: nat)
      requires Completing(t, i, src, trees0, g, v, total) && i != 0 && g.lane == lane && g.blendTime == blendTime
      modifies this
      ensures Valid() && Grown(trees0, trees, t) && t < |trees| && trees[t].src == src
      ensures ok ==> p < i && Completing(t, p, src, trees0, g, v, total)
      ensures !ok ==> total > POOL && Stuck(t)
    {
      hide PoolOk, Names, CompletePoint, Grown, HasDead;
      ShapeOk(t);
      CompletePointFacts(src, trees[t], i, g, v, Now(t), used, total);
      p := trees[t].src.parent[i];
      ghost var t1, v1, used1 := trees, Now(t), used;
      ok := CompleteStep(t, p, lane, blendTime);
      GrownThen(trees0, t1, trees, t);
      if ok {
        ShapeOk(t);
        CompleteOn(src, t1[t], trees[t], i, p, g, v, v1, Now(t), used1, total);
      }
    }

    /** One ancestor: an idle or missing one heads for full weight. */
    method CompleteStep(t: nat, p: nat, lane: Lane, blendTime: real) returns (ok: bool)
      requires Valid() && t < |trees| && p < |trees[t].handles|
      requires ValidSource(trees[t].src) && |trees[t].handles| == |trees[t].src.first|
      modifies this
      ensures Valid() && Grown(old(trees), trees, t)
      ensures forall j :: 0 <= j < |trees[t].handles| && j != p ==> trees[t].handles[j] == old(trees)[t].handles[j]
      ensures ok ==> trees[t].handles[p] != 0 && used == old(used) + if old(trees)[t].handles[p] == 0 then 1 else 0
      ensures !ok ==> old(trees)[t].handles[p] == 0 && trees == old(trees) && old(used) == POOL && Stuck(t)
      ensures ok ==> SameShape(trees[t].src, old(Now(t)), Now(t)) && OthersKept(old(Now(t)), Now(t), p)
      ensures ok ==> if RecordIn(old(Now(t)), p).On(lane).target == 0.0
                     then LiveWith(Now(t), p,
                                   Aimed(RecordIn(old(Now(t)), p), p == 0, lane, 1.0, blendTime, 1.0, 0, 0, 0))
                     else NodeKept(old(Now(t)), Now(t), p)
    {
      RecordNow(t, p);
      UsedFits();
      var h := trees[t].handles[p];
      var idle := h == 0;
      if h != 0 {
        LiveNode(t, p);
        idle := info[h].On(lane).target == 0.0;
      }
      hide PoolOk, Names, Greatest;
      ok := true;
      if idle {
        var code;
        ok, code := AimNode(t, p, lane, 1.0, blendTime, 1.0, false, 0, 0);
      }
    }
  }

  /** What XAnimSetCompleteGoalWeight was asked for. */
  datatype Goal = Goal(node: nat, lane: Lane, weight: real, blendTime: real, rate: real, name: Word, notifyType: Word)

  /** Ancestors of i0 up to node i are live, those above may be missing; with
      the missing ones the pool will come to `total` records in use. */
  ghost predicate RaisePoint(src: Source, t: Tree, i: nat, i0: nat, lane: Lane, blendTime: real, v: View, now: View,
                             used: int, total: int)
  {
    && ValidSource(src) && t.src == src && i < |src.first| == |t.handles| && i0 < |src.first| && ClosedExcept(t, i)
    && now.handles == t.handles && ParentsRaised(src, lane, blendTime, i0, v, now)
    && (i == i0 || (Above(src, i, i0) && ParentLive(t, i0)))
    && used + DeadAbove(src, t.handles, i) == total
  }

  lemma RaisePointFacts(src: Source, t: Tree, i: nat, i0: nat, lane: Lane, blendTime: real, v: View, now: View,
                        used: int, total: int)
    requires RaisePoint(src, t, i, i0, lane, blendTime, v, now, used, total) && TreeOk(t)
    ensures ValidSource(src) && t.src == src && i < |src.first| == |t.handles|
    ensures i == 0 || t.handles[src.parent[i]] != 0 ==>
              LiveClosed(t) && used == total && ParentsRaised(src, lane, blendTime, i0, v, now) &&
              (i0 != 0 ==> ParentLive(t, i0))
    ensures i != 0 && t.handles[src.parent[i]] == 0 ==> total > used
  {
    if i != 0 && t.handles[src.parent[i]] != 0 {
      ClosedUp(t, i);
      NoneDeadAbove(src, t.handles, src.parent[i]);
    }
  }

  lemma AboveUp(src: Source, i: nat, i0: nat)
    requires ValidSource(src) && 0 < i < |src.first| && i0 < |src.first| && (i == i0 || Above(src, i, i0))
    ensures Above(src, src.parent[i], i0) && src.parent[i] < i && i0 != 0
  {
    if i != i0 {
      AboveParent(src, i, i0);
    }
  }

  lemma DeadAboveUp(src: Source, handles: seq<nat>, i: nat)
    requires ValidSource(src) && 0 < i < |src.first| == |handles|
    ensures DeadAbove(src, handles, i) ==
            (if handles[src.parent[i]] == 0 then 1 else 0) + DeadAbove(src, handles, src.parent[i])
  {
  }

  lemma RaiseOn(src: Source, a: Tree, b: Tree, i: nat, p: nat, i0: nat, lane: Lane, blendTime: real,
                v: View, m: View, r: View, used: int, total: int)
    requires RaisePoint(src, a, i, i0, lane, blendTime, v, m, used, total) && TreeOk(a) && TreeOk(b) && b.src == src
    requires i != 0 && p == src.parent[i] && |b.handles| == |a.handles| && a.handles[p] == 0 && b.handles[p] != 0
    requires forall j :: 0 <= j < |a.handles| && j != p ==> b.handles[j] == a.handles[j]
    requires r.handles == b.handles && NodeAimed(src, p, lane, 0.0, blendTime, 1.0, 0, 0, m, r)
    ensures RaisePoint(src, b, p, i0, lane, blendTime, v, r, used + 1, total)
  {
    hide Aimed, ParentsRaised, Above, DeadAbove, ClosedExcept, OthersKept, LiveWith, SameShape, ValidSource;
    assert ChildFor(src, lane, m, p, 0) == 0;
    AboveUp(src, i, i0);
    DeadAboveUp(src, a.handles, i);
    ClosedStep(a, b, i, p);
    RaiseOne(src, lane, blendTime, i0, v, m, r, p);
    DeadAboveSame(src, a.handles, b.handles, p);
  }

  /** The complete walk from a goal has come to node i; with the ancestors still
      missing the pool will come to `total` records in use. */
  ghost predicate CompletePoint(src: Source, t: Tree, i: nat, g: Goal, v: View, now: View, used: int, total: int) {
    && ValidSource(src) && t.src == src && i < |src.first| == |t.handles| && ClosedExcept(t, i)
    && now.handles == t.handles && g.node < |src.first| && (i == g.node || Above(src, i, g.node))
    && CompleteSet(src, g.node, g.lane, g.weight, g.blendTime, g.rate, g.name, g.notifyType, i, v, now)
    && used + DeadAbove(src, t.handles, i) == total
  }

  lemma CompletePointStart(src: Source, t: Tree, g: Goal, v: View, now: View, used: int)
    requires ValidSource(src) && t.src == src && g.node < |src.first| == |t.handles| && ClosedExcept(t, g.node)
    requires now.handles == t.handles
    requires CompleteSet(src, g.node, g.lane, g.weight, g.blendTime, g.rate, g.name, g.notifyType, g.node, v, now)
    ensures CompletePoint(src, t, g.node, g, v, now, used, used + DeadAbove(src, t.handles, g.node))
  {
  }

  lemma CompletePointFacts(src: Source, t: Tree, i: nat, g: Goal, v: View, now: View, used: int, total: int)
    requires CompletePoint(src, t, i, g, v, now, used, total) && TreeOk(t)
    ensures ValidSource(src) && t.src == src && i < |src.first| == |t.handles| && g.node < |src.first|
    ensures i == 0 ==> used == total && LiveClosed(t) &&
                       CompleteSet(src, g.node, g.lane, g.weight, g.blendTime, g.rate, g.name, g.notifyType, 0, v, now)
    ensures i != 0 && t.handles[src.parent[i]] == 0 ==> total > used
  {
  }

  lemma CompleteOn(src: Source, a: Tree, b: Tree, i: nat, p: nat, g: Goal, v: View, m: View, r: View,
                   used: int, total: int)
    requires CompletePoint(src, a, i, g, v, m, used, total) && TreeOk(a) && TreeOk(b) && b.src == src
    requires i != 0 && p == src.parent[i] && |b.handles| == |a.handles| && b.handles[p] != 0
    requires forall j :: 0 <= j < |a.handles| && j != p ==> b.handles[j] == a.handles[j]
    requires r.handles == b.handles && SameShape(src, m, r) && OthersKept(m, r, p)
    requires if RecordIn(m, p).On(g.lane).target == 0.0
             then LiveWith(r, p, Aimed(RecordIn(m, p), p == 0, g.lane, 1.0, g.blendTime, 1.0, 0, 0, 0))
             else NodeKept(m, r, p)
    ensures CompletePoint(src, b, p, g, v, r, used + if a.handles[p] == 0 then 1 else 0, total)
  {
    hide Aimed, CompleteSet, Above, DeadAbove, ClosedExcept, OthersKept, SameShape;
    AboveUp(src, i, g.node);
    DeadAboveUp(src, a.handles, i);
    ClosedStep(a, b, i, p);
    CompleteOne(src, g.node, g.lane, g.weight, g.blendTime, g.rate, g.name, g.notifyType, i, p, v, m, r);
    DeadAboveSame(src, a.handles, b.handles, p);
  }

  /** What a knob up to an ancestor leaves: the node has its goal, and along the
      trail every ancestor below the given one went to full weight as a knob. */
  ghost predicate KnobAllSet(src: Source, i0: nat, knob: nat, lane: Lane, weight: real, blendTime: real, rate: real,
                             name: Word, notifyType: Word, mid: View, trail: seq<View>, now: View, code: nat)
  {
    && KnobTrail(src, lane, blendTime, i0, trail) && trail[|trail| - 1] == now
    && GoalSet(src, i0, lane, weight, blendTime, rate, name, notifyType, mid, trail[0])
    && Climbed(src, i0, if Above(src, knob, i0) then |trail| else |trail| - 1)
    && if Above(src, knob, i0)
       then Ancestor(src, i0, |trail|) == knob && code == CodeFor(src, lane, mid, i0, name, trail[0].handles[i0] != 0)
       else Ancestor(src, i0, |trail| - 1) == 0 && code == 1
  }

  /** From the n-th node of a climb to the one above it. */
  lemma NextAncestor(src: Source, i0: nat, i: nat, n: nat, knob: nat)
    requires ValidSource(src) && i0 < |src.first| && i < |src.first| && n > 0 && i != 0
    requires i == Ancestor(src, i0, n - 1) && Climbed(src, i0, n - 1)
    ensures Ancestor(src, i0, n) == src.parent[i] && Climbed(src, i0, n)
    ensures Above(src, knob, i) <==> src.parent[i] == knob || Above(src, knob, src.parent[i])
  {
  }

  lemma KnobAllEnds(src: Source, i0: nat, knob: nat, lane: Lane, weight: real, blendTime: real, rate: real,
                    name: Word, notifyType: Word, mid: View, trail: seq<View>, now: View, head: nat, found: bool)
    requires KnobTrail(src, lane, blendTime, i0, trail) && trail[|trail| - 1] == now
    requires GoalSet(src, i0, lane, weight, blendTime, rate, name, notifyType, mid, trail[0])
    requires head == CodeFor(src, lane, mid, i0, name, trail[0].handles[i0] != 0)
    requires found <==> Above(src, knob, i0)
    requires Ancestor(src, i0, if found then |trail| else |trail| - 1) == if found then knob else 0
    requires Climbed(src, i0, if found then |trail| else |trail| - 1)
    ensures KnobAllSet(src, i0, knob, lane, weight, blendTime, rate, name, notifyType, mid, trail, now,
                       if found then head else 1)
  {
  }

  /** The node has its goal, every ancestor below the given one heads for full
      weight and its siblings for none; nothing else changed after the node got
      its goal. Without the given one above the node that is every ancestor. */
  ghost predicate KnobAllReached(src: Source, i: nat, knob: nat, lane: Lane, weight: real, blendTime: real, rate: real,
                                 name: Word, notifyType: Word, mid: View, trail: seq<View>, now: View)
  {
    && trail != [] && SameShape(src, mid, now) && SameShape(src, trail[0], now) && i < |src.first|
    && GoalReached(src, i, lane, weight, blendTime, rate, name, notifyType, mid, trail[0])
    && GoalAt(src, i, lane, weight, blendTime, rate, name, notifyType, mid, now)
    && TrailLeads(src, lane, i, |trail| - 1, trail[0], now)
    && if Above(src, knob, i) then Ancestor(src, i, |trail|) == knob && Climbed(src, i, |trail|)
       else Ancestor(src, i, |trail| - 1) == 0 && Climbed(src, i, |trail| - 1)
  }

  lemma KnobAllFollows(src: Source, i: nat, knob: nat, lane: Lane, weight: real, blendTime: real, rate: real,
                       name: Word, notifyType: Word, mid: View, trail: seq<View>, now: View, code: nat)
    requires KnobAllSet(src, i, knob, lane, weight, blendTime, rate, name, notifyType, mid, trail, now, code)
    ensures KnobAllReached(src, i, knob, lane, weight, blendTime, rate, name, notifyType, mid, trail, now)
  {
    hide GoalSet, GoalAt, TrailLeads, KnobStepped, Ancestor, Above, NodeKept, RaisedAt;
    GoalMeans(src, i, lane, weight, blendTime, rate, name, notifyType, mid, trail[0]);
    KnobAllMeans(src, i, lane, weight, blendTime, rate, name, notifyType, mid, trail);
  }

  /** What XAnimSetGoalWeightInternal reports: a named sync node that is live
      and finds no leaf to follow has code 2. */
  ghost function CodeFor(src: Source, lane: Lane, v: View, i: nat, name: Word, live: bool): nat
    requires ValidSource(src) && i < |src.first|
  {
    if live && WantsChild(src, lane, i, name) && ChildFor(src, lane, v, i, name) == 0 then 2 else 0
  }

  /** Raising ancestors neither creates nor frees the node itself. */
  lemma SameLife(src: Source, lane: Lane, blendTime: real, i: nat, v: View, r: View)
    requires ParentsRaised(src, lane, blendTime, i, v, r)
    ensures r.handles[i] == v.handles[i]
  {
    assert NodeKept(v, r, i) || Raised(src, lane, blendTime, i, v, r, i);
    if Above(src, i, i) {
      AboveParent(src, i, i);
    }
  }

  ghost predicate ParentLive(t: Tree, i: nat) {
    0 < i < |t.src.parent| && t.src.parent[i] < |t.handles| && t.handles[t.src.parent[i]] != 0
  }

  /** A node whose parent is live was not an exception after all. */
  lemma ClosedUp(t: Tree, i: nat)
    requires TreeOk(t) && ClosedExcept(t, i) && 1 <= i < |t.handles| && t.handles[t.src.parent[i]] != 0
    ensures LiveClosed(t)
  {
  }

  /** Making the parent live moves the possible exception up by one. */
  lemma ClosedStep(a: Tree, b: Tree, i: nat, p: nat)
    requires TreeOk(a) && TreeOk(b) && ClosedExcept(a, i) && 1 <= i < |a.handles| == |b.handles|
    requires a.src == b.src && p == a.src.parent[i] && b.handles[p] != 0
    requires forall j :: 0 <= j < |a.handles| && j != p ==> b.handles[j] == a.handles[j]
    ensures ClosedExcept(b, p)
  {
  }
}
