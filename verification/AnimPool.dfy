/** The shared pool of animation nodes: a doubly linked free list through
    record 0, runtime trees that hold handles into it, and the script-string
    references of the nodes in use. */
module AnimPool {
  import opened Words

  const POOL: nat := 2048
  const NAMES: nat := 65536

  datatype Lane = Client | Server

  /** One state lane of a node. */
  datatype State = State(
    time: real, oldTime: real, cycle: Int16, oldCycle: Int16,
    blend: real, target: real, current: real, rate: real)

  const ZERO_STATE := State(0.0, 0.0, 0, 0, 0.0, 0.0, 0.0, 0.0)

  /** A node record apart from its free-list links. */
  datatype Info = Info(
    notifyChild: Word, notifyIndex: Int16, name: Word, notifyType: Word, client: State, server: State)
  {
    function On(lane: Lane): State {
      if lane.Client? then client else server
    }

    function With(lane: Lane, s: State): Info {
      if lane.Client? then this.(client := s) else this.(server := s)
    }

    /** Neither lane has a weight or is heading for one. */
    predicate Weightless() {
      client.current == 0.0 && client.target == 0.0 && server.current == 0.0 && server.target == 0.0
    }
  }

  const BLANK := Info(0, -1, 0, 0, ZERO_STATE, ZERO_STATE)

  // ----- source trees -----

  /** The authored tree: children of a node are one contiguous index range. A
      leaf has its frequency; leaves and sync nodes either loop or stop. */
  datatype Source = Source(
    first: seq<nat>, count: seq<nat>, parent: seq<nat>, sync: seq<bool>, loops: seq<bool>, frequency: seq<real>)

  predicate ValidSource(s: Source) {
    var n := |s.first|;
    && 1 <= n && |s.count| == |s.parent| == |s.sync| == |s.loops| == |s.frequency| == n
    && (forall i :: 0 <= i < n && s.count[i] > 0 ==> i < s.first[i] && s.first[i] + s.count[i] <= n)
    && (forall i, j :: 0 <= i < n && s.first[i] <= j < s.first[i] + s.count[i] && j < n ==> s.parent[j] == i)
    && (forall j :: 1 <= j < n ==>
                      s.parent[j] < j && s.first[s.parent[j]] <= j < s.first[s.parent[j]] + s.count[s.parent[j]])
  }

  datatype Tree = Tree(src: Source, handles: seq<nat>, active: int)

  function Live(handles: seq<nat>): set<nat> {
    set i | 0 <= i < |handles| && handles[i] != 0
  }

  /** Every live node has a live parent. */
  ghost predicate LiveClosed(t: Tree) {
    |t.handles| == |t.src.parent| &&
    forall j :: 1 <= j < |t.handles| && t.handles[j] != 0 ==>
                  t.src.parent[j] < |t.handles| && t.handles[t.src.parent[j]] != 0
  }

  /** With a dead root nothing below it can be live. */
  lemma {:induction false} DeadRootDeadTree(t: Tree, j: nat)
    requires ValidSource(t.src) && LiveClosed(t) && j < |t.handles| == |t.src.first|
    requires t.handles[0] == 0
    ensures t.handles[j] == 0
  {
    if j > 0 && t.handles[j] != 0 {
      DeadRootDeadTree(t, t.src.parent[j]);
    }
  }

  // ----- ownership of pool records -----

  /** What a pool record is used for; free records know their depth in the list. */
  datatype Owner = Sentinel | OnFree(depth: nat) | Held(tree: nat, node: nat)

  /** Both ends of the list meet at record 0. */
  ghost function Entry(stack: seq<nat>, k: int): nat {
    if 0 <= k < |stack| then stack[k] else 0
  }

  /** The links form one ring through record 0 that visits exactly `stack`, top first. */
  ghost predicate Ring(next: seq<nat>, prev: seq<nat>, stack: seq<nat>, owner: seq<Owner>) {
    && |next| == |prev| == |owner| == POOL
    && owner[0] == Sentinel
    && next[0] == Entry(stack, |stack| - 1)
    && prev[0] == Entry(stack, 0)
    && (forall k :: 0 <= k < |stack| ==> 1 <= stack[k] < POOL)
    && (forall k {:trigger owner[stack[k]]} :: 0 <= k < |stack| ==> owner[stack[k]] == OnFree(k))
    && (forall h {:trigger owner[h]} :: 1 <= h < POOL ==> !owner[h].Sentinel?)
    && (forall h {:trigger owner[h]} :: 1 <= h < POOL && owner[h].OnFree? ==>
          Linked(next, prev, stack, h, owner[h].depth))
  }

  ghost predicate Linked(next: seq<nat>, prev: seq<nat>, stack: seq<nat>, h: nat, depth: nat)
    requires h < |next| == |prev|
  {
    depth < |stack| && stack[depth] == h && next[h] == Entry(stack, depth - 1) && prev[h] == Entry(stack, depth + 1)
  }

  /** Records in use and tree handles name each other, so no record is shared or lost. */
  ghost predicate Owned(owner: seq<Owner>, trees: seq<Tree>) {
    && |owner| == POOL && owner[0] == Sentinel
    && (forall h :: 0 <= h < POOL && owner[h].Held? ==>
                      && owner[h].tree < |trees| && owner[h].node < |trees[owner[h].tree].handles|
                      && trees[owner[h].tree].handles[owner[h].node] == h)
    && (forall t, i :: 0 <= t < |trees| && 0 <= i < |trees[t].handles| && trees[t].handles[i] != 0 ==>
                         trees[t].handles[i] < POOL && owner[trees[t].handles[i]] == Held(t, i))
  }

  ghost predicate TreesOk(trees: seq<Tree>) {
    forall t :: 0 <= t < |trees| ==> TreeOk(trees[t])
  }

  ghost predicate TreeOk(t: Tree) {
    ValidSource(t.src) && |t.handles| == |t.src.first| && t.active == |Live(t.handles)|
  }

  // ----- conservation -----

  ghost function FreeSet(owner: seq<Owner>, n: nat): set<nat>
    requires n <= |owner|
  {
    set h | 0 <= h < n && owner[h].OnFree?
  }

  ghost function HeldSet(owner: seq<Owner>, n: nat): set<nat>
    requires n <= |owner|
  {
    set h | 0 <= h < n && owner[h].Held?
  }

  lemma SplitStep(owner: seq<Owner>, n: nat)
    requires 1 <= n < |owner| && !owner[n].Sentinel?
    ensures owner[n].Held? ==>
              HeldSet(owner, n + 1) == HeldSet(owner, n) + {n} && FreeSet(owner, n + 1) == FreeSet(owner, n)
    ensures owner[n].OnFree? ==>
              FreeSet(owner, n + 1) == FreeSet(owner, n) + {n} && HeldSet(owner, n + 1) == HeldSet(owner, n)
    ensures n !in HeldSet(owner, n) && n !in FreeSet(owner, n)
  {
  }

  lemma {:induction false} SplitSize(owner: seq<Owner>, n: nat)
    requires 1 <= n <= |owner| && owner[0] == Sentinel
    requires forall h :: 1 <= h < n ==> !owner[h].Sentinel?
    ensures |FreeSet(owner, n)| + |HeldSet(owner, n)| + 1 == n
  {
    if n == 1 {
      assert FreeSet(owner, 1) == {} && HeldSet(owner, 1) == {};
    } else {
      SplitSize(owner, n - 1);
      SplitStep(owner, n - 1);
      hide FreeSet, HeldSet;
      assert owner[n - 1].Held? || owner[n - 1].OnFree?;
    }
  }

  ghost function Elements(stack: seq<nat>): set<nat> {
    set k | 0 <= k < |stack| :: stack[k]
  }

  lemma {:induction false} ElementsSize(stack: seq<nat>)
    requires forall j, k :: 0 <= j < k < |stack| ==> stack[j] != stack[k]
    ensures |Elements(stack)| == |stack|
  {
    if stack != [] {
      var n := |stack| - 1;
      ElementsSize(stack[..n]);
      forall x | x in Elements(stack) ensures x in Elements(stack[..n]) + {stack[n]} {
        var k :| 0 <= k < |stack| && stack[k] == x;
        if k < n {
          assert stack[..n][k] == x;
        }
      }
      forall x | x in Elements(stack[..n]) ensures x in Elements(stack) && x != stack[n] {
        var k :| 0 <= k < n && stack[..n][k] == x;
        assert stack[k] == x;
      }
      assert Elements(stack) == Elements(stack[..n]) + {stack[n]};
    }
  }

  lemma FreeIsStack(next: seq<nat>, prev: seq<nat>, stack: seq<nat>, owner: seq<Owner>)
    requires Ring(next, prev, stack, owner)
    ensures FreeSet(owner, POOL) == Elements(stack)
  {
    forall h | h in Elements(stack) ensures h in FreeSet(owner, POOL) {
      var k :| 0 <= k < |stack| && stack[k] == h;
      assert owner[stack[k]] == OnFree(k);
    }
    forall h | h in FreeSet(owner, POOL) ensures h in Elements(stack) {
      assert Linked(next, prev, stack, h, owner[h].depth);
    }
  }

  /** Free records, records in use and record 0 make up the whole pool. */
  lemma Conservation(next: seq<nat>, prev: seq<nat>, stack: seq<nat>, owner: seq<Owner>)
    requires Ring(next, prev, stack, owner)
    ensures |stack| + |HeldSet(owner, POOL)| + 1 == POOL
  {
    forall j, k | 0 <= j < k < |stack| ensures stack[j] != stack[k] {
      assert owner[stack[j]] == OnFree(j) && owner[stack[k]] == OnFree(k);
    }
    ElementsSize(stack);
    FreeIsStack(next, prev, stack, owner);
    SplitSize(owner, POOL);
  }

  /** The records that the first `n` nodes of a tree hold. */
  ghost function HeldBy(owner: seq<Owner>, t: nat, n: nat): set<nat> {
    set h | 0 <= h < |owner| && owner[h].Held? && owner[h].tree == t && owner[h].node < n
  }

  ghost function LiveBelow(handles: seq<nat>, n: nat): set<nat> {
    set i | 0 <= i < n && i < |handles| && handles[i] != 0
  }

  lemma HeldByStep(owner: seq<Owner>, trees: seq<Tree>, t: nat, n: nat)
    requires Owned(owner, trees) && t < |trees| && n < |trees[t].handles|
    ensures var h := trees[t].handles[n];
            && h !in HeldBy(owner, t, n)
            && HeldBy(owner, t, n + 1) == HeldBy(owner, t, n) + (if h == 0 then {} else {h})
  {
    var h := trees[t].handles[n];
    forall g | g in HeldBy(owner, t, n + 1) ensures g in HeldBy(owner, t, n) || g == h != 0 {
    }
    if h != 0 {
      assert owner[h] == Held(t, n);
    }
  }

  lemma {:induction false} HeldByLive(owner: seq<Owner>, trees: seq<Tree>, t: nat, n: nat)
    requires Owned(owner, trees) && t < |trees| && n <= |trees[t].handles|
    ensures |HeldBy(owner, t, n)| == |LiveBelow(trees[t].handles, n)|
  {
    var handles := trees[t].handles;
    hide *;
    if n == 0 {
      HeldByNone(owner, t, handles);
    } else {
      HeldByLive(owner, trees, t, n - 1);
      HeldByStep(owner, trees, t, n - 1);
      LiveBelowStep(handles, n - 1);
    }
  }

  lemma HeldByNone(owner: seq<Owner>, t: nat, handles: seq<nat>)
    ensures HeldBy(owner, t, 0) == {} == LiveBelow(handles, 0)
  {
  }

  lemma LiveBelowStep(handles: seq<nat>, n: nat)
    requires n < |handles|
    ensures n !in LiveBelow(handles, n)
    ensures LiveBelow(handles, n + 1) == LiveBelow(handles, n) + (if handles[n] == 0 then {} else {n})
  {
  }

  /** The records held by the first `n` trees. */
  ghost function HeldUpTo(owner: seq<Owner>, n: nat): set<nat> {
    set h | 0 <= h < |owner| && owner[h].Held? && owner[h].tree < n
  }

  ghost function LiveNodes(trees: seq<Tree>): nat {
    if trees == [] then 0 else LiveNodes(trees[..|trees| - 1]) + |Live(trees[|trees| - 1].handles)|
  }

  /** All nodes of all trees, live or not. */
  ghost function NodeCount(trees: seq<Tree>): nat {
    if trees == [] then 0 else NodeCount(trees[..|trees| - 1]) + |trees[|trees| - 1].handles|
  }

  lemma {:induction false} HeldIsLive(owner: seq<Owner>, trees: seq<Tree>, n: nat)
    requires Owned(owner, trees) && n <= |trees|
    ensures |HeldUpTo(owner, n)| == LiveNodes(trees[..n])
  {
    if n == 0 {
      assert HeldUpTo(owner, 0) == {};
    } else {
      HeldIsLive(owner, trees, n - 1);
      HeldByLive(owner, trees, n - 1, |trees[n - 1].handles|);
      HeldUpToStep(owner, trees, n - 1);
      hide HeldUpTo, HeldBy, Owned;
      assert LiveBelow(trees[n - 1].handles, |trees[n - 1].handles|) == Live(trees[n - 1].handles);
      assert trees[..n][..n - 1] == trees[..n - 1];
    }
  }

  lemma HeldUpToStep(owner: seq<Owner>, trees: seq<Tree>, t: nat)
    requires Owned(owner, trees) && t < |trees|
    ensures var more := HeldBy(owner, t, |trees[t].handles|);
            HeldUpTo(owner, t + 1) == HeldUpTo(owner, t) + more && HeldUpTo(owner, t) !! more
  {
  }

  /** Every record that is not free, other than record 0, is one live node. */
  lemma Census(next: seq<nat>, prev: seq<nat>, stack: seq<nat>, owner: seq<Owner>, trees: seq<Tree>)
    requires Ring(next, prev, stack, owner) && Owned(owner, trees)
    ensures |stack| + LiveNodes(trees) + 1 == POOL
  {
    Conservation(next, prev, stack, owner);
    HeldIsLive(owner, trees, |trees|);
    assert trees[..|trees|] == trees;
    assert HeldUpTo(owner, |trees|) == HeldSet(owner, POOL);
  }

  lemma LiveFits(handles: seq<nat>)
    ensures |Live(handles)| <= |handles|
    ensures (exists i :: 0 <= i < |handles| && handles[i] == 0) ==> |Live(handles)| < |handles|
  {
    LiveBelowFits(handles, |handles|);
    assert LiveBelow(handles, |handles|) == Live(handles);
  }

  lemma {:induction false} LiveBelowFits(handles: seq<nat>, n: nat)
    requires n <= |handles|
    ensures |LiveBelow(handles, n)| <= n
    ensures (exists i :: 0 <= i < n && handles[i] == 0) ==> |LiveBelow(handles, n)| < n
  {
    if n == 0 {
      assert LiveBelow(handles, 0) == {};
    } else {
      LiveBelowFits(handles, n - 1);
      if handles[n - 1] == 0 {
        assert LiveBelow(handles, n) == LiveBelow(handles, n - 1);
      } else {
        assert LiveBelow(handles, n) == LiveBelow(handles, n - 1) + {n - 1};
      }
    }
  }

  /** There are at least as many nodes as live ones, and more if one is dead. */
  lemma {:induction false} LiveAmongNodes(trees: seq<Tree>)
    ensures LiveNodes(trees) <= NodeCount(trees)
    ensures (exists t, i :: 0 <= t < |trees| && 0 <= i < |trees[t].handles| && trees[t].handles[i] == 0) ==>
              LiveNodes(trees) < NodeCount(trees)
  {
    if trees != [] {
      LiveAmongNodes(trees[..|trees| - 1]);
      LiveFits(trees[|trees| - 1].handles);
      if t, i :| 0 <= t < |trees| && 0 <= i < |trees[t].handles| && trees[t].handles[i] == 0 {
        if t < |trees| - 1 {
          assert trees[..|trees| - 1][t].handles[i] == 0;
        }
      }
    }
  }

  // ----- string references -----

  /** Records in use, other than `except`, that carry this name. */
  ghost function Holders(owner: seq<Owner>, info: seq<Info>, except: nat, name: nat): set<nat>
    requires |owner| == |info| == POOL
  {
    set h | 0 <= h < POOL && owner[h].Held? && h != except && info[h].name == name
  }

  ghost predicate Names(owner: seq<Owner>, info: seq<Info>, refs: seq<nat>, except: nat) {
    && |owner| == |info| == POOL && |refs| == NAMES
    && forall n :: 1 <= n < NAMES ==> refs[n] == |Holders(owner, info, except, n)|
  }

  function Release(refs: seq<nat>, name: nat): seq<nat> {
    if name == 0 || |refs| <= name || refs[name] == 0 then refs else refs[name := refs[name] - 1]
  }

  function Retain(refs: seq<nat>, name: nat): seq<nat> {
    if name == 0 || |refs| <= name then refs else refs[name := refs[name] + 1]
  }

  /** Releasing the name of a record in use finds a reference to release. */
  lemma NamesRelease(owner: seq<Owner>, info: seq<Info>, refs: seq<nat>, h: nat)
    requires Names(owner, info, refs, 0) && 1 <= h < POOL && owner[h].Held? && owner[0] == Sentinel
    ensures info[h].name != 0 ==> refs[info[h].name] > 0
    ensures Names(owner, info, Release(refs, info[h].name), h)
  {
    var name := info[h].name;
    forall n | 1 <= n < NAMES
      ensures Holders(owner, info, h, n) == Holders(owner, info, 0, n) - (if n == name then {h} else {})
    {
    }
    if name != 0 {
      assert h in Holders(owner, info, 0, name);
    }
  }

  /** Giving the excepted record a name it holds a reference for. */
  lemma NamesRetain(owner: seq<Owner>, info: seq<Info>, refs: seq<nat>, h: nat, x: Info)
    requires Names(owner, info, refs, h) && 1 <= h < POOL && owner[h].Held?
    requires owner[0] == Sentinel
    ensures Names(owner, info[h := x], Retain(refs, x.name), 0)
  {
    forall n | 1 <= n < NAMES
      ensures Holders(owner, info[h := x], 0, n) == Holders(owner, info, h, n) + (if n == x.name then {h} else {})
    {
      HoldersRetain(owner, info, h, x, n);
    }
  }

  lemma HoldersRetain(owner: seq<Owner>, info: seq<Info>, h: nat, x: Info, n: nat)
    requires |owner| == |info| == POOL && 1 <= h < POOL && owner[h].Held? && owner[0] == Sentinel && n != 0
    ensures Holders(owner, info[h := x], 0, n) == Holders(owner, info, h, n) + (if n == x.name then {h} else {})
    ensures h !in Holders(owner, info, h, n)
  {
  }

  /** Rewriting a record without touching its name. */
  lemma NamesKeep(owner: seq<Owner>, info: seq<Info>, refs: seq<nat>, h: nat, x: Info)
    requires Names(owner, info, refs, 0) && h < POOL && x.name == info[h].name
    ensures Names(owner, info[h := x], refs, 0)
  {
    forall n | 1 <= n < NAMES ensures Holders(owner, info[h := x], 0, n) == Holders(owner, info, 0, n) {
    }
  }

  /** A record enters or leaves use while it is the excepted one. */
  lemma NamesOwner(owner: seq<Owner>, info: seq<Info>, refs: seq<nat>, h: nat, o: Owner, x: nat, y: nat)
    requires Names(owner, info, refs, x) && h < POOL && (x == h || !owner[h].Held?) && (y == h || !o.Held?)
    requires (x == h || x == 0) && (y == h || y == 0) && owner[0] == Sentinel && h > 0
    ensures Names(owner[h := o], info, refs, y)
  {
    forall n | 1 <= n < NAMES ensures Holders(owner[h := o], info, y, n) == Holders(owner, info, x, n) {
    }
  }

  lemma NamesFree(owner: seq<Owner>, info: seq<Info>, refs: seq<nat>, h: nat, depth: nat)
    requires Names(owner, info, refs, 0) && 1 <= h < POOL && owner[h].Held? && owner[0] == Sentinel
    ensures info[h].name != 0 ==> info[h].name < |refs| && refs[info[h].name] > 0
    ensures Names(owner[h := OnFree(depth)], info, Release(refs, info[h].name), 0)
  {
    NamesRelease(owner, info, refs, h);
    NamesOwner(owner, info, Release(refs, info[h].name), h, OnFree(depth), h, 0);
  }

  // ----- list moves -----

  lemma PushRing(next: seq<nat>, prev: seq<nat>, stack: seq<nat>, owner: seq<Owner>, h: nat)
    requires Ring(next, prev, stack, owner) && 1 <= h < POOL && owner[h].Held?
    ensures next[0] < POOL
    ensures
      var next1 := next[h := next[0]][0 := h];
      var prev1 := prev[h := 0][next[0] := h];
      Ring(next1, prev1, stack + [h], owner[h := OnFree(|stack|)])
  {
    var n := |stack|;
    if n > 0 {
      assert owner[stack[n - 1]] == OnFree(n - 1);
    }
    var stack1, owner1 := stack + [h], owner[h := OnFree(n)];
    forall k | 0 <= k < |stack1| ensures 1 <= stack1[k] < POOL && owner1[stack1[k]] == OnFree(k) {
      if k < n {
        assert owner[stack[k]] == OnFree(k);
      }
    }
  }

  lemma PopRing(next: seq<nat>, prev: seq<nat>, stack: seq<nat>, owner: seq<Owner>, o: Owner)
    requires Ring(next, prev, stack, owner) && next[0] != 0 && o.Held?
    ensures stack != [] && next[0] == stack[|stack| - 1] && 1 <= next[0] < POOL
    ensures owner[next[0]].OnFree? && next[next[0]] < POOL
    ensures
      var h := next[0];
      var next1 := next[0 := next[h]];
      Ring(next1, prev[next1[0] := 0], stack[..|stack| - 1], owner[h := o])
  {
    var top := |stack| - 1;
    assert owner[stack[top]] == OnFree(top);
    assert next[stack[top]] == Entry(stack, top - 1);
    if top > 0 {
      assert owner[stack[top - 1]] == OnFree(top - 1);
    }
  }

  lemma OwnedRelease(owner: seq<Owner>, trees: seq<Tree>, t: nat, i: nat, depth: nat)
    requires Owned(owner, trees) && t < |trees| && i < |trees[t].handles| && trees[t].handles[i] != 0
    ensures trees[t].handles[i] < POOL
    ensures
      var tree := trees[t];
      Owned(owner[tree.handles[i] := OnFree(depth)],
            trees[t := Tree(tree.src, tree.handles[i := 0], tree.active - 1)])
  {
  }

  lemma OwnedTake(owner: seq<Owner>, trees: seq<Tree>, t: nat, i: nat, h: nat)
    requires Owned(owner, trees) && t < |trees| && i < |trees[t].handles| && trees[t].handles[i] == 0
    requires 1 <= h < POOL && !owner[h].Held?
    ensures
      var tree := trees[t];
      Owned(owner[h := Held(t, i)], trees[t := Tree(tree.src, tree.handles[i := h], tree.active + 1)])
  {
    var tree := trees[t];
    var owner', trees' := owner[h := Held(t, i)], trees[t := Tree(tree.src, tree.handles[i := h], tree.active + 1)];
    forall u, j | 0 <= u < |trees'| && 0 <= j < |trees'[u].handles| && trees'[u].handles[j] != 0
      ensures trees'[u].handles[j] < POOL && owner'[trees'[u].handles[j]] == Held(u, j)
    {
      if u != t || j != i {
        assert trees'[u].handles[j] == trees[u].handles[j];
      }
    }
    forall g | 0 <= g < POOL && owner'[g].Held?
      ensures owner'[g].tree < |trees'| && owner'[g].node < |trees'[owner'[g].tree].handles|
      ensures trees'[owner'[g].tree].handles[owner'[g].node] == g
    {
      if g != h {
        assert owner'[g] == owner[g];
      }
    }
  }

  lemma TreeSet(t: Tree, i: nat, h: nat)
    requires TreeOk(t) && i < |t.handles|
    ensures t.handles[i] != 0 && h == 0 ==> TreeOk(Tree(t.src, t.handles[i := 0], t.active - 1))
    ensures t.handles[i] == 0 && h != 0 ==> TreeOk(Tree(t.src, t.handles[i := h], t.active + 1))
  {
    hide ValidSource;
    if h == 0 {
      if t.handles[i] != 0 {
        LiveAdd(t.handles[i := 0], i, t.handles[i]);
        assert t.handles[i := 0][i := t.handles[i]] == t.handles;
      }
    } else if t.handles[i] == 0 {
      LiveAdd(t.handles, i, h);
    }
  }

  lemma LiveAdd(handles: seq<nat>, i: nat, h: nat)
    requires i < |handles| && handles[i] == 0 && h != 0
    ensures |Live(handles[i := h])| == |Live(handles)| + 1
  {
    assert Live(handles[i := h]) == Live(handles) + {i};
  }
}
