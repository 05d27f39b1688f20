/** Marking the interior nodes of a source animation tree with the sync kind of
    the topmost sync node above them. */
module SyncNodes {

  datatype Flags = Flags(looping: bool, nonLooping: bool, notify: bool)

  datatype Kind = Unsynced | Looping | NonLooping

  /** A node: its child range, empty for a leaf, its parent, and for a leaf
      whether its animation loops. */
  datatype Node = Node(first: nat, count: nat, parent: nat, looped: bool)

  /** Child ranges lie behind their node and parent links are their inverse. */
  ghost predicate TreeOk(t: seq<Node>) {
    && t != []
    && (forall n: nat, c: nat :: n < |t| && IsChild(t, n, c) ==> n < c < |t| && t[c].parent == n)
    && (forall c :: 1 <= c < |t| ==> t[c].parent < c && IsChild(t, t[c].parent, c))
  }

  predicate IsChild(t: seq<Node>, n: nat, c: nat)
    requires n < |t|
  {
    t[n].first <= c < t[n].first + t[n].count
  }

  predicate Leaf(t: seq<Node>, n: nat)
    requires n < |t|
  {
    t[n].count == 0
  }

  /** m is n or lies below it. */
  predicate Under(t: seq<Node>, n: nat, m: nat)
    requires TreeOk(t) && m < |t|
  {
    m == n || (m > 0 && Under(t, n, t[m].parent))
  }

  lemma {:induction false} UnderOrder(t: seq<Node>, n: nat, m: nat)
    requires TreeOk(t) && m < |t| && Under(t, n, m)
    ensures n <= m
  {
    if m != n {
      UnderOrder(t, n, t[m].parent);
    }
  }

  lemma ChildFacts(t: seq<Node>, n: nat, c: nat)
    requires TreeOk(t) && n < |t| && IsChild(t, n, c)
    ensures n < c < |t| && t[c].parent == n
  {
  }

  lemma {:induction false} UnderStep(t: seq<Node>, n: nat, c: nat, m: nat)
    requires TreeOk(t) && n < |t| && c < |t| && m < |t| && IsChild(t, n, c) && Under(t, c, m)
    ensures Under(t, n, m) && m != n
  {
    UnderOrder(t, c, m);
    ChildFacts(t, n, c);
    if m != c {
      UnderStep(t, n, c, t[m].parent);
    }
  }

  /** The child of n on the way down to m. */
  function Branch(t: seq<Node>, n: nat, m: nat): nat
    requires TreeOk(t) && m < |t| && Under(t, n, m) && m != n
  {
    if t[m].parent == n then m else Branch(t, n, t[m].parent)
  }

  lemma {:induction false} BranchIsChild(t: seq<Node>, n: nat, m: nat)
    requires TreeOk(t) && n < |t| && m < |t| && Under(t, n, m) && m != n
    ensures var c := Branch(t, n, m);
            c < |t| && IsChild(t, n, c) && Under(t, c, m)
  {
    if t[m].parent != n {
      BranchIsChild(t, n, t[m].parent);
    }
  }

  /** No other child leads to m. */
  lemma {:induction false} BranchUnique(t: seq<Node>, n: nat, c: nat, m: nat)
    requires TreeOk(t) && n < |t| && c < |t| && m < |t| && IsChild(t, n, c) && Under(t, c, m)
    ensures Under(t, n, m) && m != n && Branch(t, n, m) == c
  {
    UnderStep(t, n, c, m);
    if m != c {
      BranchUnique(t, n, c, t[m].parent);
    }
  }

  /** The first k child subtrees of n. */
  ghost predicate Seen(t: seq<Node>, n: nat, k: nat, m: nat)
    requires TreeOk(t) && n < |t| && m < |t|
  {
    m != n && Under(t, n, m) && Branch(t, n, m) < t[n].first + k
  }

  lemma SeenNone(t: seq<Node>, n: nat, m: nat)
    requires TreeOk(t) && n < |t| && m < |t|
    ensures !Seen(t, n, 0, m)
  {
    if m != n && Under(t, n, m) {
      BranchIsChild(t, n, m);
    }
  }

  lemma SeenAll(t: seq<Node>, n: nat, m: nat)
    requires TreeOk(t) && n < |t| && m < |t|
    ensures Seen(t, n, t[n].count, m) <==> Under(t, n, m) && m != n
  {
    if m != n && Under(t, n, m) {
      BranchIsChild(t, n, m);
    }
  }

  lemma SeenNext(t: seq<Node>, n: nat, k: nat, m: nat)
    requires TreeOk(t) && n < |t| && m < |t| && k < t[n].count
    ensures var c := t[n].first + k;
            && c < |t| && (Seen(t, n, k + 1, m) <==> Seen(t, n, k, m) || Under(t, c, m))
            && !(Seen(t, n, k, m) && Under(t, c, m))
  {
    var c := t[n].first + k;
    ChildFacts(t, n, c);
    if Under(t, c, m) {
      BranchUnique(t, n, c, m);
    }
    if m != n && Under(t, n, m) {
      BranchIsChild(t, n, m);
    }
  }

  // ----- what the passes should do -----

  /** The sync kind a node asks for itself. */
  function Own(t: seq<Node>, f: seq<Flags>, n: nat): Kind
    requires n < |t| == |f|
  {
    if Leaf(t, n) then Unsynced
    else if f[n].looping then Looping
    else if f[n].nonLooping then NonLooping else Unsynced
  }

  /** The kind of the topmost sync node on the path from the root. */
  function Cover(t: seq<Node>, f: seq<Flags>, n: nat): Kind
    requires TreeOk(t) && n < |t| == |f|
  {
    if Above(t, f, n) != Unsynced then Above(t, f, n) else Own(t, f, n)
  }

  function Above(t: seq<Node>, f: seq<Flags>, n: nat): Kind
    requires TreeOk(t) && n < |t| == |f|

  {
    if n == 0 then Unsynced else
    var p := t[n].parent;
    if Above(t, f, p) != Unsynced then Above(t, f, p) else Own(t, f, p)
  }

  /** A tree is consistent at a node when the node asks for one kind only, asks
      for none below a sync node, and a leaf there loops as its sync node says. */
  predicate GoodAt(t: seq<Node>, f: seq<Flags>, n: nat)
    requires TreeOk(t) && n < |t| == |f|
  {
    GoodUnder(t, f, n, Above(t, f, n))
  }

  predicate GoodUnder(t: seq<Node>, f: seq<Flags>, n: nat, kind: Kind)
    requires n < |t| == |f|
  {
    if Leaf(t, n) then kind == Unsynced || t[n].looped == (kind == Looping)
    else if kind == Unsynced then !(f[n].looping && f[n].nonLooping)
    else !f[n].looping && !f[n].nonLooping
  }

  function Marked(flags: Flags, kind: Kind): Flags {
    if kind == Looping then flags.(looping := true)
    else if kind == NonLooping then flags.(nonLooping := true) else flags
  }

  /** A node under a kind is marked with it; a topmost sync node becomes a notify source. */
  function MarkUnder(t: seq<Node>, f: seq<Flags>, n: nat, kind: Kind): Flags
    requires n < |t| == |f|
  {
    if Leaf(t, n) then f[n]
    else if kind != Unsynced then Marked(f[n], kind)
    else if Own(t, f, n) != Unsynced then f[n].(notify := true) else f[n]
  }

  function MarkAt(t: seq<Node>, f: seq<Flags>, n: nat): Flags
    requires TreeOk(t) && n < |t| == |f|
  {
    MarkUnder(t, f, n, Above(t, f, n))
  }

  /** A kind above carries over everything below. */
  lemma {:induction false} CoverBelow(t: seq<Node>, f: seq<Flags>, n: nat, m: nat)
    requires TreeOk(t) && |t| == |f| && n < |t| && m < |t| && Under(t, n, m) && m != n
    requires Cover(t, f, n) != Unsynced
    ensures Above(t, f, m) == Cover(t, f, n)
  {
    if t[m].parent != n {
      CoverBelow(t, f, n, t[m].parent);
    }
  }

  /** The kind above depends on the nodes above only. */
  lemma {:induction false} AboveSame(t: seq<Node>, f: seq<Flags>, g: seq<Flags>, m: nat)
    requires TreeOk(t) && |t| == |f| == |g| && m < |t|
    requires forall a: nat :: a < |t| && a != m && Under(t, a, m) ==> f[a] == g[a]
    ensures Above(t, f, m) == Above(t, g, m)
  {
    if m > 0 {
      var p := t[m].parent;
      assert Under(t, p, m);
      forall a: nat | a < |t| && a != p && Under(t, a, p)
        ensures f[a] == g[a]
      {
        UnderOrder(t, a, p);
        assert Under(t, a, m);
      }
      AboveSame(t, f, g, p);
    }
  }

  // ----- the passes -----

  ghost function Subtree(t: seq<Node>, n: nat): set<nat>
    requires TreeOk(t)
  {
    set m: nat | m < |t| && Under(t, n, m)
  }

  ghost function Below(t: seq<Node>, n: nat): set<nat>
    requires TreeOk(t)
  {
    Subtree(t, n) - {n}
  }

  ghost function SeenSet(t: seq<Node>, n: nat, k: nat): set<nat>
    requires TreeOk(t) && n < |t|
  {
    set m: nat | m < |t| && Seen(t, n, k, m)
  }

  lemma SeenSets(t: seq<Node>, n: nat, k: nat)
    requires TreeOk(t) && n < |t| && k < t[n].count
    ensures var c := t[n].first + k;
            SeenSet(t, n, k + 1) == SeenSet(t, n, k) + Subtree(t, c) && SeenSet(t, n, k) !! Subtree(t, c)
  {
    forall m: nat | m < |t|
      ensures m in SeenSet(t, n, k + 1) <==> m in SeenSet(t, n, k) || m in Subtree(t, t[n].first + k)
      ensures !(m in SeenSet(t, n, k) && m in Subtree(t, t[n].first + k))
    {
      SeenNext(t, n, k, m);
    }
  }

  lemma SeenEnds(t: seq<Node>, n: nat)
    requires TreeOk(t) && n < |t|
    ensures SeenSet(t, n, 0) == {} && SeenSet(t, n, t[n].count) == Below(t, n)
    ensures Subtree(t, n) == {n} + Below(t, n)
  {
    forall m: nat | m < |t|
      ensures m !in SeenSet(t, n, 0)
      ensures m in SeenSet(t, n, t[n].count) <==> m in Below(t, n)
    {
      SeenNone(t, n, m);
      SeenAll(t, n, m);
    }
  }

  /** g is f with the nodes of a region marked. */
  ghost predicate FilledOn(t: seq<Node>, f: seq<Flags>, g: seq<Flags>, region: set<nat>, kind: Kind) {
    && |f| == |g| == |t|
    && forall m :: 0 <= m < |t| ==> g[m] == if m in region then MarkUnder(t, f, m, kind) else f[m]
  }

  ghost predicate GoodOn(t: seq<Node>, f: seq<Flags>, region: set<nat>, kind: Kind) {
    |f| == |t| && forall m :: m in region ==> m < |t| && GoodUnder(t, f, m, kind)
  }

  lemma FilledMore(t: seq<Node>, f: seq<Flags>, g: seq<Flags>, h: seq<Flags>, a: set<nat>, b: set<nat>, kind: Kind)
    requires FilledOn(t, f, g, a, kind) && FilledOn(t, g, h, b, kind) && a !! b
    ensures FilledOn(t, f, h, a + b, kind)
  {
    forall m | 0 <= m < |t|
      ensures h[m] == if m in a + b then MarkUnder(t, f, m, kind) else f[m]
    {
      assert g[m] == if m in a then MarkUnder(t, f, m, kind) else f[m];
    }
  }

  lemma GoodElsewhere(t: seq<Node>, f: seq<Flags>, g: seq<Flags>, a: set<nat>, b: set<nat>, kind: Kind)
    requires FilledOn(t, f, g, a, kind) && a !! b && forall m :: m in b ==> m < |t|
    ensures GoodOn(t, g, b, kind) <==> GoodOn(t, f, b, kind)
  {
    forall m | m in b
      ensures m < |t| && g[m] == f[m]
    {
    }
  }

  // ----- the search for topmost sync nodes -----

  ghost predicate SetOn(t: seq<Node>, f: seq<Flags>, g: seq<Flags>, region: set<nat>)
    requires TreeOk(t)
  {
    && |f| == |g| == |t|
    && forall m :: 0 <= m < |t| ==> g[m] == if m in region then MarkAt(t, f, m) else f[m]
  }

  ghost predicate AllGood(t: seq<Node>, f: seq<Flags>, region: set<nat>)
    requires TreeOk(t)
  {
    |f| == |t| && forall m :: m in region ==> m < |t| && GoodAt(t, f, m)
  }

  /** Under a topmost sync node everything is judged and marked by its kind. */
  lemma SyncedSubtree(t: seq<Node>, f: seq<Flags>, n: nat)
    requires TreeOk(t) && n < |t| == |f| && Above(t, f, n) == Unsynced && Own(t, f, n) != Unsynced
    ensures var kind := Own(t, f, n);
            var start := f[n := f[n].(notify := true)];
            && (AllGood(t, f, Subtree(t, n)) <==>
                  !(f[n].looping && f[n].nonLooping) && GoodOn(t, start, Below(t, n), kind))
            && forall g :: FilledOn(t, start, g, Below(t, n), kind) ==> SetOn(t, f, g, Subtree(t, n))
  {
    var kind, start := Own(t, f, n), f[n := f[n].(notify := true)];
    forall m | m in Below(t, n)
      ensures Above(t, f, m) == kind && start[m] == f[m]
    {
      CoverBelow(t, f, n, m);
    }
    SeenEnds(t, n);
  }

  /** Two nodes above a common node are one above the other. */
  lemma {:induction false} OnePath(t: seq<Node>, a: nat, b: nat, m: nat)
    requires TreeOk(t) && a < |t| && b < |t| && m < |t| && Under(t, a, m) && Under(t, b, m)
    ensures Under(t, a, b) || Under(t, b, a)
  {
    if m != a && m != b {
      OnePath(t, a, b, t[m].parent);
    }
  }

  lemma UnderBack(t: seq<Node>, a: nat, b: nat)
    requires TreeOk(t) && a < |t| && b < |t| && Under(t, a, b) && Under(t, b, a)
    ensures a == b
  {
    UnderOrder(t, a, b);
    UnderOrder(t, b, a);
  }

  /** Setting up the earlier children leaves what lies above a later one alone. */
  lemma {:induction false} AboveKept(t: seq<Node>, f: seq<Flags>, g: seq<Flags>, n: nat, k: nat, m: nat)
    requires TreeOk(t) && n < |t| && k < t[n].count && m < |t|
    requires SetOn(t, f, g, SeenSet(t, n, k)) && Under(t, t[n].first + k, m)
    ensures Above(t, g, m) == Above(t, f, m) && g[m] == f[m]
  {
    var c := t[n].first + k;
    SeenSets(t, n, k);
    ChildFacts(t, n, c);
    assert m in Subtree(t, c);
    forall a: nat | a < |t| && a != m && Under(t, a, m)
      ensures f[a] == g[a]
    {
      OnePath(t, a, c, m);
      if a in SeenSet(t, n, k) {
        assert a !in Subtree(t, c);
        UnderBack(t, a, n);
      }
    }
    AboveSame(t, f, g, m);
  }

  lemma GoodLater(t: seq<Node>, f: seq<Flags>, g: seq<Flags>, n: nat, k: nat)
    requires TreeOk(t) && n < |t| && k < t[n].count && SetOn(t, f, g, SeenSet(t, n, k))
    ensures var sub := Subtree(t, t[n].first + k);
            AllGood(t, g, sub) <==> AllGood(t, f, sub)
  {
    forall m | m in Subtree(t, t[n].first + k)
      ensures Above(t, g, m) == Above(t, f, m) && g[m] == f[m]
    {
      AboveKept(t, f, g, n, k, m);
    }
  }

  lemma SetMore(t: seq<Node>, f: seq<Flags>, g: seq<Flags>, h: seq<Flags>, n: nat, k: nat)
    requires TreeOk(t) && n < |t| && k < t[n].count
    requires SetOn(t, f, g, SeenSet(t, n, k)) && SetOn(t, g, h, Subtree(t, t[n].first + k))
    ensures SetOn(t, f, h, SeenSet(t, n, k + 1))
  {
    SeenSets(t, n, k);
    forall m | 0 <= m < |t|
      ensures h[m] == if m in SeenSet(t, n, k + 1) then MarkAt(t, f, m) else f[m]
    {
      if m in Subtree(t, t[n].first + k) {
        AboveKept(t, f, g, n, k, m);
      }
    }
  }

  /** A node without a kind of its own has children with none above them. */
  lemma StillUnsynced(t: seq<Node>, f: seq<Flags>, g: seq<Flags>, n: nat, k: nat)
    requires TreeOk(t) && n < |t| == |f| && k < t[n].count && SetOn(t, f, g, SeenSet(t, n, k))
    requires Cover(t, f, n) == Unsynced
    ensures var c := t[n].first + k;
            c < |t| && Above(t, g, c) == Unsynced
  {
    ChildFacts(t, n, t[n].first + k);
    AboveKept(t, f, g, n, k, t[n].first + k);
  }

  class XAnim {
    const nodes: seq<Node>
    var flags: seq<Flags>

    ghost predicate Valid()
      reads this
    {
      TreeOk(nodes) && |flags| == |nodes|
    }

    /** XAnimFillInSyncNodes_r: succeeds if and only if the whole subtree agrees
        with the kind, and then marks exactly its interior nodes. */
    method FillInSyncNodes(n: nat, kind: Kind) returns (ok: bool)
      requires Valid() && n < |nodes| && kind != Unsynced
      modifies this
      ensures Valid()
      ensures ok <==> GoodOn(nodes, old(flags), Subtree(nodes, n), kind)
      ensures ok ==> FilledOn(nodes, old(flags), flags, Subtree(nodes, n), kind)
      decreases |nodes| - n, 2
    {
      SeenEnds(nodes, n);
      if nodes[n].count == 0 {
        LeafAlone(nodes, n);
        return nodes[n].looped == (kind == Looping);
      }
      if flags[n].looping || flags[n].nonLooping {
        assert n in Subtree(nodes, n);
        return false;
      }
      flags := flags[n := Marked(flags[n], kind)];
      ghost var marked := flags;
      assert FilledOn(nodes, old(flags), marked, {n}, kind);
      GoodElsewhere(nodes, old(flags), marked, {n}, Below(nodes, n), kind);
      ok := FillChildren(n, kind);
      if ok {
        FilledMore(nodes, old(flags), marked, flags, {n}, Below(nodes, n), kind);
      }
    }

    /** The child loop of both passes. */
    method FillChildren(n: nat, kind: Kind) returns (ok: bool)
      requires Valid() && n < |nodes| && kind != Unsynced
      modifies this
      ensures Valid()
      ensures ok <==> GoodOn(nodes, old(flags), Below(nodes, n), kind)
      ensures ok ==> FilledOn(nodes, old(flags), flags, Below(nodes, n), kind)
      decreases |nodes| - n, 1
    {
      SeenEnds(nodes, n);
      ghost var f := flags;
      for child := 0 to nodes[n].count
        invariant Valid()
        invariant GoodOn(nodes, f, SeenSet(nodes, n, child), kind)
        invariant FilledOn(nodes, f, flags, SeenSet(nodes, n, child), kind)
      {
        ok := FillChild(n, child, kind, f);
        if !ok {
          return;
        }
      }
      ok := true;
    }

    method FillChild(n: nat, child: nat, kind: Kind, ghost f: seq<Flags>) returns (ok: bool)
      requires Valid() && n < |nodes| && kind != Unsynced && child < nodes[n].count
      requires GoodOn(nodes, f, SeenSet(nodes, n, child), kind)
      requires FilledOn(nodes, f, flags, SeenSet(nodes, n, child), kind)
      modifies this
      ensures Valid()
      ensures ok <==> GoodOn(nodes, f, SeenSet(nodes, n, child + 1), kind)
      ensures ok ==> FilledOn(nodes, f, flags, SeenSet(nodes, n, child + 1), kind)
      ensures !ok ==> !GoodOn(nodes, f, SeenSet(nodes, n, nodes[n].count), kind)
      decreases |nodes| - n, 0
    {
      var c := nodes[n].first + child;
      ChildFacts(nodes, n, c);
      ghost var g, seen, sub := flags, SeenSet(nodes, n, child), Subtree(nodes, c);
      SeenSets(nodes, n, child);
      GoodElsewhere(nodes, f, g, seen, sub, kind);
      SeenGrows(nodes, n, child + 1);
      ok := FillInSyncNodes(c, kind);
      if ok {
        FilledMore(nodes, f, g, flags, seen, sub, kind);
      }
    }

    /** XAnimSetupSyncNodes_r. */
    method SetupNode(n: nat) returns (ok: bool)
      requires Valid() && n < |nodes| && Above(nodes, flags, n) == Unsynced
      modifies this
      ensures Valid()
      ensures ok <==> AllGood(nodes, old(flags), Subtree(nodes, n))
      ensures ok ==> SetOn(nodes, old(flags), flags, Subtree(nodes, n))
      decreases |nodes| - n, 2
    {
      if nodes[n].count == 0 {
        LeafAlone(nodes, n);
        return true;
      }
      if !flags[n].looping && !flags[n].nonLooping {
        ok := SetupChildren(n);
        return;
      }
      SyncedSubtree(nodes, flags, n);
      if flags[n].looping && flags[n].nonLooping {
        return false;
      }
      var kind := if flags[n].looping then Looping else NonLooping;
      flags := flags[n := flags[n].(notify := true)];
      ok := FillChildren(n, kind);
    }

    method SetupChildren(n: nat) returns (ok: bool)
      requires Valid() && n < |nodes| && Cover(nodes, flags, n) == Unsynced && nodes[n].count != 0
      modifies this
      ensures Valid()
      ensures ok <==> AllGood(nodes, old(flags), Subtree(nodes, n))
      ensures ok ==> SetOn(nodes, old(flags), flags, Subtree(nodes, n))
      decreases |nodes| - n, 1
    {
      ghost var f := flags;
      SeenEnds(nodes, n);
      for child := 0 to nodes[n].count
        invariant Valid()
        invariant AllGood(nodes, f, SeenSet(nodes, n, child))
        invariant SetOn(nodes, f, flags, SeenSet(nodes, n, child))
      {
        ok := SetupChild(n, child, f);
        if !ok {
          return;
        }
      }
      ok := true;
    }

    method SetupChild(n: nat, child: nat, ghost f: seq<Flags>) returns (ok: bool)
      requires Valid() && n < |nodes| == |f| && child < nodes[n].count && Cover(nodes, f, n) == Unsynced
      requires AllGood(nodes, f, SeenSet(nodes, n, child))
      requires SetOn(nodes, f, flags, SeenSet(nodes, n, child))
      modifies this
      ensures Valid()
      ensures ok ==> AllGood(nodes, f, SeenSet(nodes, n, child + 1))
      ensures ok ==> SetOn(nodes, f, flags, SeenSet(nodes, n, child + 1))
      ensures !ok ==> !AllGood(nodes, f, SeenSet(nodes, n, nodes[n].count))
      decreases |nodes| - n, 0
    {
      var c := nodes[n].first + child;
      ghost var g := flags;
      SeenSets(nodes, n, child);
      ChildFacts(nodes, n, c);
      StillUnsynced(nodes, f, g, n, child);
      GoodLater(nodes, f, g, n, child);
      SeenGrows(nodes, n, child + 1);
      ok := SetupNode(c);
      if ok {
        SetMore(nodes, f, g, flags, n, child);
      }
    }

    /** XAnimSetupSyncNodes succeeds if and only if the whole tree is consistent
        with its topmost sync nodes, and then marks every node accordingly. */
    method SetupSyncNodes() returns (ok: bool)
      requires Valid()
      modifies this
      ensures Valid()
      ensures ok <==> forall m :: 0 <= m < |nodes| ==> GoodAt(nodes, old(flags), m)
      ensures ok ==> forall m :: 0 <= m < |nodes| ==> flags[m] == MarkAt(nodes, old(flags), m)
    {
      EverythingUnderRoot(nodes);
      ok := SetupNode(0);
    }
  }

  lemma {:induction false} UnderRoot(t: seq<Node>, m: nat)
    requires TreeOk(t) && m < |t|
    ensures Under(t, 0, m)
  {
    if m > 0 {
      UnderRoot(t, t[m].parent);
    }
  }

  lemma EverythingUnderRoot(t: seq<Node>)
    requires TreeOk(t)
    ensures forall m: nat :: m in Subtree(t, 0) <==> m < |t|
  {
    forall m: nat | m < |t|
      ensures Under(t, 0, m)
    {
      UnderRoot(t, m);
    }
  }

  // ----- what the marks mean -----

  /** The result of a successful setup. */
  ghost predicate SetUp(t: seq<Node>, f: seq<Flags>, g: seq<Flags>)
    requires TreeOk(t)
  {
    && |f| == |g| == |t|
    && forall m :: 0 <= m < |t| ==> GoodAt(t, f, m) && !f[m].notify && g[m] == MarkAt(t, f, m)
  }

  /** Every interior node under a sync node carries that node's one kind, and
      every leaf under it loops accordingly. */
  lemma OneKindBelow(t: seq<Node>, f: seq<Flags>, g: seq<Flags>, n: nat, m: nat)
    requires TreeOk(t) && SetUp(t, f, g) && n < |t| && m < |t| && Under(t, n, m)
    requires Own(t, g, n) != Unsynced
    ensures if Leaf(t, m) then t[m].looped == (Own(t, g, n) == Looping)
            else Own(t, g, m) == Own(t, g, n) && !(g[m].looping && g[m].nonLooping)
  {
    assert g[n] == MarkAt(t, f, n) && GoodAt(t, f, n);
    assert g[m] == MarkAt(t, f, m) && GoodAt(t, f, m);
    assert Cover(t, f, n) == Own(t, g, n);
    if m != n {
      CoverBelow(t, f, n, m);
    }
  }

  /** A path from the root meets at most one notify source, and it is the
      topmost sync node of the path. */
  lemma NotifySourceIsTopmost(t: seq<Node>, f: seq<Flags>, g: seq<Flags>, n: nat)
    requires TreeOk(t) && SetUp(t, f, g) && n < |t|
    ensures g[n].notify <==> Above(t, f, n) == Unsynced && Own(t, f, n) != Unsynced
    ensures g[n].notify ==> forall a: nat :: a < |t| && a != n && Under(t, a, n) ==>
                       Own(t, g, a) == Unsynced && !g[a].notify
  {
    assert g[n] == MarkAt(t, f, n);
    forall a: nat | a < |t| && a != n && Under(t, a, n) && g[n].notify
      ensures Own(t, g, a) == Unsynced && !g[a].notify
    {
      assert g[a] == MarkAt(t, f, a);
      if Cover(t, f, a) != Unsynced {
        CoverBelow(t, f, a, n);
      }
    }
  }

  /** The sync kind above a node is known from its marks alone: some notify
      source is on every path that has a sync node. */
  lemma {:induction false} SyncedHasSource(t: seq<Node>, f: seq<Flags>, g: seq<Flags>, n: nat) returns (a: nat)
    requires TreeOk(t) && SetUp(t, f, g) && n < |t| && Own(t, g, n) != Unsynced
    ensures a < |t| && Under(t, a, n) && g[a].notify && Own(t, g, a) == Own(t, g, n)
  {
    assert g[n] == MarkAt(t, f, n) && GoodAt(t, f, n);
    if Above(t, f, n) == Unsynced {
      a := n;
    } else {
      var p := t[n].parent;
      assert g[p] == MarkAt(t, f, p) && GoodAt(t, f, p);
      AboveIsInterior(t, n);
      a := SyncedHasSource(t, f, g, p);
      UnderTransit(t, a, p, n);
    }
  }

  lemma AboveIsInterior(t: seq<Node>, n: nat)
    requires TreeOk(t) && 0 < n < |t|
    ensures !Leaf(t, t[n].parent)
  {
  }

  lemma UnderTransit(t: seq<Node>, a: nat, p: nat, n: nat)
    requires TreeOk(t) && 0 < n < |t| && p == t[n].parent && Under(t, a, p)
    ensures Under(t, a, n)
  {
  }

  lemma LeafAlone(t: seq<Node>, n: nat)
    requires TreeOk(t) && n < |t| && Leaf(t, n)
    ensures Subtree(t, n) == {n}
  {
    forall m: nat | m < |t| && Under(t, n, m)
      ensures m == n
    {
      if m != n {
        BranchIsChild(t, n, m);
      }
    }
  }

  lemma SeenGrows(t: seq<Node>, n: nat, k: nat)
    requires TreeOk(t) && n < |t| && k <= t[n].count
    ensures SeenSet(t, n, k) <= SeenSet(t, n, t[n].count)
  {
  }
}
