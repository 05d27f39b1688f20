/** Copying whole runtime trees: clone, and save followed by load. */
module AnimTransfer {
  import opened AnimPool
  import opened AnimRuntime
  import opened Outcomes
  import opened Words

  /** Two trees have the same live nodes, with equal records. */
  ghost predicate SameUpTo(rt: Runtime, a: nat, b: nat, n: nat)
    reads rt
  {
    && a < |rt.trees| && b < |rt.trees| && |rt.info| == POOL
    && n <= |rt.trees[a].handles| && n <= |rt.trees[b].handles|
    && forall j :: 0 <= j < n ==> SameNode(rt.info, rt.trees[a].handles[j], rt.trees[b].handles[j])
  }

  ghost predicate SameNode(info: seq<Info>, g: nat, h: nat) {
    (g == 0 <==> h == 0) && (g != 0 ==> g < |info| && h < |info| && info[g] == info[h])
  }

  /** Tree `b` changed at node `i` only, and no record of another node did. */
  ghost predicate OnlyNode(trees0: seq<Tree>, info0: seq<Info>, trees: seq<Tree>, info: seq<Info>, b: nat, i: nat) {
    && b < |trees0| == |trees| && |info0| == |info| == POOL
    && (forall u :: 0 <= u < |trees| && u != b ==> trees[u] == trees0[u])
    && trees[b].src == trees0[b].src && |trees[b].handles| == |trees0[b].handles|
    && (forall j :: 0 <= j < |trees[b].handles| && j != i ==> trees[b].handles[j] == trees0[b].handles[j])
    && (forall u, j :: 0 <= u < |trees| && 0 <= j < |trees[u].handles| && (u != b || j != i) &&
                       trees[u].handles[j] != 0 ==>
                         trees[u].handles[j] < POOL && info[trees[u].handles[j]] == info0[trees[u].handles[j]])
  }

  lemma OtherRecords(owner: seq<Owner>, trees: seq<Tree>, b: nat, i: nat, h: nat)
    requires Owned(owner, trees) && 1 <= h < POOL && owner[h] == Held(b, i)
    ensures forall u, j :: 0 <= u < |trees| && 0 <= j < |trees[u].handles| && (u != b || j != i) &&
                           trees[u].handles[j] != 0 ==>
              trees[u].handles[j] < POOL && trees[u].handles[j] != h
  {
  }

  lemma SameKept(trees0: seq<Tree>, info0: seq<Info>, trees: seq<Tree>, info: seq<Info>, a: nat, b: nat, i: nat, j: nat)
    requires OnlyNode(trees0, info0, trees, info, b, i) && a < |trees| && a != b
    requires j < |trees[a].handles| && j < |trees[b].handles| && j != i
    requires SameNode(info0, trees0[a].handles[j], trees0[b].handles[j])
    ensures SameNode(info, trees[a].handles[j], trees[b].handles[j])
  {
    assert trees[a].handles[j] != 0 ==> info[trees[a].handles[j]] == info0[trees[a].handles[j]];
    assert trees[b].handles[j] != 0 ==> info[trees[b].handles[j]] == info0[trees[b].handles[j]];
  }

  /** Only the handles of tree `b` may have changed. */
  ghost predicate OtherTrees(before: seq<Tree>, after: seq<Tree>, b: nat) {
    && b < |before| == |after| && after[b].src == before[b].src && |after[b].handles| == |before[b].handles|
    && forall u :: 0 <= u < |before| && u != b ==> after[u] == before[u]
  }

  /** One node of XAnimCloneAnimTree. */
  method CloneNode(rt: Runtime, a: nat, b: nat, i: nat) returns (ok: bool)
    requires rt.Valid() && a < |rt.trees| && b < |rt.trees| && a != b
    requires i < |rt.trees[a].handles| == |rt.trees[b].handles|
    modifies rt
    ensures rt.Valid() && OnlyNode(old(rt.trees), old(rt.info), rt.trees, rt.info, b, i)
    ensures ok <==> old(rt.trees)[a].handles[i] == 0 || old(rt.trees)[b].handles[i] != 0 || old(rt.used) < POOL
    ensures ok ==> SameNode(rt.info, rt.trees[a].handles[i], rt.trees[b].handles[i])
    ensures ok ==> rt.used == old(rt.used) + One(old(rt.trees)[a].handles, i) - One(old(rt.trees)[b].handles, i)
    ensures !ok ==> rt.Stuck(b)
  {
    hide PoolOk, Names;
    ghost var trees0, info0 := rt.trees, rt.info;
    rt.UsedFits();
    rt.OwnedNow();
    var g, h := rt.trees[a].handles[i], rt.trees[b].handles[i];
    ok := true;
    if g == 0 {
      if h != 0 {
        rt.FreeInfo(b, i);
      }
    } else {
      rt.LiveNode(a, i);
      if h == 0 {
        ok := rt.CreateNode(b, i, rt.info[g]);
      } else {
        rt.LiveNode(b, i);
        rt.Unname(h);
        rt.WriteInfo(h, rt.info[g]);
      }
    }
    ChangedOnly(trees0, info0, rt, b, i);
  }

  /** Changing the handle of one node and the record it holds touches no other node. */
  lemma ChangedOnly(trees0: seq<Tree>, info0: seq<Info>, rt: Runtime, t: nat, i: nat)
    requires rt.Valid() && t < |trees0| == |rt.trees| && i < |trees0[t].handles| == |rt.trees[t].handles|
    requires |info0| == |rt.info| == POOL
    requires rt.trees[t].src == trees0[t].src && forall u :: 0 <= u < |trees0| && u != t ==> rt.trees[u] == trees0[u]
    requires forall j :: 0 <= j < |trees0[t].handles| && j != i ==> rt.trees[t].handles[j] == trees0[t].handles[j]
    requires var h := rt.trees[t].handles[i]; rt.info == info0 || (0 < h < POOL && rt.info == info0[h := rt.info[h]])
    ensures OnlyNode(trees0, info0, rt.trees, rt.info, t, i)
  {
    hide PoolOk, Names;
    rt.OwnedNow();
    if rt.trees[t].handles[i] != 0 {
      rt.LiveNode(t, i);
      OtherRecords(rt.owner, rt.trees, t, i, rt.trees[t].handles[i]);
    }
  }

  ghost function One(handles: seq<nat>, i: nat): nat
    requires i < |handles|
  {
    if handles[i] == 0 then 0 else 1
  }

  /** The records in use after the first k nodes of a clone. */
  ghost function InUse(used: int, from: seq<nat>, to: seq<nat>, k: nat): int {
    used + |LiveBelow(from, k)| - |LiveBelow(to, k)|
  }

  /** The clone never needs more than the pool has, node after node. */
  ghost predicate CloneFits(used: int, from: seq<nat>, to: seq<nat>) {
    forall k {:trigger InUse(used, from, to, k)} :: 0 <= k <= |from| ==> InUse(used, from, to, k) <= POOL
  }

  lemma InUseStep(used: int, from: seq<nat>, to: seq<nat>, k: nat)
    requires k < |from| == |to|
    ensures InUse(used, from, to, k + 1) == InUse(used, from, to, k) + One(from, k) - One(to, k)
  {
    LiveBelowStep(from, k);
    LiveBelowStep(to, k);
    hide LiveBelow;
  }

  lemma {:induction false} LiveBelowGrows(handles: seq<nat>, m: nat, n: nat)
    requires m <= n <= |handles|
    ensures |LiveBelow(handles, m)| <= |LiveBelow(handles, n)|
  {
    if m < n {
      LiveBelowGrows(handles, m, n - 1);
      LiveBelowStep(handles, n - 1);
    }
  }

  /** Room for every live node of the source is enough, and for an empty
      destination it is also needed. */
  lemma CloneRoom(used: int, from: seq<nat>, to: seq<nat>)
    requires |from| == |to|
    ensures used + |Live(from)| <= POOL ==> CloneFits(used, from, to)
    ensures Live(to) == {} ==> (CloneFits(used, from, to) <==> used + |Live(from)| <= POOL)
  {
    var n := |from|;
    assert LiveBelow(from, n) == Live(from);
    forall k | 0 <= k <= n ensures InUse(used, from, to, k) <= used + |Live(from)| {
      LiveBelowGrows(from, k, n);
    }
    if Live(to) == {} {
      assert LiveBelow(to, n) == Live(to);
      assert InUse(used, from, to, n) == used + |Live(from)|;
    }
  }

  /** The first i nodes are cloned; the rest of the destination is as it was. */
  ghost predicate Cloning(rt: Runtime, a: nat, b: nat, i: nat, trees0: seq<Tree>, used0: int)
    reads rt
  {
    && rt.Valid() && OtherTrees(trees0, rt.trees, b) && SameUpTo(rt, a, b, i) && a != b
    && |rt.trees[a].handles| == |rt.trees[b].handles|
    && (forall j :: i <= j < |trees0[b].handles| ==> rt.trees[b].handles[j] == trees0[b].handles[j])
    && rt.used == InUse(used0, trees0[a].handles, trees0[b].handles, i)
  }

  /** XAnimCloneAnimTree: from any starting destination the destination becomes
      equal to the source, which is left alone; it fails exactly when at some
      node the pool has no record left for a missing destination node. */
  method CloneTree(rt: Runtime, a: nat, b: nat) returns (ok: bool)
    requires rt.Valid() && a < |rt.trees| && b < |rt.trees| && a != b && rt.trees[a].src == rt.trees[b].src
    modifies rt
    ensures rt.Valid() && OtherTrees(old(rt.trees), rt.trees, b)
    ensures ok <==> CloneFits(old(rt.used), old(rt.trees)[a].handles, old(rt.trees)[b].handles)
    ensures ok ==> SameUpTo(rt, a, b, |rt.trees[a].handles|)
    ensures !ok ==> rt.Stuck(b)
  {
    hide PoolOk, Names, Cloning, InUse, SameUpTo, OtherTrees, HasDead;
    ghost var trees0, used0 := rt.trees, rt.used;
    rt.ShapeOk(a);
    rt.ShapeOk(b);
    CloneStarts(rt, a, b);
    CloneNow(rt, a, b, 0, trees0, used0);
    var i := 0;
    while i < |rt.trees[a].handles|
      invariant a < |rt.trees| && rt.trees[a] == trees0[a] && 0 <= i <= |rt.trees[a].handles|
      invariant Cloning(rt, a, b, i, trees0, used0)
      invariant forall k {:trigger InUse(used0, trees0[a].handles, trees0[b].handles, k)} :: 0 <= k < i ==>
                  InUse(used0, trees0[a].handles, trees0[b].handles, k) <= POOL
    {
      ok := CloneStep(rt, a, b, i, trees0, used0);
      if !ok {
        return;
      }
      i := i + 1;
      CloneNow(rt, a, b, i, trees0, used0);
    }
    CloneEnds(rt, a, b, trees0, used0);
    return true;
  }

  lemma CloneStarts(rt: Runtime, a: nat, b: nat)
    requires rt.Valid() && a < |rt.trees| && b < |rt.trees| && a != b
    requires |rt.trees[a].handles| == |rt.trees[b].handles|
    ensures Cloning(rt, a, b, 0, rt.trees, rt.used)
  {
    assert LiveBelow(rt.trees[a].handles, 0) == {} == LiveBelow(rt.trees[b].handles, 0);
  }

  lemma CloneNow(rt: Runtime, a: nat, b: nat, i: nat, trees0: seq<Tree>, used0: int)
    requires Cloning(rt, a, b, i, trees0, used0)
    ensures rt.Valid() && OtherTrees(trees0, rt.trees, b)
    ensures b < |trees0| == |rt.trees| && |trees0[b].handles| == |rt.trees[b].handles|
  {
  }

  lemma CloneEnds(rt: Runtime, a: nat, b: nat, trees0: seq<Tree>, used0: int)
    requires a < |rt.trees| && a < |trees0| && rt.trees[a] == trees0[a] && b < |trees0|
    requires Cloning(rt, a, b, |rt.trees[a].handles|, trees0, used0)
    ensures rt.Valid() && OtherTrees(trees0, rt.trees, b) && SameUpTo(rt, a, b, |rt.trees[a].handles|)
    ensures InUse(used0, trees0[a].handles, trees0[b].handles, |trees0[a].handles|) <= POOL
  {
    rt.UsedFits();
  }

  method CloneStep(rt: Runtime, a: nat, b: nat, i: nat, ghost trees0: seq<Tree>, ghost used0: int) returns (ok: bool)
    requires a < |rt.trees| && a < |trees0| && b < |trees0| && rt.trees[a] == trees0[a] && i < |trees0[a].handles|
    requires Cloning(rt, a, b, i, trees0, used0)
    modifies rt
    ensures rt.Valid() && OtherTrees(trees0, rt.trees, b) && a < |rt.trees| && rt.trees[a] == trees0[a]
    ensures InUse(used0, trees0[a].handles, trees0[b].handles, i) <= POOL
    ensures ok ==> Cloning(rt, a, b, i + 1, trees0, used0)
    ensures !ok ==> rt.Stuck(b) && InUse(used0, trees0[a].handles, trees0[b].handles, i + 1) > POOL
  {
    hide PoolOk, Names, InUse;
    rt.UsedFits();
    ghost var trees1, info1 := rt.trees, rt.info;
    ok := CloneNode(rt, a, b, i);
    InUseStep(used0, trees0[a].handles, trees0[b].handles, i);
    if ok {
      forall j | 0 <= j < i ensures SameNode(rt.info, rt.trees[a].handles[j], rt.trees[b].handles[j]) {
        SameKept(trees1, info1, rt.trees, rt.info, a, b, i, j);
      }
    }
  }

  /** A tree equal to a closed tree is closed. */
  lemma SameIsClosed(rt: Runtime, a: nat, b: nat)
    requires rt.Valid() && a < |rt.trees| && b < |rt.trees| && rt.trees[a].src == rt.trees[b].src
    requires SameUpTo(rt, a, b, |rt.trees[a].handles|) && LiveClosed(rt.trees[a])
    ensures LiveClosed(rt.trees[b])
  {
    var s, x, y := rt.trees[a].src, rt.trees[a].handles, rt.trees[b].handles;
    forall j | 1 <= j < |y| && y[j] != 0 ensures s.parent[j] < |y| && y[s.parent[j]] != 0 {
      assert SameNode(rt.info, x[j], y[j]) && SameNode(rt.info, x[s.parent[j]], y[s.parent[j]]);
    }
  }

  // ----- the save stream -----

  datatype Token = Data(bits: seq<bool>) | Byte(byte: nat) | Short(word: Word) | Text(handle: Word) | Float(float: real)

  /** Signed words are written through an unsigned cast and read back through a signed one. */
  function ToWord(x: Int16): Word {
    x % 65536
  }

  function ToSigned(w: Word): Int16 {
    if w < 32768 then w else w - 65536
  }

  /** XAnimSaveAnimState. */
  function SaveState(s: State): seq<Token> {
    [Float(s.time), Float(s.oldTime), Short(ToWord(s.cycle)), Short(ToWord(s.oldCycle)),
     Float(s.target), Float(s.rate), Float(s.blend), Float(s.current)]
  }

  /** XAnimSaveAnimInfo. */
  function SaveInfo(x: Info): seq<Token> {
    [Short(ToWord(x.notifyIndex)), Short(x.notifyChild), Short(x.notifyType)]
    + (if x.name == 0 then [Byte(0)] else [Byte(1), Text(x.name)])
    + SaveState(x.client) + SaveState(x.server)
  }

  /** XAnimLoadAnimState: a token of another kind ends the load. */
  function LoadState(s: seq<Token>): Option<(State, seq<Token>)> {
    if |s| >= 8 && s[0].Float? && s[1].Float? && s[2].Short? && s[3].Short? &&
       s[4].Float? && s[5].Float? && s[6].Float? && s[7].Float?
    then Some((State(s[0].float, s[1].float, ToSigned(s[2].word), ToSigned(s[3].word),
                     s[6].float, s[4].float, s[7].float, s[5].float), s[8..]))
    else None
  }

  function LoadName(s: seq<Token>): Option<(Word, seq<Token>)> {
    if |s| == 0 || !s[0].Byte? then None
    else if s[0].byte == 0 then Some((0, s[1..]))
    else if |s| >= 2 && s[1].Text? then Some((s[1].handle, s[2..]))
    else None
  }

  /** XAnimLoadAnimInfo. */
  function LoadInfo(s: seq<Token>): Option<(Info, seq<Token>)> {
    if |s| >= 3 && s[0].Short? && s[1].Short? && s[2].Short? then
      match LoadName(s[3..])
      case None => None
      case Some((name, s1)) =>
        match LoadState(s1)
        case None => None
        case Some((client, s2)) =>
          match LoadState(s2)
          case None => None
          case Some((server, s3)) =>
            Some((Info(s[1].word, ToSigned(s[0].word), name, s[2].word, client, server), s3))
    else None
  }

  lemma StateRoundTrip(s: State, rest: seq<Token>)
    ensures LoadState(SaveState(s) + rest) == Some((s, rest))
  {
    assert (SaveState(s) + rest)[8..] == rest;
  }

  lemma NameRoundTrip(name: Word, rest: seq<Token>)
    ensures LoadName((if name == 0 then [Byte(0)] else [Byte(1), Text(name)]) + rest) == Some((name, rest))
  {
    var s := (if name == 0 then [Byte(0)] else [Byte(1), Text(name)]) + rest;
    if name == 0 {
      assert s[1..] == rest;
    } else {
      assert s[2..] == rest;
    }
  }

  /** These eight tokens hold a lane state. */
  predicate StateAt(s: seq<Token>, at: nat, state: State) {
    && at + 8 <= |s|
    && s[at] == Float(state.time) && s[at + 1] == Float(state.oldTime)
    && SameBits(s[at + 2], state.cycle) && SameBits(s[at + 3], state.oldCycle)
    && s[at + 4] == Float(state.target) && s[at + 5] == Float(state.rate)
    && s[at + 6] == Float(state.blend) && s[at + 7] == Float(state.current)
  }

  /** A word that agrees with a signed number in its 16 bits. */
  predicate SameBits(t: Token, x: Int16) {
    t.Short? && (t.word - x) % 65536 == 0
  }

  /** Which token of a saved record holds what. */
  lemma RecordLayout(x: Info)
    ensures var s, n := SaveInfo(x), if x.name == 0 then 4 else 5;
            && |s| == n + 16
            && SameBits(s[0], x.notifyIndex) && s[1] == Short(x.notifyChild) && s[2] == Short(x.notifyType)
            && s[3] == Byte(if x.name == 0 then 0 else 1) && (x.name != 0 ==> s[4] == Text(x.name))
            && StateAt(s, n, x.client) && StateAt(s, n + 8, x.server)
  {
    var client, server := SaveState(x.client), SaveState(x.server);
    var head := [Short(ToWord(x.notifyIndex)), Short(x.notifyChild), Short(x.notifyType)]
                + if x.name == 0 then [Byte(0)] else [Byte(1), Text(x.name)];
    assert SaveInfo(x) == head + client + server;
    StateLies(head, x.client, server);
    StateLies(head + client, x.server, []);
    assert SaveInfo(x) == head + client + server + [];
  }

  lemma StateLies(before: seq<Token>, state: State, after: seq<Token>)
    ensures StateAt(before + SaveState(state) + after, |before|, state)
  {
    var s, t := SaveState(state), before + SaveState(state) + after;
    forall k: nat | k < 8 ensures t[|before| + k] == s[k] {
    }
  }

  /** A node record survives save and load exactly. */
  lemma InfoRoundTrip(x: Info, rest: seq<Token>)
    ensures LoadInfo(SaveInfo(x) + rest) == Some((x, rest))
  {
    var named := if x.name == 0 then [Byte(0)] else [Byte(1), Text(x.name)];
    var s2 := SaveState(x.server) + rest;
    var s1 := SaveState(x.client) + s2;
    var s := SaveInfo(x) + rest;
    assert s[3..] == named + s1;
    NameRoundTrip(x.name, s1);
    StateRoundTrip(x.client, s2);
    StateRoundTrip(x.server, rest);
  }

  // ----- whole trees -----

  /** The records of nodes `i..`, as written. */
  ghost function SaveFrom(handles: seq<nat>, info: seq<Info>, i: nat): seq<Token>
    requires i <= |handles| && (forall j :: 0 <= j < |handles| ==> handles[j] < |info|)
    decreases |handles| - i
  {
    if i == |handles| then []
    else (if handles[i] == 0 then [] else SaveInfo(info[handles[i]])) + SaveFrom(handles, info, i + 1)
  }

  /** The live-node bitset fills whole bytes. */
  function MaskSize(n: nat): (r: nat)
    requires n > 0
    ensures n <= r < n + 8 && r % 8 == 0
  {
    ((n - 1) / 8 + 1) * 8
  }

  /** XAnimSaveAnimTree. */
  method SaveTree(rt: Runtime, t: nat) returns (out: seq<Token>)
    requires rt.Valid() && t < |rt.trees|
    ensures forall j :: 0 <= j < |rt.trees[t].handles| ==> rt.trees[t].handles[j] < |rt.info|
    ensures |out| > 0 && out[0].Data? && |out[0].bits| == MaskSize(|rt.trees[t].handles|)
    ensures forall j :: 0 <= j < |out[0].bits| ==>
              out[0].bits[j] == (j < |rt.trees[t].handles| && rt.trees[t].handles[j] != 0)
    ensures out[1..] == SaveFrom(rt.trees[t].handles, rt.info, 0)
  {
    var handles := rt.trees[t].handles;
    var n := |handles|;
    forall j | 0 <= j < n ensures handles[j] < |rt.info| {
      if handles[j] != 0 {
        rt.LiveNode(t, j);
      }
    }
    var bits := seq(MaskSize(n), j requires 0 <= j => j < n && handles[j] != 0);
    var body := SaveNodes(handles, rt.info);
    out := [Data(bits)] + body;
  }

  /** The record loop of XAnimSaveAnimTree. */
  method SaveNodes(handles: seq<nat>, info: seq<Info>) returns (body: seq<Token>)
    requires forall j :: 0 <= j < |handles| ==> handles[j] < |info|
    ensures body == SaveFrom(handles, info, 0)
  {
    body := [];
    var i := 0;
    while i < |handles|
      invariant 0 <= i <= |handles|
      invariant body + SaveFrom(handles, info, i) == SaveFrom(handles, info, 0)
    {
      ghost var before, tail := body, SaveFrom(handles, info, i + 1);
      if handles[i] != 0 {
        body := body + SaveInfo(info[handles[i]]);
        assert body + tail == before + (SaveInfo(info[handles[i]]) + tail);
      } else {
        assert [] + tail == tail;
      }
      i := i + 1;
    }
  }

  /** The records a stream holds for nodes `i..n`. */
  ghost function Parse(bits: seq<bool>, i: nat, n: nat, s: seq<Token>): (r: Option<seq<Option<Info>>>)
    requires i <= n <= |bits|
    ensures r.Some? ==> |r.value| == n - i
    decreases n - i
  {
    if i == n then Some([])
    else if !bits[i] then Cons(None, Parse(bits, i + 1, n, s))
    else
      match LoadInfo(s)
      case None => None
      case Some((x, rest)) => Cons(Some(x), Parse(bits, i + 1, n, rest))
  }

  ghost function Cons(x: Option<Info>, r: Option<seq<Option<Info>>>): Option<seq<Option<Info>>> {
    if r.None? then None else Some([x] + r.value)
  }

  ghost function RecordAt(handles: seq<nat>, info: seq<Info>, j: nat): Option<Info>
    requires j < |handles| && handles[j] < |info|
  {
    if handles[j] == 0 then None else Some(info[handles[j]])
  }

  /** The records parsed for nodes `i..` are those of the saved tree. */
  ghost predicate Parsed(handles: seq<nat>, info: seq<Info>, i: nat, r: Option<seq<Option<Info>>>) {
    && r.Some? && i + |r.value| == |handles|
    && forall j :: 0 <= j < |r.value| ==> ParsedAt(handles, info, i, r.value, j)
  }

  ghost predicate ParsedAt(handles: seq<nat>, info: seq<Info>, i: nat, value: seq<Option<Info>>, j: int) {
    && 0 <= j < |value| && i + j < |handles| && handles[i + j] < |info|
    && value[j] == RecordAt(handles, info, i + j)
  }

  lemma ParsedCons(handles: seq<nat>, info: seq<Info>, i: nat, r: Option<seq<Option<Info>>>)
    requires i < |handles| && handles[i] < |info| && Parsed(handles, info, i + 1, r)
    ensures Parsed(handles, info, i, Cons(RecordAt(handles, info, i), r))
  {
    var value := [RecordAt(handles, info, i)] + r.value;
    forall j | 0 <= j < |value|
      ensures ParsedAt(handles, info, i, value, j)
    {
      if j > 0 {
        assert ParsedAt(handles, info, i + 1, r.value, j - 1);
      }
    }
  }

  /** Parsing what was saved gives back the record of every live node. */
  lemma {:induction false} ParseSaved(handles: seq<nat>, info: seq<Info>, bits: seq<bool>, i: nat)
    requires i <= |handles| <= |bits| && (forall j :: 0 <= j < |handles| ==> handles[j] < |info|)
    requires forall j :: 0 <= j < |handles| ==> bits[j] == (handles[j] != 0)
    ensures Parsed(handles, info, i, Parse(bits, i, |handles|, SaveFrom(handles, info, i)))
    decreases |handles| - i
  {
    if i < |handles| {
      ParseSaved(handles, info, bits, i + 1);
      SavedHead(handles, info, bits, i);
      ParsedCons(handles, info, i, Parse(bits, i + 1, |handles|, SaveFrom(handles, info, i + 1)));
    }
  }

  lemma SavedHead(handles: seq<nat>, info: seq<Info>, bits: seq<bool>, i: nat)
    requires i < |handles| <= |bits| && (forall j :: 0 <= j < |handles| ==> handles[j] < |info|)
    requires bits[i] == (handles[i] != 0)
    ensures Parse(bits, i, |handles|, SaveFrom(handles, info, i)) ==
            Cons(RecordAt(handles, info, i), Parse(bits, i + 1, |handles|, SaveFrom(handles, info, i + 1)))
  {
    var tail := SaveFrom(handles, info, i + 1);
    if handles[i] != 0 {
      InfoRoundTrip(info[handles[i]], tail);
    } else {
      assert [] + tail == tail;
    }
  }

  /** The nodes below `n` hold exactly these records. */
  ghost predicate Holds(rt: Runtime, t: nat, recs: seq<Option<Info>>, n: nat)
    reads rt
  {
    && t < |rt.trees| && n <= |rt.trees[t].handles| && n <= |recs| && |rt.info| == POOL
    && (forall j :: 0 <= j < n ==> HoldsAt(rt.info, rt.trees[t].handles[j], recs[j]))
    && (forall j :: n <= j < |rt.trees[t].handles| ==> rt.trees[t].handles[j] == 0)
  }

  ghost predicate HoldsAt(info: seq<Info>, h: nat, rec: Option<Info>) {
    if rec.None? then h == 0 else 0 < h < |info| && info[h] == rec.value
  }

  /** One live node of XAnimLoadAnimTree. */
  method LoadNode(rt: Runtime, t: nat, i: nat, x: Info, ghost recs: seq<Option<Info>>) returns (ok: bool)
    requires rt.Valid() && t < |rt.trees| && i < |rt.trees[t].handles| && |recs| == i
    requires Holds(rt, t, recs, i)
    modifies rt
    ensures rt.Valid() && OnlyNode(old(rt.trees), old(rt.info), rt.trees, rt.info, t, i)
    ensures ok <==> old(rt.used) < POOL
    ensures ok ==> Holds(rt, t, recs + [Some(x)], i + 1) && rt.used == old(rt.used) + 1
    ensures !ok ==> rt.Stuck(t)
  {
    hide PoolOk, Names;
    ghost var trees0, info0 := rt.trees, rt.info;
    rt.OwnedNow();
    ok := rt.CreateNode(t, i, x);
    ChangedOnly(trees0, info0, rt, t, i);
    if ok {
      HoldsKept(trees0, info0, rt.trees, rt.info, t, i, recs);
    }
  }

  /** How many of the first n bits are set. */
  ghost function SetBits(bits: seq<bool>, n: nat): nat
    requires n <= |bits|
  {
    if n == 0 then 0 else SetBits(bits, n - 1) + if bits[n - 1] then 1 else 0
  }

  lemma {:induction false} SetBitsGrow(bits: seq<bool>, m: nat, n: nat)
    requires m <= n <= |bits|
    ensures SetBits(bits, m) <= SetBits(bits, n)
  {
    if m < n {
      SetBitsGrow(bits, m, n - 1);
    }
  }

  lemma {:induction false} SetBitsLive(handles: seq<nat>, bits: seq<bool>, n: nat)
    requires n <= |handles| <= |bits| && forall j :: 0 <= j < |handles| ==> bits[j] == (handles[j] != 0)
    ensures SetBits(bits, n) == |LiveBelow(handles, n)|
  {
    if n == 0 {
      assert LiveBelow(handles, 0) == {};
    } else {
      SetBitsLive(handles, bits, n - 1);
      LiveBelowStep(handles, n - 1);
      hide LiveBelow;
    }
  }

  /** The stream starts with the bitset of a tree of n nodes and holds a record
      for every bit. */
  ghost predicate Readable(s: seq<Token>, n: nat)
    requires n > 0
  {
    |s| > 0 && s[0].Data? && |s[0].bits| == MaskSize(n) && Parse(s[0].bits, 0, n, s[1..]).Some?
  }

  /** XAnimLoadAnimTree into an empty tree: each node ends up with the record
      the stream holds for it. It fails exactly when the stream does not have
      the form or the pool has fewer records left than the stream. */
  method LoadTree(rt: Runtime, t: nat, s: seq<Token>) returns (ok: bool)
    requires rt.Valid() && t < |rt.trees| && Live(rt.trees[t].handles) == {} && |rt.trees[t].handles| > 0
    modifies rt
    ensures rt.Valid() && Apart(old(rt.trees), old(rt.info), rt.trees, rt.info, t)
    ensures ok <==> Readable(s, |rt.trees[t].handles|)
                    && old(rt.used) + SetBits(s[0].bits, |rt.trees[t].handles|) <= POOL
    ensures ok ==> Holds(rt, t, Parse(s[0].bits, 0, |rt.trees[t].handles|, s[1..]).value, |rt.trees[t].handles|)
    ensures !ok && Readable(s, |rt.trees[t].handles|) ==> rt.Stuck(t)
  {
    var n := |rt.trees[t].handles|;
    forall j | 0 <= j < n ensures rt.trees[t].handles[j] == 0 {
      assert j !in Live(rt.trees[t].handles);
    }
    ApartStart(rt.owner, rt.trees, rt.info, t);
    if |s| == 0 || !s[0].Data? || |s[0].bits| != MaskSize(n) {
      return false;
    }
    ok := LoadNodes(rt, t, s[0].bits, s[1..]);
  }

  /** Everything outside tree `t` is as before. */
  ghost predicate Apart(trees0: seq<Tree>, info0: seq<Info>, trees: seq<Tree>, info: seq<Info>, t: nat) {
    && t < |trees| == |trees0|
    && (forall u :: 0 <= u < |trees| && u != t ==> trees[u] == trees0[u])
    && trees[t].src == trees0[t].src && |trees[t].handles| == |trees0[t].handles|
    && Untouched(trees, info0, info, t)
  }

  /** The first i nodes are loaded. */
  ghost predicate Loading(rt: Runtime, t: nat, i: nat, bits: seq<bool>, n: nat, rest: seq<Token>,
                          recs: seq<Option<Info>>, whole: Option<seq<Option<Info>>>, trees0: seq<Tree>,
                          info0: seq<Info>, used0: int)
    reads rt
  {
    && rt.Valid() && Apart(trees0, info0, rt.trees, rt.info, t) && n <= |bits| && i <= n == |rt.trees[t].handles|
    && |recs| == i && Holds(rt, t, recs, i) && Joined(recs, Parse(bits, i, n, rest), whole)
    && rt.used == used0 + SetBits(bits, i)
  }

  /** The record loop of XAnimLoadAnimTree. */
  method LoadNodes(rt: Runtime, t: nat, bits: seq<bool>, s: seq<Token>) returns (ok: bool)
    requires rt.Valid() && t < |rt.trees| && |rt.trees[t].handles| <= |bits|
    requires forall j :: 0 <= j < |rt.trees[t].handles| ==> rt.trees[t].handles[j] == 0
    modifies rt
    ensures rt.Valid() && Apart(old(rt.trees), old(rt.info), rt.trees, rt.info, t)
    ensures var n := |rt.trees[t].handles|;
            && n <= |bits|
            && (ok <==> Parse(bits, 0, n, s).Some? && old(rt.used) + SetBits(bits, n) <= POOL)
            && (ok ==> Holds(rt, t, Parse(bits, 0, n, s).value, n))
    ensures !ok && Parse(bits, 0, |rt.trees[t].handles|, s).Some? ==> rt.Stuck(t)
  {
    var n := |rt.trees[t].handles|;
    var rest := s;
    ghost var recs := [];
    ghost var whole, trees0, info0, used0 := Parse(bits, 0, n, s), rt.trees, rt.info, rt.used;
    hide Loading, Parse, Holds, Apart, PoolOk, Names;
    LoadStarts(rt, t, bits, n, s, whole);
    var i := 0;
    while i < n
      invariant 0 <= i <= n && t < |rt.trees| && |rt.trees[t].handles| == n
      invariant Loading(rt, t, i, bits, n, rest, recs, whole, trees0, info0, used0)
    {
      ghost var rec;
      ok, rest, rec := LoadOne(rt, t, i, bits, n, rest, recs, whole, trees0, info0, used0);
      if !ok {
        return;
      }
      recs := recs + [rec];
      i := i + 1;
    }
    LoadEnds(rt, t, bits, n, rest, recs, whole, trees0, info0, used0);
    return true;
  }

  lemma LoadStarts(rt: Runtime, t: nat, bits: seq<bool>, n: nat, s: seq<Token>, whole: Option<seq<Option<Info>>>)
    requires rt.Valid() && t < |rt.trees| && n == |rt.trees[t].handles| <= |bits| && whole == Parse(bits, 0, n, s)
    requires forall j :: 0 <= j < n ==> rt.trees[t].handles[j] == 0
    ensures Loading(rt, t, 0, bits, n, s, [], whole, rt.trees, rt.info, rt.used)
  {
    JoinedStart(whole);
    ApartStart(rt.owner, rt.trees, rt.info, t);
  }

  lemma LoadEnds(rt: Runtime, t: nat, bits: seq<bool>, n: nat, rest: seq<Token>, recs: seq<Option<Info>>,
                 whole: Option<seq<Option<Info>>>, trees0: seq<Tree>, info0: seq<Info>, used0: int)
    requires Loading(rt, t, n, bits, n, rest, recs, whole, trees0, info0, used0)
    ensures rt.Valid() && Apart(trees0, info0, rt.trees, rt.info, t) && n <= |bits|
    ensures whole == Some(recs) && Holds(rt, t, recs, n) && used0 + SetBits(bits, n) <= POOL
  {
    assert recs + [] == recs;
    rt.UsedFits();
  }

  /** One node: skipped if its bit is clear, else read and created. */
  method LoadOne(rt: Runtime, t: nat, i: nat, bits: seq<bool>, n: nat, rest: seq<Token>, ghost recs: seq<Option<Info>>,
                 ghost whole: Option<seq<Option<Info>>>, ghost trees0: seq<Tree>, ghost info0: seq<Info>,
                 ghost used0: int)
    returns (ok: bool, rest': seq<Token>, ghost rec: Option<Info>)
    requires i < n && Loading(rt, t, i, bits, n, rest, recs, whole, trees0, info0, used0)
    modifies rt
    ensures rt.Valid() && Apart(trees0, info0, rt.trees, rt.info, t) && t < |rt.trees|
    ensures |rt.trees[t].handles| == n <= |bits|
    ensures ok ==> Loading(rt, t, i + 1, bits, n, rest', recs + [rec], whole, trees0, info0, used0)
    ensures !ok ==> whole.None? || (rt.Stuck(t) && used0 + SetBits(bits, n) > POOL)
  {
    hide PoolOk, Names, Joined, Parse;
    rest', rec := rest, None;
    if !bits[i] {
      HoldsNothing(rt, t, recs, i);
      JoinedStep(bits, i, n, rest, recs, rec, whole);
      return true, rest', rec;
    }
    var r := LoadInfo(rest);
    if r.None? {
      JoinedFails(bits, i, n, rest, recs, whole);
      return false, rest', rec;
    }
    rec, rest' := Some(r.value.0), r.value.1;
    ghost var trees1, info1 := rt.trees, rt.info;
    ok := LoadNode(rt, t, i, r.value.0, recs);
    ApartStep(trees0, info0, trees1, info1, rt.trees, rt.info, t, i);
    SetBitsGrow(bits, i + 1, n);
    JoinedStep(bits, i, n, rest, recs, rec, whole);
  }

  lemma HoldsNothing(rt: Runtime, t: nat, recs: seq<Option<Info>>, i: nat)
    requires Holds(rt, t, recs, i) && |recs| == i < |rt.trees[t].handles|
    ensures Holds(rt, t, recs + [None], i + 1)
  {
  }

  lemma JoinedFails(bits: seq<bool>, i: nat, n: nat, s: seq<Token>, recs: seq<Option<Info>>,
                    whole: Option<seq<Option<Info>>>)
    requires i < n <= |bits| && Joined(recs, Parse(bits, i, n, s), whole) && bits[i] && LoadInfo(s).None?
    ensures whole.None?
  {
  }

  lemma ApartStart(owner: seq<Owner>, trees: seq<Tree>, info: seq<Info>, t: nat)
    requires Owned(owner, trees) && |info| == POOL && t < |trees|
    ensures Apart(trees, info, trees, info, t)
  {
  }

  lemma JoinedStart(whole: Option<seq<Option<Info>>>)
    ensures Joined([], whole, whole)
  {
    if whole.Some? {
      assert [] + whole.value == whole.value;
    }
  }

  ghost predicate Untouched(trees: seq<Tree>, info0: seq<Info>, info: seq<Info>, t: nat) {
    && |info0| == |info| == POOL
    && forall u, j :: 0 <= u < |trees| && u != t && 0 <= j < |trees[u].handles| && trees[u].handles[j] != 0 ==>
                        trees[u].handles[j] < POOL && info[trees[u].handles[j]] == info0[trees[u].handles[j]]
  }

  lemma UntouchedStep(trees0: seq<Tree>, trees: seq<Tree>, info0: seq<Info>, info1: seq<Info>, info: seq<Info>,
                      t: nat, i: nat)
    requires Untouched(trees0, info0, info1, t) && OnlyNode(trees0, info1, trees, info, t, i)
    ensures Untouched(trees, info0, info, t)
  {
    forall u, j | 0 <= u < |trees| && u != t && 0 <= j < |trees[u].handles| && trees[u].handles[j] != 0
      ensures trees[u].handles[j] < POOL && info[trees[u].handles[j]] == info0[trees[u].handles[j]]
    {
      assert trees[u] == trees0[u];
      assert info[trees[u].handles[j]] == info1[trees[u].handles[j]];
      assert info1[trees0[u].handles[j]] == info0[trees0[u].handles[j]];
    }
  }

  lemma ApartStep(treesA: seq<Tree>, infoA: seq<Info>, trees0: seq<Tree>, info0: seq<Info>,
                  trees: seq<Tree>, info: seq<Info>, t: nat, i: nat)
    requires Apart(treesA, infoA, trees0, info0, t) && OnlyNode(trees0, info0, trees, info, t, i)
    ensures Apart(treesA, infoA, trees, info, t)
  {
    UntouchedStep(trees0, trees, infoA, info0, info, t, i);
  }

  lemma HoldsKept(trees0: seq<Tree>, info0: seq<Info>, trees: seq<Tree>, info: seq<Info>, t: nat, i: nat,
                  recs: seq<Option<Info>>)
    requires OnlyNode(trees0, info0, trees, info, t, i) && |recs| == i < |trees[t].handles|
    requires forall j :: 0 <= j < i ==> HoldsAt(info0, trees0[t].handles[j], recs[j])
    ensures forall j :: 0 <= j < i ==> HoldsAt(info, trees[t].handles[j], recs[j])
  {
    forall j | 0 <= j < i ensures HoldsAt(info, trees[t].handles[j], recs[j]) {
      assert HoldsAt(info0, trees0[t].handles[j], recs[j]);
      assert trees[t].handles[j] != 0 ==> info[trees[t].handles[j]] == info0[trees[t].handles[j]];
    }
  }

  /** `whole` is what was read so far followed by what is still to be read. */
  ghost predicate Joined(recs: seq<Option<Info>>, tail: Option<seq<Option<Info>>>, whole: Option<seq<Option<Info>>>) {
    if tail.None? then whole.None? else whole == Some(recs + tail.value)
  }

  lemma JoinedStep(bits: seq<bool>, i: nat, n: nat, s: seq<Token>, recs: seq<Option<Info>>, x: Option<Info>,
                   whole: Option<seq<Option<Info>>>)
    requires i < n <= |bits| && Joined(recs, Parse(bits, i, n, s), whole)
    requires if bits[i] then LoadInfo(s).Some? && x == Some(LoadInfo(s).value.0) else x == None
    ensures Joined(recs + [x], Parse(bits, i + 1, n, if bits[i] then LoadInfo(s).value.1 else s), whole)
  {
    var tail := Parse(bits, i + 1, n, if bits[i] then LoadInfo(s).value.1 else s);
    if tail.Some? {
      assert recs + ([x] + tail.value) == (recs + [x]) + tail.value;
    }
  }

  /** Saving a tree and loading the stream into an empty one restores the same
      live nodes with the same records, exactly when the pool has a record left
      for each of them. */
  method SaveAndLoad(rt: Runtime, a: nat, b: nat) returns (ok: bool)
    requires rt.Valid() && a < |rt.trees| && b < |rt.trees| && a != b && rt.trees[a].src == rt.trees[b].src
    requires Live(rt.trees[b].handles) == {}
    modifies rt
    ensures rt.Valid() && OtherTrees(old(rt.trees), rt.trees, b)
    ensures ok <==> old(rt.used) + old(rt.trees)[a].active <= POOL
    ensures ok ==> SameUpTo(rt, a, b, |rt.trees[a].handles|)
    ensures !ok ==> rt.Stuck(b)
  {
    rt.ShapeOk(a);
    rt.ShapeOk(b);
    var s := SaveTree(rt, a);
    ghost var trees0, info0, n := rt.trees, rt.info, |rt.trees[a].handles|;
    ParseSaved(rt.trees[a].handles, rt.info, s[0].bits, 0);
    SetBitsLive(rt.trees[a].handles, s[0].bits, n);
    assert LiveBelow(rt.trees[a].handles, n) == Live(rt.trees[a].handles);
    ok := LoadTree(rt, b, s);
    if ok {
      Restored(trees0, info0, rt, a, b, Parse(s[0].bits, 0, n, s[1..]).value);
    }
  }

  lemma Restored(trees0: seq<Tree>, info0: seq<Info>, rt: Runtime, a: nat, b: nat, recs: seq<Option<Info>>)
    requires Apart(trees0, info0, rt.trees, rt.info, b) && a < |trees0| && a != b
    requires |trees0[a].handles| == |rt.trees[b].handles| == |recs| && |info0| == POOL
    requires Parsed(trees0[a].handles, info0, 0, Some(recs))
    requires Holds(rt, b, recs, |recs|)
    ensures SameUpTo(rt, a, b, |recs|)
  {
    forall j | 0 <= j < |recs| ensures SameNode(rt.info, rt.trees[a].handles[j], rt.trees[b].handles[j]) {
      assert HoldsAt(rt.info, rt.trees[b].handles[j], recs[j]);
      assert ParsedAt(trees0[a].handles, info0, 0, recs, j);
    }
  }
}
