/** The per-tree cache of part remaps: two packed tables with one-byte
    generation stamps, handed to DObjs in turn. */
module RemapCache {
  import opened DObjLayout
  import opened PartRemap
  import opened Outcomes

  /** What a packed table holds: a string handle and a stamp per node. */
  datatype Table = Table(handles: seq<nat>, gen: nat, stamps: seq<nat>)

  /** A DObj on the tree: its table, the bones it was created with, and a serial
      number that tells it from every other. */
  datatype Holder = Holder(table: nat, bones: seq<Name>, serial: nat)

  /** `names` gives the part names of each leaf; `strings` is the content of
      interned remap strings by handle; `takers` is who was last given each table,
      live or not. */
  datatype Cache = Cache(
    names: seq<seq<Name>>, tables: seq<Table>, selector: nat, strings: map<nat, Payload>, live: seq<Holder>,
    takers: seq<Option<Holder>>, created: nat)

  ghost predicate ValidTable(n: nat, t: Table, strings: map<nat, Payload>) {
    && |t.handles| == |t.stamps| == n && t.gen < 256
    && (forall i :: 0 <= i < n ==> t.stamps[i] <= t.gen)
    && (forall i :: 0 <= i < n && t.handles[i] != 0 ==> t.handles[i] in strings)
  }

  /** Entries stamped with the current generation are right for these bones. */
  ghost predicate CurrentFor(names: seq<seq<Name>>, t: Table, strings: map<nat, Payload>, bones: seq<Name>)
    requires ValidTable(|names|, t, strings)
  {
    && t.gen > 0
    && forall i :: 0 <= i < |names| && t.handles[i] != 0 && t.stamps[i] == t.gen ==>
                     IsPayload(names[i], bones, strings[t.handles[i]])
  }

  /** Entries that count as current are right for the last taker of the table. */
  ghost predicate Valid(c: Cache) {
    && |c.tables| == |c.takers| == 2 && c.selector < 2
    && (forall k :: 0 <= k < 2 ==> ValidTable(|c.names|, c.tables[k], c.strings))
    && (forall i :: 0 <= i < |c.live| ==> c.live[i].table < 2 && c.live[i].serial < c.created)
    && forall k :: 0 <= k < 2 && c.takers[k].Some? ==>
         && c.takers[k].value.table == k && |c.takers[k].value.bones| <= MISSING
         && CurrentFor(c.names, c.tables[k], c.strings, c.takers[k].value.bones)
  }

  // ----- operations -----

  function Zeros(n: nat): (z: seq<nat>)
    ensures |z| == n && forall i :: 0 <= i < n ==> z[i] == 0
  {
    seq(n, _ => 0)
  }

  /** The generation bump of DObjCreate: a wrap restarts at one and clears all stamps. */
  ghost function Bump(t: Table): Table {
    if (t.gen + 1) % 256 == 0 then t.(gen := 1, stamps := Zeros(|t.stamps|)) else t.(gen := t.gen + 1)
  }

  ghost function Create(c: Cache, bones: seq<Name>): Cache
    requires |c.tables| == |c.takers| == 2 && c.selector < 2
  {
    c.(tables := c.tables[c.selector := Bump(c.tables[c.selector])],
       selector := 1 - c.selector, created := c.created + 1,
       live := c.live + [Holder(c.selector, bones, c.created)],
       takers := c.takers[c.selector := Some(Holder(c.selector, bones, c.created))])
  }

  /** DObjFree: the table given back is the next one handed out. */
  ghost function Free(c: Cache, d: nat): Cache
    requires d < |c.live|
  {
    c.(selector := if c.live[d].table == 0 then 0 else 1, live := c.live[..d] + c.live[d + 1..])
  }

  ghost function Emptied(t: Table): Table {
    t.(handles := Zeros(|t.handles|))
  }

  /** XAnimClearTree drops every handle and keeps the stamps. */
  ghost function Clear(c: Cache): Cache
    requires |c.tables| == 2
  {
    c.(tables := [Emptied(c.tables[0]), Emptied(c.tables[1])])
  }

  /** A leaf is looked up for a DObj: rebuilt when there is no handle or the stamp is old. */
  ghost predicate Hit(t: Table, i: nat)
    requires i < |t.handles| == |t.stamps|
  {
    t.handles[i] != 0 && t.stamps[i] == t.gen
  }

  /** The string table may reuse a handle that no other cell refers to. */
  ghost predicate Internable(c: Cache, k: nat, i: nat, h: nat, p: Payload)
    requires |c.tables| == 2
  {
    && 0 < h < 65536
    && forall k', i' :: 0 <= k' < 2 && 0 <= i' < |c.tables[k'].handles| ==>
                          (k' == k && i' == i) || c.tables[k'].handles[i'] != h || (h in c.strings && c.strings[h] == p)
  }

  ghost function Rebuild(c: Cache, k: nat, i: nat, h: nat, p: Payload): Cache
    requires |c.tables| == 2 && k < 2 && i < |c.tables[k].handles| == |c.tables[k].stamps|
  {
    var t := c.tables[k];
    c.(tables := c.tables[k := t.(handles := t.handles[i := h], stamps := t.stamps[i := t.gen])],
       strings := c.strings[h := p])
  }

  datatype Event =
    | DoCreate(bones: seq<Name>)
    | DoFree(d: nat, release: bool)
    | DoCalc(d: nat, leaf: nat, handle: nat, built: Payload)
    | DoClear

  /** A live DObj is the one its table was last given to. */
  ghost predicate LastTaker(c: Cache, d: nat)
    requires |c.takers| == 2 && d < |c.live|
  {
    c.live[d].table < 2 && c.takers[c.live[d].table] == Some(c.live[d])
  }

  /** Any number of DObjs may be created, freed or left behind; leaves are looked
      up for the last taker of a table. String handles and rebuilt payloads come
      from the string table and XAnimSetModel. */
  ghost predicate Allowed(c: Cache, e: Event)
    requires |c.tables| == |c.takers| == 2
  {
    match e
    case DoCreate(bones) => |bones| <= MISSING
    case DoFree(d, _) => d < |c.live|
    case DoCalc(d, leaf, h, p) =>
      && d < |c.live| && leaf < |c.names| && LastTaker(c, d)
      && IsPayload(c.names[leaf], c.live[d].bones, p) && Internable(c, c.live[d].table, leaf, h, p)
    case DoClear => true
  }

  ghost function Step(c: Cache, e: Event): Cache
    requires Valid(c) && Allowed(c, e)
  {
    match e
    case DoCreate(bones) => Create(c, bones)
    case DoFree(d, release) => Free(if release then Clear(c) else c, d)
    case DoCalc(d, leaf, h, p) =>
      if Hit(c.tables[c.live[d].table], leaf) then c else Rebuild(c, c.live[d].table, leaf, h, p)
    case DoClear => Clear(c)
  }

  /** The remap a DObj evaluates a leaf with, right after the lookup. */
  ghost function Used(c: Cache, d: nat, leaf: nat): Payload
    requires Valid(c) && d < |c.live| && leaf < |c.names| && c.tables[c.live[d].table].handles[leaf] != 0
  {
    c.strings[c.tables[c.live[d].table].handles[leaf]]
  }

  // ----- what every step keeps -----

  /** After a create nothing in the table counts as current, wrap or not. */
  lemma BumpAllStale(n: nat, t: Table, strings: map<nat, Payload>)
    requires ValidTable(n, t, strings)
    ensures ValidTable(n, Bump(t), strings) && 0 < Bump(t).gen
    ensures forall i :: 0 <= i < n ==> Bump(t).stamps[i] < Bump(t).gen
  {
  }

  lemma CreateKeeps(c: Cache, bones: seq<Name>)
    requires Valid(c) && |bones| <= MISSING
    ensures Valid(Create(c, bones))
  {
    BumpAllStale(|c.names|, c.tables[c.selector], c.strings);
    var c' := Create(c, bones);
    assert CurrentFor(c.names, c'.tables[c.selector], c.strings, bones);
  }

  lemma ClearKeeps(c: Cache)
    requires Valid(c)
    ensures Valid(Clear(c))
  {
  }

  lemma FreeKeeps(c: Cache, d: nat)
    requires Valid(c) && d < |c.live|
    ensures Valid(Free(c, d))
  {
    var live' := c.live[..d] + c.live[d + 1..];
    assert forall i :: 0 <= i < |live'| ==> live'[i] == c.live[if i < d then i else i + 1];
  }

  lemma RebuildKeeps(c: Cache, d: nat, i: nat, h: nat, p: Payload)
    requires Valid(c) && d < |c.live| && LastTaker(c, d) && i < |c.names| && IsPayload(c.names[i], c.live[d].bones, p)
    requires Internable(c, c.live[d].table, i, h, p)
    ensures Valid(Rebuild(c, c.live[d].table, i, h, p))
    ensures Used(Rebuild(c, c.live[d].table, i, h, p), d, i) == p
  {
    var k := c.live[d].table;
    var c' := Rebuild(c, k, i, h, p);
    forall k' | 0 <= k' < 2 ensures ValidTable(|c.names|, c'.tables[k'], c'.strings) {
    }
    forall k' | 0 <= k' < 2 && c.takers[k'].Some?
      ensures CurrentFor(c.names, c'.tables[k'], c'.strings, c.takers[k'].value.bones)
    {
      CellsKept(c, k, i, h, p, k');
      assert CurrentFor(c.names, c.tables[k'], c.strings, c.takers[k'].value.bones);
    }
  }

  /** Cells other than the rebuilt one keep handle, stamp and string content. */
  lemma CellsKept(c: Cache, k: nat, i: nat, h: nat, p: Payload, k': nat)
    requires Valid(c) && k < 2 && k' < 2 && i < |c.names| && Internable(c, k, i, h, p)
    ensures
      var t, t' := c.tables[k'], Rebuild(c, k, i, h, p).tables[k'];
      forall j :: 0 <= j < |c.names| && (k' != k || j != i) ==>
        t'.handles[j] == t.handles[j] && t'.stamps[j] == t.stamps[j] &&
        (t.handles[j] != 0 ==> Rebuild(c, k, i, h, p).strings[t.handles[j]] == c.strings[t.handles[j]])
  {
  }

  lemma StepKeeps(c: Cache, e: Event)
    requires Valid(c) && Allowed(c, e)
    ensures Valid(Step(c, e))
  {
    match e
    case DoCreate(bones) => CreateKeeps(c, bones);
    case DoFree(d, release) =>
      ClearKeeps(c);
      FreeKeeps(if release then Clear(c) else c, d);
    case DoCalc(d, leaf, h, p) => RebuildKeeps(c, d, leaf, h, p);
    case DoClear => ClearKeeps(c);
  }

  ghost predicate AllowedRun(c: Cache, es: seq<Event>)
    requires Valid(c)
    decreases |es|
  {
    es == [] || (Allowed(c, es[0]) && (StepKeeps(c, es[0]); AllowedRun(Step(c, es[0]), es[1..])))
  }

  ghost function Run(c: Cache, es: seq<Event>): (c': Cache)
    requires Valid(c) && AllowedRun(c, es)
    ensures Valid(c')
    decreases |es|
  {
    if es == [] then c else StepKeeps(c, es[0]); Run(Step(c, es[0]), es[1..])
  }

  /** A tree as allocated: all bytes zero, nobody on it. */
  ghost function Zeroed(names: seq<seq<Name>>): (c: Cache)
    ensures Valid(c)
  {
    var t := Table(Zeros(|names|), 0, Zeros(|names|));
    Cache(names, [t, t], 0, map[], [], [None, None], 0)
  }

  /** After any run of creations, frees, lookups and clears, with any number of
      DObjs alive or forgotten and however often the generations wrapped, a lookup
      hands the DObj that last took the table the remap that a fresh XAnimSetModel
      would build for the very bones it was created with. */
  lemma LookupIsFresh(names: seq<seq<Name>>, es: seq<Event>, d: nat, leaf: nat, h: nat, p: Payload)
    requires AllowedRun(Zeroed(names), es)
    requires Allowed(Run(Zeroed(names), es), DoCalc(d, leaf, h, p))
    ensures
      var c := Run(Zeroed(names), es);
      var c' := Step(c, DoCalc(d, leaf, h, p));
      Valid(c') && c'.tables[c.live[d].table].handles[leaf] != 0 &&
      Used(c', d, leaf) == p
  {
    var c := Run(Zeroed(names), es);
    StepKeeps(c, DoCalc(d, leaf, h, p));
    var t := c.tables[c.live[d].table];
    if Hit(t, leaf) {
      PayloadUnique(c, leaf, c.live[d].bones, c.strings[t.handles[leaf]], p);
    } else {
      RebuildKeeps(c, d, leaf, h, p);
    }
  }

  /** XAnimSetModel has one result. */
  lemma PayloadUnique(c: Cache, leaf: nat, bones: seq<Name>, p: Payload, q: Payload)
    requires leaf < |c.names| && IsPayload(c.names[leaf], bones, p) && IsPayload(c.names[leaf], bones, q)
    ensures p == q
  {
    assert p.table == q.table;
    assert p.mask == q.mask;
  }

  /** Once the last taker of a table has looked a leaf up, another DObj on the
      same table is given its own remap if and only if the two remaps agree. */
  lemma SharedTableIff(c: Cache, d: nat, e: nat, leaf: nat, p: Payload, q: Payload)
    requires Valid(c) && d < |c.live| && e < |c.live| && leaf < |c.names| && LastTaker(c, d)
    requires c.live[e].table == c.live[d].table && Hit(c.tables[c.live[d].table], leaf)
    requires IsPayload(c.names[leaf], c.live[d].bones, p) && IsPayload(c.names[leaf], c.live[e].bones, q)
    ensures Used(c, e, leaf) == q <==> p == q
  {
    PayloadUnique(c, leaf, c.live[d].bones, Used(c, d, leaf), p);
  }

  // ----- two DObjs at a time -----

  ghost predicate DistinctTables(live: seq<Holder>) {
    forall i, j :: 0 <= i < j < |live| ==> live[i].table != live[j].table
  }

  /** At most two DObjs are alive, each the last taker of its own table. */
  ghost predicate Paired(c: Cache) {
    && Valid(c) && |c.live| <= 2 && DistinctTables(c.live)
    && (|c.live| == 1 ==> c.selector == 1 - c.live[0].table)
    && forall i :: 0 <= i < |c.live| ==> LastTaker(c, i)
  }

  lemma CreatePairs(c: Cache, bones: seq<Name>)
    requires Paired(c) && |c.live| < 2 && |bones| <= MISSING
    ensures Paired(Create(c, bones))
  {
    CreateKeeps(c, bones);
    var live' := Create(c, bones).live;
    if |c.live| == 1 {
      assert LastTaker(c, 0) && live'[0] == c.live[0] && live'[1].table == c.selector;
    }
  }

  lemma FreePairs(c: Cache, d: nat)
    requires Paired(c) && d < |c.live|
    ensures Paired(Free(c, d))
  {
    FreeKeeps(c, d);
    var live' := Free(c, d).live;
    if |c.live| == 2 {
      assert live' == [c.live[1 - d]];
      assert LastTaker(c, 1 - d) && c.live[0].table != c.live[1].table;
    } else {
      assert live' == [];
    }
  }

  /** While at most two DObjs are alive at a time each of them stays the last
      taker of a table of its own, over every order of creates and frees. */
  lemma PairedKeeps(c: Cache, e: Event)
    requires Paired(c) && Allowed(c, e) && (e.DoCreate? ==> |c.live| < 2)
    ensures Paired(Step(c, e))
  {
    match e
    case DoCreate(bones) => CreatePairs(c, bones);
    case DoFree(d, release) =>
      ClearPairs(c);
      FreePairs(if release then Clear(c) else c, d);
    case DoCalc(d, leaf, h, p) =>
      StepKeeps(c, e);
      OthersStay(c, Step(c, e));
    case DoClear => ClearPairs(c);
  }

  lemma ClearPairs(c: Cache)
    requires Paired(c)
    ensures Paired(Clear(c))
  {
    ClearKeeps(c);
    OthersStay(c, Clear(c));
  }

  /** Steps that neither create nor free leave the pairing alone. */
  lemma OthersStay(c: Cache, r: Cache)
    requires Paired(c) && Valid(r) && r.live == c.live && r.takers == c.takers && r.selector == c.selector
    ensures Paired(r)
  {
    assert forall i :: 0 <= i < |c.live| ==> LastTaker(c, i) && LastTaker(r, i);
  }

  /** Handing out a table keeps live DObjs apart exactly while fewer than two are live. */
  lemma ApartIffTwo(c: Cache, bones: seq<Name>)
    requires Paired(c)
    ensures DistinctTables(Create(c, bones).live) <==> |c.live| < 2
  {
    var live' := Create(c, bones).live;
    if |c.live| == 2 {
      assert live'[0].table == live'[2].table || live'[1].table == live'[2].table;
    }
  }

  // ----- the packed bytes -----

  /** Offset of a table: the second follows the first without padding. */
  function TableAt(n: nat, k: nat): nat {
    if k == 0 then 0 else 3 * n + 1
  }

  function HandleAt(n: nat, k: nat, i: nat): nat {
    TableAt(n, k) + 2 * i
  }

  function GenAt(n: nat, k: nat): nat {
    TableAt(n, k) + 2 * n
  }

  function StampAt(n: nat, k: nat, i: nat): nat {
    TableAt(n, k) + 2 * n + 1 + i
  }

  ghost predicate Packed(n: nat, b: seq<nat>) {
    |b| == 2 * (3 * n + 1) && forall p :: 0 <= p < |b| ==> b[p] < 256
  }

  ghost function HandleIn(n: nat, b: seq<nat>, k: nat, i: nat): nat
    requires Packed(n, b) && k < 2 && i < n
  {
    b[HandleAt(n, k, i)] + 256 * b[HandleAt(n, k, i) + 1]
  }

  ghost function Decode(n: nat, b: seq<nat>, k: nat): Table
    requires Packed(n, b) && k < 2
  {
    Table(seq(n, i requires 0 <= i < n => HandleIn(n, b, k, i)), b[GenAt(n, k)],
          seq(n, i requires 0 <= i < n => b[StampAt(n, k, i)]))
  }

  /** A byte inside one field changes that field only. */
  lemma StampStored(n: nat, b: seq<nat>, k: nat, i: nat, v: nat)
    requires Packed(n, b) && k < 2 && i < n && v < 256
    ensures Packed(n, b[StampAt(n, k, i) := v])
    ensures forall j :: 0 <= j < 2 && j != k ==> Decode(n, b[StampAt(n, k, i) := v], j) == Decode(n, b, j)
    ensures Decode(n, b[StampAt(n, k, i) := v], k) ==
            Decode(n, b, k).(stamps := Decode(n, b, k).stamps[i := v])
  {
  }

  lemma GenStored(n: nat, b: seq<nat>, k: nat, v: nat)
    requires Packed(n, b) && k < 2 && v < 256
    ensures Packed(n, b[GenAt(n, k) := v])
    ensures forall j :: 0 <= j < 2 && j != k ==> Decode(n, b[GenAt(n, k) := v], j) == Decode(n, b, j)
    ensures Decode(n, b[GenAt(n, k) := v], k) == Decode(n, b, k).(gen := v)
  {
  }

  lemma HandleStored(n: nat, b: seq<nat>, k: nat, i: nat, h: nat)
    requires Packed(n, b) && k < 2 && i < n && h < 65536
    ensures
      var p := HandleAt(n, k, i);
      var b' := b[p := h % 256][p + 1 := h / 256];
      Packed(n, b') && (forall j :: 0 <= j < 2 && j != k ==> Decode(n, b', j) == Decode(n, b, j)) &&
      Decode(n, b', k) == Decode(n, b, k).(handles := Decode(n, b, k).handles[i := h])
  {
    TwoBytesStored(n, b, k, i, h % 256, h / 256);
  }

  lemma TwoBytesStored(n: nat, b: seq<nat>, k: nat, i: nat, low: nat, high: nat)
    requires Packed(n, b) && k < 2 && i < n && low < 256 && high < 256
    ensures
      var p := HandleAt(n, k, i);
      var b' := b[p := low][p + 1 := high];
      Packed(n, b') && (forall j :: 0 <= j < 2 && j != k ==> Decode(n, b', j) == Decode(n, b, j)) &&
      Decode(n, b', k) == Decode(n, b, k).(handles := Decode(n, b, k).handles[i := low + 256 * high])
  {
    var p := HandleAt(n, k, i);
    var b' := b[p := low][p + 1 := high];
    hide Decode, HandleIn, HandleAt, StampAt;
    forall j: nat, m: nat | j < 2 && m < n
      ensures HandleIn(n, b', j, m) == if j == k && m == i then low + 256 * high else HandleIn(n, b, j, m)
      ensures b'[StampAt(n, j, m)] == b[StampAt(n, j, m)]
    {
      FieldsAfter(n, b, k, i, low, high, j, m);
    }
    forall j: nat | j < 2
      ensures b'[GenAt(n, j)] == b[GenAt(n, j)]
    {
      FieldsAfter(n, b, k, i, low, high, j, i);
    }
    FieldsAfter(n, b, k, i, low, high, k, i);
    SameHandles(n, b, b', k, i, low + 256 * high);
  }

  lemma FieldsAfter(n: nat, b: seq<nat>, k: nat, i: nat, low: nat, high: nat, j: nat, m: nat)
    requires Packed(n, b) && k < 2 && i < n && low < 256 && high < 256 && j < 2 && m < n
    ensures HandleAt(n, k, i) + 1 < |b| && StampAt(n, j, m) < |b| && GenAt(n, j) < |b|
    ensures
      var p := HandleAt(n, k, i);
      var b' := b[p := low][p + 1 := high];
      && Packed(n, b') && b'[StampAt(n, j, m)] == b[StampAt(n, j, m)] && b'[GenAt(n, j)] == b[GenAt(n, j)]
      && HandleIn(n, b', j, m) == if j == k && m == i then low + 256 * high else HandleIn(n, b, j, m)
  {
    PositionsApart(n, k, i, j, m);
  }

  /** Tables whose bytes agree but for one handle. */
  lemma SameHandles(n: nat, b: seq<nat>, b': seq<nat>, k: nat, i: nat, h: nat)
    requires Packed(n, b) && Packed(n, b') && k < 2 && i < n
    requires forall j: nat, m: nat :: j < 2 && m < n ==>
               HandleIn(n, b', j, m) == (if j == k && m == i then h else HandleIn(n, b, j, m)) &&
               b'[StampAt(n, j, m)] == b[StampAt(n, j, m)]
    requires forall j: nat :: j < 2 ==> b'[GenAt(n, j)] == b[GenAt(n, j)]
    ensures forall j: nat :: j < 2 && j != k ==> Decode(n, b', j) == Decode(n, b, j)
    ensures Decode(n, b', k) == Decode(n, b, k).(handles := Decode(n, b, k).handles[i := h])
  {
    forall j: nat | j < 2
      ensures Decode(n, b', j).stamps == Decode(n, b, j).stamps
      ensures j != k ==> Decode(n, b', j).handles == Decode(n, b, j).handles
    {
    }
    assert Decode(n, b', k).handles == Decode(n, b, k).handles[i := h];
  }

  /** A handle's two bytes belong to no other field. */
  lemma PositionsApart(n: nat, k: nat, i: nat, j: nat, m: nat)
    requires k < 2 && i < n && j < 2 && m < n
    ensures var p := HandleAt(n, k, i);
            && ((j == k && m == i) || HandleAt(n, j, m) + 1 < p || p + 1 < HandleAt(n, j, m))
            && (StampAt(n, j, m) < p || p + 1 < StampAt(n, j, m))
            && (GenAt(n, j) < p || p + 1 < GenAt(n, j))
  {
  }

  /** The first i stamps of a table zeroed. */
  ghost function WithCleared(n: nat, t: seq<Table>, k: nat, i: nat): seq<Table>
    requires k < |t| && i <= n == |t[k].stamps|
  {
    t[k := t[k].(stamps := Zeros(i) + t[k].stamps[i..])]
  }

  lemma NoneCleared(n: nat, t: seq<Table>, k: nat)
    requires k < |t| && n == |t[k].stamps|
    ensures WithCleared(n, t, k, 0) == t
    ensures WithCleared(n, t, k, n) == t[k := t[k].(stamps := Zeros(n))]
  {
    assert Zeros(0) + t[k].stamps[0..] == t[k].stamps;
    assert Zeros(n) + t[k].stamps[n..] == Zeros(n);
  }

  lemma OneCleared(n: nat, t: seq<Table>, k: nat, i: nat)
    requires k < |t| && i < n == |t[k].stamps|
    ensures var m := WithCleared(n, t, k, i);
            WithCleared(n, t, k, i + 1) == m[k := m[k].(stamps := m[k].stamps[i := 0])]
  {
    assert (Zeros(i) + t[k].stamps[i..])[i := 0] == Zeros(i + 1) + t[k].stamps[i + 1..];
  }

  /** The tail of a runtime tree: handle bytes, a generation byte and stamp
      bytes, twice, addressed byte by byte. */
  class TreeTail {
    const n: nat
    const bytes: array<nat>
    var selector: nat

    ghost predicate Ok()
      reads this, bytes
    {
      Packed(n, bytes[..]) && selector < 2
    }

    ghost function Tables(): seq<Table>
      requires Ok()
      reads this, bytes
    {
      [Decode(n, bytes[..], 0), Decode(n, bytes[..], 1)]
    }

    constructor (n: nat)
      ensures Ok() && this.n == n && fresh(bytes) && selector == 0
      ensures Tables() == [Table(Zeros(n), 0, Zeros(n)), Table(Zeros(n), 0, Zeros(n))]
    {
      this.n := n;
      bytes := new nat[2 * (3 * n + 1)](_ => 0);
      selector := 0;
      new;
      forall k | 0 <= k < 2 ensures Decode(n, bytes[..], k) == Table(Zeros(n), 0, Zeros(n)) {
        assert Decode(n, bytes[..], k).handles == Zeros(n) && Decode(n, bytes[..], k).stamps == Zeros(n);
      }
    }

    method StoreHandle(k: nat, i: nat, h: nat)
      requires Ok() && k < 2 && i < n && h < 65536
      modifies bytes
      ensures Ok() && Tables() == old(Tables())[k := old(Tables())[k].(handles := old(Tables())[k].handles[i := h])]
    {
      HandleStored(n, bytes[..], k, i, h);
      var p := HandleAt(n, k, i);
      ghost var b: seq<nat> := bytes[..];
      var low: nat, high: nat := h % 256, h / 256;
      bytes[p] := low;
      bytes[p + 1] := high;
      assert bytes[..] == b[p := low][p + 1 := high];
    }

    method StoreStamp(k: nat, i: nat, v: nat)
      requires Ok() && k < 2 && i < n && v < 256
      modifies bytes
      ensures Ok() && Tables() == old(Tables())[k := old(Tables())[k].(stamps := old(Tables())[k].stamps[i := v])]
    {
      StampStored(n, bytes[..], k, i, v);
      ghost var b: seq<nat> := bytes[..];
      bytes[StampAt(n, k, i)] := v;
      assert bytes[..] == b[StampAt(n, k, i) := v];
    }

    method StoreGen(k: nat, v: nat)
      requires Ok() && k < 2 && v < 256
      modifies bytes
      ensures Ok() && Tables() == old(Tables())[k := old(Tables())[k].(gen := v)]
    {
      GenStored(n, bytes[..], k, v);
      ghost var b: seq<nat> := bytes[..];
      bytes[GenAt(n, k)] := v;
      assert bytes[..] == b[GenAt(n, k) := v];
    }

    /** The memset that follows a generation wrap. */
    method ClearStamps(k: nat)
      requires Ok() && k < 2
      modifies bytes
      ensures Ok() && Tables() == old(Tables())[k := old(Tables())[k].(stamps := Zeros(n))]
    {
      ghost var t := Tables();
      NoneCleared(n, t, k);
      for i := 0 to n
        invariant Ok() && Tables() == WithCleared(n, t, k, i)
      {
        StoreStamp(k, i, 0);
        OneCleared(n, t, k, i);
      }
    }

    /** The table part of DObjCreate. */
    method TakeTable() returns (k: nat)
      requires Ok()
      modifies this, bytes
      ensures Ok() && k == old(selector) && selector == 1 - k
      ensures Tables() == old(Tables())[k := Bump(old(Tables())[k])]
    {
      k := selector;
      var g := (bytes[GenAt(n, k)] + 1) % 256;
      StoreGen(k, g);
      if g == 0 {
        StoreGen(k, 1);
        ClearStamps(k);
      }
      selector := 1 - k;
    }

    /** The leaf part of XAnimCalc; `h` is what XAnimSetModel would return now. */
    method Lookup(k: nat, i: nat, h: nat) returns (used: nat)
      requires Ok() && k < 2 && i < n && 0 < h < 65536
      modifies bytes
      ensures Ok()
      ensures Hit(old(Tables())[k], i) ==> Tables() == old(Tables()) && used == old(Tables())[k].handles[i]
      ensures !Hit(old(Tables())[k], i) ==> used == h
      ensures !Hit(old(Tables())[k], i) ==>
                Tables() == old(Tables())[k := Table(old(Tables())[k].handles[i := h], old(Tables())[k].gen,
                                                     old(Tables())[k].stamps[i := old(Tables())[k].gen])]
    {
      var g, stamp;
      used, g, stamp := LoadNode(k, i);
      if used == 0 || stamp != g {
        StoreStamp(k, i, g);
        StoreHandle(k, i, h);
        used := h;
      }
    }

    method LoadNode(k: nat, i: nat) returns (h: nat, g: nat, stamp: nat)
      requires Ok() && k < 2 && i < n
      ensures h == Tables()[k].handles[i] && g == Tables()[k].gen < 256 && stamp == Tables()[k].stamps[i]
    {
      h := bytes[HandleAt(n, k, i)] + 256 * bytes[HandleAt(n, k, i) + 1];
      g := bytes[GenAt(n, k)];
      stamp := bytes[StampAt(n, k, i)];
    }

    /** The table part of XAnimClearTree. */
    method ClearHandles()
      requires Ok()
      modifies bytes
      ensures Ok() && Tables() == [Emptied(old(Tables())[0]), Emptied(old(Tables())[1])]
    {
      ClearTable(0);
      ClearTable(1);
    }

    method ClearTable(k: nat)
      requires Ok() && k < 2
      modifies bytes
      ensures Ok() && Tables() == old(Tables())[k := Emptied(old(Tables())[k])]
    {
      ghost var t := Tables();
      assert t[k].handles[..n] + Zeros(n - n) == t[k].handles;
      assert t[k := t[k]] == t;
      var i := n;
      while i > 0
        invariant 0 <= i <= n && Ok()
        invariant Tables() == t[k := t[k].(handles := t[k].handles[..i] + Zeros(n - i))]
      {
        i := i - 1;
        StoreHandle(k, i, 0);
        assert (t[k].handles[..i + 1] + Zeros(n - i - 1))[i := 0] == t[k].handles[..i] + Zeros(n - i);
      }
      assert t[k].handles[..0] + Zeros(n) == Zeros(n);
    }
  }
}
