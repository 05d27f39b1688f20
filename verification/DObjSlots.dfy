/** The common DObj pool: 1024 slots whose two owners, the client table and the
    server table, are packed as two bits per slot. */
module DObjSlots {

  const SLOTS: nat := 1024
  const CLIENT_HANDLES: nat := 1152
  const SERVER_HANDLES: nat := 1024

  datatype Side = Client | Server

  function Other(side: Side): Side {
    if side == Client then Server else Client
  }

  // ----- packed ownership -----

  function Bit(side: Side): bv8 {
    if side == Client then 1 else 2
  }

  /** Ownership bits shifted to one of the four places in a byte. */
  function Mask(place: nat, ownership: bv8): bv8
    requires place < 4
  {
    if place == 0 then ownership else if place == 1 then ownership << 2
    else if place == 2 then ownership << 4 else ownership << 6
  }

  predicate Has(b: bv8, place: nat, side: Side)
    requires place < 4
  {
    b & Mask(place, Bit(side)) != 0
  }

  function Put(b: bv8, place: nat, side: Side): (r: bv8)
    requires place < 4
  {
    b | Mask(place, Bit(side))
  }

  function Take(b: bv8, place: nat, side: Side): (r: bv8)
    requires place < 4
  {
    b & !Mask(place, Bit(side))
  }

  predicate Holds(bytes: seq<bv8>, slot: nat, side: Side)
    requires |bytes| == 256 && slot < SLOTS
  {
    Has(bytes[slot / 4], slot % 4, side)
  }

  /** What the packed bytes mean: the slots a table owns. */
  ghost function OwnedSet(bytes: seq<bv8>, side: Side): set<nat>
    requires |bytes| == 256
  {
    set slot: nat | slot < SLOTS && Holds(bytes, slot, side)
  }

  lemma PutBits(b: bv8, i: nat, j: nat, p: Side, q: Side)
    requires i < 4 && j < 4
    ensures Has(Put(b, i, p), j, q) <==> (i == j && p == q) || Has(b, j, q)
  {
  }

  lemma TakeBits(b: bv8, i: nat, j: nat, p: Side, q: Side)
    requires i < 4 && j < 4
    ensures Has(Take(b, i, p), j, q) <==> !(i == j && p == q) && Has(b, j, q)
  {
  }

  lemma AnyBits(b: bv8, i: nat)
    requires i < 4
    ensures b & Mask(i, 3) != 0 <==> Has(b, i, Client) || Has(b, i, Server)
  {
  }

  lemma SamePlace(s: nat, t: nat)
    requires s / 4 == t / 4 && s % 4 == t % 4
    ensures s == t
  {
  }

  lemma PutAt(bytes: seq<bv8>, slot: nat, side: Side, t: nat, q: Side)
    requires |bytes| == 256 && slot < SLOTS && t < SLOTS
    ensures Holds(bytes[slot / 4 := Put(bytes[slot / 4], slot % 4, side)], t, q) <==>
            (t == slot && q == side) || Holds(bytes, t, q)
  {
    PutBits(bytes[slot / 4], slot % 4, t % 4, side, q);
    if t / 4 == slot / 4 && t % 4 == slot % 4 {
      SamePlace(t, slot);
    }
  }

  lemma TakeAt(bytes: seq<bv8>, slot: nat, side: Side, t: nat, q: Side)
    requires |bytes| == 256 && slot < SLOTS && t < SLOTS
    ensures Holds(bytes[slot / 4 := Take(bytes[slot / 4], slot % 4, side)], t, q) <==>
            !(t == slot && q == side) && Holds(bytes, t, q)
  {
    TakeBits(bytes[slot / 4], slot % 4, t % 4, side, q);
    if t / 4 == slot / 4 && t % 4 == slot % 4 {
      SamePlace(t, slot);
    }
  }

  /** Setting one owner's bits adds that slot for that owner and disturbs nothing else. */
  lemma SetOwner(bytes: seq<bv8>, slot: nat, side: Side, q: Side)
    requires |bytes| == 256 && slot < SLOTS
    ensures OwnedSet(bytes[slot / 4 := Put(bytes[slot / 4], slot % 4, side)], q) ==
            if q == side then OwnedSet(bytes, q) + {slot} else OwnedSet(bytes, q)
  {
    var next := bytes[slot / 4 := Put(bytes[slot / 4], slot % 4, side)];
    forall t: nat | t < SLOTS
      ensures Holds(next, t, q) <==> (t == slot && q == side) || Holds(bytes, t, q)
    {
      PutAt(bytes, slot, side, t, q);
    }
  }

  /** Clearing them removes that slot for that owner and disturbs nothing else. */
  lemma ClearOwner(bytes: seq<bv8>, slot: nat, side: Side, q: Side)
    requires |bytes| == 256 && slot < SLOTS
    ensures OwnedSet(bytes[slot / 4 := Take(bytes[slot / 4], slot % 4, side)], q) ==
            if q == side then OwnedSet(bytes, q) - {slot} else OwnedSet(bytes, q)
  {
    var next := bytes[slot / 4 := Take(bytes[slot / 4], slot % 4, side)];
    forall t: nat | t < SLOTS
      ensures Holds(next, t, q) <==> !(t == slot && q == side) && Holds(bytes, t, q)
    {
      TakeAt(bytes, slot, side, t, q);
    }
  }

  // ----- the meaning of the pool -----

  datatype Table = Table(owned: set<nat>, handle: seq<nat>)

  /** `built` are the slots that hold a constructed DObj. */
  datatype Pool = Pool(client: Table, server: Table, last: nat, built: set<nat>)

  function Of(s: Pool, side: Side): Table {
    if side == Client then s.client else s.server
  }

  function With(s: Pool, side: Side, t: Table): Pool {
    if side == Client then s.(client := t) else s.(server := t)
  }

  function Entities(side: Side): nat {
    if side == Client then CLIENT_HANDLES else SERVER_HANDLES
  }

  ghost predicate TableOk(t: Table, count: nat) {
    && |t.handle| == count
    && (forall slot :: slot in t.owned ==> 1 <= slot < SLOTS)
    && (forall e :: 0 <= e < count ==> t.handle[e] == 0 || t.handle[e] in t.owned)
    && (forall e, f :: 0 <= e < count && 0 <= f < count && t.handle[e] == t.handle[f] != 0 ==> e == f)
  }

  /** Shared slots belong to one entity number, and the constructed DObjs are
      exactly those in owned slots. */
  ghost predicate Inv(s: Pool) {
    && TableOk(s.client, CLIENT_HANDLES) && TableOk(s.server, SERVER_HANDLES)
    && (forall e, f :: 0 <= e < CLIENT_HANDLES && 0 <= f < SERVER_HANDLES ==>
          s.client.handle[e] == s.server.handle[f] ==> s.client.handle[e] == 0 || e == f)
    && 1 <= s.last < SLOTS
    && s.built == s.client.owned + s.server.owned
  }

  /** Owned slots that no handle of their table names any more. */
  ghost function Leaked(t: Table): set<nat> {
    set slot <- t.owned | slot !in t.handle
  }

  predicate Free(s: Pool, slot: nat) {
    slot !in s.client.owned && slot !in s.server.owned
  }

  /** The slot the allocator chooses is free and every slot cyclically before it is not. */
  ghost predicate NextFree(s: Pool, slot: nat) {
    && 1 <= slot < SLOTS && Free(s, slot)
    && forall t: nat :: 1 <= t < SLOTS && Turn(s.last, t) < Turn(s.last, slot) ==> !Free(s, t)
  }

  /** How many steps after `last` the allocator reaches a slot, slot 0 left out. */
  function Turn(last: nat, slot: nat): int {
    if slot > last then slot - last else slot + SLOTS - 1 - last
  }

  /** Creating on slot for an entity. */
  function Make(s: Pool, side: Side, e: nat, slot: nat): Pool
    requires e < |Of(s, side).handle|
  {
    var t := Of(s, side);
    With(s, side, Table(t.owned + {slot}, t.handle[e := slot])).(last := slot, built := s.built + {slot})
  }

  /** Freeing an entity's handle: the DObj goes when the last owner goes. */
  function Drop(s: Pool, side: Side, e: nat): Pool
    requires e < |Of(s, side).handle|
  {
    var t := Of(s, side);
    var slot := t.handle[e];
    if slot == 0 then s else
    var next := With(s, side, Table(t.owned - {slot}, t.handle[e := 0]));
    if slot in Of(s, Other(side)).owned then next else next.(built := s.built - {slot})
  }

  /** One entity of the mirror loop. */
  function MirrorOne(s: Pool, e: nat): Pool
    requires e < |s.client.handle| && e < |s.server.handle|
  {
    var freed := Drop(s, Client, e);
    var slot := s.server.handle[e];
    freed.(client := Table(if slot == 0 then freed.client.owned else freed.client.owned + {slot},
                           freed.client.handle[e := slot]))
  }

  lemma MakeKeeps(s: Pool, side: Side, e: nat, slot: nat)
    requires Inv(s) && e < Entities(side) && 1 <= slot < SLOTS && Free(s, slot)
    ensures Inv(Make(s, side, e, slot))
  {
  }

  /** A create leaks exactly the slot of the handle it overwrites. */
  lemma MakeLeaks(s: Pool, side: Side, e: nat, slot: nat)
    requires Inv(s) && e < Entities(side) && 1 <= slot < SLOTS && Free(s, slot)
    ensures var old_ := Of(s, side).handle[e];
            Leaked(Of(Make(s, side, e, slot), side)) == Leaked(Of(s, side)) + if old_ == 0 then {} else {old_}
    ensures Of(Make(s, side, e, slot), Other(side)) == Of(s, Other(side))
  {
    var t, n := Of(s, side), Of(Make(s, side, e, slot), side);
    forall x | x in t.owned
      ensures x in n.handle <==> x in t.handle && x != t.handle[e]
    {
      if x in t.handle && x != t.handle[e] {
        var f :| 0 <= f < |t.handle| && t.handle[f] == x;
        assert n.handle[f] == x;
      }
    }
    assert n.handle[e] == slot;
  }

  lemma DropKeeps(s: Pool, side: Side, e: nat)
    requires Inv(s) && e < Entities(side)
    ensures Inv(Drop(s, side, e))
  {
  }

  /** A free leaks nothing and repairs nothing. */
  lemma DropLeaks(s: Pool, side: Side, e: nat)
    requires Inv(s) && e < Entities(side)
    ensures Leaked(Of(Drop(s, side, e), side)) == Leaked(Of(s, side))
    ensures Of(Drop(s, side, e), Other(side)) == Of(s, Other(side))
  {
    var t, n := Of(s, side), Of(Drop(s, side, e), side);
    if t.handle[e] != 0 {
      forall x | x in n.owned
        ensures x in n.handle <==> x in t.handle
      {
        if x in t.handle {
          var f :| 0 <= f < |t.handle| && t.handle[f] == x;
          assert n.handle[f] == x;
        }
      }
    }
  }

  lemma MirrorOneKeeps(s: Pool, e: nat)
    requires Inv(s) && e < SERVER_HANDLES
    ensures Inv(MirrorOne(s, e))
    ensures MirrorOne(s, e).server == s.server && MirrorOne(s, e).last == s.last
  {
    DropKeeps(s, Client, e);
    DropLeaks(s, Client, e);
  }

  /** Mirroring leaks nothing; it takes back a lost client share of the mirrored slot. */
  lemma MirrorOneLeaks(s: Pool, e: nat)
    requires Inv(s) && e < SERVER_HANDLES
    ensures Leaked(MirrorOne(s, e).client) == Leaked(s.client) - {s.server.handle[e]}
  {
    DropKeeps(s, Client, e);
    DropLeaks(s, Client, e);
    var t, n := Drop(s, Client, e).client, MirrorOne(s, e).client;
    var slot := s.server.handle[e];
    forall x | x in t.owned
      ensures x in n.handle <==> x in t.handle || x == slot
    {
      if x in t.handle {
        var f :| 0 <= f < |t.handle| && t.handle[f] == x;
        assert f != e;
        assert n.handle[f] == x;
      }
      if x == slot {
        assert n.handle[e] == slot;
      }
    }
    assert n.handle[e] == slot;
  }

  // ----- whole runs -----

  datatype Op = CreateOp(side: Side, entity: int) | FreeOp(side: Side, entity: int) | MirrorOp

  function MirrorUpTo(s: Pool, n: nat): (r: Pool)
    requires |s.client.handle| == CLIENT_HANDLES && |s.server.handle| == SERVER_HANDLES && n <= SERVER_HANDLES
    ensures |r.client.handle| == CLIENT_HANDLES && r.server == s.server
  {
    if n == 0 then s else MirrorOne(MirrorUpTo(s, n - 1), n - 1)
  }

  /** After the mirror the client table equals the server table on the server
      range; the rest of it, the server's table and the cursor are untouched. */
  lemma {:induction false} MirrorCopies(s: Pool, n: nat)
    requires Inv(s) && n <= SERVER_HANDLES
    ensures var r := MirrorUpTo(s, n);
            Inv(r) && r.last == s.last && r.client.handle == s.server.handle[..n] + s.client.handle[n..]
  {
    if n > 0 {
      MirrorCopies(s, n - 1);
      MirrorOneKeeps(MirrorUpTo(s, n - 1), n - 1);
    }
  }

  lemma {:induction false} MirrorLeaks(s: Pool, n: nat)
    requires Inv(s) && n <= SERVER_HANDLES
    ensures Leaked(MirrorUpTo(s, n).client) ==
            set slot <- Leaked(s.client) | slot !in s.server.handle[..n]
  {
    if n > 0 {
      MirrorLeaks(s, n - 1);
      MirrorCopies(s, n - 1);
      MirrorOneLeaks(MirrorUpTo(s, n - 1), n - 1);
      assert s.server.handle[..n] == s.server.handle[..n - 1] + [s.server.handle[n - 1]];
    }
  }

  ghost predicate InRange(side: Side, entity: int) {
    0 <= entity < Entities(side)
  }

  /** One call into the pool. A create with no free slot raises an error and is no step. */
  ghost predicate Step(s: Pool, op: Op, r: Pool)
    requires Inv(s)
  {
    match op
    case CreateOp(side, e) =>
      if InRange(side, e) then exists slot :: NextFree(s, slot) && r == Make(s, side, e, slot) else r == s
    case FreeOp(side, e) => r == if InRange(side, e) then Drop(s, side, e) else s
    case MirrorOp => r == MirrorUpTo(s, SERVER_HANDLES)
  }

  lemma StepKeeps(s: Pool, op: Op, r: Pool)
    requires Inv(s) && Step(s, op, r)
    ensures Inv(r)
  {
    match op
    case CreateOp(side, e) =>
      if InRange(side, e) {
        var slot :| NextFree(s, slot) && r == Make(s, side, e, slot);
        MakeKeeps(s, side, e, slot);
      }
    case FreeOp(side, e) =>
      if InRange(side, e) {
        DropKeeps(s, side, e);
      }
    case MirrorOp => MirrorCopies(s, SERVER_HANDLES);
  }

  /** The slots whose only handle a call overwrites. */
  ghost function Overwritten(s: Pool, op: Op, side: Side): set<nat>
    requires Inv(s)
  {
    if op.CreateOp? && op.side == side && InRange(side, op.entity) && Of(s, side).handle[op.entity] != 0
    then {Of(s, side).handle[op.entity]} else {}
  }

  /** The lost slots that a mirror takes back. */
  ghost function Reclaimed(s: Pool, op: Op, side: Side): set<nat> {
    if op.MirrorOp? && side == Client then set slot <- Leaked(s.client) | slot in s.server.handle else {}
  }

  /** Exactly when ownership is lost: by a create over a live handle, and by nothing else. */
  lemma StepLeaks(s: Pool, op: Op, r: Pool, side: Side)
    requires Inv(s) && Step(s, op, r)
    ensures Leaked(Of(r, side)) == Leaked(Of(s, side)) + Overwritten(s, op, side) - Reclaimed(s, op, side)
  {
    match op
    case CreateOp(p, e) =>
      if InRange(p, e) {
        var slot :| NextFree(s, slot) && r == Make(s, p, e, slot);
        MakeLeaks(s, p, e, slot);
      }
    case FreeOp(p, e) =>
      if InRange(p, e) {
        DropLeaks(s, p, e);
      }
    case MirrorOp =>
      MirrorLeaks(s, SERVER_HANDLES);
      assert s.server.handle[..SERVER_HANDLES] == s.server.handle;
  }

  /** A run, newest call last, with the states it passes through. */
  ghost predicate Run(states: seq<Pool>, ops: seq<Op>) {
    && |states| == |ops| + 1 && Inv(states[0])
    && forall i :: 0 <= i < |ops| ==> Inv(states[i]) ==> Step(states[i], ops[i], states[i + 1])
  }

  lemma {:induction false} RunKeeps(states: seq<Pool>, ops: seq<Op>, i: nat)
    requires Run(states, ops) && i < |states|
    ensures Inv(states[i])
  {
    if i > 0 {
      RunKeeps(states, ops, i - 1);
      StepKeeps(states[i - 1], ops[i - 1], states[i]);
    }
  }

  /** No create of the run hit a live handle. */
  ghost predicate Careful(states: seq<Pool>, ops: seq<Op>) {
    forall i, side :: 0 <= i < |ops| && i < |states| && Inv(states[i]) ==> Overwritten(states[i], ops[i], side) == {}
  }

  /** From an empty pool, a run whose creates all meet an empty handle loses no
      slot: every owned slot is named by exactly one entity of its table. */
  lemma {:induction false} CarefulRunsLoseNothing(states: seq<Pool>, ops: seq<Op>, i: nat, side: Side)
    requires Run(states, ops) && Careful(states, ops) && i < |states|
    requires Leaked(Of(states[0], side)) == {}
    ensures Leaked(Of(states[i], side)) == {}
  {
    if i > 0 {
      CarefulRunsLoseNothing(states, ops, i - 1, side);
      RunKeeps(states, ops, i - 1);
      StepLeaks(states[i - 1], ops[i - 1], states[i], side);
    }
  }

  /** Once every handle is gone, the DObjs still constructed are exactly the lost ones. */
  lemma EmptyTables(s: Pool)
    requires Inv(s)
    requires forall side, e :: 0 <= e < |Of(s, side).handle| ==> Of(s, side).handle[e] == 0
    ensures s.built == Leaked(s.client) + Leaked(s.server)
  {
    forall side, slot | slot in Of(s, side).owned
      ensures slot !in Of(s, side).handle
    {
    }
    assert Of(s, Client) == s.client && Of(s, Server) == s.server;
  }

  ghost function EmptyPool(): Pool {
    Pool(Table({}, seq(CLIENT_HANDLES, _ => 0)), Table({}, seq(SERVER_HANDLES, _ => 0)), 1, {})
  }

  /** Two creates for one entity, then a free: slot 2 stays constructed for good
      though no handle names it. */
  lemma CreateTwiceLoses()
    ensures var once := Make(EmptyPool(), Client, 0, 2);
            var twice := Make(once, Client, 0, 3);
            var freed := Drop(twice, Client, 0);
            && NextFree(EmptyPool(), 2) && NextFree(once, 3)
            && freed.built == {2} && 2 in Leaked(freed.client)
            && forall e :: 0 <= e < CLIENT_HANDLES ==> freed.client.handle[e] == 0
  {
    var once := Make(EmptyPool(), Client, 0, 2);
    var freed := Drop(Make(once, Client, 0, 3), Client, 0);
    assert NextFree(EmptyPool(), 2) && NextFree(once, 3);
    assert forall e :: 0 <= e < CLIENT_HANDLES ==> freed.client.handle[e] == 0;
    assert freed.built == {2};
  }

  // ----- the pool itself -----

  class DObjPool {
    const state: array<bv8>
    const clientHandles: array<nat>
    const serverHandles: array<nat>
    var last: nat
    var built: set<nat>

    ghost predicate Shape() {
      && state.Length == 256 && clientHandles.Length == CLIENT_HANDLES && serverHandles.Length == SERVER_HANDLES
      && clientHandles != serverHandles
    }

    ghost function Abs(): Pool
      requires Shape()
      reads this, state, clientHandles, serverHandles
    {
      Pool(Table(OwnedSet(state[..], Client), clientHandles[..]),
           Table(OwnedSet(state[..], Server), serverHandles[..]), last, built)
    }

    ghost predicate Valid()
      reads this, state, clientHandles, serverHandles
    {
      Shape() && Inv(Abs())
    }

    /** Com_InitDObj. */
    constructor ()
      ensures Valid() && fresh(state) && fresh(clientHandles) && fresh(serverHandles)
      ensures Abs().client.owned == {} && Abs().server.owned == {} && built == {} && last == 1
      ensures forall side, e :: 0 <= e < Entities(side) ==> Of(Abs(), side).handle[e] == 0
      ensures Leaked(Abs().client) == {} && Leaked(Abs().server) == {}
    {
      state := new bv8[256](_ => 0);
      clientHandles := new nat[CLIENT_HANDLES](_ => 0);
      serverHandles := new nat[SERVER_HANDLES](_ => 0);
      last := 1;
      built := {};
      new;
      EmptyBytes(state[..]);
    }

    function Handles(side: Side): array<nat> {
      if side == Client then clientHandles else serverHandles
    }

    method SlotIsOwned(slot: nat) returns (r: bool)
      requires Shape() && slot < SLOTS
      ensures r <==> !Free(Abs(), slot)
    {
      AnyBits(state[slot / 4], slot % 4);
      r := state[slot / 4] & Mask(slot % 4, 3) != 0;
      assert state[..][slot / 4] == state[slot / 4];
      assert r <==> Holds(state[..], slot, Client) || Holds(state[..], slot, Server);
    }

    method SetOwnership(slot: nat, side: Side)
      requires Shape() && slot < SLOTS
      modifies state
      ensures Abs() == With(old(Abs()), side, Of(old(Abs()), side).(owned := Of(old(Abs()), side).owned + {slot}))
    {
      ghost var bytes := state[..];
      state[slot / 4] := Put(state[slot / 4], slot % 4, side);
      assert state[..] == bytes[slot / 4 := Put(bytes[slot / 4], slot % 4, side)];
      SetOwner(bytes, slot, side, Client);
      SetOwner(bytes, slot, side, Server);
    }

    method ClearOwnership(slot: nat, side: Side)
      requires Shape() && slot < SLOTS
      modifies state
      ensures Abs() == With(old(Abs()), side, Of(old(Abs()), side).(owned := Of(old(Abs()), side).owned - {slot}))
    {
      ghost var bytes := state[..];
      state[slot / 4] := Take(state[slot / 4], slot % 4, side);
      assert state[..] == bytes[slot / 4 := Take(bytes[slot / 4], slot % 4, side)];
      ClearOwner(bytes, slot, side, Client);
      ClearOwner(bytes, slot, side, Server);
    }

    /** Com_GetFreeDObjIndex: the cyclically next free slot, and no slot only
        when every slot but the reserved slot 0 is owned. */
    method GetFreeDObjIndex() returns (slot: nat)
      requires Valid()
      modifies this`last
      ensures slot == 0 <==> forall t: nat :: 1 <= t < SLOTS ==> !Free(old(Abs()), t)
      ensures slot != 0 ==> NextFree(old(Abs()), slot)
      ensures last == if slot == 0 then old(last) else slot
      ensures Abs() == old(Abs()).(last := last)
    {
      ghost var before := Abs();
      slot := last + 1;
      while slot < SLOTS
        invariant last == before.last < slot <= SLOTS && Abs() == before
        invariant forall t: nat :: last < t < slot ==> !Free(before, t)
      {
        var owned := SlotIsOwned(slot);
        if !owned {
          last := slot;
          return;
        }
        slot := slot + 1;
      }
      slot := 1;
      while slot <= last
        invariant last == before.last && 1 <= slot <= last + 1 && Abs() == before
        invariant forall t: nat :: (last < t < SLOTS || 1 <= t < slot) ==> !Free(before, t)
      {
        var owned := SlotIsOwned(slot);
        if !owned {
          last := slot;
          return;
        }
        slot := slot + 1;
      }
      slot := 0;
    }

    /** DObjCreate on a slot: the slot must not hold a constructed DObj. */
    method BuildDObj(slot: nat)
      requires slot !in built
      modifies this`built
      ensures built == old(built) + {slot}
    {
      built := built + {slot};
    }

    /** DObjFree on a slot: the slot must hold a constructed DObj. */
    method FreeDObj(slot: nat)
      requires slot in built
      modifies this`built
      ensures built == old(built) - {slot}
    {
      built := built - {slot};
    }

    /** Com_ClientDObjCreate and Com_ServerDObjCreate. */
    method Create(side: Side, entity: int) returns (ok: bool)
      requires Valid()
      modifies this, state, clientHandles, serverHandles
      ensures ok ==> Valid() && Step(old(Abs()), CreateOp(side, entity), Abs())
      ensures !ok <==> InRange(side, entity) && forall t: nat :: 1 <= t < SLOTS ==> !Free(old(Abs()), t)
      ensures !ok ==> Abs() == old(Abs())
    {
      if entity < 0 || Handles(side).Length <= entity {
        return true;
      }
      ghost var before := Abs();
      var slot := GetFreeDObjIndex();
      if slot == 0 {
        return false;
      }
      SetOwnership(slot, side);
      Handles(side)[entity] := slot;
      BuildDObj(slot);
      assert Abs() == Make(before, side, entity, slot);
      MakeKeeps(before, side, entity, slot);
      return true;
    }

    /** Com_SafeClientDObjFree and Com_SafeServerDObjFree. */
    method SafeFree(side: Side, entity: int)
      requires Valid()
      modifies this, state, clientHandles, serverHandles
      ensures Valid() && Step(old(Abs()), FreeOp(side, entity), Abs())
    {
      if entity < 0 || Handles(side).Length <= entity {
        return;
      }
      ghost var before := Abs();
      var slot := Handles(side)[entity];
      assert slot == Of(before, side).handle[entity];
      if slot == 0 {
        return;
      }
      Handles(side)[entity] := 0;
      ClearOwnership(slot, side);
      var owned := SlotIsOwned(slot);
      if !owned {
        FreeDObj(slot);
      }
      assert Abs() == Drop(before, side, entity);
      DropKeeps(before, side, entity);
    }

    /** Com_MirrorServerDObjsToClient. */
    method MirrorServerDObjsToClient()
      requires Valid()
      modifies this, state, clientHandles, serverHandles
      ensures Valid() && Step(old(Abs()), MirrorOp, Abs())
      ensures forall e :: 0 <= e < SERVER_HANDLES ==> clientHandles[e] == serverHandles[e]
    {
      ghost var before := Abs();
      for entity := 0 to SERVER_HANDLES
        invariant Valid() && Abs() == MirrorUpTo(before, entity)
      {
        MirrorEntity(entity);
      }
      MirrorCopies(before, SERVER_HANDLES);
      assert Abs().client.handle == clientHandles[..] && Abs().server.handle == serverHandles[..];
    }

    method MirrorEntity(entity: nat)
      requires Valid() && entity < SERVER_HANDLES
      modifies this, state, clientHandles, serverHandles
      ensures Valid() && Abs() == MirrorOne(old(Abs()), entity)
    {
      ghost var before := Abs();
      MirrorOneKeeps(before, entity);
      SafeFree(Client, entity);
      var slot := serverHandles[entity];
      assert slot == before.server.handle[entity];
      clientHandles[entity] := slot;
      if slot != 0 {
        SetOwnership(slot, Client);
      }
      assert Abs() == MirrorOne(before, entity);
    }
  }

  lemma EmptyBytes(bytes: seq<bv8>)
    requires |bytes| == 256 && forall i :: 0 <= i < 256 ==> bytes[i] == 0
    ensures OwnedSet(bytes, Client) == {} && OwnedSet(bytes, Server) == {}
  {
    forall slot: nat, side | slot < SLOTS
      ensures !Holds(bytes, slot, side)
    {
      assert bytes[slot / 4] == 0;
    }
  }
}
