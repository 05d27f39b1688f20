/** The queue of client notes that one update collects: insertion by time
    fraction into a fixed buffer, and the order it hands the notes out in. */
module NotifyQueue {

  const CAPACITY: nat := 128

  /** A note, when it falls within the frame, and whom it is for. */
  datatype Entry = Entry(name: nat, notifyType: nat, timeFrac: real)

  ghost predicate Sorted(s: seq<Entry>) {
    forall i, j :: 0 <= i < j < |s| ==> s[i].timeFrac <= s[j].timeFrac
  }

  /** The entries of one time fraction, in order. */
  ghost function At(s: seq<Entry>, time: real): seq<Entry> {
    if s == [] then []
    else At(s[..|s| - 1], time) + if s[|s| - 1].timeFrac == time then [s[|s| - 1]] else []
  }

  /** Where a new entry belongs: behind everything that is not later. */
  ghost function Place(s: seq<Entry>, time: real): (p: nat)
    ensures p <= |s|
    ensures p > 0 ==> s[p - 1].timeFrac <= time
    ensures forall k :: p <= k < |s| ==> time < s[k].timeFrac
  {
    if s == [] || s[|s| - 1].timeFrac <= time then |s| else Place(s[..|s| - 1], time)
  }

  ghost function Inserted(s: seq<Entry>, e: Entry): seq<Entry> {
    var p := Place(s, e.timeFrac);
    s[..p] + [e] + s[p..]
  }

  /** What the queue holds after these arrivals. */
  ghost function Queued(arrivals: seq<Entry>): seq<Entry> {
    if arrivals == [] then [] else Inserted(Queued(arrivals[..|arrivals| - 1]), arrivals[|arrivals| - 1])
  }

  lemma {:induction false} AtAppend(a: seq<Entry>, b: seq<Entry>, time: real)
    ensures At(a + b, time) == At(a, time) + At(b, time)
  {
    if b == [] {
      assert a + b == a;
    } else {
      assert (a + b)[..|a + b| - 1] == a + b[..|b| - 1];
      AtAppend(a, b[..|b| - 1], time);
    }
  }

  lemma {:induction false} AtNone(s: seq<Entry>, time: real)
    requires forall k :: 0 <= k < |s| ==> s[k].timeFrac != time
    ensures At(s, time) == []
  {
    if s != [] {
      AtNone(s[..|s| - 1], time);
    }
  }

  lemma InsertedSorts(s: seq<Entry>, e: Entry)
    requires Sorted(s)
    ensures Sorted(Inserted(s, e))
  {
  }

  /** A new entry comes last among those of its time and disturbs no other time. */
  lemma InsertedAt(s: seq<Entry>, e: Entry, time: real)
    ensures At(Inserted(s, e), time) == At(s + [e], time)
  {
    hide At, Place;
    var p := Place(s, e.timeFrac);
    var front, back := s[..p], s[p..];
    AtAppend(s, [e], time);
    AtAppend(front + [e], back, time);
    AtAppend(front, [e], time);
    assert front + back == s;
    AtAppend(front, back, time);
    if time == e.timeFrac {
      AtNone(back, time);
    } else {
      AtNone([e], time);
    }
  }

  /** The queue is the stable sort of the arrivals by time. */
  lemma {:induction false} QueuedIsStableSort(arrivals: seq<Entry>)
    ensures Sorted(Queued(arrivals)) && |Queued(arrivals)| == |arrivals|
    ensures forall time :: At(Queued(arrivals), time) == At(arrivals, time)
  {
    if arrivals != [] {
      var before, e := arrivals[..|arrivals| - 1], arrivals[|arrivals| - 1];
      QueuedIsStableSort(before);
      InsertedSorts(Queued(before), e);
      assert before + [e] == arrivals;
      forall time ensures At(Queued(arrivals), time) == At(arrivals, time) {
        InsertedAt(Queued(before), e, time);
        AtAppend(Queued(before), [e], time);
        AtAppend(before, [e], time);
      }
    }
  }

  lemma AtCancel(a: seq<Entry>, b: seq<Entry>, x: Entry, time: real)
    requires At(a + [x], time) == At(b + [x], time)
    ensures At(a, time) == At(b, time)
  {
    hide At;
    AtAppend(a, [x], time);
    AtAppend(b, [x], time);
    var p, q, r := At(a, time), At([x], time), At(b, time);
    assert (p + q)[..|p|] == p && (r + q)[..|r|] == r;
  }

  /** No other list is sorted and keeps the arrivals of every time in order. */
  lemma {:induction false} StableSortUnique(a: seq<Entry>, b: seq<Entry>)
    requires Sorted(a) && Sorted(b) && forall time :: At(a, time) == At(b, time)
    ensures a == b
  {
    if a == [] {
      if b != [] {
        LastAt(b, b[|b| - 1].timeFrac);
      }
    } else {
      SameLast(a, b);
      var x := a[|a| - 1];
      var a', b' := a[..|a| - 1], b[..|b| - 1];
      assert a == a' + [x] && b == b' + [x];
      hide At;
      forall time ensures At(a', time) == At(b', time) {
        AtCancel(a', b', x, time);
      }
      StableSortUnique(a', b');
    }
  }

  lemma SameLast(a: seq<Entry>, b: seq<Entry>)
    requires Sorted(a) && Sorted(b) && a != [] && forall time :: At(a, time) == At(b, time)
    ensures b != [] && a[|a| - 1] == b[|b| - 1]
  {
    hide At, Sorted;
    var x := a[|a| - 1];
    LastAt(a, x.timeFrac);
    SomeAt(b, x.timeFrac);
    var y := b[|b| - 1];
    LastAt(b, y.timeFrac);
    SomeAt(a, y.timeFrac);
  }

  lemma LastAt(s: seq<Entry>, time: real)
    requires s != [] && s[|s| - 1].timeFrac == time
    ensures At(s, time) != [] && At(s, time)[|At(s, time)| - 1] == s[|s| - 1]
  {
  }

  /** A time that has entries is not after the last one of a sorted list. */
  lemma {:induction false} SomeAt(s: seq<Entry>, time: real)
    requires Sorted(s) && At(s, time) != []
    ensures s != [] && time <= s[|s| - 1].timeFrac
  {
    if s[|s| - 1].timeFrac != time {
      SomeAt(s[..|s| - 1], time);
    }
  }

  lemma GapFilled(s: seq<Entry>, e: Entry, after: seq<Entry>)
    requires |after| == |s| + 1
    requires forall k :: 0 <= k < Place(s, e.timeFrac) ==> after[k] == s[k]
    requires after[Place(s, e.timeFrac)] == e
    requires forall k {:trigger s[k]} :: Place(s, e.timeFrac) <= k < |s| ==> after[k + 1] == s[k]
    ensures after == Inserted(s, e)
  {
    hide Place;
    var p := Place(s, e.timeFrac);
    assert forall k :: p < k < |after| ==> after[k] == s[k - 1];
  }

  class Queue {
    const slots: array<Entry>
    var count: nat
    /** What arrived since the last reset. */
    ghost var arrivals: seq<Entry>

    ghost predicate Valid()
      reads this, slots
    {
      && slots.Length == CAPACITY && count == |arrivals| <= CAPACITY
      && slots[..count] == Queued(arrivals)
    }

    constructor ()
      ensures Valid() && fresh(slots) && arrivals == []
    {
      slots := new Entry[CAPACITY](_ => Entry(0, 0, 0.0));
      count, arrivals := 0, [];
    }

    /** The reset that opens an update. */
    method Reset()
      requires Valid()
      modifies this
      ensures Valid() && arrivals == []
    {
      count, arrivals := 0, [];
    }

    /** XAnimAddClientNotify: later entries move up one slot and the new one
        takes the gap; a full queue refuses it and stays as it is. */
    method Add(e: Entry) returns (ok: bool)
      requires Valid()
      modifies this, slots
      ensures Valid() && (ok <==> |old(arrivals)| < CAPACITY)
      ensures arrivals == if ok then old(arrivals) + [e] else old(arrivals)
      ensures !ok ==> slots[..] == old(slots[..])
    {
      if count >= CAPACITY {
        return false;
      }
      Shift(e);
      arrivals := arrivals + [e];
      count := count + 1;
      assert arrivals[..count - 1] == old(arrivals);
      return true;
    }

    /** The shifting loop and the store. */
    method Shift(e: Entry)
      requires count < slots.Length
      modifies slots
      ensures slots[..count + 1] == Inserted(old(slots[..count]), e)
    {
      hide Place, Inserted;
      ghost var s := slots[..count];
      ghost var p := Place(s, e.timeFrac);
      var i: int := count - 1;
      while i >= 0 && e.timeFrac < slots[i].timeFrac
        invariant p - 1 <= i < count
        invariant forall k :: 0 <= k <= i ==> slots[k] == s[k]
        invariant forall k {:trigger s[k]} :: i < k < count ==> slots[k + 1] == s[k]
      {
        slots[i + 1] := slots[i];
        i := i - 1;
      }
      assert i + 1 == p;
      slots[i + 1] := e;
      GapFilled(s, e, slots[..count + 1]);
    }
  }
}
