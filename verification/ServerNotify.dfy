/** Delivery of server notetracks for a leaf animation: window by window, across
    the loop point, each crossed note exactly once. */
module ServerNotify {
  import opened Outcomes
  import opened Words

  datatype Note = Note(name: nat, time: real)

  /** Notes in time order, closed by the end note at time one, as ReadNoteTracks
      builds them from a time-sorted file. */
  ghost predicate ValidNotes(notes: seq<Note>) {
    && 1 <= |notes| && notes[|notes| - 1].time == 1.0
    && (forall i :: 0 <= i < |notes| ==> 0.0 <= notes[i].time <= 1.0)
    && forall i, j :: 0 <= i < j < |notes| ==> notes[i].time <= notes[j].time
  }

  /** The first note at or after a time. */
  ghost function Next(notes: seq<Note>, time: real): (r: nat)
    requires ValidNotes(notes) && time <= 1.0
    ensures r < |notes| && time <= notes[r].time
    ensures forall i :: 0 <= i < r ==> notes[i].time < time
  {
    NextFrom(notes, time, 0)
  }

  ghost function NextFrom(notes: seq<Note>, time: real, i: nat): (r: nat)
    requires ValidNotes(notes) && time <= 1.0 && i < |notes|
    requires forall k :: 0 <= k < i ==> notes[k].time < time
    ensures i <= r < |notes| && time <= notes[r].time
    ensures forall k :: 0 <= k < r ==> notes[k].time < time
    decreases |notes| - i
  {
    if time <= notes[i].time then i else NextFrom(notes, time, i + 1)
  }

  /** XAnimGetNextNotifyTime, for any list: the earliest note at or after the
      time and below two, the first of them in file order. */
  method GetNextNotifyTime(notes: seq<Note>, time: real) returns (best: Option<nat>)
    ensures best.None? ==> forall i :: 0 <= i < |notes| ==> !(time <= notes[i].time < 2.0)
    ensures best.Some? ==> best.value < |notes| && time <= notes[best.value].time < 2.0
    ensures best.Some? ==> forall i :: 0 <= i < |notes| && time <= notes[i].time ==>
                             notes[best.value].time <= notes[i].time
    ensures best.Some? ==> forall i :: 0 <= i < best.value && time <= notes[i].time ==>
                             notes[best.value].time < notes[i].time
  {
    best := None;
    var bestTime := 2.0;
    for k := 0 to |notes|
      invariant best.None? ==> bestTime == 2.0 && forall i :: 0 <= i < k ==> !(time <= notes[i].time < 2.0)
      invariant best.Some? ==> best.value < k && time <= notes[best.value].time == bestTime < 2.0
      invariant best.Some? ==> forall i :: 0 <= i < k && time <= notes[i].time ==> bestTime <= notes[i].time
      invariant best.Some? ==> forall i :: 0 <= i < best.value && time <= notes[i].time ==> bestTime < notes[i].time
    {
      if time <= notes[k].time && notes[k].time < bestTime {
        best, bestTime := Some(k), notes[k].time;
      }
    }
  }

  /** On sorted notes the search finds the next note. */
  lemma BestIsNext(notes: seq<Note>, time: real, best: nat)
    requires ValidNotes(notes) && time <= 1.0 && best < |notes| && time <= notes[best].time
    requires forall i :: 0 <= i < |notes| && time <= notes[i].time ==> notes[best].time <= notes[i].time
    requires forall i :: 0 <= i < best && time <= notes[i].time ==> notes[best].time < notes[i].time
    ensures best == Next(notes, time)
  {
  }

  // ----- one window -----

  /** Where a delivery loop that starts at `i` and runs while notes lie before `c` stops. */
  ghost function StopAt(notes: seq<Note>, i: nat, c: real): (j: nat)
    requires i <= |notes|
    ensures i <= j <= |notes|
    ensures forall k :: i <= k < j ==> notes[k].time < c
    ensures j < |notes| ==> notes[j].time >= c
    decreases |notes| - i
  {
    if i < |notes| && notes[i].time < c then StopAt(notes, i + 1, c) else i
  }

  datatype Delivery = Delivery(out: seq<Note>, index: nat)

  /** XAnimProcessServerNotify on a leaf for the window from `s` to `c`, whatever
      the stored index is. */
  ghost function Deliver(notes: seq<Note>, endNote: Note, index: nat, s: real, c: real): Delivery
    requires ValidNotes(notes) && index < |notes| && c <= 1.0
  {
    if s == 1.0 then Delivery([endNote], index)
    else if c < s then
      if notes[index].time < c then Delivery(notes[index..StopAt(notes, index, c)], Next(notes, c))
      else if s <= notes[index].time then
        Delivery(notes[index..] + notes[..StopAt(notes, 0, c)], Next(notes, c))
      else Delivery([], index)
    else if c == 1.0 then
      if s <= notes[index].time then Delivery(notes[index..], index) else Delivery([], index)
    else if notes[index].time < c && s <= notes[index].time then
      Delivery(notes[index..StopAt(notes, index, c)], Next(notes, c))
    else Delivery([], index)
  }

  /** Everything delivered from the start of cycle 0 up to a position, in order. */
  ghost function Upto(notes: seq<Note>, cycles: nat, i: nat): seq<Note>
    requires i <= |notes|
  {
    Rounds(notes, cycles) + notes[..i]
  }

  ghost function Rounds(notes: seq<Note>, cycles: nat): seq<Note> {
    if cycles == 0 then [] else Rounds(notes, cycles - 1) + notes
  }

  lemma StopIsNext(notes: seq<Note>, i: nat, c: real)
    requires ValidNotes(notes) && c <= 1.0 && i <= Next(notes, c)
    ensures StopAt(notes, i, c) == Next(notes, c)
  {
  }

  lemma NextMonotone(notes: seq<Note>, s: real, c: real)
    requires ValidNotes(notes) && s <= c <= 1.0
    ensures Next(notes, s) <= Next(notes, c)
  {
  }

  lemma WithinCycle(r: seq<Note>, notes: seq<Note>, i: nat, j: nat)
    requires i <= j <= |notes|
    ensures r + notes[..i] + notes[i..j] == r + notes[..j]
  {
  }

  lemma AcrossLoop(r: seq<Note>, notes: seq<Note>, i: nat, j: nat)
    requires i <= |notes| && j <= |notes|
    ensures r + notes[..i] + (notes[i..] + notes[..j]) == (r + notes) + notes[..j]
  {
  }

  /** With a current index, one window continues the sequence by exactly the
      crossed notes, whether or not it passes the loop point. */
  lemma WindowContinues(notes: seq<Note>, endNote: Note, cycles: nat, s: real, c: real)
    requires ValidNotes(notes) && 0.0 <= s < 1.0 && 0.0 <= c < 1.0
    ensures
      var r := Deliver(notes, endNote, Next(notes, s), s, c);
      r.index == Next(notes, c) &&
      Upto(notes, cycles, Next(notes, s)) + r.out == Upto(notes, if c < s then cycles + 1 else cycles, r.index)
  {
    var i, j := Next(notes, s), Next(notes, c);
    if c < s {
      StopIsNext(notes, 0, c);
      AcrossLoop(Rounds(notes, cycles), notes, i, j);
    } else {
      NextMonotone(notes, s, c);
      WithinCycle(Rounds(notes, cycles), notes, i, j);
      if notes[i].time < c {
        StopIsNext(notes, i, c);
      } else {
        assert i == j;
      }
    }
  }

  /** An animation that stops delivers the rest of its notes with the window that
      reaches the end, and the end note with every window after it. */
  lemma StopsWithEnd(notes: seq<Note>, endNote: Note, s: real, c: real)
    requires ValidNotes(notes) && 0.0 <= s < 1.0 && c <= 1.0
    ensures
      var last := Deliver(notes, endNote, Next(notes, s), s, 1.0);
      var after := Deliver(notes, endNote, last.index, 1.0, c);
      last.out + after.out == notes[Next(notes, s)..] + [endNote] && after.index == last.index == Next(notes, s)
  {
  }

  /** A stale index before the window silences it, and stays stale. */
  lemma StaleIndexSilences(notes: seq<Note>, endNote: Note, index: nat, s: real, c: real)
    requires ValidNotes(notes) && index < |notes| && notes[index].time < s <= c < 1.0
    ensures Deliver(notes, endNote, index, s, c) == Delivery([], index)
  {
  }

  /** Whatever the stored index is, a window inside a cycle delivers the crossed
      notes if and only if the index names the next note or none is crossed. */
  lemma WindowRightIff(notes: seq<Note>, endNote: Note, index: nat, s: real, c: real)
    requires ValidNotes(notes) && index < |notes| && 0.0 <= s <= c < 1.0
    ensures Next(notes, s) <= Next(notes, c)
    ensures Deliver(notes, endNote, index, s, c).out == notes[Next(notes, s)..Next(notes, c)] <==>
            index == Next(notes, s) || Next(notes, s) == Next(notes, c)
  {
    var i, j := Next(notes, s), Next(notes, c);
    NextMonotone(notes, s, c);
    if notes[index].time < c && s <= notes[index].time {
      StopIsNext(notes, index, c);
      assert |notes[index..j]| == j - index;
    }
  }

  /** A window through the loop point does so if and only if the index names the next note. */
  lemma LoopRightIff(notes: seq<Note>, endNote: Note, index: nat, s: real, c: real)
    requires ValidNotes(notes) && index < |notes| && 0.0 <= c < s < 1.0
    ensures Deliver(notes, endNote, index, s, c).out == notes[Next(notes, s)..] + notes[..Next(notes, c)] <==>
            index == Next(notes, s)
  {
    var i, j := Next(notes, s), Next(notes, c);
    StopIsNext(notes, 0, c);
    var right := notes[i..] + notes[..j];
    assert |right| == |notes| - i + j;
    if notes[index].time < c {
      StopIsNext(notes, index, c);
      assert |notes[index..j]| == j - index < |right|;
    } else if s <= notes[index].time {
      assert |notes[index..] + notes[..j]| == |notes| - index + j;
    }
  }

  // ----- the leaf and its time -----

  /** The server lane of a leaf. Cycle counters are signed 16-bit. */
  datatype Leaf = Leaf(time: real, cycle: int, oldTime: real, oldCycle: int, index: nat)

  lemma WholeTurns(x: real, t: real, turns: int)
    requires 0.0 <= t < 1.0 && x == t + turns as real
    ensures x.Floor == turns
  {
  }

  /** The time of a looped leaf after a step from the start of the frame. */
  ghost function TimeAfter(l: Leaf, step: real): real {
    (l.oldTime + step) - (l.oldTime + step).Floor as real
  }

  ghost function CycleAfter(l: Leaf, step: real): int {
    Wrap16(l.oldCycle + (l.oldTime + step).Floor)
  }

  /** The window is accepted only if it does not move back. */
  ghost predicate Accepted(l: Leaf, step: real) {
    l.time - TimeAfter(l, step) <= (CycleAfter(l, step) - l.cycle) as real
  }

  ghost predicate ValidLeaf(l: Leaf) {
    && 0.0 <= l.time < 1.0 && 0.0 <= l.oldTime < 1.0
    && -32768 <= l.oldCycle <= 32767 && -32768 <= l.cycle <= 32767
  }

  /** The stored index names the next note. */
  ghost predicate IndexCurrent(notes: seq<Note>, l: Leaf)
    requires ValidNotes(notes) && ValidLeaf(l)
  {
    l.index == Next(notes, l.time)
  }

  datatype Step = Frame | Window(step: real) | SetTime(time: real)

  datatype Track = Track(leaf: Leaf, out: seq<Note>)

  /** A frame start stamps the old position; a window moves the leaf; setting the
      time moves it too, and leaves the note index alone. */
  ghost function Apply(notes: seq<Note>, endNote: Note, t: Track, e: Step): Track
    requires ValidNotes(notes) && ValidLeaf(t.leaf) && t.leaf.index < |notes|
  {
    var l := t.leaf;
    match e
    case Frame => Track(l.(oldTime := l.time, oldCycle := l.cycle), t.out)
    case Window(step) =>
      if Accepted(l, step) then
        var c := TimeAfter(l, step);
        var r := Deliver(notes, endNote, l.index, l.time, c);
        Track(l.(time := c, cycle := CycleAfter(l, step), index := r.index), t.out + r.out)
      else t
    case SetTime(time) => Track(Leaf(time, 0, time, 0, l.index), t.out)
  }

  /** Setting the time keeps the index current if and only if it happens to name
      the next note after the new time too. */
  lemma SetTimeCurrentIff(notes: seq<Note>, endNote: Note, t: Track, time: real)
    requires ValidNotes(notes) && ValidLeaf(t.leaf) && t.leaf.index < |notes| && 0.0 <= time < 1.0
    ensures ValidLeaf(Apply(notes, endNote, t, SetTime(time)).leaf)
    ensures IndexCurrent(notes, Apply(notes, endNote, t, SetTime(time)).leaf) <==> t.leaf.index == Next(notes, time)
  {
  }

  /** A leaf at the start, set to half its time and then moved past a note at
      three quarters: the note is lost. */
  lemma SetTimeLosesNote(endNote: Note)
    ensures
      var notes := [Note(1, 0.25), Note(2, 0.75), Note(3, 1.0)];
      var start := Track(Leaf(0.0, 0, 0.0, 0, 0), []);
      && ValidNotes(notes) && ValidLeaf(start.leaf) && IndexCurrent(notes, start.leaf)
      && var moved := Apply(notes, endNote, start, SetTime(0.5));
         && Next(notes, 0.5) == 1 && Next(notes, 0.875) == 2
         && Apply(notes, endNote, moved, Window(0.375)) ==
            Track(Leaf(0.875, 0, 0.5, 0, 0), [])
  {
    var notes := [Note(1, 0.25), Note(2, 0.75), Note(3, 1.0)];
    assert notes[0].time == 0.25 && notes[1].time == 0.75;
    assert (0.5 + 0.375).Floor == 0;
  }

  /** Position of the leaf, and of the target of a window, in cycles. */
  ghost function Position(l: Leaf): real {
    l.cycle as real + l.time
  }

  ghost function Target(l: Leaf, step: real): real {
    l.oldCycle as real + (l.oldTime + step)
  }

  /** The condition on a window: less than one cycle ahead of what was already
      delivered, and not before the first cycle a signed 16-bit counter can hold. */
  ghost predicate Modest(l: Leaf, e: Step) {
    && !e.SetTime?
    && (e.Window? ==> Target(l, e.step) - Position(l) < 1.0 && -32768.0 <= Target(l, e.step))
  }

  lemma TargetParts(l: Leaf, step: real)
    requires ValidLeaf(l) && -32768.0 <= Target(l, step) < 32768.0
    ensures 0.0 <= TimeAfter(l, step) < 1.0
    ensures CycleAfter(l, step) as real + TimeAfter(l, step) == Target(l, step)
    ensures -32768 <= CycleAfter(l, step) <= 32767
    ensures Accepted(l, step) <==> Position(l) <= Target(l, step)
  {
    var f := (l.oldTime + step).Floor;
    assert (l.oldCycle + f) as real <= Target(l, step) < (l.oldCycle + f) as real + 1.0;
    assert -32768 <= l.oldCycle + f <= 32767;
    assert Wrap16(l.oldCycle + f) == l.oldCycle + f;
  }

  /** A window of less than a cycle ahead is taken if and only if its target lies
      before the end of the last 16-bit cycle. */
  lemma AcceptedIff(l: Leaf, step: real)
    requires ValidLeaf(l) && 0.0 <= Target(l, step) - Position(l) < 1.0
    ensures Accepted(l, step) <==> Target(l, step) < 32768.0
  {
    if Target(l, step) < 32768.0 {
      TargetParts(l, step);
    } else {
      var f := (l.oldTime + step).Floor;
      assert (l.oldCycle + f) as real <= Target(l, step) < (l.oldCycle + f) as real + 1.0;
      assert l.oldCycle + f == 32768 && Wrap16(32768) == -32768;
    }
  }

  /** One step keeps the index current and continues the sequence. */
  lemma StepContinues(notes: seq<Note>, endNote: Note, t: Track, e: Step, base: int)
    requires ValidNotes(notes) && ValidLeaf(t.leaf) && IndexCurrent(notes, t.leaf)
    requires Modest(t.leaf, e) && base <= t.leaf.cycle
    ensures
      var t' := Apply(notes, endNote, t, e);
      ValidLeaf(t'.leaf) && IndexCurrent(notes, t'.leaf) && base <= t.leaf.cycle <= t'.leaf.cycle &&
      t.out <= t'.out &&
      Upto(notes, t.leaf.cycle - base, t.leaf.index) + t'.out[|t.out|..] ==
      Upto(notes, t'.leaf.cycle - base, t'.leaf.index)
  {
    if e.Window? {
      var l := t.leaf;
      if Target(l, e.step) >= 32768.0 {
        AcceptedIff(l, e.step);
      } else {
        TargetParts(l, e.step);
      }
      if Accepted(l, e.step) {
        var c := TimeAfter(l, e.step);
        WindowContinues(notes, endNote, l.cycle - base, l.time, c);
        assert CycleAfter(l, e.step) == if c < l.time then l.cycle + 1 else l.cycle;
      }
    }
  }

  ghost predicate ModestRun(notes: seq<Note>, endNote: Note, t: Track, es: seq<Step>)
    requires ValidNotes(notes) && ValidLeaf(t.leaf) && IndexCurrent(notes, t.leaf)
    decreases |es|
  {
    es == [] ||
    (Modest(t.leaf, es[0]) &&
     (StepContinues(notes, endNote, t, es[0], t.leaf.cycle);
      ModestRun(notes, endNote, Apply(notes, endNote, t, es[0]), es[1..])))
  }

  ghost function RunAll(notes: seq<Note>, endNote: Note, t: Track, es: seq<Step>): Track
    requires ValidNotes(notes) && ValidLeaf(t.leaf) && IndexCurrent(notes, t.leaf) && ModestRun(notes, endNote, t, es)
    decreases |es|
  {
    if es == [] then t
    else
      StepContinues(notes, endNote, t, es[0], t.leaf.cycle);
      RunAll(notes, endNote, Apply(notes, endNote, t, es[0]), es[1..])
  }

  lemma Chained(u: seq<Note>, a: seq<Note>, b: seq<Note>, c: seq<Note>)
    requires a <= b <= c
    ensures u + c[|a|..] == u + b[|a|..] + c[|b|..]
  {
    assert c[|a|..] == b[|a|..] + c[|b|..];
  }

  /** Over any run of frames and windows, what is delivered takes the sequence
      of all notes of all cycles from the starting position to the final one:
      nothing is lost, repeated or reordered, at window borders or at the loop
      point, and the stored index stays current. */
  lemma {:induction false} RunDeliversAll(notes: seq<Note>, endNote: Note, t: Track, es: seq<Step>, base: int)
    requires ValidNotes(notes) && ValidLeaf(t.leaf) && IndexCurrent(notes, t.leaf)
    requires ModestRun(notes, endNote, t, es) && base <= t.leaf.cycle
    ensures
      var t' := RunAll(notes, endNote, t, es);
      ValidLeaf(t'.leaf) && IndexCurrent(notes, t'.leaf) && base <= t'.leaf.cycle && t.out <= t'.out &&
      Upto(notes, t.leaf.cycle - base, t.leaf.index) + t'.out[|t.out|..] ==
      Upto(notes, t'.leaf.cycle - base, t'.leaf.index)
    decreases |es|
  {
    if es == [] {
      assert t.out[|t.out|..] == [];
    } else {
      StepContinues(notes, endNote, t, es[0], base);
      StepContinues(notes, endNote, t, es[0], t.leaf.cycle);
      var m := Apply(notes, endNote, t, es[0]);
      RunDeliversAll(notes, endNote, m, es[1..], base);
      ContinuesThen(notes, base, t, m, RunAll(notes, endNote, m, es[1..]));
    }
  }

  /** What was delivered from t to r continues the sequence from t's position to r's. */
  ghost predicate Continues(notes: seq<Note>, base: int, t: Track, r: Track) {
    && base <= t.leaf.cycle && base <= r.leaf.cycle && t.out <= r.out
    && t.leaf.index <= |notes| && r.leaf.index <= |notes|
    && Upto(notes, t.leaf.cycle - base, t.leaf.index) + r.out[|t.out|..] ==
       Upto(notes, r.leaf.cycle - base, r.leaf.index)
  }

  lemma ContinuesThen(notes: seq<Note>, base: int, t: Track, m: Track, r: Track)
    requires Continues(notes, base, t, m) && Continues(notes, base, m, r)
    ensures Continues(notes, base, t, r)
  {
    Chained(Upto(notes, t.leaf.cycle - base, t.leaf.index), t.out, m.out, r.out);
  }

  // ----- the exact condition -----

  lemma {:induction false} RoundsLength(notes: seq<Note>, j: nat, k: nat)
    requires j < k
    ensures |Rounds(notes, j)| + |notes| <= |Rounds(notes, k)|
  {
    if j + 1 < k {
      RoundsLength(notes, j, k - 1);
    }
  }

  /** An accepted window delivers the crossed notes if and only if it is less
      than one cycle long. */
  lemma RightIffUnderOneCycle(notes: seq<Note>, endNote: Note, l: Leaf, step: real)
    requires ValidNotes(notes) && ValidLeaf(l) && IndexCurrent(notes, l)
    requires -32768.0 <= Target(l, step) < 32768.0 && Position(l) <= Target(l, step)
    ensures
      var l' := Apply(notes, endNote, Track(l, []), Window(step)).leaf;
      var out := Apply(notes, endNote, Track(l, []), Window(step)).out;
      ValidLeaf(l') && l.cycle <= l'.cycle &&
      (Upto(notes, 0, l.index) + out == Upto(notes, l'.cycle - l.cycle, Next(notes, l'.time))
       <==> Target(l, step) - Position(l) < 1.0)
  {
    hide Deliver, Next, Upto, Wrap16;
    TargetParts(l, step);
    var c := TimeAfter(l, step);
    var k := CycleAfter(l, step) - l.cycle;
    WindowContinues(notes, endNote, 0, l.time, c);
    var out := Deliver(notes, endNote, l.index, l.time, c).out;
    var right := Upto(notes, if c < l.time then 1 else 0, Next(notes, c));
    assert Apply(notes, endNote, Track(l, []), Window(step)).out == out;
    if k > (if c < l.time then 1 else 0) {
      MoreRounds(notes, if c < l.time then 1 else 0, k, Next(notes, c));
    }
  }

  lemma MoreRounds(notes: seq<Note>, j: nat, k: nat, i: nat)
    requires j < k && i <= |notes| && notes != []
    ensures Upto(notes, j, i) != Upto(notes, k, i)
  {
    RoundsLength(notes, j, k);
    assert |Upto(notes, j, i)| < |Upto(notes, k, i)|;
  }

  /** Past the last cycle a window leaves everything as it was. */
  lemma LastCycleRefuses(notes: seq<Note>, endNote: Note, t: Track, step: real)
    requires ValidNotes(notes) && ValidLeaf(t.leaf) && t.leaf.index < |notes|
    requires 0.0 <= Target(t.leaf, step) - Position(t.leaf) < 1.0
    ensures 32768.0 <= Target(t.leaf, step) ==> Apply(notes, endNote, t, Window(step)) == t
    ensures Target(t.leaf, step) < 32768.0 ==>
              Position(Apply(notes, endNote, t, Window(step)).leaf) == Target(t.leaf, step)
  {
    AcceptedIff(t.leaf, step);
    if Target(t.leaf, step) < 32768.0 {
      TargetParts(t.leaf, step);
    }
  }

  // ----- the code, in place -----

  class ServerLeaf {
    var time: real
    var cycle: int
    var oldTime: real
    var oldCycle: int
    var index: nat
    var log: seq<Note>

    ghost function State(): Track
      reads this
    {
      Track(Leaf(time, cycle, oldTime, oldCycle, index), log)
    }

    /** The loop shared by all delivery branches. */
    method Emit(notes: seq<Note>, from: nat, c: real, all: bool)
      requires from <= |notes|
      modifies this`log
      ensures log == old(log) + (if all then notes[from..] else notes[from..StopAt(notes, from, c)])
    {
      var i := from;
      ghost var stop := if all then |notes| else StopAt(notes, from, c);
      while i < |notes| && (all || notes[i].time < c)
        invariant from <= i <= stop
        invariant log == old(log) + notes[from..i]
      {
        log := log + [notes[i]];
        assert notes[from..i] + [notes[i]] == notes[from..i + 1];
        i := i + 1;
      }
    }

    method Refresh(notes: seq<Note>, c: real)
      requires ValidNotes(notes) && c <= 1.0
      modifies this`index
      ensures index == Next(notes, c)
    {
      var best := GetNextNotifyTime(notes, c);
      assert c <= notes[|notes| - 1].time;
      BestIsNext(notes, c, best.value);
      index := best.value;
    }

    /** XAnimProcessServerNotify on a leaf with a notify name. */
    method ProcessServerNotify(notes: seq<Note>, endNote: Note, s: real, c: real)
      requires ValidNotes(notes) && index < |notes| && c <= 1.0
      modifies this`log, this`index
      ensures log == old(log) + Deliver(notes, endNote, old(index), s, c).out
      ensures index == Deliver(notes, endNote, old(index), s, c).index
    {
      if s == 1.0 {
        log := log + [endNote];
        return;
      }
      var here := notes[index].time;
      if c < s {
        if here < c {
          Emit(notes, index, c, false);
          Refresh(notes, c);
        } else if s <= here {
          Emit(notes, index, c, true);
          Emit(notes, 0, c, false);
          Refresh(notes, c);
        }
      } else if c == 1.0 {
        if s <= here {
          Emit(notes, index, c, true);
        }
      } else if here < c && s <= here {
        Emit(notes, index, c, false);
        Refresh(notes, c);
      }
    }

    /** The frame stamp of XAnimUpdateServerInfoSyncInternal. */
    method BeginFrame(ghost notes: seq<Note>, ghost endNote: Note)
      requires ValidNotes(notes) && ValidLeaf(State().leaf) && index < |notes|
      modifies this`oldTime, this`oldCycle
      ensures State() == Apply(notes, endNote, old(State()), Frame)
    {
      oldTime, oldCycle := time, cycle;
    }

    /** XAnimSetTime on a server leaf: the note index is not looked up again. */
    method SetServerTime(ghost notes: seq<Note>, ghost endNote: Note, t: real)
      requires ValidNotes(notes) && ValidLeaf(State().leaf) && index < |notes|
      modifies this`time, this`cycle, this`oldTime, this`oldCycle
      ensures State() == Apply(notes, endNote, old(State()), SetTime(t))
    {
      time, cycle, oldTime, oldCycle := t, 0, t, 0;
    }

    /** The wrap loops of the looped leaf, with 16-bit cycle arithmetic. */
    method WrapTime(step: real) returns (t: real, k: int)
      requires ValidLeaf(State().leaf)
      ensures t == TimeAfter(State().leaf, step) && k == CycleAfter(State().leaf, step)
    {
      ghost var down, up;
      t, k, down := WrapDown(oldTime + step, oldCycle);
      t, k, up := WrapUp(t, k);
      WholeTurns(oldTime + step, t, up - down);
      Wrap16Adds(oldCycle - down, up);
    }

    method WrapDown(t0: real, k0: int) returns (t: real, k: int, ghost turns: int)
      requires Wrap16(k0) == k0
      ensures 0.0 <= t && t == t0 + turns as real && k == Wrap16(k0 - turns)
    {
      t, k, turns := t0, k0, 0;
      while t < 0.0
        invariant t == t0 + turns as real && k == Wrap16(k0 - turns)
        decreases -t.Floor
      {
        t, k, turns := t + 1.0, Wrap16(k - 1), turns + 1;
      }
    }

    method WrapUp(t0: real, k0: int) returns (t: real, k: int, ghost turns: int)
      requires 0.0 <= t0 && Wrap16(k0) == k0
      ensures 0.0 <= t < 1.0 && t == t0 - turns as real && k == Wrap16(k0 + turns)
    {
      t, k, turns := t0, k0, 0;
      while 1.0 <= t
        invariant 0.0 <= t && t == t0 - turns as real && k == Wrap16(k0 + turns)
        decreases t.Floor
      {
        t, k, turns := t - 1.0, Wrap16(k + 1), turns + 1;
      }
    }

    /** The leaf branch of XAnimUpdateServerInfoInternal for a looped animation. */
    method UpdateWindow(notes: seq<Note>, endNote: Note, step: real)
      requires ValidNotes(notes) && ValidLeaf(State().leaf) && index < |notes|
      modifies this`time, this`cycle, this`index, this`log
      ensures State() == Apply(notes, endNote, old(State()), Window(step))
    {
      var t, k := WrapTime(step);
      if time - t <= (k - cycle) as real {
        ProcessServerNotify(notes, endNote, time, t);
        time, cycle := t, k;
      }
    }
  }
}
