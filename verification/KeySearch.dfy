/** Sparse animation keys: what the bounded loader accepts, and the seeded
    search that samples them without further checks. */
module KeySearch {

  import opened Bytes
  import opened Outcomes

  const SMALL_KEY_LIMIT: nat := 256

  // ----- the search -----

  /** Strictly increasing from zero. */
  ghost predicate ValidKeys(keys: seq<nat>) {
    1 <= |keys| && keys[0] == 0 && forall i, j :: 0 <= i < j < |keys| ==> keys[i] < keys[j]
  }

  ghost predicate Brackets(keys: seq<nat>, i: int, target: int) {
    0 <= i && i + 1 < |keys| && keys[i] <= target < keys[i + 1]
  }

  /** At most one interval contains a target. */
  lemma BracketUnique(keys: seq<nat>, i: int, j: int, target: int)
    requires ValidKeys(keys) && Brackets(keys, i, target) && Brackets(keys, j, target)
    ensures i == j
  {
  }

  /** The reference: walk the keys from the front. */
  function LinearScan(keys: seq<nat>, target: int, i: nat): (r: nat)
    requires i + 1 < |keys|
    decreases |keys| - i
  {
    if i + 2 == |keys| || target < keys[i + 1] then i else LinearScan(keys, target, i + 1)
  }

  lemma {:induction false} LinearScanBrackets(keys: seq<nat>, target: nat, i: nat)
    requires ValidKeys(keys) && i + 1 < |keys| && keys[i] <= target < keys[|keys| - 1]
    ensures Brackets(keys, LinearScan(keys, target, i), target)
    decreases |keys| - i
  {
    if !(i + 2 == |keys| || target < keys[i + 1]) {
      LinearScanBrackets(keys, target, i + 1);
    }
  }

  /** XAnimFindByteKey and XAnimFindShortKey, the same graph for both widths.
      `last` is the index of the last key, `seed` the truncated product of the
      time fraction and `last`; rounding may push it up to `last` itself. */
  method FindKey(keys: seq<nat>, last: nat, seed: nat, target: nat) returns (r: nat)
    requires ValidKeys(keys) && last + 1 == |keys| && seed <= last && target < keys[last]
    ensures Brackets(keys, r, target) && r == LinearScan(keys, target, 0)
  {
    if target < keys[seed] {
      r := SearchBelow(keys, seed, target);
    } else if keys[seed + 1] <= target {
      r := SearchAbove(keys, last, seed + 1, target);
    } else {
      r := seed;
    }
    LinearScanBrackets(keys, target, 0);
    BracketUnique(keys, r, LinearScan(keys, target, 0), target);
  }

  /** The branch for a seed past the target. */
  method SearchBelow(keys: seq<nat>, seed: nat, target: nat) returns (index: nat)
    requires ValidKeys(keys) && seed < |keys| && target < keys[seed]
    ensures Brackets(keys, index, target)
  {
    var low, count := 0, seed;
    index := seed;
    while target < keys[index]
      invariant 0 <= low <= index < |keys| && index <= count < |keys|
      invariant keys[low] <= target < keys[count]
      invariant keys[index] <= target ==> index + 1 == count
      decreases count - low, if target < keys[index] then 1 else 0
    {
      count := index;
      index := (low + count) / 2;
      while target < keys[index]
        invariant 0 <= low <= index < count < |keys|
        invariant keys[low] <= target < keys[count]
        decreases count - low
      {
        count := index;
        index := (low + count) / 2;
      }
      if target < keys[index + 1] {
        return;
      }
      low := index + 1;
      index := count - 1;
    }
  }

  /** The branch for a seed before the target's interval. */
  method SearchAbove(keys: seq<nat>, last: nat, from: nat, target: nat) returns (low: nat)
    requires ValidKeys(keys) && last + 1 == |keys| && from <= last && keys[from] <= target < keys[last]
    ensures Brackets(keys, low, target)
  {
    low := 0;
    var count: nat, scan: nat, again := last, from, true;
    while again
      invariant count < |keys| && target < keys[count]
      invariant again ==> scan < count && keys[scan] <= target
      invariant !again ==> Brackets(keys, low, target)
      decreases if again then count - scan + 1 else 0
    {
      low := scan;
      scan := (low + count) / 2;
      while keys[scan] <= target
        invariant low <= scan < count && keys[low] <= target
        decreases count - low, if keys[scan] <= target then 1 else 0
      {
        if target < keys[scan + 1] {
          return scan;
        }
        low := scan + 1;
        scan := (low + count) / 2;
      }
      count := scan;
      scan := low + 1;
      again := keys[low + 1] <= target;
    }
  }

  // ----- the bounded loader -----

  /** xanim_load_key_value: byte or little-endian short keys. */
  function KeyAt(bytes: seq<Byte>, i: nat, small: bool): nat
    requires if small then i < |bytes| else 2 * i + 1 < |bytes|
  {
    if small then bytes[i] else Word(bytes[2 * i], bytes[2 * i + 1])
  }

  function KeyBytes(count: nat, small: bool): nat {
    if small then count else 2 * count
  }

  ghost function Keys(bytes: seq<Byte>, count: nat, small: bool): (r: seq<nat>)
    requires |bytes| == KeyBytes(count, small)
    ensures |r| == count && forall i :: 0 <= i < count ==> r[i] == KeyAt(bytes, i, small)
  {
    seq(count, i requires 0 <= i < count => KeyAt(bytes, i, small))
  }

  /** What the search needs: increasing from zero to the final frame. */
  ghost predicate Covering(keys: seq<nat>, total: nat) {
    ValidKeys(keys) && keys[|keys| - 1] == total - 1
  }

  /** xanim_load_validate_keys accepts exactly the key lists the search can handle. */
  method ValidateKeys(bytes: seq<Byte>, count: nat, total: nat, small: bool) returns (ok: bool)
    requires count >= 1 && total >= 1 && |bytes| == KeyBytes(count, small)
    ensures ok <==> Covering(Keys(bytes, count, small), total)
  {
    ghost var keys := Keys(bytes, count, small);
    var previous := KeyAt(bytes, 0, small);
    if previous != 0 {
      return false;
    }
    for index := 1 to count
      invariant previous == keys[index - 1]
      invariant forall i, j :: 0 <= i < j < index ==> keys[i] < keys[j]
    {
      var current := KeyAt(bytes, index, small);
      if current <= previous {
        return false;
      }
      previous := current;
    }
    return previous == total - 1;
  }

  /** A parsed stream: nothing, one inline frame, or frames with the key bytes
      that are stored when not every frame has one. */
  datatype Stream = NoStream | Inline(frame: seq<Byte>) | Multi(keyBytes: seq<Byte>, frames: seq<seq<Byte>>)

  ghost predicate ValidStream(s: Stream, total: nat, small: bool) {
    s.Multi? ==>
      && 2 <= |s.frames| <= total
      && (|s.frames| < total ==>
            && |s.keyBytes| == KeyBytes(|s.frames|, small)
            && Covering(Keys(s.keyBytes, |s.frames|, small), total))
  }

  /** The rotation and translation stream parsers: a frame is `size` bytes. */
  method ParseStream(cursor: Cursor, total: nat, small: bool, size: nat) returns (r: Result<Stream>)
    requires cursor.Valid() && total >= 1
    modifies cursor`pos
    ensures cursor.Valid() && old(cursor.pos) <= cursor.pos
    ensures r.Ok? <==> Parses(cursor.data, old(cursor.pos), total, small, size)
    ensures r.Ok? ==> ValidStream(r.value, total, small)
    ensures r.Ok? ==> Consumed(cursor.data, old(cursor.pos), cursor.pos, r.value, size)
  {
    var ok, head := cursor.Take(2);
    if !ok {
      return Error;
    }
    var count := Word(head[0], head[1]);
    if count > total {
      return Error;
    }
    if count == 0 {
      return Ok(NoStream);
    }
    if count == 1 {
      var frame;
      ok, frame := cursor.Take(size);
      return if ok then Ok(Inline(frame)) else Error;
    }
    r := ParseMulti(cursor, count, total, small, size);
  }

  /** The parsers' branch for several frames. */
  method ParseMulti(cursor: Cursor, count: nat, total: nat, small: bool, size: nat) returns (r: Result<Stream>)
    requires cursor.Valid() && 2 <= count <= total
    modifies cursor`pos
    ensures cursor.Valid() && old(cursor.pos) <= cursor.pos
    ensures r.Ok? <==> ParsesMulti(cursor.data, old(cursor.pos), count, total, small, size)
    ensures r.Ok? ==> ValidStream(r.value, total, small) && r.value.Multi? && |r.value.frames| == count
    ensures r.Ok? ==> ConsumedMulti(cursor.data, old(cursor.pos), cursor.pos, r.value, size)
  {
    var ok, keyBytes: seq<Byte> := true, [];
    if count < total {
      ok, keyBytes := cursor.Take(KeyBytes(count, small));
      if !ok {
        return Error;
      }
      ok := ValidateKeys(keyBytes, count, total, small);
      if !ok {
        return Error;
      }
    }
    var frames;
    ok, frames := ReadFrames(cursor, count, size);
    return if ok then Ok(Multi(keyBytes, frames)) else Error;
  }

  /** The frame loop of the stream parsers. */
  method ReadFrames(cursor: Cursor, count: nat, size: nat) returns (ok: bool, frames: seq<seq<Byte>>)
    requires cursor.Valid()
    modifies cursor`pos
    ensures cursor.Valid() && old(cursor.pos) <= cursor.pos
    ensures ok <==> FrameBytes(count, size) <= |cursor.data| - old(cursor.pos)
    ensures ok ==> |frames| == count && Slices(cursor.data, old(cursor.pos), cursor.pos, frames, size)
  {
    frames := [];
    while |frames| < count
      invariant cursor.Valid() && |frames| <= count && old(cursor.pos) <= cursor.pos
      invariant cursor.pos == old(cursor.pos) + FrameBytes(|frames|, size)
      invariant Slices(cursor.data, old(cursor.pos), cursor.pos, frames, size)
      decreases count - |frames|
    {
      var frame;
      MoreFrames(|frames|, count, size);
      ok, frame := cursor.Take(size);
      if !ok {
        return;
      }
      frames := frames + [frame];
      assert frames[..|frames| - 1] + [frame] == frames;
    }
    ok := true;
  }

  function FrameBytes(count: nat, size: nat): nat {
    if count == 0 then 0 else FrameBytes(count - 1, size) + size
  }

  lemma {:induction false} MoreFrames(n: nat, count: nat, size: nat)
    requires n < count
    ensures FrameBytes(n + 1, size) == FrameBytes(n, size) + size <= FrameBytes(count, size)
  {
    if n + 1 < count {
      MoreFrames(n, count - 1, size);
    }
  }

  /** The bytes at a position that the stream parser accepts. */
  ghost predicate Parses(data: seq<Byte>, from: nat, total: nat, small: bool, size: nat) {
    && from + 2 <= |data|
    && var count := Word(data[from], data[from + 1]);
    && count <= total
    && (count == 1 ==> from + 2 + size <= |data|)
    && (2 <= count ==> ParsesMulti(data, from + 2, count, total, small, size))
  }

  ghost predicate ParsesMulti(data: seq<Byte>, from: nat, count: nat, total: nat, small: bool, size: nat)
  {
    if count < total then
      var frames := from + KeyBytes(count, small);
      && frames + FrameBytes(count, size) <= |data|
      && Covering(Keys(data[from..frames], count, small), total)
    else
      from + FrameBytes(count, size) <= |data|
  }

  /** The bytes between two positions are these frames, one after another. */
  ghost predicate Slices(data: seq<Byte>, from: nat, to: nat, frames: seq<seq<Byte>>, size: nat)
    decreases |frames|
  {
    && from <= to <= |data|
    && if frames == [] then from == to
       else
         && from + size <= to
         && frames[|frames| - 1] == data[to - size..to]
         && Slices(data, from, to - size, frames[..|frames| - 1], size)
  }

  /** A parse reads exactly the count word, the keys and the frames. */
  ghost predicate Consumed(data: seq<Byte>, from: nat, to: nat, s: Stream, size: nat) {
    && from + 2 <= to <= |data|
    && Word(data[from], data[from + 1]) ==
       (match s case NoStream => 0 case Inline(_) => 1 case Multi(_, frames) => |frames|)
    && match s
       case NoStream => to == from + 2
       case Inline(frame) => to == from + 2 + size && frame == data[from + 2..to]
       case Multi(_, _) => ConsumedMulti(data, from + 2, to, s, size)
  }

  ghost predicate ConsumedMulti(data: seq<Byte>, from: nat, to: nat, s: Stream, size: nat)
    requires s.Multi?
  {
    && from + |s.keyBytes| <= to <= |data| && s.keyBytes == data[from..from + |s.keyBytes|]
    && Slices(data, from + |s.keyBytes|, to, s.frames, size)
  }

  // ----- the evaluator -----

  /** The loader and the evaluator choose the key width from different fields of
      the record and always agree. */
  lemma WidthAgrees(total: nat)
    requires total >= 1
    ensures total <= SMALL_KEY_LIMIT <==> !(total - 1 >= SMALL_KEY_LIMIT)
  {
  }

  /** Key-interval sampling: for every stream the loader accepts and every time
      below one, the two frames exist and the position between them is the
      fraction of the interval. The keys are read with the evaluator's own width. */
  method Sample(s: Stream, total: nat, time: real, seed: nat) returns (i: nat, frac: real)
    requires s.Multi? && ValidStream(s, total, total <= SMALL_KEY_LIMIT) && 0.0 <= time < 1.0
    requires seed <= |s.frames| - 1
    ensures i + 1 < |s.frames| && 0.0 <= frac < 1.0
    ensures |s.frames| == total ==> i as real + frac == time * (total - 1) as real
    ensures |s.frames| < total ==> Between(StreamKeys(s, total), i, time * (total - 1) as real, frac)
  {
    var frameTime := FrameTime(time, total - 1);
    var rounded: nat := frameTime.Floor;
    if |s.frames| < total {
      i, frac := SampleKeys(s, total, frameTime, rounded, seed);
    } else {
      i := rounded;
      frac := frameTime - rounded as real;
    }
  }

  ghost function StreamKeys(s: Stream, total: nat): (keys: seq<nat>)
    requires s.Multi? && ValidStream(s, total, total <= SMALL_KEY_LIMIT) && |s.frames| < total
    ensures |keys| == |s.frames| && Covering(keys, total)
  {
    Keys(s.keyBytes, |s.frames|, total <= SMALL_KEY_LIMIT)
  }

  /** The time lies in interval i and divides it in this proportion. */
  ghost predicate Between(keys: seq<nat>, i: nat, t: real, frac: real) {
    && i + 1 < |keys| && keys[i] as real <= t < keys[i + 1] as real
    && Divides(t, keys[i] as real, keys[i + 1] as real, frac)
  }

  ghost predicate Divides(t: real, a: real, b: real, frac: real) {
    a + frac * (b - a) == t
  }

  method SampleKeys(s: Stream, total: nat, frameTime: real, rounded: nat, seed: nat) returns (i: nat, frac: real)
    requires s.Multi? && ValidStream(s, total, total <= SMALL_KEY_LIMIT) && |s.frames| < total
    requires seed <= |s.frames| - 1 && rounded < total - 1 && rounded == frameTime.Floor
    ensures i + 1 < |s.frames| && 0.0 <= frac < 1.0
    ensures Between(StreamKeys(s, total), i, frameTime, frac)
  {
    WidthAgrees(total);
    var keys := ReadKeys(s.keyBytes, |s.frames|, total - 1 >= SMALL_KEY_LIMIT);
    assert keys == StreamKeys(s, total);
    i := FindKey(keys, |s.frames| - 1, seed, rounded);
    frac := Fraction(frameTime, keys[i], keys[i + 1]);
  }

  /** The evaluator's view of the key bytes. */
  function ReadKeys(bytes: seq<Byte>, count: nat, useShort: bool): (r: seq<nat>)
    requires |bytes| == KeyBytes(count, !useShort)
    ensures |r| == count && forall i :: 0 <= i < count ==> r[i] == KeyAt(bytes, i, !useShort)
  {
    seq(count, i requires 0 <= i < count => KeyAt(bytes, i, !useShort))
  }

  /** The scaled time; its truncation lies below the last frame. */
  function FrameTime(time: real, frameCount: nat): (t: real)
    requires 0.0 <= time < 1.0 && frameCount >= 1
    ensures 0.0 <= t < frameCount as real
  {
    time * frameCount as real
  }

  /** The quotient of the frame-fraction helpers. */
  function Fraction(t: real, a: nat, b: nat): (f: real)
    requires a <= t.Floor < b
    ensures 0.0 <= f < 1.0 && Divides(t, a as real, b as real, f)
  {
    Proportion(t, a as real, b as real)
  }

  function Proportion(t: real, a: real, b: real): (f: real)
    requires a <= t < b
    ensures 0.0 <= f < 1.0 && Divides(t, a, b, f)
  {
    QuotientBelowOne(t - a, b - a);
    (t - a) / (b - a)
  }

  lemma QuotientBelowOne(n: real, d: real)
    requires 0.0 <= n < d
    ensures 0.0 <= n / d < 1.0 && n / d * d == n
  {
    var f := n / d;
    assert f * d == n;
  }
}
