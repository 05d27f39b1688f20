/** Packed rotations: the fourth lane recovered from the other three, and the
    pass that makes neighbouring frames lie in one hemisphere. */
module QuatDecode {

  const UNIT: int := 32767

  /** 32767 squared. */
  const UNIT_SQUARED: int := 1073676289

  predicate IsInt16(n: int) {
    -32768 <= n < 32768
  }

  predicate IsInt32(n: int) {
    -0x8000_0000 <= n < 0x8000_0000
  }

  /** The two's-complement value of the low 32 or 16 bits. */
  function Int32(n: int): int {
    (n + 0x8000_0000) % 0x1_0000_0000 - 0x8000_0000
  }

  function Int16(n: int): int {
    (n + 32768) % 65536 - 32768
  }

  // ----- the square root -----

  /** The square root rounded to the nearest integer. */
  function RoundedRoot(n: nat): (r: nat)
    ensures RootOf(n, r)
  {
    if n == 0 then 0
    else
      var r := RoundedRoot(n - 1);
      if n <= r * r + r then r else r + 1
  }

  predicate RootOf(n: nat, r: nat) {
    r * r - r < n <= r * r + r || n == r == 0
  }

  lemma RootUnique(n: nat, r: nat, s: nat)
    requires RootOf(n, r) && RootOf(n, s)
    ensures r == s
  {
    if r < s {
      RootStep(r, s);
    } else if s < r {
      RootStep(s, r);
    }
  }

  lemma RootStep(r: nat, s: nat)
    requires r < s
    ensures r * r + r <= s * s - s
  {
    assert s * s - s - r * r - r == (s - r - 1) * (s + r);
  }

  /** It is the floor of the real root plus a half. */
  lemma RootIsRounded(n: nat, root: real)
    requires root >= 0.0 && root * root == n as real
    ensures (root + 0.5).Floor == RoundedRoot(n)
  {
    var r := (root + 0.5).Floor;
    RootBelow(root, r as real);
    RealSquare(r);
    if r > 0 {
      RootAbove(root, r as real);
    }
    RootUnique(n, r, RoundedRoot(n));
  }

  lemma {:induction false} RealSquare(r: nat)
    ensures (r * r) as real == (r as real) * (r as real)
  {
    if r > 0 {
      RealSquare(r - 1);
      assert r * r == (r - 1) * (r - 1) + 2 * r - 1;
      var x := (r - 1) as real;
      assert r as real == x + 1.0;
      assert (x + 1.0) * (x + 1.0) == x * x + 2.0 * x + 1.0;
    }
  }

  lemma RootBelow(root: real, r: real)
    requires root >= 0.0 && r >= 0.0 && root < r + 0.5
    ensures root * root < r * r + r + 0.25
  {
    SquaresOrdered(root, r + 0.5);
    assert (r + 0.5) * (r + 0.5) == r * r + r + 0.25;
  }

  lemma RootAbove(root: real, r: real)
    requires r >= 1.0 && r - 0.5 <= root
    ensures r * r - r + 0.25 <= root * root
  {
    if r - 0.5 < root {
      SquaresOrdered(r - 0.5, root);
    }
    assert (r - 0.5) * (r - 0.5) == r * r - r + 0.25;
  }

  lemma SquaresOrdered(a: real, b: real)
    requires 0.0 <= a < b
    ensures a * a < b * b
  {
    var sum, gap := a + b, b - a;
    TimesOrdered(gap, 0.0, sum);
    assert gap * sum == b * b - a * a;
  }

  lemma TimesOrdered(c: real, a: real, b: real)
    requires 0.0 <= c && a <= b
    ensures c * a <= c * b && (0.0 < c && a < b ==> c * a < c * b)
  {
  }

  // ----- decoding -----

  datatype Quat = Quat(x: int, y: int, z: int, w: int)

  function Squares(x: int, y: int, z: int): int {
    x * x + y * y + z * z
  }

  /** ReadQuat: the squares are subtracted in 32 unsigned bits and the rest is
      read back as a signed number. */
  function LastLane(x: int, y: int, z: int): int {
    var remaining := Int32(UNIT_SQUARED - Squares(x, y, z));
    if remaining > 0 then Int16(RoundedRoot(remaining)) else 0
  }

  function Decode(x: int, y: int, z: int): Quat {
    Quat(x, y, z, LastLane(x, y, z))
  }

  lemma LaneSquare(a: int, m: int)
    requires -m <= a <= m
    ensures 0 <= a * a <= m * m
  {
    if a >= 0 {
      assert (m - a) * (m + a) >= 0;
    } else {
      assert (m + a) * (m - a) >= 0;
    }
  }

  /** The subtraction wraps for one input only: all three lanes at the minimum. */
  lemma WrapsOnlyAtMinimum(x: int, y: int, z: int)
    requires IsInt16(x) && IsInt16(y) && IsInt16(z)
    ensures !IsInt32(UNIT_SQUARED - Squares(x, y, z)) <==> x == y == z == -32768
  {
    LaneSquare(x, 32768);
    LaneSquare(y, 32768);
    LaneSquare(z, 32768);
    if x != -32768 {
      LaneSquare(x, 32767);
    }
    if y != -32768 {
      LaneSquare(y, 32767);
    }
    if z != -32768 {
      LaneSquare(z, 32767);
    }
  }

  lemma LaneStep(r: int)
    requires r > UNIT
    ensures r * r - r >= UNIT_SQUARED + UNIT
  {
    assert (r - 32768) * (r + 32767) >= 0;
  }

  lemma RootRange(n: nat, r: nat)
    requires RootOf(n, r) && n <= UNIT_SQUARED
    ensures r <= UNIT
  {
    if r > UNIT {
      LaneStep(r);
    }
  }

  /** The decoded lane is the rounded root of what the others leave of the unit
      square, and zero when they leave nothing, except for the wrapping input. */
  lemma LastLaneMeaning(x: int, y: int, z: int)
    requires IsInt16(x) && IsInt16(y) && IsInt16(z)
    ensures var rest := UNIT_SQUARED - Squares(x, y, z);
            var w := LastLane(x, y, z);
            (0 <= w <= UNIT && (if rest > 0 then RootOf(rest, w) else w == 0)) <==> !(x == y == z == -32768)
  {
    WrapsOnlyAtMinimum(x, y, z);
    LaneSquare(x, 32768);
    LaneSquare(y, 32768);
    LaneSquare(z, 32768);
    var rest := UNIT_SQUARED - Squares(x, y, z);
    if x == y == z == -32768 {
      assert rest == -2147549183;
      assert RootOf(2147418113, 46340);
      RootUnique(2147418113, 46340, RoundedRoot(2147418113));
    } else if rest > 0 {
      RootRange(rest, RoundedRoot(rest));
    }
  }

  function Norm(q: Quat): int {
    q.x * q.x + q.y * q.y + q.z * q.z + q.w * q.w
  }

  /** Lanes inside the unit ball decode to a quaternion whose squared norm is
      within 32767 of the unit square. */
  lemma NormError(x: int, y: int, z: int)
    requires IsInt16(x) && IsInt16(y) && IsInt16(z) && Squares(x, y, z) <= UNIT_SQUARED
    ensures -UNIT <= Norm(Decode(x, y, z)) - UNIT_SQUARED <= UNIT
  {
    assert Squares(-32768, -32768, -32768) > UNIT_SQUARED;
    LastLaneMeaning(x, y, z);
  }

  // ----- sign continuity -----

  function Dot(p: Quat, q: Quat): int {
    p.x * q.x + p.y * q.y + p.z * q.z + p.w * q.w
  }

  /** Each lane negated and cut back to 16 bits: the minimum stays negative. */
  function Negate(q: Quat): Quat {
    Quat(Int16(-q.x), Int16(-q.y), Int16(-q.z), Int16(-q.w))
  }

  /** One step of the continuity pass. */
  function Follow(p: Quat, q: Quat): Quat {
    if Int32(Dot(p, q)) < 0 then Negate(q) else q
  }

  predicate Lanes(q: Quat) {
    IsInt16(q.x) && IsInt16(q.y) && IsInt16(q.z) && IsInt16(q.w)
  }

  predicate NoMinimum(q: Quat) {
    q.x != -32768 && q.y != -32768 && q.z != -32768 && q.w != -32768
  }

  /** Short enough for every dot product to fit. */
  predicate Short(q: Quat) {
    Lanes(q) && Norm(q) <= 0x7FFF_FFFF
  }

  lemma LanePair(a: int, b: int)
    ensures -(a * a + b * b) <= 2 * (a * b) <= a * a + b * b
  {
    assert (a - b) * (a - b) >= 0 && (a + b) * (a + b) >= 0;
    assert (a - b) * (a - b) == a * a + b * b - 2 * (a * b);
    assert (a + b) * (a + b) == a * a + b * b + 2 * (a * b);
  }

  /** No dot product of two short quaternions overflows. */
  lemma DotFits(p: Quat, q: Quat)
    requires Short(p) && Short(q)
    ensures IsInt32(Dot(p, q))
  {
    LanePair(p.x, q.x);
    LanePair(p.y, q.y);
    LanePair(p.z, q.z);
    LanePair(p.w, q.w);
  }

  function Minus(q: Quat): Quat {
    Quat(-q.x, -q.y, -q.z, -q.w)
  }

  lemma MinusNegates(p: Quat, q: Quat)
    ensures Dot(p, Minus(q)) == -Dot(p, q) && Norm(Minus(q)) == Norm(q)
  {
    assert p.x * -q.x == -(p.x * q.x) && p.y * -q.y == -(p.y * q.y);
    assert p.z * -q.z == -(p.z * q.z) && p.w * -q.w == -(p.w * q.w);
    assert -q.x * -q.x == q.x * q.x && -q.y * -q.y == q.y * q.y;
    assert -q.z * -q.z == q.z * q.z && -q.w * -q.w == q.w * q.w;
  }

  lemma NegateIsMinus(q: Quat)
    requires Lanes(q)
    ensures Negate(q) == Minus(q) <==> NoMinimum(q)
  {
  }

  ghost predicate SignOf(q: Quat, r: Quat) {
    r == q || r == Minus(q)
  }

  /** The step turns a frame into its hemisphere against every short
      predecessor if and only if no lane is the minimum. */
  lemma FollowRightIff(q: Quat)
    requires Short(q)
    ensures (forall p | Short(p) :: SignOf(q, Follow(p, q)) && Dot(p, Follow(p, q)) >= 0) <==> NoMinimum(q)
  {
    if NoMinimum(q) {
      forall p | Short(p)
        ensures SignOf(q, Follow(p, q)) && Dot(p, Follow(p, q)) >= 0
      {
        FollowRight(p, q);
      }
    } else {
      var p := if q.x == -32768 then Quat(1, 0, 0, 0) else if q.y == -32768 then Quat(0, 1, 0, 0)
               else if q.z == -32768 then Quat(0, 0, 1, 0) else Quat(0, 0, 0, 1);
      assert Short(p) && Dot(p, q) == -32768 && Dot(p, Negate(q)) == -32768;
    }
  }

  lemma FollowRight(p: Quat, q: Quat)
    requires Short(p) && Short(q) && NoMinimum(q)
    ensures SignOf(q, Follow(p, q)) && Dot(p, Follow(p, q)) >= 0
    ensures Short(Follow(p, q)) && NoMinimum(Follow(p, q))
  {
    DotFits(p, q);
    NegateIsMinus(q);
    MinusNegates(p, q);
  }

  /** The whole pass, each frame measured against its already turned predecessor. */
  function Smoothed(fs: seq<Quat>): (r: seq<Quat>)
    ensures |r| == |fs|
  {
    if |fs| <= 1 then fs
    else
      var before := Smoothed(fs[..|fs| - 1]);
      before + [Follow(before[|fs| - 2], fs[|fs| - 1])]
  }

  ghost predicate Continuous(fs: seq<Quat>) {
    forall i :: 0 < i < |fs| ==> Dot(fs[i - 1], fs[i]) >= 0
  }

  /** Every frame keeps its value up to sign, the first keeps its sign, and all
      consecutive dot products end up non-negative. */
  lemma {:induction false} SmoothedIsContinuous(fs: seq<Quat>)
    requires forall i :: 0 <= i < |fs| ==> Short(fs[i]) && NoMinimum(fs[i])
    ensures var r := Smoothed(fs);
            && Continuous(r) && (fs != [] ==> r[0] == fs[0])
            && forall i :: 0 <= i < |fs| ==> SignOf(fs[i], r[i]) && Short(r[i]) && NoMinimum(r[i])
  {
    if |fs| > 1 {
      var before := fs[..|fs| - 1];
      SmoothedIsContinuous(before);
      FollowRight(Smoothed(before)[|fs| - 2], fs[|fs| - 1]);
    }
  }

  /** The signs are forced: no other choice with the same first frame is continuous. */
  lemma {:induction false} SignsForced(fs: seq<Quat>, r: seq<Quat>, s: seq<Quat>)
    requires |r| == |s| == |fs| > 0 && r[0] == s[0] && Continuous(r) && Continuous(s)
    requires forall i :: 0 <= i < |fs| ==> SignOf(fs[i], r[i]) && SignOf(fs[i], s[i])
    requires forall i :: 0 < i < |fs| ==> Dot(fs[i - 1], fs[i]) != 0
    ensures r == s
  {
    var n := |fs| - 1;
    if n > 0 {
      SignsForced(fs[..n], r[..n], s[..n]);
      MinusNegates(r[n - 1], fs[n]);
      MinusNegates(fs[n], fs[n - 1]);
      assert r[n - 1] == s[n - 1];
      Commutes(fs[n - 1], fs[n]);
      Commutes(r[n - 1], fs[n]);
      assert r == r[..n] + [r[n]] && s == s[..n] + [s[n]];
    }
  }

  lemma Commutes(p: Quat, q: Quat)
    ensures Dot(p, q) == Dot(q, p)
  {
  }

  /** xanim_load_fix_vec4_continuity, in place. */
  method FixContinuity(frames: array<Quat>)
    modifies frames
    ensures frames[..] == Smoothed(old(frames[..]))
  {
    ghost var start := frames[..];
    var index := 1;
    while index < frames.Length
      invariant 1 <= index
      invariant index <= frames.Length ==> frames[..index] == Smoothed(start[..index])
      invariant frames.Length == 0 || index <= frames.Length
      invariant forall i :: index <= i < frames.Length ==> frames[i] == start[i]
    {
      var current, previous := frames[index], frames[index - 1];
      assert previous == frames[..index][index - 1];
      if Int32(Dot(previous, current)) < 0 {
        frames[index] := Negate(current);
      }
      assert start[..index + 1][..index] == start[..index];
      assert frames[..index + 1] == frames[..index] + [Follow(previous, current)];
      index := index + 1;
    }
    assert frames[..] == if frames.Length == 0 then [] else frames[..index];
    assert start == if frames.Length == 0 then [] else start[..index];
  }

  datatype Packed = Packed(x: int, y: int, z: int)

  /** Lanes a unit quaternion can have. */
  predicate InBall(p: Packed) {
    IsInt16(p.x) && IsInt16(p.y) && IsInt16(p.z) && Squares(p.x, p.y, p.z) <= UNIT_SQUARED
  }

  lemma DecodedIsShort(p: Packed)
    requires InBall(p)
    ensures var q := Decode(p.x, p.y, p.z);
            Short(q) && NoMinimum(q) && Short(Negate(q)) && NoMinimum(Negate(q)) && Negate(q) == Minus(q)
  {
    NormError(p.x, p.y, p.z);
    LastLaneMeaning(p.x, p.y, p.z);
    assert Squares(-32768, -32768, -32768) > UNIT_SQUARED;
    var q := Decode(p.x, p.y, p.z);
    LaneSquare(p.x, 32768);
    LaneSquare(p.y, 32768);
    LaneSquare(p.z, 32768);
    assert -32768 * -32768 > UNIT_SQUARED;
    NegateIsMinus(q);
    MinusNegates(q, q);
  }

  /** The frames of one rotation stream: decoded, the stored sign applied to the
      first frame only, and smoothed. */
  method ReadFrames(packed: seq<Packed>, negate: bool) returns (frames: array<Quat>)
    ensures fresh(frames) && frames[..] == Smoothed(SignedFrames(packed, negate))
    ensures AllInBall(packed) ==> Good(packed, negate, frames[..])
  {
    frames := DecodeFrames(packed, negate, SignedFrames(packed, negate));
    FixContinuity(frames);
    if AllInBall(packed) {
      GoodFrames(packed, negate, SignedFrames(packed, negate));
    }
  }

  method DecodeFrames(packed: seq<Packed>, negate: bool, ghost want: seq<Quat>) returns (frames: array<Quat>)
    requires AreSigned(packed, negate, want)
    ensures fresh(frames) && frames[..] == want
  {
    frames := new Quat[|packed|](_ => Quat(0, 0, 0, 0));
    for index := 0 to |packed|
      invariant forall i :: 0 <= i < index ==> frames[i] == want[i]
    {
      frames[index] := DecodeFrame(packed, negate, index, want);
    }
  }

  method DecodeFrame(packed: seq<Packed>, negate: bool, index: nat, ghost want: seq<Quat>) returns (q: Quat)
    requires index < |packed| && AreSigned(packed, negate, want)
    ensures q == want[index]
  {
    q := SignedAt(packed, negate, index);
  }

  /** Only the first frame takes the stored sign. */
  function SignedAt(packed: seq<Packed>, negate: bool, i: nat): Quat
    requires i < |packed|
  {
    Signed(packed[i], negate && i == 0)
  }

  ghost predicate AreSigned(packed: seq<Packed>, negate: bool, want: seq<Quat>) {
    && |want| == |packed|
    && forall i: nat {:trigger SignedAt(packed, negate, i)} :: i < |packed| ==> want[i] == SignedAt(packed, negate, i)
  }

  function SignedFrames(packed: seq<Packed>, negate: bool): (r: seq<Quat>)
    ensures AreSigned(packed, negate, r)
  {
    seq(|packed|, i requires 0 <= i < |packed| => SignedAt(packed, negate, i))
  }

  predicate AllInBall(packed: seq<Packed>) {
    forall i :: 0 <= i < |packed| ==> InBall(packed[i])
  }

  function Signed(p: Packed, negate: bool): Quat {
    if negate then Negate(Decode(p.x, p.y, p.z)) else Decode(p.x, p.y, p.z)
  }

  ghost predicate Good(packed: seq<Packed>, negate: bool, frames: seq<Quat>) {
    && |frames| == |packed| && Continuous(frames)
    && (packed != [] ==> frames[0] == Signed(packed[0], negate))
    && forall i :: 0 <= i < |packed| ==> Faithful(packed[i], frames[i])
  }

  /** The decoded value up to sign, almost of unit length. */
  ghost predicate Faithful(p: Packed, q: Quat) {
    SignOf(Decode(p.x, p.y, p.z), q) && -UNIT <= Norm(q) - UNIT_SQUARED <= UNIT
  }

  lemma {:induction false} GoodFrames(packed: seq<Packed>, negate: bool, read: seq<Quat>)
    requires AllInBall(packed) && read == SignedFrames(packed, negate)
    ensures Good(packed, negate, Smoothed(read))
  {
    forall i | 0 <= i < |packed|
      ensures Short(read[i]) && NoMinimum(read[i])
    {
      assert read[i] == SignedAt(packed, negate, i);
      DecodedIsShort(packed[i]);
    }
    SmoothedIsContinuous(read);
    assert packed != [] ==> read[0] == SignedAt(packed, negate, 0);
    forall i | 0 <= i < |packed|
      ensures Faithful(packed[i], Smoothed(read)[i])
    {
      assert read[i] == SignedAt(packed, negate, i);
      DecodedIsShort(packed[i]);
      var p := packed[i];
      NormError(p.x, p.y, p.z);
      MinusNegates(read[i], Decode(p.x, p.y, p.z));
    }
  }
}
