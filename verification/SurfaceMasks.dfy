/** Collecting the surfaces of a DObj: the surface list and the mask of the parts
    its surfaces use, moved from model bones to DObj parts across mask words. */
module SurfaceMasks {
  import opened Outcomes

  /** A 32-bit mask word as the set of its one bits. */
  type Word = w: set<int> | forall b :: b in w ==> 0 <= b < 32

  const WORDS: nat := 4
  const MAX_PARTS: nat := 127

  predicate IsBit(b: int) {
    0 <= b < 32
  }

  function ShiftLeft(w: Word, n: nat): Word {
    set b | 0 <= b < 32 && IsBit(b) && b - n in w
  }

  function ShiftRight(w: Word, n: nat): Word {
    set b | 0 <= b < 32 && IsBit(b) && b + n in w
  }

  /** Bit k of a mask. */
  predicate Has(mask: seq<Word>, k: int) {
    0 <= k < 32 * |mask| && k % 32 in mask[k / 32]
  }

  lemma HasAt(mask: seq<Word>, q: int, r: int)
    requires 0 <= r < 32
    ensures Has(mask, 32 * q + r) <==> 0 <= q < |mask| && r in mask[q]
  {
    assert (32 * q + r) / 32 == q && (32 * q + r) % 32 == r;
  }

  /** A model in a DObj: its bones, the part its bone 0 becomes, and per level of
      detail the bone masks of its surfaces, if that level is loaded. */
  datatype Model = Model(bones: nat, base: nat, lods: seq<Option<seq<seq<Word>>>>)

  // ----- one surface -----

  /** The model loader's check: no surface uses a bone the model lacks. */
  ghost predicate Fits(usage: seq<Word>, bones: nat) {
    |usage| == WORDS && forall k :: Has(usage, k) ==> k < bones
  }

  /** coduo_xmodel_loaded_references_fit for one surface. */
  method ReferencesFit(usage: seq<Word>, bones: nat) returns (ok: bool)
    requires |usage| == WORDS
    ensures ok <==> Fits(usage, bones)
  {
    var bone: int := bones;
    while bone < 128
      invariant bones <= bone
      invariant forall k :: bones <= k < bone ==> !Has(usage, k)
      decreases 128 - bone
    {
      if bone % 32 in usage[bone / 32] {
        assert Has(usage, bone);
        return false;
      }
      bone := bone + 1;
    }
    ok := true;
  }

  /** What a usage mask adds to one word when its bones start at a part. */
  ghost function Share(usage: seq<Word>, base: nat, i: int): Word {
    set b | 0 <= b < 32 && IsBit(b) && Has(usage, 32 * i + b - base)
  }

  /** The share of a word comes from two neighbouring usage words. */
  lemma ShareShifts(usage: seq<Word>, baseWord: nat, baseBit: nat, i: int)
    requires baseBit < 32
    ensures Share(usage, 32 * baseWord + baseBit, i) == SharePair(usage, baseBit, i - baseWord)
  {
    forall b | IsBit(b)
      ensures b in Share(usage, 32 * baseWord + baseBit, i) <==> b in SharePair(usage, baseBit, i - baseWord)
    {
      ShareBit(usage, baseWord, baseBit, i, b);
    }
  }

  /** Usage word q moved up, and what word q - 1 carries. */
  ghost function SharePair(usage: seq<Word>, baseBit: nat, q: int): Word
    requires baseBit < 32
  {
    (if 0 <= q < |usage| then ShiftLeft(usage[q], baseBit) else {}) +
    (if 0 <= q - 1 < |usage| then ShiftRight(usage[q - 1], 32 - baseBit) else {})
  }

  lemma ShareBit(usage: seq<Word>, baseWord: nat, baseBit: nat, i: int, b: int)
    requires baseBit < 32 && 0 <= b < 32
    ensures b in Share(usage, 32 * baseWord + baseBit, i) <==> b in SharePair(usage, baseBit, i - baseWord)
  {
    var q, base := i - baseWord, 32 * baseWord + baseBit;
    if b >= baseBit {
      HasAt(usage, q, b - baseBit);
      assert 32 * i + b - base == 32 * q + (b - baseBit);
    } else {
      HasAt(usage, q - 1, b - baseBit + 32);
      assert 32 * i + b - base == 32 * (q - 1) + (b - baseBit + 32);
    }
  }

  /** Words outside the model's range get nothing, so a carry past the last mask
      word is always empty. */
  lemma NoShare(usage: seq<Word>, bones: nat, base: nat, i: int)
    requires Fits(usage, bones) && (32 * i >= base + bones || 32 * i + 32 <= base)
    ensures Share(usage, base, i) == {}
  {
  }

  ghost predicate Added(before: seq<Word>, usage: seq<Word>, base: nat, from: int, to: int, after: seq<Word>) {
    && |before| == |after|
    && forall i :: 0 <= i < |before| ==>
         after[i] == before[i] + if from <= i < to then Share(usage, base, i) else {}
  }

  /** The body of the surface loop. */
  method AddSurface(bits: array<Word>, usage: seq<Word>, bones: nat, base: nat)
    requires bits.Length == WORDS && Fits(usage, bones) && 1 <= bones && base + bones <= MAX_PARTS
    modifies bits
    ensures Added(old(bits[..]), usage, base, 0, WORDS, bits[..])
  {
    var lastModelWord, baseWord, baseBit := (bones - 1) / 32, base / 32, base % 32;
    assert base == 32 * baseWord + baseBit;
    LastWordFits(base, bones);
    AddAt(bits, usage, bones, baseWord, baseBit, lastModelWord);
  }

  method AddAt(bits: array<Word>, usage: seq<Word>, bones: nat, baseWord: nat, baseBit: nat, lastModelWord: nat)
    requires bits.Length == WORDS && Fits(usage, bones) && 1 <= bones && lastModelWord == (bones - 1) / 32
    requires baseBit < 32 && baseWord + lastModelWord < WORDS
    modifies bits
    ensures Added(old(bits[..]), usage, 32 * baseWord + baseBit, 0, WORDS, bits[..])
  {
    if baseBit == 0 {
      AddAligned(bits, usage, baseWord, lastModelWord);
      Outside(old(bits[..]), usage, bones, baseWord, baseBit, bits[..], baseWord + lastModelWord + 1);
    } else {
      AddUnaligned(bits, usage, bones, baseWord, baseBit, lastModelWord);
    }
  }

  lemma LastWordFits(base: nat, bones: nat)
    requires 1 <= bones && base + bones <= MAX_PARTS
    ensures base / 32 + (bones - 1) / 32 < WORDS
  {
  }

  method AddUnaligned(bits: array<Word>, usage: seq<Word>, bones: nat, baseWord: nat, baseBit: nat,
                      lastModelWord: nat)
    requires bits.Length == WORDS && Fits(usage, bones) && 1 <= bones && lastModelWord == (bones - 1) / 32
    requires 0 < baseBit < 32 && baseWord + lastModelWord < WORDS
    modifies bits
    ensures Added(old(bits[..]), usage, 32 * baseWord + baseBit, 0, WORDS, bits[..])
  {
    AddShifted(bits, usage, baseWord, baseBit, lastModelWord);
    AddCarry(bits, old(bits[..]), usage, bones, baseWord, baseBit, lastModelWord);
    Outside(old(bits[..]), usage, bones, baseWord, baseBit, bits[..], baseWord + lastModelWord + 2);
  }

  /** OR a word into the mask. */
  method OrInto(bits: array<Word>, i: nat, word: Word, ghost start: seq<Word>, ghost usage: seq<Word>,
                ghost base: nat, ghost from: nat)
    requires from <= i < bits.Length && word == Share(usage, base, i)
    requires Added(start, usage, base, from, i, bits[..])
    modifies bits
    ensures Added(start, usage, base, from, i + 1, bits[..])
  {
    bits[i] := bits[i] + word;
  }

  method AddAligned(bits: array<Word>, usage: seq<Word>, baseWord: nat, lastModelWord: nat)
    requires bits.Length == WORDS == |usage| && baseWord + lastModelWord < WORDS
    modifies bits
    ensures Added(old(bits[..]), usage, 32 * baseWord, baseWord, baseWord + lastModelWord + 1, bits[..])
  {
    for word := 0 to lastModelWord + 1
      invariant Added(old(bits[..]), usage, 32 * baseWord, baseWord, baseWord + word, bits[..])
    {
      AlignedShifts(usage, baseWord, word);
      OrInto(bits, baseWord + word, usage[word], old(bits[..]), usage, 32 * baseWord, baseWord);
    }
  }

  lemma AlignedShifts(usage: seq<Word>, baseWord: nat, q: nat)
    requires q < |usage|
    ensures usage[q] == Share(usage, 32 * baseWord, baseWord + q)
  {
    ShareShifts(usage, baseWord, 0, baseWord + q);
    assert forall b :: b in usage[q] ==> IsBit(b);
  }

  lemma FirstShift(usage: seq<Word>, baseWord: nat, baseBit: nat)
    requires baseBit < 32 && usage != []
    ensures ShiftLeft(usage[0], baseBit) == Share(usage, 32 * baseWord + baseBit, baseWord)
  {
    ShareShifts(usage, baseWord, baseBit, baseWord);
  }

  lemma MiddleShift(usage: seq<Word>, baseWord: nat, baseBit: nat, word: nat)
    requires baseBit < 32 && word + 1 < |usage|
    ensures ShiftLeft(usage[word + 1], baseBit) + ShiftRight(usage[word], 32 - baseBit) ==
            Share(usage, 32 * baseWord + baseBit, baseWord + word + 1)
  {
    ShareShifts(usage, baseWord, baseBit, baseWord + word + 1);
  }

  method AddShifted(bits: array<Word>, usage: seq<Word>, baseWord: nat, baseBit: nat, lastModelWord: nat)
    requires bits.Length == WORDS == |usage| && baseWord + lastModelWord < WORDS && 0 < baseBit < 32
    modifies bits
    ensures Added(old(bits[..]), usage, 32 * baseWord + baseBit, baseWord, baseWord + lastModelWord + 1, bits[..])
  {
    ghost var base := 32 * baseWord + baseBit;
    FirstShift(usage, baseWord, baseBit);
    OrInto(bits, baseWord, ShiftLeft(usage[0], baseBit), old(bits[..]), usage, base, baseWord);
    for word := 0 to lastModelWord
      invariant Added(old(bits[..]), usage, base, baseWord, baseWord + word + 1, bits[..])
    {
      AddMiddle(bits, old(bits[..]), usage, baseWord, baseBit, word);
    }
  }

  method AddMiddle(bits: array<Word>, ghost start: seq<Word>, usage: seq<Word>, baseWord: nat, baseBit: nat, word: nat)
    requires bits.Length == WORDS == |usage| && baseWord + word + 1 < WORDS && 0 < baseBit < 32
    requires Added(start, usage, 32 * baseWord + baseBit, baseWord, baseWord + word + 1, bits[..])
    modifies bits
    ensures Added(start, usage, 32 * baseWord + baseBit, baseWord, baseWord + word + 2, bits[..])
  {
    var both := MiddleWord(usage, baseWord, baseBit, word);
    OrInto(bits, baseWord + word + 1, both, start, usage, 32 * baseWord + baseBit, baseWord);
  }

  method MiddleWord(usage: seq<Word>, ghost baseWord: nat, baseBit: nat, word: nat) returns (both: Word)
    requires word + 1 < |usage| && 0 < baseBit < 32
    ensures both == Share(usage, 32 * baseWord + baseBit, baseWord + word + 1)
  {
    var rightShift := 32 - baseBit;
    both := ShiftLeft(usage[word + 1], baseBit) + ShiftRight(usage[word], rightShift);
    MiddleShift(usage, baseWord, baseBit, word);
  }

  /** The carry is stored only where a mask word exists for it. */
  method AddCarry(bits: array<Word>, ghost start: seq<Word>, usage: seq<Word>, bones: nat, baseWord: nat,
                  baseBit: nat, lastModelWord: nat)
    requires bits.Length == WORDS && Fits(usage, bones) && 1 <= bones && lastModelWord == (bones - 1) / 32
    requires 0 < baseBit < 32 && lastModelWord < WORDS
    requires Added(start, usage, 32 * baseWord + baseBit, baseWord, baseWord + lastModelWord + 1, bits[..])
    modifies bits
    ensures Added(start, usage, 32 * baseWord + baseBit, baseWord, baseWord + lastModelWord + 2, bits[..])
  {
    var carryWord := baseWord + lastModelWord + 1;
    if carryWord < WORDS {
      CarryShift(usage, bones, baseWord, baseBit, lastModelWord);
      OrInto(bits, carryWord, ShiftRight(usage[lastModelWord], 32 - baseBit), start, usage,
             32 * baseWord + baseBit, baseWord);
    }
  }

  lemma CarryShift(usage: seq<Word>, bones: nat, baseWord: nat, baseBit: nat, word: nat)
    requires Fits(usage, bones) && baseBit < 32 && word < WORDS && 32 * (word + 1) >= bones
    ensures ShiftRight(usage[word], 32 - baseBit) == Share(usage, 32 * baseWord + baseBit, baseWord + word + 1)
  {
    ShareShifts(usage, baseWord, baseBit, baseWord + word + 1);
    NothingAbove(usage, bones, word + 1);
    if word + 1 < |usage| {
      assert ShiftLeft(usage[word + 1], baseBit) == {};
    }
  }

  /** The carry the guard drops is zero: it would belong to parts no DObj has. */
  lemma DroppedCarryIsZero(usage: seq<Word>, bones: nat, baseWord: nat, baseBit: nat, lastModelWord: nat)
    requires Fits(usage, bones) && 1 <= bones && 32 * baseWord + baseBit + bones <= MAX_PARTS && baseBit < 32
    requires lastModelWord == (bones - 1) / 32 && baseWord + lastModelWord + 1 >= WORDS
    ensures ShiftRight(usage[lastModelWord], 32 - baseBit) == {}
  {
    CarryShift(usage, bones, baseWord, baseBit, lastModelWord);
    NoShare(usage, bones, 32 * baseWord + baseBit, baseWord + lastModelWord + 1);
  }

  lemma NothingAbove(usage: seq<Word>, bones: nat, q: nat)
    requires Fits(usage, bones) && 32 * q >= bones
    ensures q < |usage| ==> usage[q] == {}
  {
    if q < |usage| {
      forall b | b in usage[q]
        ensures false
      {
        HasAt(usage, q, b);
      }
    }
  }

  /** Once the model's words are done, all words are. */
  lemma Outside(before: seq<Word>, usage: seq<Word>, bones: nat, baseWord: nat, baseBit: nat, after: seq<Word>, to: int)
    requires Fits(usage, bones) && 32 * to >= 32 * baseWord + baseBit + bones
    requires Added(before, usage, 32 * baseWord + baseBit, baseWord, to, after)
    ensures Added(before, usage, 32 * baseWord + baseBit, 0, |before|, after)
  {
    forall i | 0 <= i < |before|
      ensures after[i] == before[i] + Share(usage, 32 * baseWord + baseBit, i)
    {
      if !(baseWord <= i < to) {
        NoShare(usage, bones, 32 * baseWord + baseBit, i);
      }
    }
  }

  // ----- the whole DObj -----

  /** The surfaces a model shows at a level of detail; none below level 0. */
  function Level(m: Model, lod: int): seq<seq<Word>>
    requires lod < |m.lods|
  {
    if lod < 0 || m.lods[lod].None? then [] else m.lods[lod].value
  }

  ghost predicate ModelOk(m: Model, lod: int) {
    && lod < |m.lods| && 1 <= m.bones && m.base + m.bones <= MAX_PARTS
    && forall s :: 0 <= s < |Level(m, lod)| ==> Fits(Level(m, lod)[s], m.bones)
  }

  ghost predicate ModelsOk(models: seq<Model>, lods: seq<int>) {
    && |models| == |lods|
    && forall i {:trigger ModelOk(models[i], lods[i])} :: 0 <= i < |models| ==> ModelOk(models[i], lods[i])
  }

  predicate IsPart(p: int) {
    0 <= p < 128
  }

  ghost function PartsOf(mask: seq<Word>, base: int): set<int> {
    set p | 0 <= p < 128 && IsPart(p) && Has(mask, p - base)
  }

  ghost function LevelParts(level: seq<seq<Word>>, n: nat, base: nat): set<int>
    requires n <= |level|
  {
    if n == 0 then {} else LevelParts(level, n - 1, base) + PartsOf(level[n - 1], base)
  }

  ghost function AllParts(models: seq<Model>, lods: seq<int>, n: nat): set<int>
    requires ModelsOk(models, lods) && n <= |models|
  {
    if n == 0 then {}
    else
      assert ModelOk(models[n - 1], lods[n - 1]);
      var level := Level(models[n - 1], lods[n - 1]);
      AllParts(models, lods, n - 1) + LevelParts(level, |level|, models[n - 1].base)
  }

  lemma {:induction false} InLevelParts(level: seq<seq<Word>>, n: nat, base: nat, p: int)
    requires n <= |level|
    ensures p in LevelParts(level, n, base) <==>
            IsPart(p) && exists s :: 0 <= s < n && Has(level[s], p - base)
  {
    if n > 0 {
      InLevelParts(level, n - 1, base, p);
      if IsPart(p) && Has(level[n - 1], p - base) {
        assert p in PartsOf(level[n - 1], base);
      }
    }
  }

  /** A surface of model i uses bone b. */
  ghost predicate Uses(models: seq<Model>, lods: seq<int>, i: int, b: int)
    requires ModelsOk(models, lods) && 0 <= i < |models|
  {
    assert ModelOk(models[i], lods[i]);
    var level := Level(models[i], lods[i]);
    exists s :: 0 <= s < |level| && Has(level[s], b)
  }

  ghost predicate InModel(models: seq<Model>, lods: seq<int>, i: int, p: int)
    requires ModelsOk(models, lods) && 0 <= i < |models|
  {
    assert ModelOk(models[i], lods[i]);
    var level := Level(models[i], lods[i]);
    p in LevelParts(level, |level|, models[i].base)
  }

  lemma {:induction false} InAllParts(models: seq<Model>, lods: seq<int>, n: nat, p: int)
    requires ModelsOk(models, lods) && n <= |models|
    ensures p in AllParts(models, lods, n) <==> exists i :: 0 <= i < n && InModel(models, lods, i, p)
  {
    if n > 0 {
      InAllParts(models, lods, n - 1, p);
      assert p in AllParts(models, lods, n) <==> p in AllParts(models, lods, n - 1) || InModel(models, lods, n - 1, p);
    }
  }

  /** The parts are exactly those some shown surface uses as a bone of its model. */
  lemma PartsAreUsedBones(models: seq<Model>, lods: seq<int>, p: int)
    requires ModelsOk(models, lods)
    ensures p in AllParts(models, lods, |models|) <==>
            exists i :: 0 <= i < |models| && Uses(models, lods, i, p - models[i].base)
  {
    InAllParts(models, lods, |models|, p);
    forall i | 0 <= i < |models|
      ensures InModel(models, lods, i, p) <==> Uses(models, lods, i, p - models[i].base)
    {
      InModelParts(models, lods, i, p);
    }
  }

  lemma InModelParts(models: seq<Model>, lods: seq<int>, i: nat, p: int)
    requires ModelsOk(models, lods) && i < |models|
    ensures InModel(models, lods, i, p) <==> Uses(models, lods, i, p - models[i].base)
  {
    assert ModelOk(models[i], lods[i]);
    var level, base := Level(models[i], lods[i]), models[i].base;
    InLevelParts(level, |level|, base, p);
    if s :| 0 <= s < |level| && Has(level[s], p - base) {
      assert Fits(level[s], models[i].bones);
    }
  }

  lemma AddedParts(before: seq<Word>, usage: seq<Word>, base: nat, after: seq<Word>)
    requires |before| == WORDS && Added(before, usage, base, 0, WORDS, after)
    ensures PartsOf(after, 0) == PartsOf(before, 0) + PartsOf(usage, base)
  {
    forall p | IsPart(p)
      ensures Has(after, p) <==> Has(before, p) || Has(usage, p - base)
    {
      assert after[p / 32] == before[p / 32] + Share(usage, base, p / 32);
      assert IsBit(p % 32) && 32 * (p / 32) + p % 32 - base == p - base;
    }
  }

  datatype Ref = Ref(model: int, surface: int)

  function LevelRefs(i: nat, n: nat): seq<Ref> {
    if n == 0 then [] else LevelRefs(i, n - 1) + [Ref(i, n - 1)]
  }

  ghost function AllRefs(models: seq<Model>, lods: seq<int>, n: nat): seq<Ref>
    requires ModelsOk(models, lods) && n <= |models|
  {
    if n == 0 then []
    else
      assert ModelOk(models[n - 1], lods[n - 1]);
      AllRefs(models, lods, n - 1) + LevelRefs(n - 1, |Level(models[n - 1], lods[n - 1])|)
  }

  lemma {:induction false} LevelRefsLength(i: nat, n: nat)
    ensures |LevelRefs(i, n)| == n
    ensures forall k :: 0 <= k < n ==> LevelRefs(i, n)[k] == Ref(i, k)
  {
    if n > 0 {
      LevelRefsLength(i, n - 1);
    }
  }

  lemma {:induction false} RefsGrow(models: seq<Model>, lods: seq<int>, k: nat, n: nat)
    requires ModelsOk(models, lods) && k <= n <= |models|
    ensures |AllRefs(models, lods, k)| <= |AllRefs(models, lods, n)|
  {
    if k < n {
      RefsGrow(models, lods, k, n - 1);
    }
  }

  /** DObjGetNumSurfaces counts, last model first, what DObjGetSurfaces will list. */
  method GetNumSurfaces(models: seq<Model>, lods: seq<int>) returns (total: nat)
    requires ModelsOk(models, lods)
    ensures total == |AllRefs(models, lods, |models|)|
  {
    total := 0;
    var i := |models|;
    while i > 0
      invariant 0 <= i <= |models|
      invariant total + |AllRefs(models, lods, i)| == |AllRefs(models, lods, |models|)|
    {
      i := i - 1;
      assert ModelOk(models[i], lods[i]);
      LevelRefsLength(i, |Level(models[i], lods[i])|);
      if lods[i] >= 0 && models[i].lods[lods[i]].Some? {
        total := total + |models[i].lods[lods[i]].value|;
      }
    }
  }

  /** DObjGetSurfaces with a list sized by DObjGetNumSurfaces. */
  method GetSurfaces(models: seq<Model>, lods: seq<int>, refs: array<Ref>, bits: array<Word>)
    requires ModelsOk(models, lods) && bits.Length == WORDS
    requires refs.Length >= |AllRefs(models, lods, |models|)|
    modifies refs, bits
    ensures PartsOf(bits[..], 0) == AllParts(models, lods, |models|)
    ensures var n := |AllRefs(models, lods, |models|)|;
            refs[..n] == AllRefs(models, lods, |models|) && refs[n..] == old(refs[n..])
  {
    ClearBits(bits);
    var next := 0;
    for i := 0 to |models|
      invariant Listed(models, lods, i, old(refs[..]), refs[..], next)
      invariant PartsOf(bits[..], 0) == AllParts(models, lods, i)
    {
      next := AddModel(models, lods, i, old(refs[..]), refs, next, bits);
    }
  }

  method ClearBits(bits: array<Word>)
    modifies bits
    ensures PartsOf(bits[..], 0) == {}
  {
    for i := 0 to bits.Length
      invariant forall j :: 0 <= j < i ==> bits[j] == {}
    {
      bits[i] := {};
    }
  }

  /** The surfaces of the first n models head the list, the rest of it is as it was. */
  ghost predicate Listed(models: seq<Model>, lods: seq<int>, n: nat, start: seq<Ref>, now: seq<Ref>, next: nat)
    requires ModelsOk(models, lods) && n <= |models|
  {
    && next == |AllRefs(models, lods, n)| <= |now| == |start|
    && now[..next] == AllRefs(models, lods, n) && now[next..] == start[next..]
  }

  /** The model loop's body. */
  method AddModel(models: seq<Model>, lods: seq<int>, i: nat, ghost start: seq<Ref>, refs: array<Ref>,
                  from: nat, bits: array<Word>) returns (next: nat)
    requires ModelsOk(models, lods) && bits.Length == WORDS && i < |models|
    requires Listed(models, lods, i, start, refs[..], from) && |AllRefs(models, lods, |models|)| <= refs.Length
    requires PartsOf(bits[..], 0) == AllParts(models, lods, i)
    modifies refs, bits
    ensures Listed(models, lods, i + 1, start, refs[..], next)
    ensures PartsOf(bits[..], 0) == AllParts(models, lods, i + 1)
  {
    assert ModelOk(models[i], lods[i]);
    var level := Level(models[i], lods[i]);
    RefsGrow(models, lods, i + 1, |models|);
    LevelRefsLength(i, |level|);
    next := AddLevel(level, models[i].bones, models[i].base, i, refs, from, bits);
  }

  method AddLevel(level: seq<seq<Word>>, bones: nat, base: nat, i: nat, refs: array<Ref>, from: nat,
                  bits: array<Word>) returns (next: nat)
    requires bits.Length == WORDS && 1 <= bones && base + bones <= MAX_PARTS
    requires forall s :: 0 <= s < |level| ==> Fits(level[s], bones)
    requires from + |level| <= refs.Length
    modifies refs, bits
    ensures next == from + |level|
    ensures refs[..next] == old(refs[..from]) + LevelRefs(i, |level|) && refs[next..] == old(refs[..])[next..]
    ensures PartsOf(bits[..], 0) == old(PartsOf(bits[..], 0)) + LevelParts(level, |level|, base)
  {
    next := from;
    for s := 0 to |level|
      invariant next == from + s && |LevelRefs(i, s)| == s
      invariant refs[..next] == old(refs[..from]) + LevelRefs(i, s)
      invariant refs[next..] == old(refs[..])[next..]
      invariant PartsOf(bits[..], 0) == old(PartsOf(bits[..], 0)) + LevelParts(level, s, base)
    {
      AddRef(refs, next, Ref(i, s));
      next := next + 1;
      AddParts(bits, level[s], bones, base);
    }
  }

  method AddParts(bits: array<Word>, usage: seq<Word>, bones: nat, base: nat)
    requires bits.Length == WORDS && Fits(usage, bones) && 1 <= bones && base + bones <= MAX_PARTS
    modifies bits
    ensures PartsOf(bits[..], 0) == old(PartsOf(bits[..], 0)) + PartsOf(usage, base)
  {
    ghost var before := bits[..];
    AddSurface(bits, usage, bones, base);
    AddedParts(before, usage, base, bits[..]);
  }

  method AddRef(refs: array<Ref>, at: nat, ref: Ref)
    requires at < refs.Length
    modifies refs
    ensures refs[..at + 1] == old(refs[..at]) + [ref] && refs[at + 1..] == old(refs[at + 1..])
  {
    refs[at] := ref;
  }
}
