/** XAnimSetModel: the table from animation parts to DObj parts, and the part
    lookup it has to agree with. */
module PartRemap {
  import opened DObjLayout

  const MISSING: nat := 127

  /** The interned payload: a part mask followed by one part index per animation part. */
  datatype Payload = Payload(mask: PartBits, table: seq<nat>)

  /** First position of a name, or -1. */
  ghost function FirstIndex(s: seq<Name>, name: Name): (r: int)
    ensures -1 <= r < |s|
    ensures r >= 0 ==> s[r] == name && name !in s[..r]
    ensures r < 0 ==> name !in s
  {
    if s == [] then -1
    else if s[0] == name then 0
    else
      var r := FirstIndex(s[1..], name);
      assert s == [s[0]] + s[1..];
      if r < 0 then -1 else (assert s[..r + 1] == [s[0]] + s[1..][..r]; r + 1)
  }

  ghost predicate LastOccurrence(names: seq<Name>, a: nat)
    requires a < |names|
  {
    forall b :: a < b < |names| ==> names[b] != names[a]
  }

  /** What animation part `a` is mapped to by the first `s` bones. */
  ghost function Mapped(names: seq<Name>, bones: seq<Name>, a: nat): nat
    requires a < |names|
  {
    if LastOccurrence(names, a) && FirstIndex(bones, names[a]) >= 0 then FirstIndex(bones, names[a]) else MISSING
  }

  ghost predicate IsPayload(names: seq<Name>, bones: seq<Name>, p: Payload) {
    && |p.table| == |names|
    && (forall a :: 0 <= a < |names| ==> p.table[a] == Mapped(names, bones, a))
    && forall g :: 0 <= g < MASK_BITS ==> (p.mask[g] <==> g < MISSING && g in p.table)
  }

  lemma {:induction false} FirstIndexExtend(s: seq<Name>, x: Name, name: Name)
    ensures FirstIndex(s + [x], name) ==
            if FirstIndex(s, name) >= 0 then FirstIndex(s, name) else if x == name then |s| else -1
  {
    if s != [] {
      assert (s + [x])[1..] == s[1..] + [x];
      FirstIndexExtend(s[1..], x, name);
    }
  }

  /** The search of the inner loop: the last animation part with this name. */
  method LastNamed(names: seq<Name>, name: Name) returns (a: int)
    ensures -1 <= a < |names|
    ensures a >= 0 ==> names[a] == name && LastOccurrence(names, a)
    ensures a < 0 ==> name !in names
  {
    a := |names| - 1;
    while a >= 0
      invariant -1 <= a < |names|
      invariant forall b :: a < b < |names| ==> names[b] != name
    {
      if names[a] == name {
        return;
      }
      a := a - 1;
    }
  }

  /** XAnimSetModel over the bones of all models in DObj order. */
  method SetModel(names: seq<Name>, bones: seq<Name>) returns (p: Payload)
    requires |bones| <= MISSING
    ensures IsPayload(names, bones, p)
  {
    var mask: PartBits := NoBits();
    var table: seq<nat> := seq(|names|, _ => MISSING);
    var s := 0;
    while s < |bones|
      invariant 0 <= s <= |bones|
      invariant IsPayload(names, bones[..s], Payload(mask, table))
    {
      assert bones[..s + 1] == bones[..s] + [bones[s]];
      var a := LastNamed(names, bones[s]);
      MapStep(names, bones[..s], bones[s], mask, table, a);
      if a >= 0 && table[a] == MISSING {
        table := table[a := s];
        mask := mask[s := true];
      }
      s := s + 1;
    }
    assert bones[..|bones|] == bones;
    p := Payload(mask, table);
  }

  /** One bone more: at most its own animation part changes. */
  lemma MapStep(names: seq<Name>, bones: seq<Name>, x: Name, mask: PartBits, table: seq<nat>, a: int)
    requires |bones| < MISSING && IsPayload(names, bones, Payload(mask, table))
    requires -1 <= a < |names|
    requires a >= 0 ==> names[a] == x && LastOccurrence(names, a)
    requires a < 0 ==> x !in names
    ensures a >= 0 && table[a] == MISSING ==>
              IsPayload(names, bones + [x], Payload(mask[|bones| := true], table[a := |bones|]))
    ensures !(a >= 0 && table[a] == MISSING) ==> IsPayload(names, bones + [x], Payload(mask, table))
  {
    forall c | 0 <= c < |names|
      ensures Mapped(names, bones + [x], c) == if c == a && table[a] == MISSING then |bones| else table[c]
    {
      FirstIndexExtend(bones, x, names[c]);
    }
    if a >= 0 && table[a] == MISSING {
      var t' := table[a := |bones|];
      forall g | 0 <= g < MASK_BITS ensures mask[|bones| := true][g] <==> g < MISSING && g in t' {
        if g == |bones| {
          assert t'[a] == g;
        } else if g < MISSING {
          MaskAfter(table, a, |bones|, g);
        }
      }
    }
  }

  lemma MaskAfter(table: seq<nat>, a: nat, s: nat, g: nat)
    requires a < |table| && table[a] == MISSING && g < MISSING && g != s
    ensures g in table[a := s] <==> g in table
  {
    if g in table {
      var c :| 0 <= c < |table| && table[c] == g;
      assert table[a := s][c] == g;
    }
    if g in table[a := s] {
      var c :| 0 <= c < |table| && table[a := s][c] == g;
      assert table[c] == g;
    }
  }

  // ----- agreement with the part lookup -----

  /** The bone names of a DObj in part order. */
  ghost function Bones(d: DObj): (r: seq<Name>)
    requires ValidDObj(d)
    ensures |r| == d.boneCount && forall g :: 0 <= g < |r| ==> r[g] == NameOf(d, g)
  {
    seq(d.boneCount, g requires 0 <= g < d.boneCount => NameOf(d, g))
  }

  lemma FirstIsFound(d: DObj, name: Name)
    requires ValidDObj(d) && DistinctPerModel(d)
    ensures FirstIndex(Bones(d), name) == FindPart(d, name)
  {
    var f, r := FirstIndex(Bones(d), name), FindPart(d, name);
    if r >= 0 {
      LookupIsNotDuplicate(d, name);
      assert Bones(d)[r] == name;
      assert f >= 0;
    }
    if f >= 0 {
      assert NameOf(d, f) == name;
      FindOwnName(d, f);
    }
  }

  /** An animation part is mapped to the part a lookup of its name finds, exactly
      when no later animation part repeats the name or the name is missing. */
  lemma TableAgreesWithLookup(d: DObj, names: seq<Name>, p: Payload, a: nat)
    requires ValidDObj(d) && DistinctPerModel(d) && IsPayload(names, Bones(d), p) && a < |names|
    ensures p.table[a] == (if FindPart(d, names[a]) >= 0 then FindPart(d, names[a]) else MISSING)
            <==> LastOccurrence(names, a) || FindPart(d, names[a]) < 0
  {
    FirstIsFound(d, names[a]);
  }
}
