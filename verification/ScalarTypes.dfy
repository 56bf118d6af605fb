/**
 Descriptors of small number types and the integer id they are passed around as.
 */
module ScalarTypes {
  import opened Wrappers
  import opened Bits

  datatype NanRepr = NoNan | Ieee754 | ExtdRangeMaxMin {
    function Value(): nat {
      match this
      case NoNan => 0
      case Ieee754 => 1
      case ExtdRangeMaxMin => 2
    }
  }

  datatype ScalarType = ScalarType(
    exponent: nat, mantissa: nat, signed: bool, bias: int, finiteValuesOnly: bool, nanRepr: NanRepr)

  datatype Field = Field(value: int, width: nat)

  function Flag(b: bool): int { if b then 1 else 0 }

  /** The members of the id in the order they are packed, with their widths. */
  function Fields(t: ScalarType): seq<Field> {
    [Field(t.exponent, 8), Field(t.mantissa, 8), Field(Flag(t.signed), 1), Field(t.bias, 32),
     Field(Flag(t.finiteValuesOnly), 1), Field(t.nanRepr.Value(), 8)]
  }

  // ----- packing -----

  function Width(fs: seq<Field>): nat {
    if fs == [] then 0 else Width(fs[..|fs| - 1]) + fs[|fs| - 1].width
  }

  /** The fields next to each other, the first one in the lowest bits. */
  function Pack(fs: seq<Field>): nat {
    if fs == [] then 0
    else
      var n := |fs| - 1;
      Shl(Mask(fs[n].value, fs[n].width), Width(fs[..n])) + Pack(fs[..n])
  }

  lemma {:induction false} PackFits(fs: seq<Field>)
    ensures Pack(fs) < Pow2(Width(fs))
  {
    if fs == [] {
    } else {
      var n := |fs| - 1;
      PackFits(fs[..n]);
      Pow2Adds(Width(fs[..n]), fs[n].width);
      TopFits(Mask(fs[n].value, fs[n].width), Pow2(fs[n].width), Pow2(Width(fs[..n])), Pack(fs[..n]));
    }
  }

  lemma TopFits(high: nat, hs: nat, ls: nat, low: nat)
    requires high < hs && low < ls
    ensures high * ls + low < ls * hs
  {
    assert (high + 1) * ls <= hs * ls;
  }

  /** The value of field `k` can be read back from the packed id. */
  lemma {:induction false} ReadField(fs: seq<Field>, k: nat)
    requires k < |fs|
    ensures Shr(Pack(fs), Width(fs[..k])) % Pow2(fs[k].width) == Mask(fs[k].value, fs[k].width)
  {
    var n := |fs| - 1;
    var low, high := Pack(fs[..n]), Mask(fs[n].value, fs[n].width);
    PackFits(fs[..n]);
    if k == n {
      SplitHighLow(high, Width(fs[..n]), low);
      SmallMod(high, Pow2(fs[n].width));
    } else {
      ReadField(fs[..n], k);
      assert fs[..n][..k] == fs[..k];
      WidthSplits(fs[..n], k);
      DropHigh(high, low, Width(fs[..k]), fs[k].width, Width(fs[..n]) - Width(fs[..k]) - fs[k].width);
    }
  }

  lemma SmallMod(x: nat, d: nat)
    requires x < d
    ensures x % d == x
  {
  }

  lemma {:induction false} WidthSplits(fs: seq<Field>, k: nat)
    requires k < |fs|
    ensures Width(fs[..k]) + fs[k].width <= Width(fs)
  {
    var n := |fs| - 1;
    if k < n {
      WidthSplits(fs[..n], k);
      assert fs[..n][..k] == fs[..k];
    }
  }

  /** Bits above a field do not disturb it. */
  lemma DropHigh(high: nat, low: nat, offset: nat, width: nat, gap: nat)
    ensures Shr(Shl(high, offset + width + gap) + low, offset) % Pow2(width) == Shr(low, offset) % Pow2(width)
  {
    hide Pow2, Shl, Shr;
    ShlTwice(high, gap, offset + width);
    ShlTwice(Shl(high, gap), width, offset);
    ShrOfSum(Shl(Shl(high, gap), width), low, offset);
    LowOfSum(Shl(high, gap), Shr(low, offset), width);
  }

  /** The loop of `or_and_advance` calls. */
  method ComputeId(t: ScalarType) returns (id: nat)
    ensures id == Id(t)
  {
    hide Or, Shl, Mask;
    var fs := Fields(t);
    id := 0;
    var offset := 0;
    for k := 0 to |fs|
      invariant id == Pack(fs[..k]) && offset == Width(fs[..k])
    {
      assert fs[..k + 1][..k] == fs[..k];
      PackFits(fs[..k]);
      OrDisjoint(Mask(fs[k].value, fs[k].width), offset, id);
      id := Or(id, Shl(Mask(fs[k].value, fs[k].width), offset));
      offset := offset + fs[k].width;
    }
    assert fs[..|fs|] == fs;
  }

  function Id(t: ScalarType): nat { Pack(Fields(t)) }

  // ----- what an id determines -----

  /** Where each field starts; the whole id takes 58 bits. */
  const OFFSETS: seq<nat> := [0, 8, 16, 17, 49, 50]

  lemma FieldOffsets(t: ScalarType, k: nat)
    requires k < 6
    ensures Width(Fields(t)[..k]) == OFFSETS[k]
  {
    var fs := Fields(t);
    assert fs[..0] == [] && fs[..1][..0] == fs[..0] && fs[..2][..1] == fs[..1];
    assert fs[..3][..2] == fs[..2] && fs[..4][..3] == fs[..3] && fs[..5][..4] == fs[..4];
    assert Width(fs[..1]) == 8;
    assert Width(fs[..2]) == 16;
    assert Width(fs[..3]) == 17;
    assert Width(fs[..4]) == 49;
    assert Width(fs[..5]) == 50;
  }

  lemma Powers()
    ensures Pow2(0) == 1 && Pow2(1) == 2 && Pow2(8) == 0x100 && Pow2(16) == 0x1_0000 && Pow2(17) == 0x2_0000
    ensures Pow2(32) == 0x1_0000_0000 && Pow2(49) == 0x2_0000_0000_0000 && Pow2(50) == 0x4_0000_0000_0000
  {
    hide Pow2;
    Widths();
    Pow2Adds(8, 8);
    Pow2Adds(16, 1);
    Pow2Adds(32, 17);
    Pow2Adds(49, 1);
  }

  lemma PackNext(fs: seq<Field>, k: nat, offset: nat)
    requires k < |fs| && Width(fs[..k]) == offset
    ensures Pack(fs[..k + 1]) == (fs[k].value % Pow2(fs[k].width)) * Pow2(offset) + Pack(fs[..k])
  {
    assert fs[..k + 1][..k] == fs[..k];
  }

  /** The first three fields, as a number. */
  lemma LowIsSum(t: ScalarType)
    ensures Pack(Fields(t)[..3]) ==
      t.exponent % 0x100 + t.mantissa % 0x100 * 0x100 + if t.signed then 0x1_0000 else 0
  {
    hide Pack, Width, Pow2;
    var fs := Fields(t);
    Powers();
    PackNothing(fs);
    FieldOffsets(t, 0);
    PackNext(fs, 0, 0);
    FieldOffsets(t, 1);
    PackNext(fs, 1, 8);
    FieldOffsets(t, 2);
    PackNext(fs, 2, 16);
  }

  /** The id as a number: each member modulo the size of its field, at its place. */
  lemma IdIsSum(t: ScalarType)
    ensures Id(t) ==
      t.exponent % 0x100 + t.mantissa % 0x100 * 0x100 + (if t.signed then 0x1_0000 else 0)
      + t.bias % 0x1_0000_0000 * 0x2_0000 + (if t.finiteValuesOnly then 0x2_0000_0000_0000 else 0)
      + (match t.nanRepr case NoNan => 0 case Ieee754 => 1 case ExtdRangeMaxMin => 2) * 0x4_0000_0000_0000
  {
    hide Pack, Width, Pow2;
    var fs := Fields(t);
    Powers();
    LowIsSum(t);
    FieldOffsets(t, 3);
    PackNext(fs, 3, 17);
    FieldOffsets(t, 4);
    PackNext(fs, 4, 49);
    FieldOffsets(t, 5);
    PackNext(fs, 5, 50);
    assert fs[..6] == fs;
  }

  lemma PackNothing(fs: seq<Field>)
    ensures Pack(fs[..0]) == 0
  {
  }

  /** The bits of one field of an id. */
  function Bitfield(id: nat, offset: nat, width: nat): nat {
    Mask(Shr(id, offset), width)
  }

  lemma FieldOfId(t: ScalarType, k: nat)
    requires k < 6
    ensures Bitfield(Id(t), OFFSETS[k], Fields(t)[k].width) == Mask(Fields(t)[k].value, Fields(t)[k].width)
  {
    hide Pack, Width, Pow2;
    FieldOffsets(t, k);
    ReadField(Fields(t), k);
  }

  /** Equal once every member is cut down to its field. */
  ghost predicate Congruent(s: ScalarType, t: ScalarType) {
    forall k :: 0 <= k < 6 ==>
      Mask(Fields(s)[k].value, Fields(s)[k].width) == Mask(Fields(t)[k].value, Fields(t)[k].width)
  }

  lemma {:induction false} PackOfMasks(fs: seq<Field>, gs: seq<Field>)
    requires |fs| == |gs|
    requires forall k :: 0 <= k < |fs| ==>
      fs[k].width == gs[k].width && Mask(fs[k].value, fs[k].width) == Mask(gs[k].value, gs[k].width)
    ensures Pack(fs) == Pack(gs) && Width(fs) == Width(gs)
  {
    if fs == [] {
    } else {
      PackOfMasks(fs[..|fs| - 1], gs[..|gs| - 1]);
    }
  }

  /** Two types have the same id iff their members agree modulo the field widths. */
  lemma SameIdIffCongruent(s: ScalarType, t: ScalarType)
    ensures Id(s) == Id(t) <==> Congruent(s, t)
  {
    hide Pack, Width, Pow2, Mask;
    if Id(s) == Id(t) {
      forall k | 0 <= k < 6
        ensures Mask(Fields(s)[k].value, Fields(s)[k].width) == Mask(Fields(t)[k].value, Fields(t)[k].width)
      {
        FieldOfId(s, k);
        FieldOfId(t, k);
      }
    }
    if Congruent(s, t) {
      PackOfMasks(Fields(s), Fields(t));
    }
  }

  /** Members that fit their C++ types. */
  predicate InRange(t: ScalarType) {
    t.exponent < 256 && t.mantissa < 256 && -0x8000_0000 <= t.bias < 0x8000_0000
  }

  lemma Widths()
    ensures Pow2(0) == 1 && Pow2(1) == 2 && Pow2(8) == 256 && Pow2(32) == 0x1_0000_0000
  {
    assert Pow2(8) == 256;
    Pow2Adds(8, 8);
    Pow2Adds(16, 16);
  }

  /** Small values survive their field; a negative bias comes back by sign extension. */
  lemma MaskFits(x: int)
    ensures 0 <= x < 256 ==> Mask(x, 8) == x
    ensures 0 <= x < 2 ==> Mask(x, 1) == x
    ensures Mask(x, 8) < 256 && Mask(x, 1) < 2 && Mask(x, 32) < 0x1_0000_0000
    ensures -0x8000_0000 <= x < 0x8000_0000 ==> Signed32(Mask(x, 32)) == x
  {
    hide Pow2;
    Widths();
  }

  // ----- the C++ side -----

  /** A 32-bit pattern read as a signed integer. */
  function Signed32(x: nat): int
    requires x < 0x1_0000_0000
  {
    if x < 0x8000_0000 then x else x - 0x1_0000_0000
  }

  function NanReprOf(x: nat): Option<NanRepr> {
    if x == 0 then Some(NoNan) else if x == 1 then Some(Ieee754) else if x == 2 then Some(ExtdRangeMaxMin) else None
  }

  /** from_id of the C++ class: shift, mask and convert each field in turn. */
  function CppFromId(id: nat): Option<ScalarType> {
    MaskFits(Shr(id, 17));
    var nan := NanReprOf(Bitfield(id, 50, 8));
    if nan.None? then None
    else Some(ScalarType(
      Bitfield(id, 0, 8), Bitfield(id, 8, 8), Bitfield(id, 16, 1) != 0,
      Signed32(Bitfield(id, 17, 32)), Bitfield(id, 49, 1) != 0, nan.value))
  }

  /** Python and C++ agree on the layout: decoding in C++ what Python packed gives the same type back. */
  lemma CppReadsPythonId(t: ScalarType)
    requires InRange(t)
    ensures CppFromId(Id(t)) == Some(t)
  {
    hide Pack, Width, Mask, Pow2, Shr;
    MaskFits(t.exponent);
    MaskFits(t.mantissa);
    MaskFits(Flag(t.signed));
    MaskFits(t.bias);
    MaskFits(Flag(t.finiteValuesOnly));
    MaskFits(t.nanRepr.Value());
    FieldOfId(t, 0);
    FieldOfId(t, 1);
    FieldOfId(t, 2);
    FieldOfId(t, 3);
    FieldOfId(t, 4);
    FieldOfId(t, 5);
  }

  // ----- the registry behind from_id in Python -----

  /** The registry after the types `ts` have computed their ids. */
  function Registered(ts: seq<ScalarType>): map<nat, ScalarType> {
    if ts == [] then map[] else Registered(ts[..|ts| - 1])[Id(ts[|ts| - 1]) := ts[|ts| - 1]]
  }

  /** An id leads back to the last registered type that is congruent to it. */
  lemma {:induction false} RegistryHoldsLast(ts: seq<ScalarType>, i: nat)
    requires i < |ts|
    ensures Id(ts[i]) in Registered(ts)
    ensures Registered(ts)[Id(ts[i])] == ts[i] <==>
      exists j :: i <= j < |ts| && ts[j] == ts[i] && forall k :: j < k < |ts| ==> !Congruent(ts[k], ts[i])
  {
    hide Id, Congruent;
    var n := |ts| - 1;
    var reg := Registered(ts[..n]);
    SameIdIffCongruent(ts[n], ts[i]);
    if i == n {
      assert ts[n] == ts[i];
    } else {
      RegistryHoldsLast(ts[..n], i);
      if Congruent(ts[n], ts[i]) {
        if ts[n] == ts[i] { assert i <= n < |ts|; }
      } else {
        if exists j :: i <= j < n && ts[..n][j] == ts[i] && forall k :: j < k < n ==> !Congruent(ts[..n][k], ts[i]) {
          var j :| i <= j < n && ts[..n][j] == ts[i] && forall k :: j < k < n ==> !Congruent(ts[..n][k], ts[i]);
          assert ts[j] == ts[i];
          forall k | j < k < |ts| ensures !Congruent(ts[k], ts[i]) {
            if k < n { assert !Congruent(ts[..n][k], ts[i]); }
          }
        }
      }
    }
  }

  /** For types whose members fit, from_id inverts id in every registry that can arise. */
  lemma {:induction false} FromIdInvertsId(ts: seq<ScalarType>, i: nat)
    requires i < |ts| && forall k :: 0 <= k < |ts| ==> InRange(ts[k])
    ensures Id(ts[i]) in Registered(ts) && Registered(ts)[Id(ts[i])] == ts[i]
  {
    hide Id, InRange, CppFromId;
    var n := |ts| - 1;
    if i < n {
      FromIdInvertsId(ts[..n], i);
      CppReadsPythonId(ts[n]);
      CppReadsPythonId(ts[i]);
    }
  }

  /** An id is in the registry iff a known type has it, and then it leads to such a type. */
  lemma {:induction false} RegisteredById(ts: seq<ScalarType>, id: nat)
    ensures id in Registered(ts) <==> exists t :: t in ts && Id(t) == id
    ensures id in Registered(ts) ==> Registered(ts)[id] in ts && Id(Registered(ts)[id]) == id
  {
    hide Id;
    if ts == [] {
    } else {
      var n := |ts| - 1;
      RegisteredById(ts[..n], id);
      assert ts == ts[..n] + [ts[n]];
    }
  }

  class Registry {
    var types: map<nat, ScalarType>
    /** The types whose ids have been computed, in order. */
    ghost var known: seq<ScalarType>

    ghost predicate Valid()
      reads this
    {
      types == Registered(known)
    }

    constructor ()
      ensures Valid() && known == []
    {
      types, known := map[], [];
    }

    /** The id property: computes the id and remembers the type under it. */
    method Register(t: ScalarType) returns (id: nat)
      requires Valid()
      modifies this
      ensures id == Id(t) && Valid() && known == old(known) + [t]
      ensures types == old(types)[id := t]
    {
      hide Id;
      id := ComputeId(t);
      types := types[id := t];
      assert (known + [t])[..|known|] == known;
      known := known + [t];
    }

    /**
     from_id; `None` is the ValueError, raised iff no known type has the id.  Otherwise the result
     has the id, and it is the type the id came from if the members of all known types fit.
     */
    method FromId(id: nat) returns (r: Option<ScalarType>)
      requires Valid()
      ensures r.Some? <==> exists t :: t in known && Id(t) == id
      ensures r.Some? ==> r.value in known && Id(r.value) == id
      ensures (forall t :: t in known ==> InRange(t)) ==> forall t :: t in known && Id(t) == id ==> r == Some(t)
    {
      hide Id, Registered, InRange;
      RegisteredById(known, id);
      if forall t :: t in known ==> InRange(t) {
        forall t | t in known && Id(t) == id ensures Registered(known)[id] == t {
          var i :| 0 <= i < |known| && known[i] == t;
          FromIdInvertsId(known, i);
        }
      }
      r := if id in types then Some(types[id]) else None;
    }
  }

  /** Outside that range it does not: a bias of 2^32 shares its id with no bias. */
  lemma OutOfRangeCollides()
    ensures var a := ScalarType(0, 8, false, 0, false, Ieee754);
      var b := a.(bias := 0x1_0000_0000);
      a != b && Id(a) == Id(b) && Registered([a, b])[Id(a)] == b
  {
    hide Pack, Width, Pow2;
    var a := ScalarType(0, 8, false, 0, false, Ieee754);
    var b := a.(bias := 0x1_0000_0000);
    Widths();
    SameIdIffCongruent(a, b);
    assert [a, b][..1] == [a];
  }
}
