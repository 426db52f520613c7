/** Packing the fields of a scalar type into one integer id, and the registry of ids. */
module ScalarIds {
  import opened Arithmetic
  import opened Wrappers
  import opened Bits

  datatype NanRepr = NoNan | Ieee754 | ExtendedRange

  function Code(n: NanRepr): nat {
    match n case NoNan => 0 case Ieee754 => 1 case ExtendedRange => 2
  }

  datatype ScalarType = ScalarType(
    exponent: int, mantissa: int, signed: bool, bias: int, finiteOnly: bool, nan: NanRepr)

  datatype Field = Field(member: int, width: nat)

  function Bool(b: bool): int { if b then 1 else 0 }

  function Fields(t: ScalarType): seq<Field> {
    [Field(t.exponent, 8), Field(t.mantissa, 8), Field(Bool(t.signed), 1), Field(t.bias, 32),
     Field(Bool(t.finiteOnly), 1), Field(Code(t.nan), 8)]
  }

  function Width(fs: seq<Field>): nat { if fs == [] then 0 else Width(fs[..|fs| - 1]) + fs[|fs| - 1].width }

  /** Each field in turn is masked, shifted past the ones before it and or-ed in. */
  function Pack(fs: seq<Field>): nat {
    if fs == [] then 0
    else Or(Pack(fs[..|fs| - 1]), Mask(fs[|fs| - 1].member, fs[|fs| - 1].width) * P(Width(fs[..|fs| - 1])))
  }

  function Id(t: ScalarType): nat { Pack(Fields(t)) }

  lemma {:induction false} PackBound(fs: seq<Field>)
    ensures Pack(fs) < P(Width(fs))
    ensures fs != [] ==>
      var front, f := fs[..|fs| - 1], fs[|fs| - 1];
      Pack(fs) == Pack(front) + Mask(f.member, f.width) * P(Width(front))
  {
    if fs != [] {
      var front, f := fs[..|fs| - 1], fs[|fs| - 1];
      PackBound(front);
      OrIsSum(Pack(front), Mask(f.member, f.width), Width(front));
      PAdd(Width(front), f.width);
      Below(Pack(front), Mask(f.member, f.width), P(Width(front)), P(f.width));
    }
  }

  lemma Below(a: nat, m: nat, p: nat, q: nat)
    requires a < p && m < q
    ensures a + m * p < p * q
  {
    assert (m + 1) * p <= q * p;
  }

  /** Reading the bits from `offset` on, `width` of them. */
  function Extract(v: nat, offset: nat, width: nat): nat { (v / P(offset)) % P(width) }

  lemma ExtractLow(low: nat, high: nat, k: nat, offset: nat, width: nat)
    requires low < P(k) && offset + width <= k
    ensures Extract(low + high * P(k), offset, width) == Extract(low, offset, width)
  {
    hide P;
    var rest := k - offset - width;
    PAdd(offset + width, rest);
    PAdd(offset, width);
    ShiftOut(low, high, P(offset), P(width), P(rest));
  }

  lemma ShiftOut(low: nat, high: nat, a: nat, b: nat, c: nat)
    requires a > 0 && b > 0
    ensures (low + high * (a * b * c)) / a % b == low / a % b
  {
    Regroup(high, a, b, c);
    DivShift(low, high * c * b, a);
    ModShift(low / a, high * c, b);
  }

  lemma Regroup(h: nat, a: nat, b: nat, c: nat)
    ensures h * (a * b * c) == h * c * b * a
  {
    assert a * b * c == c * b * a;
    assert h * (c * b * a) == h * (c * b) * a == h * c * b * a;
  }

  lemma DivShift(a: nat, b: nat, p: nat)
    requires p > 0
    ensures (a + b * p) / p == a / p + b
  {
    SplitAt(a % p, a / p + b, p);
    assert a + b * p == a % p + (a / p + b) * p;
  }

  lemma ModShift(a: nat, b: nat, p: nat)
    requires p > 0
    ensures (a + b * p) % p == a % p
  {
    SplitAt(a % p, a / p + b, p);
    assert a + b * p == a % p + (a / p + b) * p;
  }

  /** Shift and mask give every field back, reduced to its width. */
  lemma {:induction false} ExtractPacked(fs: seq<Field>, i: nat)
    requires i < |fs|
    ensures Extract(Pack(fs), Width(fs[..i]), fs[i].width) == Mask(fs[i].member, fs[i].width)
  {
    var n := |fs| - 1;
    var front, f := fs[..n], fs[n];
    PackBound(fs);
    PackBound(front);
    if i == n {
      SplitAt(Pack(front), Mask(f.member, f.width), P(Width(front)));
      MaskFits(Mask(f.member, f.width), f.width);
    } else {
      ExtractPacked(front, i);
      assert front[..i] == fs[..i];
      WidthPrefix(front, i);
      ExtractLow(Pack(front), Mask(f.member, f.width), Width(front), Width(fs[..i]), fs[i].width);
    }
  }

  lemma {:induction false} WidthPrefix(fs: seq<Field>, i: nat)
    requires i < |fs|
    ensures Width(fs[..i]) + fs[i].width <= Width(fs)
  {
    var front := fs[..|fs| - 1];
    if i < |fs| - 1 {
      WidthPrefix(front, i);
      assert front[..i] == fs[..i];
    }
  }

  /** A 32-bit pattern as a signed number. */
  function Signed32(x: nat): int { if x < 0x8000_0000 then x else x - 0x1_0000_0000 }

  function NanOf(code: nat): NanRepr { if code == 0 then NoNan else if code == 1 then Ieee754 else ExtendedRange }

  /** The type an id stands for, read field by field at the offsets of the layout. */
  function Unpack(v: nat): ScalarType {
    ScalarType(Extract(v, 0, 8), Extract(v, 8, 8), Extract(v, 16, 1) == 1, Signed32(Extract(v, 17, 32)),
               Extract(v, 49, 1) == 1, NanOf(Extract(v, 50, 8)))
  }

  ghost predicate Fits(t: ScalarType) {
    0 <= t.exponent < 256 && 0 <= t.mantissa < 256 && -0x8000_0000 <= t.bias < 0x8000_0000
  }

  lemma Powers()
    ensures P(1) == 2 && P(8) == 256 && P(32) == 0x1_0000_0000
  {
    assert P(8) == 256;
    PAdd(8, 8);
    PAdd(16, 16);
  }

  lemma Offsets(t: ScalarType)
    ensures var fs := Fields(t);
            && Width(fs[..0]) == 0 && Width(fs[..1]) == 8 && Width(fs[..2]) == 16 && Width(fs[..3]) == 17
            && Width(fs[..4]) == 49 && Width(fs[..5]) == 50 && Width(fs) == 58
  {
    var fs := Fields(t);
    assert fs[..1][..0] == fs[..0] && fs[..2][..1] == fs[..1] && fs[..3][..2] == fs[..2];
    assert fs[..4][..3] == fs[..3] && fs[..5][..4] == fs[..4];
  }

  lemma IdFields(t: ScalarType)
    ensures var v := Id(t);
      && Extract(v, 0, 8) == Mask(t.exponent, 8) && Extract(v, 8, 8) == Mask(t.mantissa, 8)
      && Extract(v, 16, 1) == Mask(Bool(t.signed), 1) && Extract(v, 17, 32) == Mask(t.bias, 32)
      && Extract(v, 49, 1) == Mask(Bool(t.finiteOnly), 1) && Extract(v, 50, 8) == Mask(Code(t.nan), 8)
  {
    var fs := Fields(t);
    Offsets(t);
    ExtractPacked(fs, 0);
    ExtractPacked(fs, 1);
    ExtractPacked(fs, 2);
    ExtractPacked(fs, 3);
    ExtractPacked(fs, 4);
    ExtractPacked(fs, 5);
  }

  /** A field as it sits in the id. */
  function Placed(f: Field, offset: nat): nat { Mask(f.member, f.width) * P(offset) }

  lemma PackSnoc(fs: seq<Field>, f: Field)
    ensures Pack(fs + [f]) == Pack(fs) + Placed(f, Width(fs))
  {
    PackBound(fs + [f]);
    assert (fs + [f])[..|fs|] == fs;
  }

  /** The layout of an id: exponent, mantissa, sign, bias, finite flag and NaN encoding from the lowest bit up. */
  lemma IdIs(t: ScalarType)
    ensures Id(t) == Mask(t.exponent, 8) + Mask(t.mantissa, 8) * P(8) + (if t.signed then 1 else 0) * P(16)
                     + Mask(t.bias, 32) * P(17) + (if t.finiteOnly then 1 else 0) * P(49)
                     + (if t.nan.NoNan? then 0 else if t.nan.Ieee754? then 1 else 2) * P(50)
  {
    var fs := Fields(t);
    Offsets(t);
    FlagMasks(t);
    hide P, Mask, Pack, Width;
    PackSix(fs);
    FirstPower();
  }

  lemma PackSix(fs: seq<Field>)
    requires |fs| == 6
    ensures Pack(fs) == Placed(fs[0], Width(fs[..0])) + Placed(fs[1], Width(fs[..1])) + Placed(fs[2], Width(fs[..2]))
                        + Placed(fs[3], Width(fs[..3])) + Placed(fs[4], Width(fs[..4])) + Placed(fs[5], Width(fs[..5]))
  {
    hide P, Pack, Width, Placed;
    Prefixes(fs);
    FirstPower();
    assert fs[..0] == [];
    PackSnoc(fs[..0], fs[0]);
    PackSnoc(fs[..1], fs[1]);
    PackSnoc(fs[..2], fs[2]);
    PackSnoc(fs[..3], fs[3]);
    PackSnoc(fs[..4], fs[4]);
    PackSnoc(fs[..5], fs[5]);
  }

  lemma FirstPower()
    ensures P(0) == 1 && Pack([]) == 0
  {
  }

  /** An id gives its type back if and only if every field fits its width. */
  lemma RoundTripIff(t: ScalarType)
    ensures Unpack(Id(t)) == t <==> Fits(t)
    ensures Id(t) < P(58)
  {
    hide Pack, Extract, Width, Fields, P, Id;
    IdFields(t);
    Powers();
    MaskFits(Bool(t.signed), 1);
    MaskFits(Bool(t.finiteOnly), 1);
    MaskFits(Code(t.nan), 8);
    FieldIff(t.exponent, 8);
    FieldIff(t.mantissa, 8);
    BiasIff(t.bias);
    IdBound(t);
  }

  lemma IdBound(t: ScalarType)
    ensures Id(t) < P(58)
  {
    PackBound(Fields(t));
    Offsets(t);
  }

  lemma FieldIff(x: int, w: nat)
    ensures Mask(x, w) == x <==> 0 <= x < P(w)
  {
    if 0 <= x < P(w) { MaskFits(x, w); }
  }

  lemma BiasIff(x: int)
    ensures Signed32(Mask(x, 32)) == x <==> -0x8000_0000 <= x < 0x8000_0000
  {
    Powers();
    hide P;
    if 0 <= x < 0x8000_0000 {
      MaskFits(x, 32);
    } else if -0x8000_0000 <= x < 0 {
      assert Mask(x, 32) == x + 0x1_0000_0000;
    }
  }

  /** Types that fit have the same id only if they are equal. */
  lemma IdsDistinct(t: ScalarType, u: ScalarType)
    requires Fits(t) && Fits(u) && Id(t) == Id(u)
    ensures t == u
  {
    RoundTripIff(t);
    RoundTripIff(u);
  }

  ghost predicate SameMasks(fs: seq<Field>, gs: seq<Field>) {
    |fs| == |gs| && forall i :: 0 <= i < |fs| ==>
      fs[i].width == gs[i].width && Mask(fs[i].member, fs[i].width) == Mask(gs[i].member, gs[i].width)
  }

  lemma {:induction false} PackSame(fs: seq<Field>, gs: seq<Field>)
    requires SameMasks(fs, gs)
    ensures Pack(fs) == Pack(gs) && Width(fs) == Width(gs)
  {
    if fs != [] { PackSame(fs[..|fs| - 1], gs[..|gs| - 1]); }
  }

  /** Two types share an id if and only if their fields agree in the bits that are kept. */
  lemma SameIdIff(t: ScalarType, u: ScalarType)
    ensures Id(t) == Id(u) <==>
            && Mask(t.exponent, 8) == Mask(u.exponent, 8) && Mask(t.mantissa, 8) == Mask(u.mantissa, 8)
            && Mask(t.bias, 32) == Mask(u.bias, 32)
            && t.signed == u.signed && t.finiteOnly == u.finiteOnly && t.nan == u.nan
  {
    Powers();
    FlagMasks(t);
    FlagMasks(u);
    hide P, Mask, Pack, Extract;
    if Id(t) == Id(u) {
      IdFields(t);
      IdFields(u);
    }
    if Mask(t.exponent, 8) == Mask(u.exponent, 8) && Mask(t.mantissa, 8) == Mask(u.mantissa, 8)
       && Mask(t.bias, 32) == Mask(u.bias, 32)
       && t.signed == u.signed && t.finiteOnly == u.finiteOnly && t.nan == u.nan {
      PackSame(Fields(t), Fields(u));
    }
  }

  lemma FlagMasks(t: ScalarType)
    ensures Mask(Bool(t.signed), 1) == Bool(t.signed) && Mask(Bool(t.finiteOnly), 1) == Bool(t.finiteOnly)
    ensures Mask(Code(t.nan), 8) == Code(t.nan)
  {
    Powers();
    MaskFits(Bool(t.signed), 1);
    MaskFits(Bool(t.finiteOnly), 1);
    MaskFits(Code(t.nan), 8);
  }

  /** With 256 more exponent bits a type that fits keeps its id, which then leads to the other type. */
  lemma ExponentWraps(t: ScalarType)
    requires Fits(t)
    ensures var u := t.(exponent := t.exponent + 256);
            Id(u) == Id(t) && Unpack(Id(u)) == t && t != u
  {
    Powers();
    hide P, Id, Unpack;
    SplitAt(t.exponent, 1, 256);
    assert Mask(t.exponent + 256, 8) == Mask(t.exponent, 8) by { MaskFits(t.exponent, 8); }
    SameIdIff(t, t.(exponent := t.exponent + 256));
    RoundTripIff(t);
  }

  // ---- Building an id and registering it ----

  /** The value and offset that grow while fields are or-ed in. */
  class IdBuilder {
    var val: nat
    var offset: nat

    constructor ()
      ensures val == Pack([]) && offset == Width([])
    {
      val, offset := 0, 0;
    }

    method OrAndAdvance(member: int, width: nat, ghost done: seq<Field>)
      requires val == Pack(done) && offset == Width(done)
      modifies this
      ensures val == Pack(done + [Field(member, width)]) && offset == Width(done + [Field(member, width)])
    {
      ghost var fs := done + [Field(member, width)];
      assert fs[..|fs| - 1] == done;
      val := Or(val, Mask(member, width) * P(offset));
      offset := offset + width;
    }
  }

  type Registry = map<nat, ScalarType>

  /** The registry after types were registered in this order. */
  function Registered(ts: seq<ScalarType>): Registry {
    if ts == [] then map[] else Registered(ts[..|ts| - 1])[Id(ts[|ts| - 1]) := ts[|ts| - 1]]
  }

  function FromId(r: Registry, id: nat): Option<ScalarType> {
    if id in r then Some(r[id]) else None
  }

  class TypeRegistry {
    var ids: Registry
    ghost var log: seq<ScalarType>

    ghost predicate Valid()
      reads this
    {
      ids == Registered(log)
    }

    constructor ()
      ensures Valid() && log == []
    {
      ids, log := map[], [];
    }

    method Register(t: ScalarType) returns (id: nat)
      requires Valid()
      modifies this
      ensures Valid() && log == old(log) + [t] && id == Id(t)
    {
      id := BuildId(t);
      assert (log + [t])[..|log|] == log;
      ids := ids[id := t];
      log := log + [t];
    }
  }

  method BuildId(t: ScalarType) returns (id: nat)
    ensures id == Id(t)
  {
    hide Pack, Width;
    ghost var fs := Fields(t);
    Prefixes(fs);
    var b := new IdBuilder();
    b.OrAndAdvance(t.exponent, 8, []);
    b.OrAndAdvance(t.mantissa, 8, fs[..1]);
    b.OrAndAdvance(Bool(t.signed), 1, fs[..2]);
    b.OrAndAdvance(t.bias, 32, fs[..3]);
    b.OrAndAdvance(Bool(t.finiteOnly), 1, fs[..4]);
    b.OrAndAdvance(Code(t.nan), 8, fs[..5]);
    id := b.val;
  }

  lemma Prefixes(fs: seq<Field>)
    requires |fs| == 6
    ensures [] + [fs[0]] == fs[..1] && fs[..1] + [fs[1]] == fs[..2] && fs[..2] + [fs[2]] == fs[..3]
    ensures fs[..3] + [fs[3]] == fs[..4] && fs[..4] + [fs[4]] == fs[..5] && fs[..5] + [fs[5]] == fs
  {
  }

  /** After any registrations of types that fit, every registered id leads back to its own type. */
  lemma {:induction false} FromIdReturns(ts: seq<ScalarType>, i: nat)
    requires i < |ts| && forall k :: 0 <= k < |ts| ==> Fits(ts[k])
    ensures FromId(Registered(ts), Id(ts[i])) == Some(ts[i])
  {
    var n := |ts| - 1;
    if i < n {
      FromIdReturns(ts[..n], i);
      if Id(ts[i]) == Id(ts[n]) { IdsDistinct(ts[i], ts[n]); }
    }
  }

  /** Ids nobody registered are refused. */
  lemma {:induction false} FromIdRefuses(ts: seq<ScalarType>, id: nat)
    ensures FromId(Registered(ts), id).None? <==> forall k :: 0 <= k < |ts| ==> Id(ts[k]) != id
  {
    if ts != [] {
      var n := |ts| - 1;
      FromIdRefuses(ts[..n], id);
      if forall k :: 0 <= k < n ==> Id(ts[..n][k]) != id {
        assert forall k :: 0 <= k < n ==> Id(ts[k]) != id;
      } else {
        var k :| 0 <= k < n && Id(ts[..n][k]) == id;
        assert Id(ts[k]) == id;
      }
    }
  }
}
