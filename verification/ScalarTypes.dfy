/** Sub-byte scalar types: the packed id, and the largest and smallest values. */
module ScalarTypes {
  import opened Bits

  datatype NanRepr = NONE | IEEE_754 | EXTD_RANGE_MAX_MIN {
    function Code(): nat { match this case NONE => 0 case IEEE_754 => 1 case EXTD_RANGE_MAX_MIN => 2 }
  }

  datatype ScalarType = ScalarType(exponent: nat, mantissa: nat, signed: bool, bias: int,
                                   finiteValuesOnly: bool, nanRepr: NanRepr) {
    function SizeBits(): nat { exponent + mantissa + if signed then 1 else 0 }
    predicate IsFloatingPoint() { exponent != 0 }
  }

  datatype Result<T> = Ok(value: T) | AssertionError

  // ----- the packed id

  /** A field of the id: its member and the number of bits it gets. */
  type Field = (int, nat)

  // bit widths
  const FLAG: nat := 1
  const BYTE: nat := 8
  const WORD: nat := 32

  function Fields(t: ScalarType): seq<Field> {
    [(t.exponent, BYTE), (t.mantissa, BYTE), (Bit(t.signed), FLAG), (t.bias, WORD), (Bit(t.finiteValuesOnly), FLAG),
     (t.nanRepr.Code(), BYTE)]
  }

  function Bit(b: bool): nat { if b then 1 else 0 }

  /** The fields one above the other, each reduced to its width, the first one lowest. */
  function Packed(fields: seq<Field>): nat {
    if fields == [] then 0
    else LowBits(fields[0].0, fields[0].1) + Shl(Packed(fields[1..]), fields[0].1)
  }

  function Width(fields: seq<Field>): nat {
    if fields == [] then 0 else fields[0].1 + Width(fields[1..])
  }

  function Widths(fields: seq<Field>): (w: seq<nat>)
    ensures |w| == |fields| && forall i :: 0 <= i < |w| ==> w[i] == fields[i].1
  {
    if fields == [] then [] else [fields[0].1] + Widths(fields[1..])
  }

  /** Reading fields of the given widths back, the lowest first. */
  function Unpacked(val: nat, widths: seq<nat>): (parts: seq<nat>)
    ensures |parts| == |widths|
    decreases |widths|
  {
    if widths == [] then []
    else
      [LowBits(val, widths[0])] + Unpacked(Shr(val, widths[0]), widths[1..])
  }

  function Residues(fields: seq<Field>): (r: seq<nat>)
    ensures |r| == |fields| && forall i :: 0 <= i < |r| ==> r[i] == LowBits(fields[i].0, fields[i].1)
  {
    if fields == [] then [] else [LowBits(fields[0].0, fields[0].1)] + Residues(fields[1..])
  }

  /** Every field can be read back, up to its width. */
  lemma {:induction false} UnpackPacked(fields: seq<Field>)
    ensures Unpacked(Packed(fields), Widths(fields)) == Residues(fields)
    ensures Packed(fields) < Pow2(Width(fields))
  {
    if fields != [] {
      UnpackPacked(fields[1..]);
      var low, high, n := LowBits(fields[0].0, fields[0].1), Packed(fields[1..]), fields[0].1;
      LowBitsBound(fields[0].0, n);
      CutJoined(low, high, n);
      JoinedBound(low, high, n, Width(fields[1..]));
    }
  }

  lemma {:induction false} PackedSnoc(fields: seq<Field>, f: Field)
    ensures Packed(fields + [f]) == Packed(fields) + Shl(LowBits(f.0, f.1), Width(fields))
    ensures Width(fields + [f]) == Width(fields) + f.1
  {
    if fields == [] {
      assert fields + [f] == [f];
      ShlIsTimes(0, f.1);
    } else {
      var tail, r := fields[1..], LowBits(f.0, f.1);
      PackedSnoc(tail, f);
      assert (fields + [f])[1..] == tail + [f];
      ShlAdd(Packed(tail), Shl(r, Width(tail)), fields[0].1);
      ShlShl(r, Width(tail), fields[0].1);
    }
  }

  /** The nested helper of the id: puts a member into the next bits. */
  method OrAndAdvance(val: nat, offset: nat, member: int, bitWidth: nat, ghost done: seq<Field>)
    returns (val': nat, offset': nat)
    requires val == Packed(done) && offset == Width(done)
    ensures val' == Packed(done + [(member, bitWidth)]) && offset' == Width(done + [(member, bitWidth)])
  {
    var bitMask := Shl(1, bitWidth) - 1;
    AndOfMask(member, bitWidth);
    UnpackPacked(done);
    OrOfFields(val, LowBits(member, bitWidth), offset);
    ShlPow2(0, bitWidth);
    PackedSnoc(done, (member, bitWidth));
    val' := BitOr(val, Shl(BitAnd(member, bitMask), offset));
    offset' := offset + bitWidth;
  }

  method Id(t: ScalarType) returns (val: nat)
    ensures val == Packed(Fields(t))
  {
    var offset: nat;
    ghost var fs := Fields(t);
    val, offset := OrAndAdvance(0, 0, t.exponent, BYTE, []);
    val, offset := OrAndAdvance(val, offset, t.mantissa, BYTE, [fs[0]]);
    assert [fs[0]] + [fs[1]] == fs[..2];
    val, offset := OrAndAdvance(val, offset, Bit(t.signed), FLAG, fs[..2]);
    assert fs[..2] + [fs[2]] == fs[..3];
    val, offset := OrAndAdvance(val, offset, t.bias, WORD, fs[..3]);
    assert fs[..3] + [fs[3]] == fs[..4];
    val, offset := OrAndAdvance(val, offset, Bit(t.finiteValuesOnly), FLAG, fs[..4]);
    assert fs[..4] + [fs[4]] == fs[..5];
    val, offset := OrAndAdvance(val, offset, t.nanRepr.Code(), BYTE, fs[..5]);
    assert fs[..5] + [fs[5]] == fs;
  }

  const LAYOUT: seq<nat> := [BYTE, BYTE, FLAG, WORD, FLAG, BYTE]

  lemma FieldsLayout(t: ScalarType)
    ensures Widths(Fields(t)) == LAYOUT == [8, 8, 1, 32, 1, 8] && Width(Fields(t)) == 58
    ensures Residues(Fields(t)) ==
      [t.exponent % 0x100, t.mantissa % 0x100, if t.signed then 1 else 0, t.bias % 0x1_0000_0000,
       if t.finiteValuesOnly then 1 else 0, if t.nanRepr == NONE then 0 else if t.nanRepr == IEEE_754 then 1 else 2]
  {
    WidthsOfFields(t);
    hide LowBits, Widths, Width;
    ByteValue(t.exponent);
    ByteValue(t.mantissa);
    FlagValue(t.signed);
    WordValue(t.bias);
    FlagValue(t.finiteValuesOnly);
    SmallByte(t.nanRepr.Code());
  }

  lemma WidthsOfFields(t: ScalarType)
    ensures Widths(Fields(t)) == LAYOUT == [8, 8, 1, 32, 1, 8] && Width(Fields(t)) == 58
  {
    WidthOfFields(t);
    var w := Widths(Fields(t));
    assert |w| == 6 && w[0] == w[1] == w[5] == 8 && w[2] == w[4] == 1 && w[3] == 32;
  }

  lemma ByteValue(x: int)
    ensures LowBits(x, BYTE) == x % 0x100
  {
    Pow2Values();
    LowBitsIsRemainder(x, BYTE);
  }

  lemma WordValue(x: int)
    ensures LowBits(x, WORD) == x % 0x1_0000_0000
  {
    Pow2Values();
    LowBitsIsRemainder(x, WORD);
  }

  lemma FlagValue(b: bool)
    ensures LowBits(Bit(b), FLAG) == Bit(b)
  {
    assert LowBits(Bit(b) / 2, 0) == 0;
  }

  lemma SmallByte(x: nat)
    ensures LowBits(x, BYTE) == x <==> x < 0x100
  {
    ByteValue(x);
    if x < 0x100 { DivModUnique(x, 0x100, 0, x); }
  }

  lemma WidthOfFields(t: ScalarType)
    ensures Width(Fields(t)) == 58
  {
    var f := Fields(t);
    assert Width(f[5..]) == 8;
    assert Width(f[4..]) == 9 by { assert f[4..][1..] == f[5..]; }
    assert Width(f[3..]) == 41 by { assert f[3..][1..] == f[4..]; }
    assert Width(f[2..]) == 42 by { assert f[2..][1..] == f[3..]; }
    assert Width(f[1..]) == 50 by { assert f[1..][1..] == f[2..]; }
  }

  lemma SmallPow2Values()
    ensures Pow2(FLAG) == 2 && Pow2(BYTE) == 0x100 && Pow2(10) == 1024
  {
  }

  lemma Pow2Values()
    ensures Pow2(FLAG) == 2 && Pow2(BYTE) == 0x100 && Pow2(WORD) == 0x1_0000_0000 && Pow2(58) == 0x400_0000_0000_0000
  {
    SmallPow2Values();
    hide Pow2;
    Pow2Add(BYTE, BYTE);
    Pow2Add(16, 16);
    Pow2Add(WORD, 16);
    Pow2Add(48, 10);
  }

  /** The id as a number: every field, modulo its width, at its place. */
  lemma IdFormula(t: ScalarType)
    ensures Packed(Fields(t)) ==
      t.exponent % 0x100 + 0x100 * (t.mantissa % 0x100) + (if t.signed then 0x1_0000 else 0)
      + 0x2_0000 * (t.bias % 0x1_0000_0000) + (if t.finiteValuesOnly then 0x2_0000_0000_0000 else 0)
      + 0x4_0000_0000_0000 * (if t.nanRepr == NONE then 0 else if t.nanRepr == IEEE_754 then 1 else 2)
  {
    var f := Fields(t);
    ByteValue(t.exponent);
    ByteValue(t.mantissa);
    FlagValue(t.signed);
    WordValue(t.bias);
    FlagValue(t.finiteValuesOnly);
    SmallByte(t.nanRepr.Code());
    SixFields(f);
  }

  lemma SixFields(f: seq<Field>)
    requires |f| == 6 && f[0].1 == f[1].1 == f[5].1 == 8 && f[2].1 == f[4].1 == 1 && f[3].1 == 32
    ensures Packed(f) == LowBits(f[0].0, 8) + 0x100 * LowBits(f[1].0, 8) + 0x1_0000 * LowBits(f[2].0, 1)
      + 0x2_0000 * LowBits(f[3].0, 32) + 0x2_0000_0000_0000 * LowBits(f[4].0, 1)
      + 0x4_0000_0000_0000 * LowBits(f[5].0, 8)
  {
    Pow2Values();
    hide Pow2, LowBits;
    PackedFirst(f, 0, 0x100);
    PackedFirst(f, 1, 0x100);
    PackedFirst(f, 2, 2);
    PackedFirst(f, 3, 0x1_0000_0000);
    PackedFirst(f, 4, 2);
    PackedFirst(f, 5, 0x100);
    NothingPacked(f[6..]);
    assert f[0..] == f;
    hide Packed;
  }

  lemma NothingPacked(f: seq<Field>)
    requires f == []
    ensures Packed(f) == 0
  {
  }

  lemma PackedFirst(f: seq<Field>, i: nat, p: nat)
    requires i < |f| && p == Pow2(f[i].1)
    ensures Packed(f[i..]) == LowBits(f[i].0, f[i].1) + Packed(f[i + 1..]) * p
  {
    assert f[i..][1..] == f[i + 1..];
    ShlIsTimes(Packed(f[i + 1..]), f[i].1);
  }

  /** Every id fits 58 bits, whatever the type. */
  lemma IdBound(t: ScalarType)
    ensures Packed(Fields(t)) < 0x400_0000_0000_0000
  {
    FieldsLayout(t);
    UnpackPacked(Fields(t));
    Pow2Values();
  }

  /** The types whose members fit their fields; the bias is a signed 32-bit number. */
  predicate InRange(t: ScalarType) {
    t.exponent < 0x100 && t.mantissa < 0x100 && -0x8000_0000 <= t.bias < 0x8000_0000
  }

  /** The signed reading of a 32-bit word. */
  function SignedWord(w: int): int { if w < 0x8000_0000 then w else w - 0x1_0000_0000 }

  lemma SignedWordOfBias(b: int)
    ensures SignedWord(b % 0x1_0000_0000) == b <==> -0x8000_0000 <= b < 0x8000_0000
  {
    if 0 <= b < 0x8000_0000 {
      DivModUnique(b, 0x1_0000_0000, 0, b);
    } else if -0x8000_0000 <= b < 0 {
      DivModUnique(b, 0x1_0000_0000, -1, b + 0x1_0000_0000);
    }
  }

  /** Decoding an id by the same layout. */
  function FromId(id: nat): ScalarType {
    var p := Unpacked(id, LAYOUT);
    ScalarType(p[0], p[1], p[2] == 1, SignedWord(p[3]), p[4] == 1,
               if p[5] == 0 then NONE else if p[5] == 1 then IEEE_754 else EXTD_RANGE_MAX_MIN)
  }

  /** The id is lossless exactly on the types that fit. */
  lemma FromIdOfId(t: ScalarType)
    ensures FromId(Packed(Fields(t))) == t <==> InRange(t)
  {
    hide Packed, Unpacked, Fields, Residues, Widths, LowBits;
    FieldsLayout(t);
    UnpackPacked(Fields(t));
    SignedWordOfBias(t.bias);
    SmallByte(t.exponent);
    SmallByte(t.mantissa);
    ByteValue(t.exponent);
    ByteValue(t.mantissa);
    assert FromId(Packed(Fields(t))) ==
      t.(exponent := t.exponent % 0x100, mantissa := t.mantissa % 0x100, bias := SignedWord(t.bias % 0x1_0000_0000));
  }

  /** Two types share an id if and only if they agree in every field up to its width. */
  lemma SameIdIffCongruent(s: ScalarType, t: ScalarType)
    ensures Packed(Fields(s)) == Packed(Fields(t)) <==>
      && s.exponent % 0x100 == t.exponent % 0x100 && s.mantissa % 0x100 == t.mantissa % 0x100
      && s.signed == t.signed && s.bias % 0x1_0000_0000 == t.bias % 0x1_0000_0000
      && s.finiteValuesOnly == t.finiteValuesOnly && s.nanRepr == t.nanRepr
  {
    hide Packed, Unpacked, Fields, Residues, Widths, LowBits;
    FieldsLayout(s);
    FieldsLayout(t);
    UnpackPacked(Fields(s));
    UnpackPacked(Fields(t));
    var r, q := Residues(Fields(s)), Residues(Fields(t));
    if Packed(Fields(s)) == Packed(Fields(t)) {
      assert r[0] == q[0] && r[1] == q[1] && r[2] == q[2] && r[3] == q[3] && r[4] == q[4] && r[5] == q[5];
    }
    if r == q { ResiduesDeterminePacked(Fields(s), Fields(t)); }
  }

  lemma {:induction false} ResiduesDeterminePacked(f: seq<Field>, g: seq<Field>)
    requires Residues(f) == Residues(g) && Widths(f) == Widths(g)
    ensures Packed(f) == Packed(g)
  {
    if f != [] && g != [] {
      assert Residues(f)[0] == Residues(g)[0] && Widths(f)[0] == Widths(g)[0];
      assert Residues(f)[1..] == Residues(g)[1..] && Widths(f)[1..] == Widths(g)[1..];
      ResiduesDeterminePacked(f[1..], g[1..]);
    }
  }
}
