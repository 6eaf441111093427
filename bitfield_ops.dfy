module BitFieldOps {
  import opened Word
  import opened NonlinearArith

  /** The four storage-cell types u8, u16, u32 and u64. */
  datatype Width = U8 | U16 | U32 | U64 {
    function Bits(): nat
    {
      match this
      case U8 => 8
      case U16 => 16
      case U32 => 32
      case U64 => 64
    }

    /** The all-ones value of the cell type. */
    function Ones(): (r: nat)
      ensures r == Pow2(Bits()) - 1
    {
      match this
      case U8 => Pow2Of8(); 0xff
      case U16 => Pow2Of16(); 0xffff
      case U32 => Pow2Of32(); 0xffff_ffff
      case U64 => Pow2Of64(); 0xffff_ffff_ffff_ffff
    }

    /** x is a value of the cell type. */
    predicate Holds(x: nat)
    {
      x < Pow2(Bits())
    }
  }

  type uint8 = x: nat | x < 0x100

  /** A field of `width` bits starting at bit `offset`. */
  datatype BitField = BitField(width: uint8, offset: uint8)

  /** The amount `wrapping_shl` shifts by: the requested amount modulo the width. */
  function WrapShift(w: Width, s: nat): (r: nat)
    ensures r < w.Bits() && (s < w.Bits() ==> r == s)
  {
    s % w.Bits()
  }

  /**
    * `mask_uN`: below the saturation width, `(1 << width) - 1` moved up by
    * `offset` with `wrapping_shl` (the width is below N here, so its own
    * wrapping shift is a plain one); otherwise all ones.
    */
  function Mask(f: BitField, w: Width): (m: nat)
    ensures w.Holds(m)
    ensures f.width >= w.Bits() ==> m == w.Ones()
  {
    if f.width < w.Bits() then
      ShlOne(f.width, w.Bits());
      Shl(Shl(1, f.width, w.Bits()) - 1, WrapShift(w, f.offset), w.Bits())
    else
      w.Ones()
  }

  /**
    * The mask has bit i set exactly when i lies in the cell and either the
    * width saturates or i is one of the `width` bits from the wrapped offset up.
    */
  lemma MaskShape(f: BitField, w: Width, i: nat)
    ensures BitOf(Mask(f, w), i) <==>
      i < w.Bits() && (f.width >= w.Bits() || WrapShift(w, f.offset) <= i < WrapShift(w, f.offset) + f.width)
  {
    var o := WrapShift(w, f.offset);
    if f.width < w.Bits() {
      ShlOne(f.width, w.Bits());
      ShlBit(Pow2(f.width) - 1, o, w.Bits(), i);
      if o <= i {
        LowOnesBit(f.width, i - o);
      }
    } else {
      LowOnesBit(w.Bits(), i);
    }
  }

  /** Below the saturation width the mask is ((2^width - 1) * 2^(offset mod W)) mod 2^W. */
  lemma MaskValue(f: BitField, w: Width)
    requires f.width < w.Bits()
    ensures Mask(f, w) == ((Pow2(f.width) - 1) * Pow2(f.offset % w.Bits())) % Pow2(w.Bits())
  {
    ShlOne(f.width, w.Bits());
    ShlValue(Pow2(f.width) - 1, WrapShift(w, f.offset), w.Bits());
  }

  /** A field that fits in the cell has exactly its own `width` bits set from `offset` up. */
  lemma MaskContiguous(f: BitField, w: Width, i: nat)
    requires f.width + f.offset <= w.Bits()
    ensures BitOf(Mask(f, w), i) <==> f.offset <= i < f.offset + f.width
  {
    MaskShape(f, w, i);
  }

  /** `get`: the field's bits, moved down to bit 0. */
  function Get(f: BitField, w: Width, target: nat): (r: nat)
    requires f.offset < w.Bits() && w.Holds(target)
    ensures w.Holds(r)
  {
    Shr(And(target, Mask(f, w)), f.offset)
  }

  /** Bit i of `get` is bit offset+i of the cell while that bit is inside the mask. */
  lemma GetBit(f: BitField, w: Width, target: nat, i: nat)
    requires f.offset < w.Bits() && w.Holds(target)
    ensures BitOf(Get(f, w, target), i) <==>
      i < f.width && i + f.offset < w.Bits() && BitOf(target, i + f.offset)
  {
    ShrBit(And(target, Mask(f, w)), f.offset, i);
    AndBit(target, Mask(f, w), i + f.offset);
    MaskShape(f, w, i + f.offset);
  }

  /** A field that fits reads as a value below 2^width. */
  lemma GetBound(f: BitField, w: Width, target: nat)
    requires f.offset < w.Bits() && w.Holds(target)
    requires f.width + f.offset <= w.Bits()
    ensures Get(f, w, target) < Pow2(f.width)
  {
    var r := Get(f, w, target);
    forall i | f.width <= i < w.Bits() ensures !BitOf(r, i) {
      GetBit(f, w, target, i);
    }
    ClearHighBits(r, f.width, w.Bits());
  }

  /** A field that fits reads as the cell divided by 2^offset, modulo 2^width. */
  lemma GetValue(f: BitField, w: Width, target: nat)
    requires f.offset < w.Bits() && w.Holds(target)
    requires f.width + f.offset <= w.Bits()
    ensures Get(f, w, target) == (target / Pow2(f.offset)) % Pow2(f.width)
  {
    var r, q := Get(f, w, target), (target / Pow2(f.offset)) % Pow2(f.width);
    GetBound(f, w, target);
    forall i | 0 <= i < f.width ensures BitOf(r, i) <==> BitOf(q, i) {
      GetBit(f, w, target, i);
      ExtractBit(target, f.offset, f.width, i);
    }
    BitsEqual(r, q, f.width);
  }

  /**
    * `set`: clear the field's bits of the cell, then or in `value << offset`
    * restricted to the mask.
    */
  function Set(f: BitField, w: Width, target: nat, value: nat): (r: nat)
    requires f.offset < w.Bits() && w.Holds(target) && w.Holds(value)
    ensures w.Holds(r)
  {
    var m := Mask(f, w);
    OrBound(And(target, Not(m, w.Bits())), And(Shl(value, f.offset, w.Bits()), m), w.Bits());
    Or(And(target, Not(m, w.Bits())), And(Shl(value, f.offset, w.Bits()), m))
  }

  /** Inside the mask `set` writes bit i - offset of the value (nothing below offset); outside it keeps the cell's bit. */
  lemma SetBit(f: BitField, w: Width, target: nat, value: nat, i: nat)
    requires f.offset < w.Bits() && w.Holds(target) && w.Holds(value)
    ensures BitOf(Set(f, w, target, value), i) <==>
      if BitOf(Mask(f, w), i) then f.offset <= i && BitOf(value, i - f.offset) else BitOf(target, i)
  {
    var m := Mask(f, w);
    if i >= w.Bits() {
      HighBitsZero(Set(f, w, target, value), w.Bits(), i);
      HighBitsZero(target, w.Bits(), i);
      HighBitsZero(m, w.Bits(), i);
    } else {
      var kept, written := And(target, Not(m, w.Bits())), And(Shl(value, f.offset, w.Bits()), m);
      OrBit(kept, written, i);
      AndBit(target, Not(m, w.Bits()), i);
      AndBit(Shl(value, f.offset, w.Bits()), m, i);
      NotBit(m, w.Bits(), i);
      ShlBit(value, f.offset, w.Bits(), i);
    }
  }

  /** `set` leaves every bit outside the mask as it was. */
  lemma SetFrame(f: BitField, w: Width, target: nat, value: nat)
    requires f.offset < w.Bits() && w.Holds(target) && w.Holds(value)
    ensures var notMask := Not(Mask(f, w), w.Bits());
      And(Set(f, w, target, value), notMask) == And(target, notMask)
  {
    var m := Mask(f, w);
    var notMask := Not(m, w.Bits());
    var x, y := And(Set(f, w, target, value), notMask), And(target, notMask);
    forall i | 0 <= i < w.Bits() ensures BitOf(x, i) <==> BitOf(y, i) {
      FrameBit(f, w, target, value, i);
    }
    BitsEqual(x, y, w.Bits());
  }

  lemma FrameBit(f: BitField, w: Width, target: nat, value: nat, i: nat)
    requires f.offset < w.Bits() && w.Holds(target) && w.Holds(value)
    ensures var notMask := Not(Mask(f, w), w.Bits());
      BitOf(And(Set(f, w, target, value), notMask), i) <==> BitOf(And(target, notMask), i)
  {
    var notMask := Not(Mask(f, w), w.Bits());
    AndBit(Set(f, w, target, value), notMask, i);
    AndBit(target, notMask, i);
    NotBit(Mask(f, w), w.Bits(), i);
    SetBit(f, w, target, value, i);
  }

  /** Reading back a field that fits yields the written value truncated to `width` bits. */
  lemma SetGetRoundTrip(f: BitField, w: Width, target: nat, value: nat)
    requires f.offset < w.Bits() && w.Holds(target) && w.Holds(value)
    requires f.width + f.offset <= w.Bits()
    ensures Get(f, w, Set(f, w, target, value)) == value % Pow2(f.width)
  {
    var r, q := Get(f, w, Set(f, w, target, value)), value % Pow2(f.width);
    Pow2Mono(f.width, w.Bits());
    forall i | 0 <= i < w.Bits() ensures BitOf(r, i) <==> BitOf(q, i) {
      RoundTripBit(f, w, target, value, i);
    }
    BitsEqual(r, q, w.Bits());
  }

  lemma RoundTripBit(f: BitField, w: Width, target: nat, value: nat, i: nat)
    requires f.offset < w.Bits() && w.Holds(target) && w.Holds(value)
    requires f.width + f.offset <= w.Bits()
    ensures BitOf(Get(f, w, Set(f, w, target, value)), i) <==> BitOf(value % Pow2(f.width), i)
  {
    GetBit(f, w, Set(f, w, target, value), i);
    ModBit(value, f.width, i);
    if i < f.width {
      WrittenBit(f, w, target, value, i);
    }
  }

  /** Inside a field that fits, `set` stores bit i of the value at bit offset + i. */
  lemma WrittenBit(f: BitField, w: Width, target: nat, value: nat, i: nat)
    requires f.offset < w.Bits() && w.Holds(target) && w.Holds(value)
    requires f.width + f.offset <= w.Bits() && i < f.width
    ensures BitOf(Set(f, w, target, value), i + f.offset) <==> BitOf(value, i)
  {
    var j := i + f.offset;
    SetBit(f, w, target, value, j);
    MaskContiguous(f, w, j);
    assert j - f.offset == i;
  }

  /** A second `set` of the same field overrides the first. */
  lemma SetOverwrite(f: BitField, w: Width, target: nat, value: nat, value': nat)
    requires f.offset < w.Bits() && w.Holds(target) && w.Holds(value) && w.Holds(value')
    ensures Set(f, w, Set(f, w, target, value), value') == Set(f, w, target, value')
  {
    var c := Set(f, w, target, value);
    var x, y := Set(f, w, c, value'), Set(f, w, target, value');
    forall i | 0 <= i < w.Bits() ensures BitOf(x, i) <==> BitOf(y, i) {
      OverwriteBit(f, w, target, value, value', i);
    }
    BitsEqual(x, y, w.Bits());
  }

  lemma OverwriteBit(f: BitField, w: Width, target: nat, value: nat, value': nat, i: nat)
    requires f.offset < w.Bits() && w.Holds(target) && w.Holds(value) && w.Holds(value')
    ensures BitOf(Set(f, w, Set(f, w, target, value), value'), i) <==> BitOf(Set(f, w, target, value'), i)
  {
    SetBit(f, w, Set(f, w, target, value), value', i);
    SetBit(f, w, target, value', i);
    SetBit(f, w, target, value, i);
  }

  /** Setting the same value twice is the same as setting it once. */
  lemma SetIdempotent(f: BitField, w: Width, target: nat, value: nat)
    requires f.offset < w.Bits() && w.Holds(target) && w.Holds(value)
    ensures Set(f, w, Set(f, w, target, value), value) == Set(f, w, target, value)
  {
    SetOverwrite(f, w, target, value, value);
  }

  /** Two fields that share no bit position. */
  predicate Disjoint(f: BitField, g: BitField)
  {
    f.offset + f.width <= g.offset || g.offset + g.width <= f.offset
  }

  /** Writing one field does not change what a disjoint field reads. */
  lemma SetPreservesOtherField(f: BitField, g: BitField, w: Width, target: nat, value: nat)
    requires f.offset < w.Bits() && g.offset < w.Bits() && w.Holds(target) && w.Holds(value)
    requires f.width + f.offset <= w.Bits() && Disjoint(f, g)
    ensures Get(g, w, Set(f, w, target, value)) == Get(g, w, target)
  {
    var x, y := Get(g, w, Set(f, w, target, value)), Get(g, w, target);
    forall i | 0 <= i < w.Bits() ensures BitOf(x, i) <==> BitOf(y, i) {
      OtherFieldBit(f, g, w, target, value, i);
    }
    BitsEqual(x, y, w.Bits());
  }

  lemma OtherFieldBit(f: BitField, g: BitField, w: Width, target: nat, value: nat, i: nat)
    requires f.offset < w.Bits() && g.offset < w.Bits() && w.Holds(target) && w.Holds(value)
    requires f.width + f.offset <= w.Bits() && Disjoint(f, g)
    ensures BitOf(Get(g, w, Set(f, w, target, value)), i) <==> BitOf(Get(g, w, target), i)
  {
    GetBit(g, w, Set(f, w, target, value), i);
    GetBit(g, w, target, i);
    if i < g.width && i + g.offset < w.Bits() {
      var j := i + g.offset;
      MaskContiguous(f, w, j);
      assert !(f.offset <= j < f.offset + f.width);
      SetBit(f, w, target, value, j);
    }
  }

  /** Writing back the value a fitting field reads leaves the cell unchanged. */
  lemma SetGetUnchanged(f: BitField, w: Width, target: nat)
    requires f.offset < w.Bits() && w.Holds(target)
    requires f.width + f.offset <= w.Bits()
    ensures Set(f, w, target, Get(f, w, target)) == target
  {
    var x := Set(f, w, target, Get(f, w, target));
    forall i | 0 <= i < w.Bits() ensures BitOf(x, i) <==> BitOf(target, i) {
      WriteBackBit(f, w, target, i);
    }
    BitsEqual(x, target, w.Bits());
  }

  lemma WriteBackBit(f: BitField, w: Width, target: nat, i: nat)
    requires f.offset < w.Bits() && w.Holds(target)
    requires f.width + f.offset <= w.Bits()
    ensures BitOf(Set(f, w, target, Get(f, w, target)), i) <==> BitOf(target, i)
  {
    var v := Get(f, w, target);
    SetBit(f, w, target, v, i);
    MaskContiguous(f, w, i);
    if f.offset <= i {
      GetBit(f, w, target, i - f.offset);
    }
  }

  /** Every field of a zero cell reads 0. */
  lemma GetOfZero(f: BitField, w: Width)
    requires f.offset < w.Bits()
    ensures Get(f, w, 0) == 0
  {
    forall i | 0 <= i < w.Bits() ensures BitOf(Get(f, w, 0), i) <==> BitOf(0, i) {
      GetBit(f, w, 0, i);
      ZeroBit(i + f.offset);
      ZeroBit(i);
    }
    BitsEqual(Get(f, w, 0), 0, w.Bits());
  }

  /** On an all-ones cell a fitting field reads its own all-ones value 2^width - 1. */
  lemma GetOfOnes(f: BitField, w: Width)
    requires f.offset < w.Bits() && f.width + f.offset <= w.Bits()
    ensures Get(f, w, w.Ones()) == Pow2(f.width) - 1
  {
    var r, ones := Get(f, w, w.Ones()), Pow2(f.width) - 1;
    Pow2Mono(f.width, w.Bits());
    forall i | 0 <= i < w.Bits() ensures BitOf(r, i) <==> BitOf(ones, i) {
      OnesBit(f, w, i);
    }
    BitsEqual(r, ones, w.Bits());
  }

  lemma OnesBit(f: BitField, w: Width, i: nat)
    requires f.offset < w.Bits() && f.width + f.offset <= w.Bits()
    ensures BitOf(Get(f, w, w.Ones()), i) <==> BitOf(Pow2(f.width) - 1, i)
  {
    assert w.Ones() == Pow2(w.Bits()) - 1;
    GetBit(f, w, w.Ones(), i);
    LowOnesBit(w.Bits(), i + f.offset);
    LowOnesBit(f.width, i);
  }

  /**
    * When the width saturates the mask covers the whole cell, so `set` stores
    * `value << offset` over it: the old cell is lost and the bits below
    * `offset` become 0.
    */
  lemma SaturatedSetOverwritesCell(f: BitField, w: Width, target: nat, value: nat)
    requires f.offset < w.Bits() && w.Holds(target) && w.Holds(value)
    requires f.width >= w.Bits()
    ensures Set(f, w, target, value) == Shl(value, f.offset, w.Bits())
    ensures forall i :: 0 <= i < f.offset ==> !BitOf(Set(f, w, target, value), i)
  {
    var x, y := Set(f, w, target, value), Shl(value, f.offset, w.Bits());
    forall i | 0 <= i < w.Bits() ensures BitOf(x, i) <==> BitOf(y, i) {
      SetBit(f, w, target, value, i);
      MaskShape(f, w, i);
      ShlBit(value, f.offset, w.Bits(), i);
    }
    BitsEqual(x, y, w.Bits());
    forall i | 0 <= i < f.offset ensures !BitOf(x, i) {
      ShlBit(value, f.offset, w.Bits(), i);
    }
  }

  /**
    * Zeroing a field on a cell whose ones start where the field starts
    * (bit `lo`) leaves ones only from where the field ends (bit `hi`) up.
    */
  lemma ClearLowestField(f: BitField, w: Width, lo: nat, hi: nat)
    requires f.offset == lo && lo + f.width == hi && hi <= w.Bits() && lo < w.Bits()
    ensures Set(f, w, HighOnes(w.Bits(), lo), 0) == HighOnes(w.Bits(), hi)
  {
    var x, y := Set(f, w, HighOnes(w.Bits(), lo), 0), HighOnes(w.Bits(), hi);
    forall i | 0 <= i < w.Bits() ensures BitOf(x, i) <==> BitOf(y, i) {
      ClearLowestBit(f, w, lo, hi, i);
    }
    BitsEqual(x, y, w.Bits());
  }

  lemma ClearLowestBit(f: BitField, w: Width, lo: nat, hi: nat, i: nat)
    requires f.offset == lo && lo + f.width == hi && hi <= w.Bits() && lo < w.Bits()
    ensures BitOf(Set(f, w, HighOnes(w.Bits(), lo), 0), i) <==> BitOf(HighOnes(w.Bits(), hi), i)
  {
    SetZeroBit(f, w, HighOnes(w.Bits(), lo), i);
    HighOnesBit(w.Bits(), lo, i);
    HighOnesBit(w.Bits(), hi, i);
  }

  /** Writing 0 to a field that fits clears exactly its bits. */
  lemma SetZeroBit(f: BitField, w: Width, target: nat, i: nat)
    requires f.width + f.offset <= w.Bits()
    requires f.offset < w.Bits() && w.Holds(target)
    ensures BitOf(Set(f, w, target, 0), i) <==> !(f.offset <= i < f.offset + f.width) && BitOf(target, i)
  {
    SetBit(f, w, target, 0, i);
    MaskContiguous(f, w, i);
    if f.offset <= i {
      ZeroBit(i - f.offset);
    }
  }

  /**
    * A saturated field does not round-trip: `BitField(8, 1)` on a u8 cell
    * stores 0xff as 0xfe ...
    */
  lemma SaturatedFieldStore()
    ensures Set(BitField(8, 1), U8, 0xff, 0xff) == 0xfe
  {
    Pow2Of8();
    SaturatedSetOverwritesCell(BitField(8, 1), U8, 0xff, 0xff);
    ShiftedByte();
  }

  /** 0xff shifted left by one in a u8 is 0xfe. */
  lemma ShiftedByte()
    ensures Shl(0xff, 1, 8) == 0xfe
  {
    Pow2Of8();
    assert Shl(0xff, 1, 8) == ((2 * 0xff) % 0x100) % 0x100;
  }

  /** ... and reads 0xfe back as 0x7f. */
  lemma SaturatedFieldLoad()
    ensures Get(BitField(8, 1), U8, 0xfe) == 0x7f
  {
    var f := BitField(8, 1);
    Pow2Of8();
    assert HighOnes(8, 1) == 0xfe;
    assert Pow2(7) - 1 == 0x7f;
    forall i | 0 <= i < 8 ensures BitOf(Get(f, U8, 0xfe), i) <==> BitOf(0x7f, i) {
      GetBit(f, U8, 0xfe, i);
      HighOnesBit(8, 1, i + 1);
      LowOnesBit(7, i);
    }
    BitsEqual(Get(f, U8, 0xfe), 0x7f, 8);
  }

  /** The masks the unit test for `mask_u8` expects. */
  lemma MaskU8UnitTest()
    ensures Mask(BitField(1, 0), U8) == 0x01 && Mask(BitField(2, 0), U8) == 0x03
    ensures Mask(BitField(3, 0), U8) == 0x07 && Mask(BitField(4, 0), U8) == 0x0f
    ensures Mask(BitField(5, 0), U8) == 0x1f && Mask(BitField(6, 0), U8) == 0x3f
    ensures Mask(BitField(7, 0), U8) == 0x7f && Mask(BitField(8, 0), U8) == 0xff
    ensures Mask(BitField(2, 1), U8) == 0x03 * 2
  {
    NarrowMasksU8();
    WideMasksU8();
    Pow2Of8();
    Pow2Small();
    assert Mask(BitField(2, 1), U8) == 0x06 by { MaskValue(BitField(2, 1), U8); }
  }

  /** The u8 masks of widths 1 to 4 at offset 0. */
  lemma NarrowMasksU8()
    ensures Mask(BitField(1, 0), U8) == 0x01 && Mask(BitField(2, 0), U8) == 0x03
    ensures Mask(BitField(3, 0), U8) == 0x07 && Mask(BitField(4, 0), U8) == 0x0f
  {
    Pow2Of8();
    Pow2Small();
    assert Mask(BitField(1, 0), U8) == 0x01 by { MaskValue(BitField(1, 0), U8); }
    assert Mask(BitField(2, 0), U8) == 0x03 by { MaskValue(BitField(2, 0), U8); }
    assert Mask(BitField(3, 0), U8) == 0x07 by { MaskValue(BitField(3, 0), U8); }
    assert Mask(BitField(4, 0), U8) == 0x0f by { MaskValue(BitField(4, 0), U8); }
  }

  /** The u8 masks of widths 5 to 7 at offset 0. */
  lemma WideMasksU8()
    ensures Mask(BitField(5, 0), U8) == 0x1f && Mask(BitField(6, 0), U8) == 0x3f
    ensures Mask(BitField(7, 0), U8) == 0x7f
  {
    Pow2Of8();
    Pow2Small();
    assert Mask(BitField(5, 0), U8) == 0x1f by { MaskValue(BitField(5, 0), U8); }
    assert Mask(BitField(6, 0), U8) == 0x3f by { MaskValue(BitField(6, 0), U8); }
    assert Mask(BitField(7, 0), U8) == 0x7f by { MaskValue(BitField(7, 0), U8); }
  }
}
