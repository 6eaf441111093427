/**
  * A bit-field type: one storage cell, updated in place, read and written
  * through its field table.
  */
module BitStruct {
  import opened NonlinearArith
  import opened Word
  import opened BitFieldOps
  import opened FieldTable

  class Packed {
    /** The type of the storage cell (u8, u16, u32 or u64). */
    const cell: Width
    /** The field table `fields()` returns. */
    const fields: seq<BitField>
    /** The storage cell. */
    var bits: nat

    predicate Valid()
      reads this
    {
      cell.Holds(bits)
    }

    /** Field `index` exists and its offset is a legal shift amount for the cell. */
    predicate Addressable(index: nat)
    {
      index < |fields| && fields[index].offset < cell.Bits()
    }

    /** Field `index` lies entirely inside the cell. */
    predicate Fits(index: nat)
      requires index < |fields|
    {
      fields[index].width + fields[index].offset <= cell.Bits()
    }

    /** The tuple constructor: a cell of the given type holding `init`, with the table built from `widths`. */
    constructor (cell: Width, widths: seq<uint8>, init: nat)
      requires OffsetsFit(widths) && cell.Holds(init)
      ensures Valid() && this.cell == cell && fields == Table(widths) && bits == init
    {
      this.cell := cell;
      fields := Table(widths);
      bits := init;
    }

    /** `all()`: the whole cell. */
    function All(): (r: nat)
      reads this
    {
      bits
    }

    /** The getter generated for field `index`. */
    function Read(index: nat): (r: nat)
      reads this
      requires Valid() && Addressable(index)
      ensures cell.Holds(r)
      ensures Fits(index) ==> r < Pow2(fields[index].width)
    {
      if Fits(index) then GetBound(fields[index], cell, bits); Get(fields[index], cell, bits)
      else Get(fields[index], cell, bits)
    }

    /** The setter `set_<field>` generated for field `index`. */
    method Write(index: nat, value: nat)
      requires Valid() && Addressable(index) && cell.Holds(value)
      modifies this
      ensures Valid() && bits == Set(fields[index], cell, old(bits), value)
      ensures Fits(index) ==> Read(index) == value % Pow2(fields[index].width)
      ensures Fits(index) ==> forall j: nat :: Addressable(j) && Disjoint(fields[index], fields[j]) ==> Read(j) == old(Read(j))
    {
      ghost var before := bits;
      bits := Set(fields[index], cell, bits, value);
      if Fits(index) {
        SetGetRoundTrip(fields[index], cell, before, value);
        forall j: nat | Addressable(j) && Disjoint(fields[index], fields[j])
          ensures Get(fields[j], cell, bits) == Get(fields[j], cell, before)
        {
          SetPreservesOtherField(fields[index], fields[j], cell, before, value);
        }
      }
    }

    /** `clear()`: the cell becomes 0, so every field reads 0. */
    method Clear()
      requires Valid()
      modifies this
      ensures Valid() && All() == 0
      ensures forall j: nat :: Addressable(j) ==> Read(j) == 0
    {
      bits := 0;
      forall j: nat | Addressable(j) ensures Get(fields[j], cell, 0) == 0 {
        GetOfZero(fields[j], cell);
      }
    }

    /** `fill(value)`: the cell becomes `value`. */
    method Fill(value: nat)
      requires Valid() && cell.Holds(value)
      modifies this
      ensures Valid() && All() == value
    {
      bits := value;
    }
  }

  /** The u8 cell values the unit test passes through. */
  lemma U8CellValues()
    ensures HighOnes(8, 0) == 0xff && HighOnes(8, 1) == 0xfe && HighOnes(8, 3) == 0xf8
    ensures HighOnes(8, 6) == 0xc0 && HighOnes(8, 8) == 0
  {
    Pow2Of8();
    Pow2Small();
  }

  /** The u16 cell values the unit test passes through. */
  lemma U16CellValues()
    ensures HighOnes(16, 0) == 0xffff && HighOnes(16, 16) == 0
  {
    Pow2Of16();
  }

  /** On an all-ones cell a field of `n` bits that fits reads 2^n - 1. */
  lemma ReadsOfOnes(s: Packed, j: nat, n: nat)
    requires s.Valid() && s.Addressable(j) && s.Fits(j) && s.bits == s.cell.Ones()
    requires s.fields[j].width == n
    ensures s.Read(j) == Pow2(n) - 1
  {
    GetOfOnes(s.fields[j], s.cell);
  }

  /** A u8 cell carrying the table `decl_fields!(1, 2, 3, 2)` declares: a:1, b:2, c:3, d:2. */
  predicate IsU8(s: Packed)
    reads s
  {
    && s.Valid() && s.cell == U8 && |s.fields| == 4
    && s.fields[0] == BitField(1, 0) && s.fields[1] == BitField(2, 1)
    && s.fields[2] == BitField(3, 3) && s.fields[3] == BitField(2, 6)
  }

  /**
    * The u8 type with fields a:1, b:2, c:3, d:2, exercised as its unit test
    * does; the object is returned in its final state.
    */
  method ExerciseU8() returns (s: Packed)
    ensures IsU8(s) && s.All() == 0xff
    ensures s.Read(0) == 1 && s.Read(1) == 3 && s.Read(2) == 7 && s.Read(3) == 3
  {
    Table1232();
    s := new Packed(U8, [1, 2, 3, 2], 0xff);
    assert IsU8(s);
    CheckOnesU8(s);
    ClearEachU8(s);
    s.Fill(0x55);
    assert s.All() == 0x55;
    s.Clear();
    assert s.All() == 0x00;
    s.Fill(0xff);
    assert s.All() == 0xff;
    CheckOnesU8(s);
  }

  /** The fields of the all-ones u8 cell read 1, 3, 7 and 3. */
  lemma CheckOnesU8(s: Packed)
    requires IsU8(s) && s.bits == 0xff
    ensures s.Read(0) == 1 && s.Read(1) == 3 && s.Read(2) == 7 && s.Read(3) == 3
  {
    Pow2Small();
    ReadsOfOnes(s, 0, 1);
    ReadsOfOnes(s, 1, 2);
    ReadsOfOnes(s, 2, 3);
    ReadsOfOnes(s, 3, 2);
  }

  /**
    * One `set_<field>(0)` on a cell whose ones start where the field starts:
    * afterwards they start where the field ends.
    */
  method ClearLowest(s: Packed, index: nat, lo: nat, hi: nat)
    requires s.Valid() && s.Addressable(index) && s.Fits(index)
    requires s.fields[index].offset == lo && lo + s.fields[index].width == hi
    requires s.bits == HighOnes(s.cell.Bits(), lo)
    modifies s
    ensures s.Valid() && s.bits == HighOnes(s.cell.Bits(), hi)
    ensures s.Read(index) == 0
  {
    ClearLowestField(s.fields[index], s.cell, lo, hi);
    SmallMod(0, Pow2(s.fields[index].width));
    s.Write(index, 0);
  }

  /** `set_a(0)`, `set_b(0)`, `set_c(0)`, `set_d(0)` on the all-ones u8 cell. */
  method ClearEachU8(s: Packed)
    requires IsU8(s) && s.bits == 0xff
    modifies s
    ensures IsU8(s) && s.bits == 0
  {
    U8CellValues();
    ClearLowest(s, 0, 0, 1);
    assert s.All() == 0xfe && s.Read(0) == 0;
    ClearLowest(s, 1, 1, 3);
    assert s.All() == 0xf8 && s.Read(1) == 0;
    ClearLowest(s, 2, 3, 6);
    assert s.All() == 0xc0 && s.Read(2) == 0;
    ClearLowest(s, 3, 6, 8);
    assert s.All() == 0x00 && s.Read(3) == 0;
  }

  /** A u16 cell carrying the table `decl_fields!(1, 2, 3, 4, 5, 1)` declares: a:1, b:2, c:3, d:4, e:5, f:1. */
  predicate IsU16(s: Packed)
    reads s
  {
    && s.Valid() && s.cell == U16 && |s.fields| == 6
    && s.fields[0] == BitField(1, 0) && s.fields[1] == BitField(2, 1) && s.fields[2] == BitField(3, 3)
    && s.fields[3] == BitField(4, 6) && s.fields[4] == BitField(5, 10) && s.fields[5] == BitField(1, 15)
  }

  /**
    * The u16 type with fields a:1, b:2, c:3, d:4, e:5, f:1, exercised as its
    * unit test does; the object is returned in its final state.
    */
  method ExerciseU16() returns (s: Packed)
    ensures IsU16(s) && s.All() == 0xffff
    ensures s.Read(0) == 1 && s.Read(1) == 3 && s.Read(2) == 7
    ensures s.Read(3) == 15 && s.Read(4) == 31 && s.Read(5) == 1
  {
    Table123451();
    Pow2Of16();
    s := new Packed(U16, [1, 2, 3, 4, 5, 1], 0xffff);
    assert IsU16(s) && s.All() == 0xffff;
    CheckLowerOnesU16(s);
    CheckUpperOnesU16(s);
    ClearEachU16(s);
    s.Fill(0x55aa);
    assert s.All() == 0x55aa;
    s.Clear();
    assert s.All() == 0;
    s.Fill(0xffff);
    assert s.All() == 0xffff;
    CheckLowerOnesU16(s);
    CheckUpperOnesU16(s);
  }

  /** a, b and c of the all-ones u16 cell read 1, 3 and 7. */
  lemma CheckLowerOnesU16(s: Packed)
    requires IsU16(s) && s.bits == 0xffff
    ensures s.Read(0) == 1 && s.Read(1) == 3 && s.Read(2) == 7
  {
    Pow2Small();
    ReadsOfOnes(s, 0, 1);
    ReadsOfOnes(s, 1, 2);
    ReadsOfOnes(s, 2, 3);
  }

  /** d, e and f of the all-ones u16 cell read 15, 31 and 1. */
  lemma CheckUpperOnesU16(s: Packed)
    requires IsU16(s) && s.bits == 0xffff
    ensures s.Read(3) == 15 && s.Read(4) == 31 && s.Read(5) == 1
  {
    Pow2Small();
    ReadsOfOnes(s, 3, 4);
    ReadsOfOnes(s, 4, 5);
    ReadsOfOnes(s, 5, 1);
  }

  /** `set_a(0)` ... `set_f(0)` on the all-ones u16 cell; each field reads 0 right after its own set. */
  method ClearEachU16(s: Packed)
    requires IsU16(s) && s.bits == 0xffff
    modifies s
    ensures IsU16(s) && s.bits == 0
  {
    U16CellValues();
    ClearLowest(s, 0, 0, 1);
    assert s.Read(0) == 0;
    ClearLowest(s, 1, 1, 3);
    assert s.Read(1) == 0;
    ClearLowest(s, 2, 3, 6);
    assert s.Read(2) == 0;
    ClearLowest(s, 3, 6, 10);
    assert s.Read(3) == 0;
    ClearLowest(s, 4, 10, 15);
    assert s.Read(4) == 0;
    ClearLowest(s, 5, 15, 16);
    assert s.Read(5) == 0;
  }
}
