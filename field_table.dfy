/**
  * The field table a bit-field type declares: one BitField per declared
  * width, each starting where the fields before it end.
  */
module FieldTable {
  import opened BitFieldOps

  datatype Option<T> = None | Some(value: T)

  /** w0 + w1 + ... of the widths given. */
  function Sum(widths: seq<uint8>): (r: nat)
  {
    if widths == [] then 0 else Sum(widths[..|widths| - 1]) + widths[|widths| - 1]
  }

  /** The offsets of the table, one per width: each one fits the u8 it is stored in. */
  predicate OffsetsFit(widths: seq<uint8>)
  {
    forall i :: 0 <= i < |widths| ==> Sum(widths[..i]) < 0x100
  }

  /** Field i is `BitField(w_i, w_(i-1) + ... + w_0)`; field 0 starts at bit 0. */
  function Table(widths: seq<uint8>): (t: seq<BitField>)
    requires OffsetsFit(widths)
    ensures |t| == |widths|
  {
    seq(|widths|, i requires 0 <= i < |widths| => BitField(widths[i], Sum(widths[..i])))
  }

  /** `field(index)`: the table entry, or None where the slice index would panic. */
  function Lookup(table: seq<BitField>, index: nat): (r: Option<BitField>)
    ensures r.Some? <==> index < |table|
    ensures r.Some? ==> r.value == table[index]
  {
    if index < |table| then Some(table[index]) else None
  }

  /** `field(index)` on a declared table: field i of the widths, or None past the end. */
  lemma LookupTable(widths: seq<uint8>, index: nat)
    requires OffsetsFit(widths)
    ensures index < |widths| ==> Lookup(Table(widths), index) == Some(BitField(widths[index], Sum(widths[..index])))
    ensures index >= |widths| ==> Lookup(Table(widths), index) == None
  {
  }

  lemma SumStep(widths: seq<uint8>, i: nat)
    requires i < |widths|
    ensures Sum(widths[..i + 1]) == Sum(widths[..i]) + widths[i]
  {
    assert widths[..i + 1][..i] == widths[..i];
  }

  /** Prefix sums never decrease. */
  lemma {:induction false} SumMono(widths: seq<uint8>, i: nat, j: nat)
    requires i <= j <= |widths|
    ensures Sum(widths[..i]) <= Sum(widths[..j])
    decreases j - i
  {
    if i < j {
      SumStep(widths, j - 1);
      SumMono(widths, i, j - 1);
    }
  }

  /** Each field begins exactly where the previous one ends. */
  lemma TableAdjacent(widths: seq<uint8>, i: nat)
    requires OffsetsFit(widths) && i + 1 < |widths|
    ensures Table(widths)[i + 1].offset == Table(widths)[i].offset + Table(widths)[i].width
  {
    SumStep(widths, i);
  }

  /** Distinct fields of a table share no bit. */
  lemma TableDisjoint(widths: seq<uint8>, i: nat, j: nat)
    requires OffsetsFit(widths) && i < j < |widths|
    ensures Disjoint(Table(widths)[i], Table(widths)[j])
  {
    SumStep(widths, i);
    SumMono(widths, i + 1, j);
  }

  /** Offsets strictly increase when no width is 0. */
  lemma TableIncreasing(widths: seq<uint8>, i: nat, j: nat)
    requires OffsetsFit(widths) && i < j < |widths|
    requires forall k :: 0 <= k < |widths| ==> widths[k] > 0
    ensures Table(widths)[i].offset < Table(widths)[j].offset
  {
    SumStep(widths, i);
    SumMono(widths, i + 1, j);
  }

  /** When the widths add up to at most the cell's width, every field lies inside the cell. */
  lemma TableFits(widths: seq<uint8>, w: Width, i: nat)
    requires OffsetsFit(widths) && i < |widths|
    requires Sum(widths) <= w.Bits()
    ensures Table(widths)[i].offset + Table(widths)[i].width <= w.Bits()
  {
    SumStep(widths, i);
    SumMono(widths, i + 1, |widths|);
    assert widths[..|widths|] == widths;
  }

  /** The table of widths 1, 2, 3, 2 has offsets 0, 1, 3, 6. */
  lemma Table1232()
    ensures OffsetsFit([1, 2, 3, 2])
    ensures Table([1, 2, 3, 2]) ==
      [BitField(1, 0), BitField(2, 1), BitField(3, 3), BitField(2, 6)]
  {
    var ws: seq<uint8> := [1, 2, 3, 2];
    assert ws[..0] == [] && ws[..1] == [1] && ws[..2] == [1, 2] && ws[..3] == [1, 2, 3];
    assert Sum(ws[..1]) == 1 by { assert ws[..1][..0] == []; }
    assert Sum(ws[..2]) == 3 by { assert ws[..2][..1] == ws[..1]; }
    assert Sum(ws[..3]) == 6 by { assert ws[..3][..2] == ws[..2]; }
  }

  /** The table of widths 1, 2, 3, 4, 5, 1 has offsets 0, 1, 3, 6, 10, 15. */
  lemma Table123451()
    ensures OffsetsFit([1, 2, 3, 4, 5, 1])
    ensures Table([1, 2, 3, 4, 5, 1]) ==
      [BitField(1, 0), BitField(2, 1), BitField(3, 3), BitField(4, 6), BitField(5, 10), BitField(1, 15)]
  {
    var ws: seq<uint8> := [1, 2, 3, 4, 5, 1];
    assert ws[..0] == [];
    assert Sum(ws[..1]) == 1 by { SumStep(ws, 0); }
    assert Sum(ws[..2]) == 3 by { SumStep(ws, 1); }
    assert Sum(ws[..3]) == 6 by { SumStep(ws, 2); }
    assert Sum(ws[..4]) == 10 by { SumStep(ws, 3); }
    assert Sum(ws[..5]) == 15 by { SumStep(ws, 4); }
  }
}
