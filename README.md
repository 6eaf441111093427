# rust-bitfield: the bit-field engine, modelled in Dafny

`rust-bitfield` packs named bit fields into one unsigned storage cell
(`u8`, `u16`, `u32` or `u64`). A `BitField(width, offset)` describes one field.
From it the library computes a mask (`mask_u8` … `mask_u64`). It reads a field
with `get = (target & mask) >> offset` and writes one with
`set: *target = (*target & !mask) | ((value << offset) & mask)`.
The `bitfeilds!` macro declares a tuple struct around the cell. It gives that
struct a static field table whose offsets are the running sums of the declared
widths. It also generates a getter and a `set_<field>` setter per field, plus
`all`, `clear` and `fill`.

This project models that engine for all four cell types at once.

- A cell type is a `Width` (`U8 | U16 | U32 | U64`). A cell value is a natural
  number below 2^N, where N is the width in bits.
- Module `Word` defines `&`, `|`, `!`, `<<` and `>>` arithmetically on
  naturals. `AndBit`, `OrBit`, `NotBit`, `ShlBit` and `ShrBit` describe them
  bit by bit. `BitOf` gives one bit of a value, and `BitsEqual` is the
  extensionality principle.
- Module `BitFieldOps` holds the mask, `get` and `set` (as the new value of
  `*target`), and the laws they satisfy.
- Module `FieldTable` holds the prefix-sum table that `decl_fields!` declares
  and the bounds-checked `field(index)`.
- Module `BitStruct` holds the generated struct: class `Packed`, whose storage
  cell is a mutable field. Its getter is `Read`. Its setter, `clear` and `fill`
  are methods that update the cell in place.

`BitStruct` also replays the two in-file unit tests as method calls on a
`Packed` object: the u8 fields a:1, b:2, c:3, d:2 and the u16 fields a:1 … f:1.

Files:

- `nonlinear_arith.dfy`: division and remainder facts.
- `word.dfy`: k-bit words and their bitwise operators.
- `bitfield_ops.dfy`: the mask, get, set and their laws.
- `field_table.dfy`: the field table.
- `bit_struct.dfy`: the generated struct and the unit-test scenarios.

Conventions:

- `wrapping_shl(s)` on an N-bit value shifts by `s mod N`, and bits moved past
  bit N-1 are lost (`WrapShift`, `Shl`).
- The plain `<<` and `>>` in `get` and `set` overflow when `offset >= N`. The
  model states `offset < N` as a precondition of `Get` and `Set`.
- `BitField::new(width, offset)` is the datatype constructor
  `BitField(width, offset)`. Width and offset are bytes (`uint8`).

Two facts about the code that the model makes explicit:

- The mask is a run of `width` ones starting at `offset` only when
  width + offset <= N. The offset shift wraps modulo N, and bits shifted past
  bit N-1 are lost (`MaskContiguous`; `MaskShape` gives the general case).
- Nothing checks that the declared widths fit the cell, and
  `FieldTable.Table` does not check it either. `TableFits` states what holds
  when they do fit.

## Model

| member | source | states |
|---|---|---|
| BitFieldOps.Width.Ones | src/lib.rs:26-55 | the saturated mask constant of each cell type (0xff, 0xffff, …) is 2^N - 1 |
| BitFieldOps.WrapShift | src/lib.rs:28 | the amount `wrapping_shl` shifts by is below N, and equals the requested amount when that is already below N |
| BitFieldOps.Mask | src/lib.rs:26-55 | the mask is a value of the cell type, and it is all ones whenever width >= N |
| BitFieldOps.MaskShape | src/lib.rs:26-55 | bit i of the mask is set exactly when i < N and either width >= N or i lies among the `width` bits starting at `offset mod N` (bits shifted past N-1 are lost) |
| BitFieldOps.MaskValue | src/lib.rs:28 | for width < N the mask equals ((2^width - 1) * 2^(offset mod N)) mod 2^N |
| BitFieldOps.MaskContiguous | src/lib.rs:26-55 | when width + offset <= N the mask has exactly the `width` contiguous bits offset … offset+width-1 set |
| BitFieldOps.MaskU8UnitTest | src/lib.rs:351-362 | `mask_u8` of BitField(1..8, 0) is 0x01, 0x03, …, 0xff, and of BitField(2, 1) is 0x03 << 1 |
| BitFieldOps.Get | src/lib.rs:58-104 | `get` yields a value of the cell type |
| BitFieldOps.GetBit | src/lib.rs:60-62 | bit i of `get` is bit offset+i of the cell, while i < width and offset+i < N, and 0 otherwise |
| BitFieldOps.GetBound | src/lib.rs:60-62 | a field that fits the cell reads as a value below 2^width |
| BitFieldOps.GetValue | src/lib.rs:60-62 | a field that fits reads as (cell / 2^offset) mod 2^width |
| BitFieldOps.Set | src/lib.rs:58-104 | `set` stores a value of the cell type |
| BitFieldOps.SetBit | src/lib.rs:65-67 | bit i of the new cell is bit i-offset of `value` inside the mask (0 below offset), and the old bit i outside it |
| BitFieldOps.SetFrame | src/lib.rs:65-67 | new & !mask == old & !mask: no bit outside the mask changes |
| BitFieldOps.SetGetRoundTrip | src/lib.rs:60-67 | for a field that fits, `get` after `set(value)` returns value mod 2^width (the high bits of value are silently dropped) |
| BitFieldOps.SetOverwrite | src/lib.rs:65-67 | `set(v)` then `set(v')` gives the same cell as `set(v')` alone |
| BitFieldOps.SetIdempotent | src/lib.rs:65-67 | `set(v)` twice gives the same cell as `set(v)` once |
| BitFieldOps.SetPreservesOtherField | src/lib.rs:60-67 | writing a field that fits leaves what every disjoint field reads unchanged |
| BitFieldOps.SetGetUnchanged | src/lib.rs:60-67 | writing back the value a fitting field reads leaves the cell unchanged |
| BitFieldOps.WrittenBit | src/lib.rs:65-67 | inside a field that fits, `set` stores bit i of the value at bit offset + i |
| BitFieldOps.SetZeroBit | src/lib.rs:65-67 | `set(0)` on a field that fits clears exactly its bits and keeps every other bit |
| BitFieldOps.GetOfZero | src/lib.rs:60-62 | every field of a zero cell reads 0 |
| BitFieldOps.GetOfOnes | src/lib.rs:60-62 | on an all-ones cell a field that fits reads 2^width - 1 |
| BitFieldOps.SaturatedSetOverwritesCell | src/lib.rs:26-67 | when width >= N, `set` returns value << offset whatever the old cell held, so every bit below offset becomes 0 |
| BitFieldOps.SaturatedFieldStore | src/lib.rs:65-67 | BitField(8, 1) on a u8 cell stores 0xff as 0xfe: the saturated field loses bit 0 of the cell and the top bit of the value |
| BitFieldOps.SaturatedFieldLoad | src/lib.rs:60-62 | BitField(8, 1) on a u8 cell reads 0xfe as 0x7f, so a saturated field with offset > 0 does not round-trip |
| BitFieldOps.ClearLowestField | src/lib.rs:376-383 | on a cell whose ones start at a field's offset, `set(0)` moves the start of the ones to the field's end (0xff → 0xfe → 0xf8 → 0xc0 → 0x00 in the u8 test) |
| FieldTable.Table | src/lib.rs:117-158 | the table has one field per declared width |
| FieldTable.TableAdjacent | src/lib.rs:117-158 | each field starts exactly where the previous one ends |
| FieldTable.TableDisjoint | src/lib.rs:117-158 | distinct fields of a table share no bit |
| FieldTable.TableIncreasing | src/lib.rs:117-158 | with no zero width, offsets strictly increase |
| FieldTable.TableFits | src/lib.rs:117-158 | when the widths add up to at most N, every field lies inside the cell |
| FieldTable.LookupTable | src/lib.rs:199-201 | `field(index)` on a declared table yields BitField(w_index, w_0 + … + w_(index-1)) for index < length, and the panic case (None) otherwise |
| FieldTable.Table1232 | src/lib.rs:365-370 | widths 1, 2, 3, 2 give four fields at offsets 0, 1, 3, 6 |
| FieldTable.Table123451 | src/lib.rs:394-400 | widths 1, 2, 3, 4, 5, 1 give six fields at offsets 0, 1, 3, 6, 10, 15 |
| FieldTable.Lookup | src/lib.rs:199-201 | `field(index)` yields table[index] exactly when index < length, and the slice-index error otherwise |
| BitStruct.Packed.constructor | src/lib.rs:187-209 | the tuple constructor holds the initial cell, and `fields()` is the prefix-sum table of the declared widths |
| BitStruct.Packed.Read | src/lib.rs:212-218 | the getter yields a cell value, below 2^width for a field that fits |
| BitStruct.Packed.Write | src/lib.rs:219-223 | the setter stores `set` of the old cell, after which the field reads value mod 2^width and every disjoint field reads what it read before |
| BitStruct.Packed.Clear | src/lib.rs:111 | after `clear`, `all()` is 0 and every field reads 0 |
| BitStruct.Packed.Fill | src/lib.rs:112 | after `fill(v)`, `all()` is v |
| BitStruct.ReadsOfOnes | src/lib.rs:212-218 | on an all-ones cell the getter of an n-bit field that fits returns 2^n - 1 |
| BitStruct.ExerciseU8 | src/lib.rs:367-391 | the whole `test_bitfield_u8`: Bi8_1232(0xff) has four fields reading 1, 3, 7, 3; `set_a(0)` … `set_d(0)` leave 0xfe, 0xf8, 0xc0, 0x00 with each field reading 0 after its own set; `fill(0x55)`, `clear()`, `fill(0xff)` leave `all()` at 0x55, 0x00, 0xff; the fields then read 1, 3, 7, 3 again (final state in the ensures, the rest asserted in the verified body) |
| BitStruct.CheckOnesU8 | src/lib.rs:372-375 | the u8 fields a, b, c, d of the cell 0xff read 1, 3, 7, 3 |
| BitStruct.ClearLowest | src/lib.rs:219-223 | one `set_<field>(0)` on a cell whose ones start at the field moves them to the field's end, and the field then reads 0 |
| BitStruct.ClearEachU8 | src/lib.rs:376-383 | `set_a(0)` … `set_d(0)` on 0xff end at 0x00 (the body asserts the steps 0xfe, 0xf8, 0xc0 and each field reading 0 after its own set) |
| BitStruct.ExerciseU16 | src/lib.rs:396-424 | the whole `test_bitfield_u16`: Bi16_123451(0xffff) has six fields, `all()` is 0xffff and they read 1, 3, 7, 15, 31, 1; each `set_x(0)` leaves its field reading 0 and the cell ends at 0; `fill(0x55AA)`, `clear()`, `fill(0xffff)` leave `all()` at 0x55aa, 0, 0xffff; the fields then read 1, 3, 7, 15, 31, 1 again (final state in the ensures, the rest asserted in the verified body) |
| BitStruct.CheckLowerOnesU16 | src/lib.rs:402-404 | the u16 fields a, b, c of the cell 0xffff read 1, 3, 7 |
| BitStruct.CheckUpperOnesU16 | src/lib.rs:405-407 | the u16 fields d, e, f of the cell 0xffff read 15, 31, 1 |
| BitStruct.ClearEachU16 | src/lib.rs:408-414 | `set_a(0)` … `set_f(0)` each leave their field reading 0, and the cell ends at 0 |
| Word.ShlValue | src/lib.rs:66 | the N-bit `x << s` is x * 2^s mod 2^N |
| Word.ShrValue | src/lib.rs:61 | `x >> s` is x / 2^s |
| Word.AndBit | src/lib.rs:61 | bit i of a & b is set exactly when it is set in both |
| Word.OrBit | src/lib.rs:66 | bit i of a \| b is set exactly when it is set in either |
| Word.NotBit | src/lib.rs:66 | bit i of the N-bit !x is set exactly when i < N and bit i of x is clear |

## Left out

- Debug-mode overflow panics of `value << offset` and `>> offset` for
  `offset >= N` are not modelled. `Get`, `Set`, `Packed.Read` and
  `Packed.Write` require `offset < N` instead. In release builds Rust would
  mask the shift amount; that behaviour is not modelled either.
- The generated getters and setters index the table with a constant field
  number, so `field(index)` never panics in them. `Packed.Read` and
  `Packed.Write` therefore require an index inside the table. The
  out-of-range panic of `field(index)` is modelled only by
  `FieldTable.Lookup`, as `None`.
- Three macro arms carry typos and are not modelled as written:
  - the 8-field arm of `decl_fields!` adds `+w1` instead of `$w1` for the
    fourth offset (src/lib.rs:177);
  - the 7-field arm of `bitfeilds!` passes `$f6` instead of `$w6` as the last
    width (src/lib.rs:331);
  - the 8-field arm of `bitfeilds!` does the same and also drops `$w7`
    (src/lib.rs:336).
  The model uses the prefix-sum rule that every other arm of `decl_fields!`
  follows (the 2- to 7-field arms, src/lib.rs:118-170), for any number of
  fields.
- Offsets in `decl_fields!` are `u8` sums computed when the program is
  compiled, and a sum of 256 or more does not compile. `Packed.constructor`
  and `FieldTable.Table` require every offset to be below 256
  (`OffsetsFit`); they do not model that compile-time error.
- The code-generating macros (`decl_type!`, `impl_fields!`,
  `impl_getter_setter!`, `bitfeilds!`, the `paste` name generation) become a
  single class, `Packed`, whose fields are numbered instead of named.
- `size_of` and `#[repr(C)]` are about memory layout and are not modelled.
- `&mut Self` chaining of `set_<field>`, `clear` and `fill` becomes
  sequential method calls.
- `all()` is the class function `All` and carries no contract of its own.
- The `as $DataType` cast in the getter is the identity here and is not
  modelled.
- `examples/basic.rs` is a printing demo with no logic of its own and is not
  part of this model.
- The library has no single-bit boolean accessor and no `msb..lsb` range
  addressing, and neither is modelled.
- The width-shift `1.wrapping_shl(width)` in `Mask` is written as a plain
  shift. It runs only when width < N, where the two agree.
