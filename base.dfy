/** Shared value types: the C# integer widths the compiler relies on, and
    its unchecked wrap-around arithmetic written out explicitly. */
module Base {

  datatype Option<T> = None | Some(value: T)

  const TWO32: int := 0x1_0000_0000

  /** C# `uint`. */
  type u32 = x: int | 0 <= x < 0x1_0000_0000
  /** C# `int`. */
  type i32 = x: int | -0x8000_0000 <= x < 0x8000_0000
  /** C# `byte`: one octet of the binary table. */
  type byte = x: int | 0 <= x < 0x100
  /** C# `sbyte`. */
  type i8 = x: int | -0x80 <= x < 0x80

  /** Unchecked `uint - 1`: zero wraps to 0xFFFF_FFFF. */
  function Dec32(x: u32): (r: u32)
    ensures (r + 1) % TWO32 == x
  {
    if x == 0 then 0xFFFF_FFFF else x - 1
  }

  /** Unchecked `uint + 1`: 0xFFFF_FFFF wraps to zero. */
  function Inc32(x: u32): (r: u32)
    ensures r == (x + 1) % TWO32
    ensures Dec32(r) == x
  {
    if x == 0xFFFF_FFFF then 0 else x + 1
  }

  /** The `(int)` cast of a `uint`: same 32 bits, read as two's complement. */
  function AsInt32(x: u32): (r: i32)
    ensures AsUInt32(r) == x
    ensures 0 <= r <==> x < 0x8000_0000
  {
    if x < 0x8000_0000 then x else x - TWO32
  }

  /** The `(uint)` cast of an `int`, as `Write7BitEncodedInt` does first. */
  function AsUInt32(v: i32): (r: u32)
    ensures r % TWO32 == v % TWO32
  {
    if v < 0 then v + TWO32 else v
  }

  /** The two casts are inverse in this direction too. */
  lemma AsInt32AsUInt32(v: i32)
    ensures AsInt32(AsUInt32(v)) == v
  {
  }

  /** The byte that `BinaryWriter.Write(sbyte)` emits: two's complement. */
  function SByteBits(v: i8): (b: byte)
    ensures SByteOf(b) == v
    ensures b < 0x80 <==> 0 <= v
  {
    if v < 0 then v + 0x100 else v
  }

  /** The inverse of SByteBits, as `BinaryReader.ReadSByte` reads it back. */
  function SByteOf(b: byte): i8
  {
    if b < 0x80 then b else b - 0x100
  }

  /** Concatenation regroups; stated once so that long chains of appends
      need not be regrouped by the solver. */
  lemma Associative<T>(a: seq<T>, b: seq<T>, c: seq<T>)
    ensures a + (b + c) == a + b + c
  {
  }
}
