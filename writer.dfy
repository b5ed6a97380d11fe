/** `MyWriter`, the `BinaryWriter` over the output file, with the stream's
    contents as a sequence of bytes that every write extends. */
module Output {
  import opened Base
  import opened Entities
  import opened SevenBit

  class Writer {
    /** Every byte written so far, in order. */
    var output: seq<byte>

    constructor()
      ensures output == []
    {
      output := [];
    }

    /** `Write(byte)`. */
    method WriteByte(b: byte)
      modifies this
      ensures output == old(output) + [b]
    {
      output := output + [b];
    }

    /** `Write(sbyte)`: the byte of the same bits. */
    method WriteSByte(v: i8)
      modifies this
      ensures output == old(output) + [SByteBits(v)]
    {
      WriteByte(SByteBits(v));
    }

    /** `Write(int)`: four bytes, least significant first. */
    method WriteInt32(value: i32)
      modifies this
      ensures output == old(output) + Int32LE(value)
    {
      var u: nat := AsUInt32(value);
      var start := output;
      WriteByte(u % 0x100);
      WriteByte(u / 0x100 % 0x100);
      WriteByte(u / 0x100 / 0x100 % 0x100);
      WriteByte(u / 0x100 / 0x100 / 0x100 % 0x100);
      assert LittleEndian(u, 4) == [u % 0x100] + LittleEndian(u / 0x100, 3);
      assert LittleEndian(u / 0x100, 3) == [u / 0x100 % 0x100] + LittleEndian(u / 0x100 / 0x100, 2);
    }

    /** `Write(double)`: the eight bytes of the value. */
    method WriteDouble(d: Double8)
      modifies this
      ensures output == old(output) + d
    {
      output := output + d;
    }

    /** `write7bit`, that is `Write7BitEncodedInt`: the value is taken as a
        `uint` and written seven bits at a time, low group first, the byte
        `(byte)(v | 0x80)` marking that more follow. */
    method Write7Bit(value: i32)
      modifies this
      ensures output == old(output) + Encode7Bit(AsUInt32(value))
    {
      var v: nat := AsUInt32(value);
      while v >= 0x80
        invariant old(output) + Encode7Bit(AsUInt32(value)) == output + Encode7Bit(v)
        decreases v
      {
        assert Encode7Bit(v) == [v % 0x80 + 0x80] + Encode7Bit(v / 0x80);
        WriteByte(v % 0x80 + 0x80);
        v := v / 0x80;
      }
      WriteByte(v);
    }
  }
}
