/** The integer encodings of the binary table: `BinaryWriter.Write(int)`,
    four bytes little-endian, and `Write7BitEncodedInt`, seven bits per byte
    least significant group first with the high bit as continuation flag —
    the unsigned LEB128 of section 7.6 of DWARF 4. */
module SevenBit {
  import opened Base

  /** The bytes `Write7BitEncodedInt` emits for the unsigned value `v`. */
  function Encode7Bit(v: nat): (bs: seq<byte>)
    ensures |bs| >= 1
    decreases v
  {
    if v < 0x80 then [v] else [v % 0x80 + 0x80] + Encode7Bit(v / 0x80)
  }

  /** Every byte but the last carries the continuation flag; the last does not. */
  predicate Terminated(bs: seq<byte>)
  {
    |bs| >= 1 && (forall i :: 0 <= i < |bs| - 1 ==> bs[i] >= 0x80) && bs[|bs| - 1] < 0x80
  }

  lemma TerminatedCons(b: byte, rest: seq<byte>)
    requires b >= 0x80 && Terminated(rest)
    ensures Terminated([b] + rest)
  {
    var bs := [b] + rest;
    forall i | 1 <= i < |bs| ensures bs[i] == rest[i - 1] {
    }
  }

  /** Every encoding ends at its first byte below 0x80. */
  lemma {:induction false} Encode7BitTerminated(v: nat)
    ensures Terminated(Encode7Bit(v))
    decreases v
  {
    if v >= 0x80 {
      Encode7BitTerminated(v / 0x80);
      TerminatedCons(v % 0x80 + 0x80, Encode7Bit(v / 0x80));
    }
  }

  /** Reads one 7-bit encoded integer off the front of `s`; None if `s`
      ends before a byte with the high bit clear. */
  function Decode7Bit(s: seq<byte>): Option<(nat, seq<byte>)>
  {
    if s == [] then None
    else if s[0] < 0x80 then Some((s[0], s[1..]))
    else
      match Decode7Bit(s[1..])
      case None => None
      case Some((v, rest)) => Some((s[0] - 0x80 + 0x80 * v, rest))
  }

  /** Decoding gives back the integer and leaves what followed it. */
  lemma {:induction false} Decode7BitEncode7Bit(v: nat, rest: seq<byte>)
    ensures Decode7Bit(Encode7Bit(v) + rest) == Some((v, rest))
  {
    var s := Encode7Bit(v) + rest;
    if v < 0x80 {
      assert s[1..] == rest;
    } else {
      Decode7BitEncode7Bit(v / 0x80, rest);
      assert s[1..] == Encode7Bit(v / 0x80) + rest;
    }
  }

  function Pow(b: nat, k: nat): nat
  {
    if k == 0 then 1 else b * Pow(b, k - 1)
  }

  lemma {:induction false} Encode7BitWidth(v: nat, k: nat)
    requires 1 <= k && v < Pow(0x80, k)
    ensures |Encode7Bit(v)| <= k
  {
    if v >= 0x80 {
      assert k >= 2;
      Encode7BitWidth(v / 0x80, k - 1);
    }
  }

  /** A 32-bit value takes at most five bytes, the most `Read7BitEncodedInt`
      reads. */
  lemma Encode7BitAtMostFive(v: u32)
    ensures |Encode7Bit(v)| <= 5
  {
    assert Pow(0x80, 5) == 0x8_0000_0000 by {
      assert Pow(0x80, 1) == 0x80;
      assert Pow(0x80, 2) == 0x4000;
      assert Pow(0x80, 3) == 0x20_0000;
      assert Pow(0x80, 4) == 0x1000_0000;
    }
    Encode7BitWidth(v, 5);
  }

  /** The lowest `n` bytes of `u`, low byte first. */
  function LittleEndian(u: nat, n: nat): (bs: seq<byte>)
    ensures |bs| == n
  {
    if n == 0 then [] else [u % 0x100] + LittleEndian(u / 0x100, n - 1)
  }

  /** The number whose bytes, low byte first, are `bs`. */
  function LittleValue(bs: seq<byte>): nat
  {
    if bs == [] then 0 else bs[0] + 0x100 * LittleValue(bs[1..])
  }

  lemma {:induction false} LittleValueLittleEndian(u: nat, n: nat)
    requires u < Pow(0x100, n)
    ensures LittleValue(LittleEndian(u, n)) == u
  {
    if n > 0 {
      LittleValueLittleEndian(u / 0x100, n - 1);
      assert LittleEndian(u, n)[1..] == LittleEndian(u / 0x100, n - 1);
    }
  }

  /** `BinaryWriter.Write(int)`: the two's complement bits of `v`, low byte first. */
  function Int32LE(v: i32): (bs: seq<byte>)
    ensures |bs| == 4
  {
    LittleEndian(AsUInt32(v), 4)
  }

  /** `BinaryReader.ReadInt32`; None if fewer than four bytes remain. */
  function ReadInt32(s: seq<byte>): Option<(i32, seq<byte>)>
  {
    if |s| < 4 then None
    else
      var u := LittleValue(s[..4]);
      if u < TWO32 then Some((AsInt32(u), s[4..])) else None
  }

  /** Reading four bytes back gives the integer written and leaves what
      followed it. */
  lemma ReadInt32Int32LE(v: i32, rest: seq<byte>)
    ensures ReadInt32(Int32LE(v) + rest) == Some((v, rest))
  {
    var s := Int32LE(v) + rest;
    assert Pow(0x100, 4) == TWO32 by {
      assert Pow(0x100, 2) == 0x1_0000;
    }
    LittleValueLittleEndian(AsUInt32(v), 4);
    assert s[..4] == Int32LE(v);
    assert s[4..] == rest;
    AsInt32AsUInt32(v);
  }
}
