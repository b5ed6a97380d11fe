/** The seven section loops of the writer: each writes its count with
    `Write(int)` and then its entries, field by field. */
module Sections {
  import opened Base
  import opened Categories
  import opened Entities
  import opened Queries
  import opened SevenBit
  import opened Format
  import opened Output

  /** Converts a numeric-value text with the parser the compiler is given. */
  function Converted(toDouble: string -> Double8): NumericText -> ValueEntry
  {
    (v: NumericText) => ValueEntry(v.code, toDouble(v.text))
  }

  /** The body of the `foreach` over `ranges2`: one from/to/category entry per range. */
  method WriteRange(w: Writer, x: Range)
    modifies w
    ensures w.output == old(w.output) + RangeBytes(x)
  {
    ghost var start := w.output;
    w.Write7Bit(AsInt32(x.from));
    w.Write7Bit(AsInt32(x.to));
    w.WriteByte(CategoryByte(x.cat));
    Associative(start, Encode7Bit(x.from), Encode7Bit(x.to));
    Associative(start, Encode7Bit(x.from) + Encode7Bit(x.to), [CategoryByte(x.cat)]);
  }

  /** The `foreach` over `ranges2`. */
  method WriteRangesEntries(w: Writer, xs: seq<Range>)
    modifies w
    ensures w.output == old(w.output) + EncodeAll(xs, RangeBytes)
  {
    ghost var start := w.output;
    for i := 0 to |xs|
      invariant w.output == start + EncodeAll(xs[..i], RangeBytes)
    {
      WriteRange(w, xs[i]);
      EncodeAllSnoc(xs, i, RangeBytes);
      Associative(start, EncodeAll(xs[..i], RangeBytes), RangeBytes(xs[i]));
    }
    assert xs[..|xs|] == xs;
  }

  /** `writer.Write(ranges2.Count())`, which overflows past `int.MaxValue`,
      then the entries. */
  method WriteRanges(w: Writer, xs: seq<Range>) returns (ok: bool)
    modifies w
    ensures ok <==> |xs| < 0x8000_0000
    ensures ok ==> w.output == old(w.output) + Section(xs, RangeBytes)
    ensures !ok ==> w.output == old(w.output)
  {
    if |xs| >= 0x8000_0000 {
      return false;
    }
    w.WriteInt32(|xs|);
    WriteRangesEntries(w, xs);
    Associative(old(w.output), Int32LE(|xs|), EncodeAll(xs, RangeBytes));
    return true;
  }

  /** The body of the `foreach` over `uniques`: one code/category entry per point. */
  method WritePoint(w: Writer, y: Point)
    modifies w
    ensures w.output == old(w.output) + PointBytes(y)
  {
    w.Write7Bit(AsInt32(y.code));
    w.WriteByte(CategoryByte(y.cat));
  }

  /** The `foreach` over `uniques`. */
  method WritePointsEntries(w: Writer, xs: seq<Point>)
    modifies w
    ensures w.output == old(w.output) + EncodeAll(xs, PointBytes)
  {
    ghost var start := w.output;
    for i := 0 to |xs|
      invariant w.output == start + EncodeAll(xs[..i], PointBytes)
    {
      WritePoint(w, xs[i]);
      EncodeAllSnoc(xs, i, PointBytes);
      Associative(start, EncodeAll(xs[..i], PointBytes), PointBytes(xs[i]));
    }
    assert xs[..|xs|] == xs;
  }

  /** `writer.Write(uniques.Count())`, which overflows past `int.MaxValue`,
      then the entries. */
  method WritePoints(w: Writer, xs: seq<Point>) returns (ok: bool)
    modifies w
    ensures ok <==> |xs| < 0x8000_0000
    ensures ok ==> w.output == old(w.output) + Section(xs, PointBytes)
    ensures !ok ==> w.output == old(w.output)
  {
    if |xs| >= 0x8000_0000 {
      return false;
    }
    w.WriteInt32(|xs|);
    WritePointsEntries(w, xs);
    Associative(old(w.output), Int32LE(|xs|), EncodeAll(xs, PointBytes));
    return true;
  }

  /** The body of the `foreach` over `values`: the code, then the double
      the text converts to. */
  method WriteValue(w: Writer, y: NumericText, toDouble: string -> Double8)
    modifies w
    ensures w.output == old(w.output) + ValueBytes(Converted(toDouble)(y))
  {
    w.Write7Bit(AsInt32(y.code));
    var d := toDouble(y.text);
    w.WriteDouble(d);
  }

  /** The `foreach` over `values`. */
  method WriteValuesEntries(w: Writer, vs: seq<NumericText>, toDouble: string -> Double8)
    modifies w
    ensures w.output == old(w.output) + EncodeAll(Select(vs, Converted(toDouble)), ValueBytes)
  {
    ghost var xs := Select(vs, Converted(toDouble));
    ghost var start := w.output;
    for i := 0 to |vs|
      invariant w.output == start + EncodeAll(xs[..i], ValueBytes)
    {
      WriteValue(w, vs[i], toDouble);
      EncodeAllSnoc(xs, i, ValueBytes);
      Associative(start, EncodeAll(xs[..i], ValueBytes), ValueBytes(xs[i]));
    }
    assert xs[..|vs|] == xs;
  }

  /** `writer.Write(values.Count())`, which overflows past `int.MaxValue`,
      then the entries. */
  method WriteValues(w: Writer, vs: seq<NumericText>, toDouble: string -> Double8) returns (ok: bool)
    modifies w
    ensures ok <==> |vs| < 0x8000_0000
    ensures ok ==> w.output == old(w.output) + Section(Select(vs, Converted(toDouble)), ValueBytes)
    ensures !ok ==> w.output == old(w.output)
  {
    if |vs| >= 0x8000_0000 {
      return false;
    }
    w.WriteInt32(|vs|);
    WriteValuesEntries(w, vs, toDouble);
    Associative(old(w.output), Int32LE(|vs|), EncodeAll(Select(vs, Converted(toDouble)), ValueBytes));
    return true;
  }

  /** The body of the `foreach` over `decimals`: per entry its code and its two `sbyte` values. */
  method WriteDecimal(w: Writer, y: DecimalEntry)
    modifies w
    ensures w.output == old(w.output) + DecimalBytes(y)
  {
    ghost var start := w.output;
    w.Write7Bit(AsInt32(y.code));
    w.WriteSByte(y.decimal);
    w.WriteSByte(y.digit);
    Associative(start, Encode7Bit(y.code), [SByteBits(y.decimal)]);
    Associative(start, Encode7Bit(y.code) + [SByteBits(y.decimal)], [SByteBits(y.digit)]);
  }

  /** The `foreach` over `decimals`. */
  method WriteDecimalsEntries(w: Writer, xs: seq<DecimalEntry>)
    modifies w
    ensures w.output == old(w.output) + EncodeAll(xs, DecimalBytes)
  {
    ghost var start := w.output;
    for i := 0 to |xs|
      invariant w.output == start + EncodeAll(xs[..i], DecimalBytes)
    {
      WriteDecimal(w, xs[i]);
      EncodeAllSnoc(xs, i, DecimalBytes);
      Associative(start, EncodeAll(xs[..i], DecimalBytes), DecimalBytes(xs[i]));
    }
    assert xs[..|xs|] == xs;
  }

  /** `writer.Write(decimals.Count())`, which overflows past `int.MaxValue`,
      then the entries. */
  method WriteDecimals(w: Writer, xs: seq<DecimalEntry>) returns (ok: bool)
    modifies w
    ensures ok <==> |xs| < 0x8000_0000
    ensures ok ==> w.output == old(w.output) + Section(xs, DecimalBytes)
    ensures !ok ==> w.output == old(w.output)
  {
    if |xs| >= 0x8000_0000 {
      return false;
    }
    w.WriteInt32(|xs|);
    WriteDecimalsEntries(w, xs);
    Associative(old(w.output), Int32LE(|xs|), EncodeAll(xs, DecimalBytes));
    return true;
  }

  /** The body of the `foreach` over `lowercase`: per entry its code and its mapping. */
  method WriteLowercaseEntry(w: Writer, y: CaseEntry)
    modifies w
    ensures w.output == old(w.output) + CaseBytes(y)
  {
    w.Write7Bit(AsInt32(y.code));
    w.Write7Bit(AsInt32(y.mapped));
  }

  /** The `foreach` over `lowercase`. */
  method WriteLowercaseEntries(w: Writer, xs: seq<CaseEntry>)
    modifies w
    ensures w.output == old(w.output) + EncodeAll(xs, CaseBytes)
  {
    ghost var start := w.output;
    for i := 0 to |xs|
      invariant w.output == start + EncodeAll(xs[..i], CaseBytes)
    {
      WriteLowercaseEntry(w, xs[i]);
      EncodeAllSnoc(xs, i, CaseBytes);
      Associative(start, EncodeAll(xs[..i], CaseBytes), CaseBytes(xs[i]));
    }
    assert xs[..|xs|] == xs;
  }

  /** `writer.Write(lowercase.Count())`, which overflows past `int.MaxValue`,
      then the entries. */
  method WriteLowercase(w: Writer, xs: seq<CaseEntry>) returns (ok: bool)
    modifies w
    ensures ok <==> |xs| < 0x8000_0000
    ensures ok ==> w.output == old(w.output) + Section(xs, CaseBytes)
    ensures !ok ==> w.output == old(w.output)
  {
    if |xs| >= 0x8000_0000 {
      return false;
    }
    w.WriteInt32(|xs|);
    WriteLowercaseEntries(w, xs);
    Associative(old(w.output), Int32LE(|xs|), EncodeAll(xs, CaseBytes));
    return true;
  }

  /** The body of the `foreach` over `upUnique`: per triple its code and its one mapping. */
  method WriteUpUniqueEntry(w: Writer, y: CaseTriple)
    modifies w
    ensures w.output == old(w.output) + UpUniqueBytes(y)
  {
    w.Write7Bit(AsInt32(y.code));
    w.Write7Bit(AsInt32(y.upper));
  }

  /** The `foreach` over `upUnique`. */
  method WriteUpUniqueEntries(w: Writer, xs: seq<CaseTriple>)
    modifies w
    ensures w.output == old(w.output) + EncodeAll(xs, UpUniqueBytes)
  {
    ghost var start := w.output;
    for i := 0 to |xs|
      invariant w.output == start + EncodeAll(xs[..i], UpUniqueBytes)
    {
      WriteUpUniqueEntry(w, xs[i]);
      EncodeAllSnoc(xs, i, UpUniqueBytes);
      Associative(start, EncodeAll(xs[..i], UpUniqueBytes), UpUniqueBytes(xs[i]));
    }
    assert xs[..|xs|] == xs;
  }

  /** `writer.Write(upUnique.Count())`, which overflows past `int.MaxValue`,
      then the entries. */
  method WriteUpUnique(w: Writer, xs: seq<CaseTriple>) returns (ok: bool)
    modifies w
    ensures ok <==> |xs| < 0x8000_0000
    ensures ok ==> w.output == old(w.output) + Section(xs, UpUniqueBytes)
    ensures !ok ==> w.output == old(w.output)
  {
    if |xs| >= 0x8000_0000 {
      return false;
    }
    w.WriteInt32(|xs|);
    WriteUpUniqueEntries(w, xs);
    Associative(old(w.output), Int32LE(|xs|), EncodeAll(xs, UpUniqueBytes));
    return true;
  }

  /** The body of the `foreach` over `upDouble`: per triple its code and both mappings. */
  method WriteUpDoubleEntry(w: Writer, y: CaseTriple)
    modifies w
    ensures w.output == old(w.output) + UpDoubleBytes(y)
  {
    ghost var start := w.output;
    w.Write7Bit(AsInt32(y.code));
    w.Write7Bit(AsInt32(y.upper));
    w.Write7Bit(AsInt32(y.title));
    Associative(start, Encode7Bit(y.code), Encode7Bit(y.upper));
    Associative(start, Encode7Bit(y.code) + Encode7Bit(y.upper), Encode7Bit(y.title));
  }

  /** The `foreach` over `upDouble`. */
  method WriteUpDoubleEntries(w: Writer, xs: seq<CaseTriple>)
    modifies w
    ensures w.output == old(w.output) + EncodeAll(xs, UpDoubleBytes)
  {
    ghost var start := w.output;
    for i := 0 to |xs|
      invariant w.output == start + EncodeAll(xs[..i], UpDoubleBytes)
    {
      WriteUpDoubleEntry(w, xs[i]);
      EncodeAllSnoc(xs, i, UpDoubleBytes);
      Associative(start, EncodeAll(xs[..i], UpDoubleBytes), UpDoubleBytes(xs[i]));
    }
    assert xs[..|xs|] == xs;
  }

  /** `writer.Write(upDouble.Count())`, which overflows past `int.MaxValue`,
      then the entries. */
  method WriteUpDouble(w: Writer, xs: seq<CaseTriple>) returns (ok: bool)
    modifies w
    ensures ok <==> |xs| < 0x8000_0000
    ensures ok ==> w.output == old(w.output) + Section(xs, UpDoubleBytes)
    ensures !ok ==> w.output == old(w.output)
  {
    if |xs| >= 0x8000_0000 {
      return false;
    }
    w.WriteInt32(|xs|);
    WriteUpDoubleEntries(w, xs);
    Associative(old(w.output), Int32LE(|xs|), EncodeAll(xs, UpDoubleBytes));
    return true;
  }
}
