/** The layout of unicodedata.bin: the 256 latin category bytes, then seven
    sections, each a four-byte count followed by that many entries, and a
    reader for it. */
module Format {
  import opened Base
  import opened Categories
  import opened Entities
  import opened SevenBit

  /** Everything the compiler writes, section by section, in file order.
      An upUnique triple is written without its title mapping, which equals
      its upper mapping. */
  datatype Tables = Tables(
    latin: seq<byte>, ranges: seq<Range>, points: seq<Point>, values: seq<ValueEntry>,
    decimals: seq<DecimalEntry>, lowercase: seq<CaseEntry>,
    upUnique: seq<CaseTriple>, upDouble: seq<CaseTriple>)

  // ---- entry encodings: `write7bit((int)x)` for each codepoint or mapping,
  // ---- `Write((byte)category)`, `Write(double)` and `Write(sbyte)`

  /** At most eleven bytes, the category byte last. */
  function RangeBytes(r: Range): (bs: seq<byte>)
    ensures 3 <= |bs| <= 11 && bs[|bs| - 1] == CategoryByte(r.cat)
  {
    Encode7BitAtMostFive(r.from);
    Encode7BitAtMostFive(r.to);
    Encode7Bit(r.from) + Encode7Bit(r.to) + [CategoryByte(r.cat)]
  }

  /** At most six bytes, the category byte last. */
  function PointBytes(p: Point): (bs: seq<byte>)
    ensures 2 <= |bs| <= 6 && bs[|bs| - 1] == CategoryByte(p.cat)
  {
    Encode7BitAtMostFive(p.code);
    Encode7Bit(p.code) + [CategoryByte(p.cat)]
  }

  /** At most thirteen bytes, the eight bytes of the double last. */
  function ValueBytes(v: ValueEntry): (bs: seq<byte>)
    ensures 9 <= |bs| <= 13 && bs[|bs| - 8..] == v.number
  {
    Encode7BitAtMostFive(v.code);
    Encode7Bit(v.code) + v.number
  }

  /** At most seven bytes, the decimal and digit bytes last. */
  function DecimalBytes(d: DecimalEntry): (bs: seq<byte>)
    ensures 3 <= |bs| <= 7 && bs[|bs| - 2..] == [SByteBits(d.decimal), SByteBits(d.digit)]
  {
    Encode7BitAtMostFive(d.code);
    Encode7Bit(d.code) + [SByteBits(d.decimal), SByteBits(d.digit)]
  }

  /** The codepoint and its mapping: at most ten bytes. */
  function CaseBytes(e: CaseEntry): (bs: seq<byte>)
    ensures 2 <= |bs| <= 10
  {
    Encode7BitAtMostFive(e.code);
    Encode7BitAtMostFive(e.mapped);
    Encode7Bit(e.code) + Encode7Bit(e.mapped)
  }

  /** The codepoint and one mapping: at most ten bytes. */
  function UpUniqueBytes(t: CaseTriple): (bs: seq<byte>)
    ensures 2 <= |bs| <= 10
  {
    Encode7BitAtMostFive(t.code);
    Encode7BitAtMostFive(t.upper);
    Encode7Bit(t.code) + Encode7Bit(t.upper)
  }

  /** The codepoint and both mappings: at most fifteen bytes. */
  function UpDoubleBytes(t: CaseTriple): (bs: seq<byte>)
    ensures 3 <= |bs| <= 15
  {
    Encode7BitAtMostFive(t.code);
    Encode7BitAtMostFive(t.upper);
    Encode7BitAtMostFive(t.title);
    Encode7Bit(t.code) + Encode7Bit(t.upper) + Encode7Bit(t.title)
  }

  // ---- entry readers

  /** A 7-bit encoded integer that fits in 32 bits. */
  function ReadU32(s: seq<byte>): (r: Option<(u32, seq<byte>)>)
  {
    var d := Decode7Bit(s);
    if d.Some? && d.value.0 < TWO32 then Some((d.value.0, d.value.1)) else None
  }

  function ReadCategory(s: seq<byte>): Option<(Category, seq<byte>)>
  {
    if s == [] then None
    else
      var c := FromByte(s[0]);
      if c.None? then None else Some((c.value, s[1..]))
  }

  function ReadRange(s: seq<byte>): Option<(Range, seq<byte>)>
  {
    var a := ReadU32(s);
    if a.None? then None else
    var b := ReadU32(a.value.1);
    if b.None? then None else
    var c := ReadCategory(b.value.1);
    if c.None? then None else
    Some((Range(a.value.0, b.value.0, c.value.0), c.value.1))
  }

  function ReadPoint(s: seq<byte>): Option<(Point, seq<byte>)>
  {
    var a := ReadU32(s);
    if a.None? then None else
    var c := ReadCategory(a.value.1);
    if c.None? then None else
    Some((Point(a.value.0, c.value.0), c.value.1))
  }

  function ReadValue(s: seq<byte>): Option<(ValueEntry, seq<byte>)>
  {
    var a := ReadU32(s);
    if a.None? || |a.value.1| < 8 then None else
    var rest := a.value.1;
    Some((ValueEntry(a.value.0, rest[..8]), rest[8..]))
  }

  function ReadDecimal(s: seq<byte>): Option<(DecimalEntry, seq<byte>)>
  {
    var a := ReadU32(s);
    if a.None? || |a.value.1| < 2 then None else
    var rest := a.value.1;
    Some((DecimalEntry(a.value.0, SByteOf(rest[0]), SByteOf(rest[1])), rest[2..]))
  }

  function ReadCase(s: seq<byte>): Option<(CaseEntry, seq<byte>)>
  {
    var a := ReadU32(s);
    if a.None? then None else
    var b := ReadU32(a.value.1);
    if b.None? then None else
    Some((CaseEntry(a.value.0, b.value.0), b.value.1))
  }

  function ReadUpUnique(s: seq<byte>): Option<(CaseTriple, seq<byte>)>
  {
    var a := ReadU32(s);
    if a.None? then None else
    var b := ReadU32(a.value.1);
    if b.None? then None else
    Some((CaseTriple(a.value.0, b.value.0, b.value.0), b.value.1))
  }

  function ReadUpDouble(s: seq<byte>): Option<(CaseTriple, seq<byte>)>
  {
    var a := ReadU32(s);
    if a.None? then None else
    var b := ReadU32(a.value.1);
    if b.None? then None else
    var c := ReadU32(b.value.1);
    if c.None? then None else
    Some((CaseTriple(a.value.0, b.value.0, c.value.0), c.value.1))
  }

  // ---- each reader undoes its encoding and leaves what followed

  lemma ReadU32Encode(x: u32, rest: seq<byte>)
    ensures ReadU32(Encode7Bit(x) + rest) == Some((x, rest))
  {
    Decode7BitEncode7Bit(x, rest);
  }

  lemma ReadCategoryByte(c: Category, rest: seq<byte>)
    ensures ReadCategory([CategoryByte(c)] + rest) == Some((c, rest))
  {
    assert ([CategoryByte(c)] + rest)[1..] == rest;
  }

  lemma ReadRangeBytes(r: Range, rest: seq<byte>)
    ensures ReadRange(RangeBytes(r) + rest) == Some((r, rest))
  {
    var tail := [CategoryByte(r.cat)] + rest;
    assert RangeBytes(r) + rest == Encode7Bit(r.from) + (Encode7Bit(r.to) + tail);
    ReadU32Encode(r.from, Encode7Bit(r.to) + tail);
    ReadU32Encode(r.to, tail);
    ReadCategoryByte(r.cat, rest);
  }

  lemma ReadPointBytes(p: Point, rest: seq<byte>)
    ensures ReadPoint(PointBytes(p) + rest) == Some((p, rest))
  {
    var tail := [CategoryByte(p.cat)] + rest;
    assert PointBytes(p) + rest == Encode7Bit(p.code) + tail;
    ReadU32Encode(p.code, tail);
    ReadCategoryByte(p.cat, rest);
  }

  lemma ReadValueBytes(v: ValueEntry, rest: seq<byte>)
    ensures ReadValue(ValueBytes(v) + rest) == Some((v, rest))
  {
    var tail := v.number + rest;
    assert ValueBytes(v) + rest == Encode7Bit(v.code) + tail;
    ReadU32Encode(v.code, tail);
    assert tail[..8] == v.number && tail[8..] == rest;
  }

  lemma ReadDecimalBytes(d: DecimalEntry, rest: seq<byte>)
    ensures ReadDecimal(DecimalBytes(d) + rest) == Some((d, rest))
  {
    var tail := [SByteBits(d.decimal), SByteBits(d.digit)] + rest;
    assert DecimalBytes(d) + rest == Encode7Bit(d.code) + tail;
    ReadU32Encode(d.code, tail);
    assert tail[2..] == rest;
  }

  lemma ReadCaseBytes(e: CaseEntry, rest: seq<byte>)
    ensures ReadCase(CaseBytes(e) + rest) == Some((e, rest))
  {
    assert CaseBytes(e) + rest == Encode7Bit(e.code) + (Encode7Bit(e.mapped) + rest);
    ReadU32Encode(e.code, Encode7Bit(e.mapped) + rest);
    ReadU32Encode(e.mapped, rest);
  }

  lemma ReadUpUniqueBytes(t: CaseTriple, rest: seq<byte>)
    requires t.upper == t.title
    ensures ReadUpUnique(UpUniqueBytes(t) + rest) == Some((t, rest))
  {
    assert UpUniqueBytes(t) + rest == Encode7Bit(t.code) + (Encode7Bit(t.upper) + rest);
    ReadU32Encode(t.code, Encode7Bit(t.upper) + rest);
    ReadU32Encode(t.upper, rest);
  }

  lemma ReadUpDoubleBytes(t: CaseTriple, rest: seq<byte>)
    ensures ReadUpDouble(UpDoubleBytes(t) + rest) == Some((t, rest))
  {
    var tail := Encode7Bit(t.title) + rest;
    assert UpDoubleBytes(t) + rest == Encode7Bit(t.code) + (Encode7Bit(t.upper) + tail);
    ReadU32Encode(t.code, Encode7Bit(t.upper) + tail);
    ReadU32Encode(t.upper, tail);
    ReadU32Encode(t.title, rest);
  }

  // ---- sections

  /** The entries of a section, in list order, as the `foreach` writes them. */
  function EncodeAll<T>(xs: seq<T>, enc: T -> seq<byte>): seq<byte>
  {
    if xs == [] then [] else EncodeAll(xs[..|xs| - 1], enc) + enc(xs[|xs| - 1])
  }

  lemma {:induction false} EncodeAllCons<T>(xs: seq<T>, enc: T -> seq<byte>)
    requires xs != []
    ensures EncodeAll(xs, enc) == enc(xs[0]) + EncodeAll(xs[1..], enc)
  {
    if |xs| > 1 {
      var init := xs[..|xs| - 1];
      EncodeAllCons(init, enc);
      assert init[0] == xs[0];
      assert init[1..] == xs[1..][..|xs[1..]| - 1];
    } else {
      assert xs[..0] == [] && xs[1..] == [];
    }
  }

  /** Writing one more entry extends the encoding by that entry. */
  lemma EncodeAllSnoc<T>(xs: seq<T>, i: nat, enc: T -> seq<byte>)
    requires i < |xs|
    ensures EncodeAll(xs[..i + 1], enc) == EncodeAll(xs[..i], enc) + enc(xs[i])
  {
    assert xs[..i + 1][..i] == xs[..i];
  }

  /** Reads `n` entries with `dec`, front to back. */
  function DecodeAll<T>(s: seq<byte>, n: nat, dec: seq<byte> -> Option<(T, seq<byte>)>): (r: Option<(seq<T>, seq<byte>)>)
    ensures r.Some? ==> |r.value.0| == n
    decreases n
  {
    if n == 0 then Some(([], s))
    else
      var a := dec(s);
      if a.None? then None else
      var b := DecodeAll(a.value.1, n - 1, dec);
      if b.None? then None else
      Some(([a.value.0] + b.value.0, b.value.1))
  }

  /** `dec` reads back every element of `xs` from its encoding. */
  ghost predicate Inverts<T>(xs: seq<T>, enc: T -> seq<byte>, dec: seq<byte> -> Option<(T, seq<byte>)>)
  {
    forall i, rest :: 0 <= i < |xs| ==> dec(enc(xs[i]) + rest) == Some((xs[i], rest))
  }

  lemma {:induction false} DecodeAllEncodeAll<T>(xs: seq<T>, enc: T -> seq<byte>,
      dec: seq<byte> -> Option<(T, seq<byte>)>, rest: seq<byte>)
    requires Inverts(xs, enc, dec)
    ensures DecodeAll(EncodeAll(xs, enc) + rest, |xs|, dec) == Some((xs, rest))
  {
    if xs != [] {
      EncodeAllCons(xs, enc);
      var tail := EncodeAll(xs[1..], enc) + rest;
      assert EncodeAll(xs, enc) + rest == enc(xs[0]) + tail;
      assert dec(enc(xs[0]) + tail) == Some((xs[0], tail));
      assert Inverts(xs[1..], enc, dec) by {
        forall i, r | 0 <= i < |xs[1..]| ensures dec(enc(xs[1..][i]) + r) == Some((xs[1..][i], r)) {
          assert xs[1..][i] == xs[i + 1];
        }
      }
      DecodeAllEncodeAll(xs[1..], enc, dec, rest);
      assert [xs[0]] + xs[1..] == xs;
    } else {
      assert EncodeAll(xs, enc) + rest == rest;
    }
  }

  /** `writer.Write(list.Count())` then the entries. */
  function Section<T>(xs: seq<T>, enc: T -> seq<byte>): seq<byte>
    requires |xs| < 0x8000_0000
  {
    Int32LE(|xs|) + EncodeAll(xs, enc)
  }

  /** Reads a count and that many entries; a negative count is rejected. */
  function ReadSection<T>(s: seq<byte>, dec: seq<byte> -> Option<(T, seq<byte>)>): (r: Option<(seq<T>, seq<byte>)>)
    ensures r.Some? ==> ReadInt32(s).Some? && |r.value.0| == ReadInt32(s).value.0
  {
    var c := ReadInt32(s);
    if c.None? || c.value.0 < 0 then None else DecodeAll(c.value.1, c.value.0, dec)
  }

  /** A section is its count in four bytes followed by exactly that many
      entries, and it reads back whole. */
  lemma ReadSectionSection<T>(xs: seq<T>, enc: T -> seq<byte>,
      dec: seq<byte> -> Option<(T, seq<byte>)>, rest: seq<byte>)
    requires |xs| < 0x8000_0000 && Inverts(xs, enc, dec)
    ensures ReadSection(Section(xs, enc) + rest, dec) == Some((xs, rest))
  {
    assert Section(xs, enc) + rest == Int32LE(|xs|) + (EncodeAll(xs, enc) + rest);
    ReadInt32Int32LE(|xs|, EncodeAll(xs, enc) + rest);
    DecodeAllEncodeAll(xs, enc, dec, rest);
  }

  lemma RangesInvert(xs: seq<Range>)
    ensures Inverts(xs, RangeBytes, ReadRange)
  {
    forall i, rest | 0 <= i < |xs| ensures ReadRange(RangeBytes(xs[i]) + rest) == Some((xs[i], rest)) {
      ReadRangeBytes(xs[i], rest);
    }
  }

  lemma PointsInvert(xs: seq<Point>)
    ensures Inverts(xs, PointBytes, ReadPoint)
  {
    forall i, rest | 0 <= i < |xs| ensures ReadPoint(PointBytes(xs[i]) + rest) == Some((xs[i], rest)) {
      ReadPointBytes(xs[i], rest);
    }
  }

  lemma ValuesInvert(xs: seq<ValueEntry>)
    ensures Inverts(xs, ValueBytes, ReadValue)
  {
    forall i, rest | 0 <= i < |xs| ensures ReadValue(ValueBytes(xs[i]) + rest) == Some((xs[i], rest)) {
      ReadValueBytes(xs[i], rest);
    }
  }

  lemma DecimalsInvert(xs: seq<DecimalEntry>)
    ensures Inverts(xs, DecimalBytes, ReadDecimal)
  {
    forall i, rest | 0 <= i < |xs| ensures ReadDecimal(DecimalBytes(xs[i]) + rest) == Some((xs[i], rest)) {
      ReadDecimalBytes(xs[i], rest);
    }
  }

  lemma CasesInvert(xs: seq<CaseEntry>)
    ensures Inverts(xs, CaseBytes, ReadCase)
  {
    forall i, rest | 0 <= i < |xs| ensures ReadCase(CaseBytes(xs[i]) + rest) == Some((xs[i], rest)) {
      ReadCaseBytes(xs[i], rest);
    }
  }

  lemma UpUniquesInvert(xs: seq<CaseTriple>)
    requires forall i :: 0 <= i < |xs| ==> xs[i].upper == xs[i].title
    ensures Inverts(xs, UpUniqueBytes, ReadUpUnique)
  {
    forall i, rest | 0 <= i < |xs| ensures ReadUpUnique(UpUniqueBytes(xs[i]) + rest) == Some((xs[i], rest)) {
      ReadUpUniqueBytes(xs[i], rest);
    }
  }

  lemma UpDoublesInvert(xs: seq<CaseTriple>)
    ensures Inverts(xs, UpDoubleBytes, ReadUpDouble)
  {
    forall i, rest | 0 <= i < |xs| ensures ReadUpDouble(UpDoubleBytes(xs[i]) + rest) == Some((xs[i], rest)) {
      ReadUpDoubleBytes(xs[i], rest);
    }
  }

  // ---- the whole file

  /** What the compiler can write: 256 latin bytes, every count an `int`,
      and upUnique holding only triples whose two mappings agree. */
  predicate WellFormed(t: Tables)
  {
    |t.latin| == 256 && CountsFit(t) &&
    forall i :: 0 <= i < |t.upUnique| ==> t.upUnique[i].upper == t.upUnique[i].title
  }

  /** Every section's count is an `int`: `Count()` has not overflowed. */
  predicate CountsFit(t: Tables)
  {
    |t.ranges| < 0x8000_0000 && |t.points| < 0x8000_0000 && |t.values| < 0x8000_0000 &&
    |t.decimals| < 0x8000_0000 && |t.lowercase| < 0x8000_0000 &&
    |t.upUnique| < 0x8000_0000 && |t.upDouble| < 0x8000_0000
  }

  /** The bytes of unicodedata.bin: latin, ranges, points, values,
      decimals, lowercase, upUnique, upDouble. */
  function Encode(t: Tables): seq<byte>
    requires CountsFit(t)
  {
    t.latin + Section(t.ranges, RangeBytes) + Section(t.points, PointBytes) +
    Section(t.values, ValueBytes) + Section(t.decimals, DecimalBytes) +
    Section(t.lowercase, CaseBytes) + Section(t.upUnique, UpUniqueBytes) +
    Section(t.upDouble, UpDoubleBytes)
  }

  /** Reads a whole file; None unless it is exactly a latin table and the
      seven sections. */
  function Decode(s: seq<byte>): (r: Option<Tables>)
    ensures r.Some? ==> |s| >= 256 && r.value.latin == s[..256] && CountsFit(r.value)
  {
    if |s| < 256 then None else
    var rs := ReadSection(s[256..], ReadRange);
    if rs.None? then None else
    var ps := ReadSection(rs.value.1, ReadPoint);
    if ps.None? then None else
    var vs := ReadSection(ps.value.1, ReadValue);
    if vs.None? then None else
    var ds := ReadSection(vs.value.1, ReadDecimal);
    if ds.None? then None else
    var ls := ReadSection(ds.value.1, ReadCase);
    if ls.None? then None else
    var us := ReadSection(ls.value.1, ReadUpUnique);
    if us.None? then None else
    var ws := ReadSection(us.value.1, ReadUpDouble);
    if ws.None? || ws.value.1 != [] then None else
    Some(Tables(s[..256], rs.value.0, ps.value.0, vs.value.0, ds.value.0, ls.value.0, us.value.0, ws.value.0))
  }

  /** The sections of Encode, grouped from the right as the reader takes them. */
  lemma EncodeSuffixes(t: Tables)
    requires CountsFit(t)
    ensures Encode(t) == t.latin + (Section(t.ranges, RangeBytes) + (Section(t.points, PointBytes) +
      (Section(t.values, ValueBytes) + (Section(t.decimals, DecimalBytes) +
      (Section(t.lowercase, CaseBytes) + (Section(t.upUnique, UpUniqueBytes) +
      Section(t.upDouble, UpDoubleBytes)))))))
  {
    var a, b, c, d := Section(t.ranges, RangeBytes), Section(t.points, PointBytes),
      Section(t.values, ValueBytes), Section(t.decimals, DecimalBytes);
    var e, f, g := Section(t.lowercase, CaseBytes), Section(t.upUnique, UpUniqueBytes),
      Section(t.upDouble, UpDoubleBytes);
    Associative(t.latin + a + b + c + d + e, f, g);
    Associative(t.latin + a + b + c + d, e, f + g);
    Associative(t.latin + a + b + c, d, e + (f + g));
    Associative(t.latin + a + b, c, d + (e + (f + g)));
    Associative(t.latin + a, b, c + (d + (e + (f + g))));
    Associative(t.latin, a, b + (c + (d + (e + (f + g)))));
  }

  /** Reading the file back gives every table the compiler wrote. */
  lemma DecodeEncode(t: Tables)
    requires WellFormed(t)
    ensures Decode(Encode(t)) == Some(t)
  {
    var s7 := Section(t.upDouble, UpDoubleBytes);
    var s6 := Section(t.upUnique, UpUniqueBytes) + s7;
    var s5 := Section(t.lowercase, CaseBytes) + s6;
    var s4 := Section(t.decimals, DecimalBytes) + s5;
    var s3 := Section(t.values, ValueBytes) + s4;
    var s2 := Section(t.points, PointBytes) + s3;
    var s1 := Section(t.ranges, RangeBytes) + s2;
    EncodeSuffixes(t);
    assert Encode(t)[..256] == t.latin && Encode(t)[256..] == s1;
    RangesInvert(t.ranges);
    PointsInvert(t.points);
    ValuesInvert(t.values);
    DecimalsInvert(t.decimals);
    CasesInvert(t.lowercase);
    UpUniquesInvert(t.upUnique);
    UpDoublesInvert(t.upDouble);
    ReadSectionSection(t.ranges, RangeBytes, ReadRange, s2);
    ReadSectionSection(t.points, PointBytes, ReadPoint, s3);
    ReadSectionSection(t.values, ValueBytes, ReadValue, s4);
    ReadSectionSection(t.decimals, DecimalBytes, ReadDecimal, s5);
    ReadSectionSection(t.lowercase, CaseBytes, ReadCase, s6);
    ReadSectionSection(t.upUnique, UpUniqueBytes, ReadUpUnique, s7);
    assert s7 == s7 + [];
    ReadSectionSection(t.upDouble, UpDoubleBytes, ReadUpDouble, []);
  }
}
