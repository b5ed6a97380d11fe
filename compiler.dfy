/** The body of the compiler: the record loop, the sort, the range loop, the
    partition and the join, then the eight writer loops in file order. */
module Compiler {
  import opened Base
  import opened Categories
  import opened Entities
  import opened Queries
  import opened Normaliser
  import opened RangeBuilder
  import opened RangeProperties
  import opened Partition
  import opened CaseMapping
  import opened SevenBit
  import opened Format
  import opened Output
  import opened Sections

  /** The tables written for the collected lists and the ranges, or None
      where the latin loop throws because a byte value lies in no range. */
  function TablesOf(c: Collected, ranges: seq<Range>, toDouble: string -> Double8): (r: Option<Tables>)
    ensures r.Some? <==> forall x :: 0 <= x < 256 ==> Covered(ranges, x)
    ensures r.Some? ==> |r.value.latin| == 256 && r.value.decimals == c.decimals && r.value.lowercase == c.lowercase
  {
    LatinTableDefined(ranges);
    var latin := LatinTable(ranges);
    if latin.None? then None else
    var joined := Join(c.uppercase, c.titlecase);
    Some(Tables(
      latin.value, Ranges2(ranges), Uniques(ranges), Select(c.values, Converted(toDouble)),
      c.decimals, c.lowercase, UpUnique(joined), UpDouble(joined)))
  }

  /** The tables the compiler writes for `lines`, or None where the range
      loop (no records) or the latin loop throws. */
  function Compiled(lines: seq<Line>, toDouble: string -> Double8): (r: Option<Tables>)
    ensures lines == [] ==> r.None?
    ensures r.Some? ==> (|r.value.latin| == 256 && |r.value.values| <= |lines| &&
      |r.value.decimals| <= |lines| && |r.value.lowercase| <= |lines|)
  {
    var built := Built(SortByCode(Select(lines, CodeCatOf)));
    if built.None? then None else
    var c := Collected(
      Select(lines, CodeCatOf), Collect(lines, ValueOf), Collect(lines, DecimalAsWritten),
      Collect(lines, UpperOf), Collect(lines, LowerOf), Collect(lines, TitleOf));
    TablesOf(c, built.value, toDouble)
  }

  /** Whatever the compiler produces has a 256-byte latin table and an
      upUnique section of agreeing mappings; only the counts can overflow. */
  lemma TablesOfShape(c: Collected, ranges: seq<Range>, toDouble: string -> Double8)
    requires TablesOf(c, ranges, toDouble).Some?
    ensures var t := TablesOf(c, ranges, toDouble).value;
      WellFormed(t) <==> CountsFit(t)
  {
    var t := TablesOf(c, ranges, toDouble).value;
    LatinTableDefined(ranges);
    var joined := Join(c.uppercase, c.titlecase);
    UpSplit(joined);
    forall i | 0 <= i < |t.upUnique| ensures t.upUnique[i].upper == t.upUnique[i].title {
      assert t.upUnique[i] in UpUnique(joined);
    }
  }

  /** The latin loop: for each of the 256 byte values, the category of the
      first range holding it; `First` throws when there is none. */
  method WriteLatin(w: Writer, ranges: seq<Range>) returns (ok: bool)
    modifies w
    ensures ok <==> LatinTable(ranges).Some?
    ensures ok ==> w.output == old(w.output) + LatinTable(ranges).value
  {
    for x := 0 to 256
      invariant LatinPrefix(ranges, x).Some?
      invariant w.output == old(w.output) + LatinPrefix(ranges, x).value
    {
      var item := FirstIndex(ranges, Covering(x));
      if item.None? {
        assert LatinEntry(ranges, x).None?;
        return false;
      }
      w.WriteByte(CategoryByte(ranges[item.value].cat));
    }
    return true;
  }

  /** The eight writer loops, in file order. They complete exactly when
      the latin loop finds a range for every byte value and every count
      fits an `int`, and then append the encoding of the tables. */
  method WriteTables(w: Writer, c: Collected, ranges: seq<Range>, toDouble: string -> Double8) returns (ok: bool)
    modifies w
    ensures ok <==> TablesOf(c, ranges, toDouble).Some? && CountsFit(TablesOf(c, ranges, toDouble).value)
    ensures ok ==> w.output == old(w.output) + Encode(TablesOf(c, ranges, toDouble).value)
  {
    ok := WriteLatin(w, ranges);
    if !ok {
      return;
    }
    var t := TablesOf(c, ranges, toDouble).value;
    assert t.values == Select(c.values, Converted(toDouble));
    ok := WriteSections(w, t, c.values, toDouble, old(w.output));
  }

  /** The seven loops after the latin one, each writing its count and then
      its entries. Past the latin table already written, they complete
      exactly when every count fits an `int`, and the file is then the
      encoding of `t`. */
  method WriteSections(w: Writer, t: Tables, vs: seq<NumericText>, toDouble: string -> Double8, ghost start: seq<byte>)
      returns (ok: bool)
    requires t.values == Select(vs, Converted(toDouble))
    requires w.output == start + t.latin
    modifies w
    ensures ok <==> CountsFit(t)
    ensures ok ==> w.output == start + Encode(t)
  {
    ok := WriteFirstSections(w, t, vs, toDouble, start);
    if ok {
      ok := WriteCaseSections(w, t, start,
        t.latin + Section(t.ranges, RangeBytes) + Section(t.points, PointBytes) +
        Section(t.values, ValueBytes) + Section(t.decimals, DecimalBytes));
    }
  }

  /** The ranges, points, values and decimals loops; the values loop
      converts each numeric text as it goes. */
  method WriteFirstSections(w: Writer, t: Tables, vs: seq<NumericText>, toDouble: string -> Double8, ghost start: seq<byte>)
      returns (ok: bool)
    requires t.values == Select(vs, Converted(toDouble))
    requires w.output == start + t.latin
    modifies w
    ensures ok <==> (|t.ranges| < 0x8000_0000 && |t.points| < 0x8000_0000 &&
      |t.values| < 0x8000_0000 && |t.decimals| < 0x8000_0000)
    ensures ok ==> (w.output == start + (t.latin + Section(t.ranges, RangeBytes) + Section(t.points, PointBytes) +
      Section(t.values, ValueBytes) + Section(t.decimals, DecimalBytes)))
  {
    ghost var written := t.latin;
    ok := WriteRanges(w, t.ranges);
    if !ok {
      return;
    }
    Associative(start, written, Section(t.ranges, RangeBytes));
    written := written + Section(t.ranges, RangeBytes);
    ok := WritePoints(w, t.points);
    if !ok {
      return;
    }
    Associative(start, written, Section(t.points, PointBytes));
    written := written + Section(t.points, PointBytes);
    ok := WriteValues(w, vs, toDouble);
    if !ok {
      return;
    }
    Associative(start, written, Section(t.values, ValueBytes));
    written := written + Section(t.values, ValueBytes);
    ok := WriteDecimals(w, t.decimals);
    if !ok {
      return;
    }
    Associative(start, written, Section(t.decimals, DecimalBytes));
  }

  /** The lowercase, upUnique and upDouble loops, after `written`. */
  method WriteCaseSections(w: Writer, t: Tables, ghost start: seq<byte>, ghost written: seq<byte>) returns (ok: bool)
    requires w.output == start + written
    modifies w
    ensures ok <==> |t.lowercase| < 0x8000_0000 && |t.upUnique| < 0x8000_0000 && |t.upDouble| < 0x8000_0000
    ensures ok ==> (w.output == start + (written + Section(t.lowercase, CaseBytes) +
      Section(t.upUnique, UpUniqueBytes) + Section(t.upDouble, UpDoubleBytes)))
  {
    ok := WriteLowercase(w, t.lowercase);
    if !ok {
      return;
    }
    Associative(start, written, Section(t.lowercase, CaseBytes));
    ghost var more := written + Section(t.lowercase, CaseBytes);
    ok := WriteUpUnique(w, t.upUnique);
    if !ok {
      return;
    }
    Associative(start, more, Section(t.upUnique, UpUniqueBytes));
    more := more + Section(t.upUnique, UpUniqueBytes);
    ok := WriteUpDouble(w, t.upDouble);
    if !ok {
      return;
    }
    Associative(start, more, Section(t.upDouble, UpDoubleBytes));
  }

  /** The compiler from the parsed records to the written file. It completes
      exactly when the tables exist and every count fits an `int`; it then
      appends their encoding, which reads back as those tables. Where it
      throws, what was written before the throw is not described. */
  method Compile(lines: seq<Line>, toDouble: string -> Double8, w: Writer) returns (ok: bool)
    modifies w
    ensures ok <==> Compiled(lines, toDouble).Some? && CountsFit(Compiled(lines, toDouble).value)
    ensures ok ==> WellFormed(Compiled(lines, toDouble).value)
    ensures ok ==> w.output == old(w.output) + Encode(Compiled(lines, toDouble).value)
    ensures ok ==> Decode(w.output[|old(w.output)|..]) == Compiled(lines, toDouble)
  {
    var c := Normalise(lines);
    assert c.codes == Select(lines, CodeCatOf);
    var codes := SortByCode(c.codes);
    var built := BuildRanges(codes);
    if built.None? {
      return false;
    }
    ghost var start := w.output;
    ok := WriteTables(w, c, built.value, toDouble);
    if ok {
      var t := Compiled(lines, toDouble).value;
      TablesOfShape(c, built.value, toDouble);
      DecodeEncode(t);
      assert w.output[|start|..] == Encode(t);
    }
  }
}
