/** The lookup functions of the generated D module: each walks one sorted
    table upward and stops at the first entry that answers the query or
    lies past it. */
module Lookup {
  import opened Base
  import opened Categories
  import opened Entities
  import opened Queries
  import opened RangeBuilder
  import opened RangeProperties
  import opened Partition

  // ---- the scan shared by every lookup loop

  /** A scan result moved `n` entries further down the table. */
  function Shifted(r: Option<nat>, n: nat): Option<nat>
  {
    if r.Some? then Some(r.value + n) else None
  }

  /** The index a lookup loop stops at: it tests `hit` first and returns,
      else leaves the loop (`break`) on `past`; None when it finds nothing. */
  function Scan<T>(s: seq<T>, hit: T -> bool, past: T -> bool): (r: Option<nat>)
    ensures r.Some? ==> r.value < |s| && hit(s[r.value])
    ensures r.Some? ==> forall k :: 0 <= k < r.value ==> !hit(s[k]) && !past(s[k])
  {
    if s == [] then None
    else if hit(s[0]) then Some(0)
    else if past(s[0]) then None
    else
      var r := Scan(s[1..], hit, past);
      assert forall k :: 1 <= k < |s| ==> s[k] == s[1..][k - 1];
      Shifted(r, 1)
  }

  /** One step of the scan at index `i`. */
  lemma ScanStep<T>(s: seq<T>, hit: T -> bool, past: T -> bool, i: nat)
    requires i < |s|
    ensures Scan(s[i..], hit, past) ==
      if hit(s[i]) then Some(0)
      else if past(s[i]) then None
      else Shifted(Scan(s[i + 1..], hit, past), 1)
  {
    assert s[i..][0] == s[i];
    assert s[i..][1..] == s[i + 1..];
  }

  /** A scan that stops early finds nothing the scan of the whole table
      would have found, provided no entry past the key matches and every
      entry after one past the key is past it too. It then returns the first
      match of the whole table. */
  lemma {:induction false} ScanComplete<T>(s: seq<T>, hit: T -> bool, past: T -> bool)
    requires forall k :: 0 <= k < |s| && past(s[k]) ==> !hit(s[k])
    requires forall i, j :: 0 <= i < j < |s| && past(s[i]) ==> past(s[j])
    ensures Scan(s, hit, past) == FirstIndex(s, hit)
  {
    if s != [] && !hit(s[0]) {
      if !past(s[0]) {
        assert forall k :: 1 <= k < |s| ==> s[k] == s[1..][k - 1];
        ScanComplete(s[1..], hit, past);
      }
    }
  }

  /** The loop of every lookup function: `for (i = 0; i < count; i++) if
      (hit) return ...; else if (past) break;`. */
  method ScanIndex<T>(s: seq<T>, hit: T -> bool, past: T -> bool) returns (r: Option<nat>)
    ensures r == Scan(s, hit, past)
  {
    for i := 0 to |s|
      invariant Scan(s, hit, past) == Shifted(Scan(s[i..], hit, past), i)
    {
      ScanStep(s, hit, past, i);
      if hit(s[i]) {
        return Some(i);
      } else if past(s[i]) {
        break;
      }
    }
    return None;
  }

  // ---- keyed tables: the points, values and decimals

  /** `t.code == code`. */
  function KeyIs<T>(key: T -> int, code: int): T -> bool
  {
    (x: T) => key(x) == code
  }

  /** `t.code > code`. */
  function KeyPast<T>(key: T -> int, code: int): T -> bool
  {
    (x: T) => key(x) > code
  }

  /** On a table strictly ascending by key the scan finds the entry with the
      key exactly when there is one, and finds nothing exactly when no entry
      has it. */
  lemma KeyScanFinds<T>(s: seq<T>, key: T -> int, code: int)
    requires AscendingBy(s, key)
    ensures forall i :: 0 <= i < |s| ==>
      (Scan(s, KeyIs(key, code), KeyPast(key, code)) == Some(i) <==> key(s[i]) == code)
    ensures Scan(s, KeyIs(key, code), KeyPast(key, code)).None? <==>
      forall i :: 0 <= i < |s| ==> key(s[i]) != code
  {
    var hit, past := KeyIs(key, code), KeyPast(key, code);
    forall i, j | 0 <= i < j < |s| && past(s[i]) ensures past(s[j]) {
    }
    ScanComplete(s, hit, past);
    forall i | 0 <= i < |s| && key(s[i]) == code
      ensures Scan(s, hit, past) == Some(i)
    {
      assert hit(s[i]);
    }
  }

  function ValueKey(v: ValueEntry): int
  {
    v.code
  }

  function DecimalKey(d: DecimalEntry): int
  {
    d.code
  }

  // ---- the category lookups

  /** `shortRanges[i].from > code`. */
  function StartsPast(code: int): Range -> bool
  {
    (r: Range) => r.from > code
  }

  /** On ranges ascending by their start, the range scan stops at the first
      range of the table containing the code; when the ranges are also
      disjoint, that is the only one. */
  lemma RangeScanFinds(rs: seq<Range>, code: int)
    requires AscendingBy(rs, From)
    ensures Scan(rs, Covering(code), StartsPast(code)) == FirstIndex(rs, Covering(code))
    ensures (forall i, j :: 0 <= i < j < |rs| ==> rs[i].to < rs[j].from) ==>
      forall i :: 0 <= i < |rs| && Contains(rs[i], code) ==>
        Scan(rs, Covering(code), StartsPast(code)) == Some(i)
  {
    var hit, past := Covering(code), StartsPast(code);
    forall i, j | 0 <= i < j < |rs| && past(rs[i]) ensures past(rs[j]) {
      assert From(rs[i]) < From(rs[j]);
    }
    ScanComplete(rs, hit, past);
    if forall i, j :: 0 <= i < j < |rs| ==> rs[i].to < rs[j].from {
      forall i | 0 <= i < |rs| && Contains(rs[i], code)
        ensures Scan(rs, hit, past) == Some(i)
      {
        assert hit(rs[i]);
      }
    }
  }

  /** What a category lookup answers: the category of the range the range
      loop stops at, else that of the point the point loop stops at, else
      0x1d. */
  function CategoryOf(rs: seq<Range>, ps: seq<Point>, code: int): (b: byte)
    ensures b <= 0x1d
    ensures b == 0x1d ||
      (exists i :: 0 <= i < |rs| && Contains(rs[i], code) && b == CategoryByte(rs[i].cat)) ||
      (exists j :: 0 <= j < |ps| && ps[j].code == code && b == CategoryByte(ps[j].cat))
  {
    var i := Scan(rs, Covering(code), StartsPast(code));
    if i.Some? then CategoryByte(rs[i.value].cat)
    else
      var j := Scan(ps, KeyIs(PointCode, code), KeyPast(PointCode, code));
      if j.Some? then CategoryByte(ps[j.value].cat) else CategoryByte(OtherNotAssigned)
  }

  /** The two loops of a category lookup, over one range table and one
      point table. */
  method CategoryScan(rs: seq<Range>, ps: seq<Point>, code: int) returns (c: byte)
    ensures c == CategoryOf(rs, ps, code)
  {
    var i := ScanIndex(rs, Covering(code), StartsPast(code));
    if i.Some? {
      return CategoryByte(rs[i.value].cat);
    }
    var j := ScanIndex(ps, KeyIs(PointCode, code), KeyPast(PointCode, code));
    if j.Some? {
      return CategoryByte(ps[j.value].cat);
    }
    return 0x1d;
  }

  /** `getShortCategory`: a code above the latin block and within 16 bits,
      looked up in the short ranges, then the short points. */
  method GetShortCategory(shortRanges: seq<Range>, shortPoints: seq<Point>, code: int) returns (c: byte)
    requires 0xFF < code <= 0xFFFF
    ensures c == CategoryOf(shortRanges, shortPoints, code)
  {
    c := CategoryScan(shortRanges, shortPoints, code);
  }

  /** `getUintCategory` as evidently intended: a code above 16 bits, looked
      up in the uint ranges, stopping past it, then the uint points. */
  method GetUintCategory(uintRanges: seq<Range>, uintPoints: seq<Point>, code: u32) returns (c: byte)
    requires code > 0xFFFF
    ensures c == CategoryOf(uintRanges, uintPoints, code)
  {
    c := CategoryScan(uintRanges, uintPoints, code);
  }

  // ---- getUintCategory as written: its range loop tests `shortRanges[i]`

  /** Where the range loop of `getUintCategory` as written ends: at a range
      containing the code, past the code, or on an index of `shortRanges`
      out of bounds, which is a `RangeError` in D. */
  datatype RangeStop = Found(index: nat) | NotFound | OutOfBounds

  function Later(r: RangeStop, n: nat): RangeStop
  {
    if r.Found? then Found(r.index + n) else r
  }

  /** The range loop as written: tests `uintRanges[i]` for the code but
      `shortRanges[i].from` for the early exit. */
  function UintRangeScanAsWritten(us: seq<Range>, ss: seq<Range>, code: int): (r: RangeStop)
    ensures r.Found? ==> r.index < |us| && Contains(us[r.index], code)
    ensures r.OutOfBounds? ==> |ss| < |us|
  {
    if us == [] then NotFound
    else if Contains(us[0], code) then Found(0)
    else if ss == [] then OutOfBounds
    else if ss[0].from > code then NotFound
    else Later(UintRangeScanAsWritten(us[1..], ss[1..], code), 1)
  }

  lemma UintRangeStepAsWritten(us: seq<Range>, ss: seq<Range>, code: int, i: nat)
    requires i < |us| && i <= |ss|
    ensures UintRangeScanAsWritten(us[i..], ss[i..], code) ==
      if Contains(us[i], code) then Found(0)
      else if i == |ss| then OutOfBounds
      else if ss[i].from > code then NotFound
      else Later(UintRangeScanAsWritten(us[i + 1..], ss[i + 1..], code), 1)
  {
    assert us[i..][0] == us[i];
    assert us[i..][1..] == us[i + 1..];
    if i < |ss| {
      assert ss[i..][0] == ss[i];
      assert ss[i..][1..] == ss[i + 1..];
    }
  }

  /** The answer of `getUintCategory` as written; None where it indexes
      `shortRanges` out of bounds. */
  function UintCategoryAsWritten(shortRanges: seq<Range>, uintRanges: seq<Range>, uintPoints: seq<Point>, code: int): (r: Option<byte>)
    ensures r.None? ==> |shortRanges| < |uintRanges|
    ensures r.Some? ==> r.value <= 0x1d
  {
    var r := UintRangeScanAsWritten(uintRanges, shortRanges, code);
    if r.Found? then Some(CategoryByte(uintRanges[r.index].cat))
    else if r.OutOfBounds? then None
    else
      var j := Scan(uintPoints, KeyIs(PointCode, code), KeyPast(PointCode, code));
      if j.Some? then Some(CategoryByte(uintPoints[j.value].cat)) else Some(CategoryByte(OtherNotAssigned))
  }

  /** `getUintCategory` as written. */
  method GetUintCategoryAsWritten(shortRanges: seq<Range>, uintRanges: seq<Range>, uintPoints: seq<Point>, code: u32)
    returns (c: Option<byte>)
    requires code > 0xFFFF
    ensures c == UintCategoryAsWritten(shortRanges, uintRanges, uintPoints, code)
  {
    for i := 0 to |uintRanges|
      invariant i <= |shortRanges|
      invariant UintRangeScanAsWritten(uintRanges, shortRanges, code) ==
        Later(UintRangeScanAsWritten(uintRanges[i..], shortRanges[i..], code), i)
    {
      UintRangeStepAsWritten(uintRanges, shortRanges, code, i);
      if Contains(uintRanges[i], code) {
        return Some(CategoryByte(uintRanges[i].cat));
      } else if i == |shortRanges| {
        return None;
      } else if shortRanges[i].from > code {
        break;
      }
    }
    var j := ScanIndex(uintPoints, KeyIs(PointCode, code), KeyPast(PointCode, code));
    if j.Some? {
      return Some(CategoryByte(uintPoints[j.value].cat));
    }
    return Some(0x1d);
  }

  /** No short range starts above 16 bits, so the early exit as written
      never fires: the loop runs on to the first range containing the code,
      or faults when `shortRanges` runs out first. */
  lemma {:induction false} UintRangeScanAsWrittenFirst(us: seq<Range>, ss: seq<Range>, code: int)
    requires code > 0xFFFF && forall k :: 0 <= k < |ss| ==> ss[k].from <= 0xFFFF
    requires |ss| >= |us|
    ensures UintRangeScanAsWritten(us, ss, code) ==
      if FirstIndex(us, Covering(code)).Some? then Found(FirstIndex(us, Covering(code)).value) else NotFound
  {
    if us != [] && !Contains(us[0], code) {
      assert ss[0].from <= 0xFFFF;
      assert forall k :: 0 <= k < |ss| - 1 ==> ss[1..][k] == ss[k + 1];
      UintRangeScanAsWrittenFirst(us[1..], ss[1..], code);
      assert !Covering(code)(us[0]);
    }
  }

  /** With at least as many short ranges as uint ranges, and the uint ranges
      ascending, `getUintCategory` as written answers what the intended
      lookup answers. */
  lemma UintCategoryAsWrittenAgrees(shortRanges: seq<Range>, uintRanges: seq<Range>, uintPoints: seq<Point>, code: int)
    requires code > 0xFFFF && forall k :: 0 <= k < |shortRanges| ==> shortRanges[k].from <= 0xFFFF
    requires |shortRanges| >= |uintRanges| && AscendingBy(uintRanges, From)
    ensures UintCategoryAsWritten(shortRanges, uintRanges, uintPoints, code) == Some(CategoryOf(uintRanges, uintPoints, code))
  {
    UintRangeScanAsWrittenFirst(uintRanges, shortRanges, code);
    RangeScanFinds(uintRanges, code);
  }

  /** With fewer short ranges than uint ranges, a code in no uint range
      makes `getUintCategory` as written index `shortRanges` out of bounds. */
  lemma {:induction false} UintCategoryAsWrittenFaults(shortRanges: seq<Range>, uintRanges: seq<Range>, uintPoints: seq<Point>, code: int)
    requires code > 0xFFFF && forall k :: 0 <= k < |shortRanges| ==> shortRanges[k].from <= 0xFFFF
    requires |shortRanges| < |uintRanges| && forall k :: 0 <= k < |uintRanges| ==> !Contains(uintRanges[k], code)
    ensures UintCategoryAsWritten(shortRanges, uintRanges, uintPoints, code).None?
  {
    if shortRanges != [] {
      assert shortRanges[0].from <= 0xFFFF && !Contains(uintRanges[0], code);
      assert forall k :: 0 <= k < |shortRanges| - 1 ==> shortRanges[1..][k] == shortRanges[k + 1];
      assert forall k :: 0 <= k < |uintRanges| - 1 ==> uintRanges[1..][k] == uintRanges[k + 1];
      UintCategoryAsWrittenFaults(shortRanges[1..], uintRanges[1..], uintPoints, code);
    }
  }

  /** A smallest case: one uint range, no short ranges, a code beyond the
      range. The intended lookup answers 0x1d; the code as written faults. */
  lemma UintCategoryCounterexample()
    ensures UintCategoryAsWritten([], [Range(0x10000, 0x10010, OtherLetter)], [], 0x20000).None?
    ensures CategoryOf([Range(0x10000, 0x10010, OtherLetter)], [], 0x20000) == 0x1d
  {
    var rs := [Range(0x10000, 0x10010, OtherLetter)];
    assert !Contains(rs[0], 0x20000);
    assert rs[1..] == [];
  }

  /** On tables as the compiler builds them — ranges ascending and disjoint,
      points strictly ascending — a category lookup answers the category of
      the range containing the code, else that of the point with the code,
      else 0x1d. */
  lemma CategoryOfTables(rs: seq<Range>, ps: seq<Point>, code: int)
    requires AscendingBy(rs, From) && forall i, j :: 0 <= i < j < |rs| ==> rs[i].to < rs[j].from
    requires AscendingBy(ps, PointCode)
    ensures forall i :: 0 <= i < |rs| && Contains(rs[i], code) ==>
      CategoryOf(rs, ps, code) == CategoryByte(rs[i].cat)
    ensures (forall i :: 0 <= i < |rs| ==> !Contains(rs[i], code)) ==>
      forall j :: 0 <= j < |ps| && ps[j].code == code ==> CategoryOf(rs, ps, code) == CategoryByte(ps[j].cat)
    ensures ((forall i :: 0 <= i < |rs| ==> !Contains(rs[i], code)) &&
      (forall j :: 0 <= j < |ps| ==> ps[j].code != code)) ==>
      CategoryOf(rs, ps, code) == 0x1d
  {
    RangeScanFinds(rs, code);
    KeyScanFinds(ps, PointCode, code);
  }

  // ---- the value and digit lookups

  /** -1.0 as `BinaryWriter.Write(double)` would lay it out: 0xBFF0000000000000, low byte first. */
  const MinusOne: Double8 := [0, 0, 0, 0, 0, 0, 0xF0, 0xBF]

  /** What `getValue` answers. */
  function ValueOf(values: seq<ValueEntry>, code: int): (d: Double8)
    ensures d == MinusOne || exists i :: 0 <= i < |values| && values[i].code == code && d == values[i].number
  {
    var i := Scan(values, KeyIs(ValueKey, code), KeyPast(ValueKey, code));
    if i.Some? then values[i.value].number else MinusOne
  }

  /** `getValue`. */
  method GetValue(values: seq<ValueEntry>, code: u32) returns (d: Double8)
    ensures d == ValueOf(values, code)
  {
    var i := ScanIndex(values, KeyIs(ValueKey, code), KeyPast(ValueKey, code));
    if i.Some? {
      return values[i.value].number;
    }
    return MinusOne;
  }

  /** On a value table strictly ascending by code, `getValue` answers the
      value of the entry with the code, and -1 where there is none. */
  lemma ValueOfTable(values: seq<ValueEntry>, code: int)
    requires AscendingBy(values, ValueKey)
    ensures forall i :: 0 <= i < |values| && values[i].code == code ==> ValueOf(values, code) == values[i].number
    ensures (forall i :: 0 <= i < |values| ==> values[i].code != code) ==> ValueOf(values, code) == MinusOne
  {
    KeyScanFinds(values, ValueKey, code);
  }

  /** What `getDecimalDigit` answers. */
  function DecimalDigitOf(decimals: seq<DecimalEntry>, code: int): (v: i8)
    ensures v == -1 || exists i :: 0 <= i < |decimals| && decimals[i].code == code && v == decimals[i].decimal
  {
    var i := Scan(decimals, KeyIs(DecimalKey, code), KeyPast(DecimalKey, code));
    if i.Some? then decimals[i.value].decimal else -1
  }

  /** What `getDigitValue` answers. */
  function DigitValueOf(decimals: seq<DecimalEntry>, code: int): (v: i8)
    ensures v == -1 || exists i :: 0 <= i < |decimals| && decimals[i].code == code && v == decimals[i].digit
  {
    var i := Scan(decimals, KeyIs(DecimalKey, code), KeyPast(DecimalKey, code));
    if i.Some? then decimals[i.value].digit else -1
  }

  /** `getDecimalDigit`. */
  method GetDecimalDigit(decimals: seq<DecimalEntry>, code: u32) returns (v: i8)
    ensures v == DecimalDigitOf(decimals, code)
  {
    var i := ScanIndex(decimals, KeyIs(DecimalKey, code), KeyPast(DecimalKey, code));
    if i.Some? {
      return decimals[i.value].decimal;
    }
    return -1;
  }

  /** `getDigitValue`. */
  method GetDigitValue(decimals: seq<DecimalEntry>, code: u32) returns (v: i8)
    ensures v == DigitValueOf(decimals, code)
  {
    var i := ScanIndex(decimals, KeyIs(DecimalKey, code), KeyPast(DecimalKey, code));
    if i.Some? {
      return decimals[i.value].digit;
    }
    return -1;
  }

  /** On a decimals table strictly ascending by code, both digit lookups
      answer the entry with the code, and -1 where there is none. */
  lemma DigitsOfTable(decimals: seq<DecimalEntry>, code: int)
    requires AscendingBy(decimals, DecimalKey)
    ensures forall i :: 0 <= i < |decimals| && decimals[i].code == code ==>
      DecimalDigitOf(decimals, code) == decimals[i].decimal && DigitValueOf(decimals, code) == decimals[i].digit
    ensures (forall i :: 0 <= i < |decimals| ==> decimals[i].code != code) ==>
      DecimalDigitOf(decimals, code) == -1 && DigitValueOf(decimals, code) == -1
  {
    KeyScanFinds(decimals, DecimalKey, code);
  }

  // ---- lookups over the tables the compiler builds

  /** No range of `rs` both starts in the latin block and ends above it. */
  predicate SplitAtLatin(rs: seq<Range>)
  {
    forall i :: 0 <= i < |rs| ==> rs[i].from > 255 || rs[i].to <= 255
  }

  /** Ranges that are strictly ascending and disjoint hold a code in one
      range at most. */
  lemma OnlyCovering(rs: seq<Range>, j: nat, code: int)
    requires forall a, b :: 0 <= a < b < |rs| ==> rs[a].to < rs[b].from
    requires j < |rs| && Contains(rs[j], code)
    ensures forall r :: r in rs && Contains(r, code) ==> r == rs[j]
  {
    forall r | r in rs && Contains(r, code) ensures r == rs[j] {
      var i :| 0 <= i < |rs| && rs[i] == r;
    }
  }

  /** The range tables of the file, ascending by start. */
  lemma BuiltFromAscending(codes: seq<CodeCat>)
    requires codes != [] && StrictlyAscending(codes)
    requires codes[|codes| - 1].code < 0xFFFF_FFFF
    ensures AscendingBy(Built(codes).value, From)
    ensures forall a, b :: 0 <= a < b < |Built(codes).value| ==> Built(codes).value[a].to < Built(codes).value[b].from
  {
    BuiltAscending(codes);
  }

  /** A code in a multi-point range above the latin block is answered by
      the range table. */
  lemma LookupWide(rs: seq<Range>, j: nat, code: int)
    requires AscendingBy(rs, From) && forall a, b :: 0 <= a < b < |rs| ==> rs[a].to < rs[b].from
    requires j < |rs| && Contains(rs[j], code) && IsWide(rs[j])
    ensures CategoryOf(Ranges2(rs), Uniques(rs), code) == CategoryByte(rs[j].cat)
  {
    OnlyCovering(rs, j, code);
    PartitionOrdered(rs);
    PartitionMembers(rs);
    var wide := Ranges2(rs);
    RangeScanFinds(wide, code);
    assert Covering(code)(rs[j]) && rs[j] in wide;
    var f := FirstIndex(wide, Covering(code));
    assert wide[f.value] in wide && Covering(code)(wide[f.value]);
  }

  /** A code that is a single-point range above the latin block is in no
      multi-point range and is answered by the point table. */
  lemma LookupPoint(rs: seq<Range>, j: nat, code: int)
    requires AscendingBy(rs, From) && forall a, b :: 0 <= a < b < |rs| ==> rs[a].to < rs[b].from
    requires j < |rs| && Contains(rs[j], code) && IsPoint(rs[j])
    ensures CategoryOf(Ranges2(rs), Uniques(rs), code) == CategoryByte(rs[j].cat)
  {
    OnlyCovering(rs, j, code);
    PartitionOrdered(rs);
    PartitionMembers(rs);
    var wide, points := Ranges2(rs), Uniques(rs);
    RangeScanFinds(wide, code);
    KeyScanFinds(points, PointCode, code);
    forall k | 0 <= k < |wide| ensures !Covering(code)(wide[k]) {
      assert wide[k] in wide;
    }
    assert FirstIndex(wide, Covering(code)).None?;
    assert PointOf(rs[j]) in points;
    var p :| 0 <= p < |points| && points[p] == PointOf(rs[j]);
    assert PointCode(points[p]) == code;
  }

  /** A lookup in the ranges and points the compiler writes, of a codepoint
      above the latin block that a record names, answers that record's
      category — except for the first codepoint of the last run, which no
      range holds, and provided no range straddles the end of the latin
      block, since those land in neither table. */
  lemma CategoryOfBuilt(codes: seq<CodeCat>, k: nat)
    requires codes != [] && StrictlyAscending(codes)
    requires codes[|codes| - 1].code < 0xFFFF_FFFF
    requires k < |codes| && k != LastRunStart(codes) && codes[k].code > 255
    requires SplitAtLatin(Built(codes).value)
    ensures CategoryOf(Ranges2(Built(codes).value), Uniques(Built(codes).value), codes[k].code) ==
      CategoryByte(codes[k].cat)
  {
    var rs := Built(codes).value;
    var j := BuiltCoverage(codes, k);
    BuiltFromAscending(codes);
    if IsWide(rs[j]) {
      LookupWide(rs, j, codes[k].code);
    } else {
      LookupPoint(rs, j, codes[k].code);
    }
  }
}
