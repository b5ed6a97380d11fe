/** The record loop of the compiler: each line of UnicodeData.txt, already
    split into fields, contributes to six lists. */
module Normaliser {
  import opened Base
  import opened Categories
  import opened Entities
  import opened Queries

  /** What `sbyte.TryParse` makes of a field: empty, a number, or not a number. */
  datatype SByteField = Empty | Parsed(value: i8) | Unparsable

  /** One line of UnicodeData.txt with the fields the compiler reads: the
      codepoint (field 0), the category tag (2), the decimal and digit fields
      (6, 7), the numeric-value text (8) and the simple upper, lower and
      title mappings (12, 13, 14), an empty field being None. */
  datatype Line = Line(
    code: u32, tag: string,
    field6: SByteField, field7: SByteField, numeric: string,
    upper: Option<u32>, lower: Option<u32>, title: Option<u32>)

  /** The six lists the loop appends to. */
  datatype Collected = Collected(
    codes: seq<CodeCat>, values: seq<NumericText>, decimals: seq<DecimalEntry>,
    uppercase: seq<CaseEntry>, lowercase: seq<CaseEntry>, titlecase: seq<CaseEntry>)

  /** `sbyte.TryParse`: success flag and out value, which is 0 on failure. */
  function TryParse(f: SByteField): (r: (bool, i8))
    ensures r.0 <==> f.Parsed?
    ensures r.1 == if f.Parsed? then f.value else 0
  {
    match f
    case Parsed(v) => (true, v)
    case _ => (false, 0)
  }

  /** The element of `codes` a line adds: its codepoint and the category its
      tag names, PrivateUse for "Co" and for any tag outside the thirty. */
  function CodeCatOf(l: Line): (r: CodeCat)
    ensures r.code == l.code
    ensures r.cat != PrivateUse ==> Tag(r.cat) == l.tag
    ensures r.cat == PrivateUse <==> l.tag == "Co" || !IsKnownTag(l.tag)
  {
    FromTagDefault(l.tag);
    CodeCat(l.code, FromTag(l.tag))
  }

  function ValueOf(l: Line): Option<NumericText>
  {
    if l.numeric == "" then None else Some(NumericText(l.code, l.numeric))
  }

  /** The decimals entry a line yields as Program.cs computes it: the digit
      value is parsed from field 6, not from field 7. So an entry exists
      exactly when field 6 parses, and its digit copies its decimal unless
      field 7 is empty. */
  function DecimalAsWritten(l: Line): (r: Option<DecimalEntry>)
    ensures r.Some? <==> l.field6.Parsed?
    ensures r.Some? ==> r.value.code == l.code && r.value.decimal == l.field6.value
    ensures r.Some? ==> r.value.digit == if l.field7.Empty? then -1 else l.field6.value
  {
    var (hasDecimal, dec) := if l.field6.Empty? then (false, -1) else TryParse(l.field6);
    var (hasDigit, digit) := if l.field7.Empty? then (false, -1) else TryParse(l.field6);
    if hasDecimal || hasDigit then Some(DecimalEntry(l.code, dec, digit)) else None
  }

  /** The decimals entry with the digit value read from its own field 7. */
  function DecimalIntended(l: Line): (r: Option<DecimalEntry>)
    ensures r.Some? <==> l.field6.Parsed? || l.field7.Parsed?
    ensures r.Some? ==> r.value.code == l.code
    ensures r.Some? && l.field6.Parsed? ==> r.value.decimal == l.field6.value
    ensures r.Some? && l.field7.Parsed? ==> r.value.digit == l.field7.value
    ensures r.Some? && l.field6.Empty? ==> r.value.decimal == -1
    ensures r.Some? && l.field7.Empty? ==> r.value.digit == -1
  {
    var (hasDecimal, dec) := if l.field6.Empty? then (false, -1) else TryParse(l.field6);
    var (hasDigit, digit) := if l.field7.Empty? then (false, -1) else TryParse(l.field7);
    if hasDecimal || hasDigit then Some(DecimalEntry(l.code, dec, digit)) else None
  }

  /** U+00B2 SUPERSCRIPT TWO has an empty decimal field and digit value 2:
      Program.cs records nothing for it, the intended reading records (-1, 2). */
  lemma SuperscriptTwoLosesDigit()
    ensures var l := Line(0xB2, "No", Empty, Parsed(2), "2", None, None, None);
      DecimalAsWritten(l) == None && DecimalIntended(l) == Some(DecimalEntry(0xB2, -1, 2))
  {
  }

  /** Where the two fields agree, as they do for every Nd character, the
      aliasing is harmless. */
  lemma AliasingHarmlessWhenFieldsAgree(l: Line)
    requires l.field6 == l.field7
    ensures DecimalAsWritten(l) == DecimalIntended(l)
  {
  }

  function UpperOf(l: Line): Option<CaseEntry>
  {
    if l.upper.Some? then Some(CaseEntry(l.code, l.upper.value)) else None
  }

  function LowerOf(l: Line): Option<CaseEntry>
  {
    if l.lower.Some? then Some(CaseEntry(l.code, l.lower.value)) else None
  }

  function TitleOf(l: Line): Option<CaseEntry>
  {
    if l.title.Some? then Some(CaseEntry(l.code, l.title.value)) else None
  }

  /** What the lines contribute to one list, in line order. */
  function Collect<T>(lines: seq<Line>, f: Line -> Option<T>): (r: seq<T>)
    ensures |r| <= |lines|
  {
    if lines == [] then []
    else
      var last := lines[|lines| - 1];
      Collect(lines[..|lines| - 1], f) + (if f(last).Some? then [f(last).value] else [])
  }

  /** Collecting one more line appends what it yields. */
  lemma CollectSnoc<T>(lines: seq<Line>, f: Line -> Option<T>, i: nat)
    requires i < |lines|
    ensures Collect(lines[..i + 1], f) == Collect(lines[..i], f) + Yield(f, lines[i])
  {
    assert lines[..i + 1][..i] == lines[..i];
  }

  /** An element is in a collected list exactly when some line yields it. */
  lemma {:induction false} CollectMember<T>(lines: seq<Line>, f: Line -> Option<T>, x: T)
    ensures x in Collect(lines, f) <==> exists i :: 0 <= i < |lines| && f(lines[i]) == Some(x)
  {
    if lines != [] {
      var init := lines[..|lines| - 1];
      CollectMember(init, f, x);
      if exists i :: 0 <= i < |init| && f(init[i]) == Some(x) {
        var i :| 0 <= i < |init| && f(init[i]) == Some(x);
        assert f(lines[i]) == Some(x);
      }
      if exists i :: 0 <= i < |lines| && f(lines[i]) == Some(x) {
        var i :| 0 <= i < |lines| && f(lines[i]) == Some(x);
        if i < |init| { assert f(init[i]) == Some(x); }
      }
    }
  }

  predicate AscendingLines(lines: seq<Line>)
  {
    forall i, j :: 0 <= i < j < |lines| ==> lines[i].code < lines[j].code
  }

  /** On lines in ascending codepoint order, a collected list is strictly
      ascending by the codepoint each element carries. */
  lemma {:induction false} CollectAscending<T>(lines: seq<Line>, f: Line -> Option<T>, key: T -> int)
    requires AscendingLines(lines)
    requires forall l :: f(l).Some? ==> key(f(l).value) == l.code
    ensures AscendingBy(Collect(lines, f), key)
  {
    if lines != [] {
      var init := lines[..|lines| - 1];
      var last := lines[|lines| - 1];
      CollectAscending(init, f, key);
      var r0 := Collect(init, f);
      if f(last).Some? {
        forall i | 0 <= i < |r0| ensures key(r0[i]) < last.code {
          CollectMember(init, f, r0[i]);
          var k :| 0 <= k < |init| && f(init[k]) == Some(r0[i]);
          assert init[k] == lines[k];
        }
        var r := Collect(lines, f);
        assert r == r0 + [f(last).value];
        forall i, j | 0 <= i < j < |r| ensures key(r[i]) < key(r[j]) {
          assert r[i] == r0[i] && key(r0[i]) < last.code;
          if j < |r0| {
            assert r[j] == r0[j];
          } else {
            assert r[j] == f(last).value && key(f(last).value) == last.code;
          }
        }
      }
    }
  }

  /** What a line yields for one list: its element, or nothing. */
  function Yield<T>(f: Line -> Option<T>, l: Line): seq<T>
  {
    if f(l).Some? then [f(l).value] else []
  }

  /** The body of the record loop: one line appended to the six lists. */
  method AddLine(c: Collected, line: Line) returns (d: Collected)
    ensures d.codes == c.codes + [CodeCatOf(line)]
    ensures d.values == c.values + Yield(ValueOf, line)
    ensures d.decimals == c.decimals + Yield(DecimalAsWritten, line)
    ensures d.uppercase == c.uppercase + Yield(UpperOf, line)
    ensures d.lowercase == c.lowercase + Yield(LowerOf, line)
    ensures d.titlecase == c.titlecase + Yield(TitleOf, line)
  {
    d := c;
    var code := line.code;
    d := d.(codes := d.codes + [CodeCat(code, FromTag(line.tag))]);
    if line.numeric != "" {
      d := d.(values := d.values + [NumericText(code, line.numeric)]);
    }
    var hasDecimal, hasDigit := false, false;
    var dec: i8, digit: i8 := -1, -1;
    if !line.field6.Empty? {
      hasDecimal, dec := TryParse(line.field6).0, TryParse(line.field6).1;
    }
    if !line.field7.Empty? {
      // Program.cs parses field 6 here as well
      hasDigit, digit := TryParse(line.field6).0, TryParse(line.field6).1;
    }
    if hasDecimal || hasDigit {
      d := d.(decimals := d.decimals + [DecimalEntry(code, dec, digit)]);
    }
    if line.upper.Some? {
      d := d.(uppercase := d.uppercase + [CaseEntry(code, line.upper.value)]);
    }
    if line.lower.Some? {
      d := d.(lowercase := d.lowercase + [CaseEntry(code, line.lower.value)]);
    }
    if line.title.Some? {
      d := d.(titlecase := d.titlecase + [CaseEntry(code, line.title.value)]);
    }
  }

  /** The record loop: one `codes` element per line, and each of the other
      lists gets what the line yields, in order. */
  method Normalise(lines: seq<Line>) returns (c: Collected)
    ensures |c.codes| == |lines|
    ensures forall i :: 0 <= i < |lines| ==> c.codes[i] == CodeCatOf(lines[i])
    ensures c.values == Collect(lines, ValueOf)
    ensures c.decimals == Collect(lines, DecimalAsWritten)
    ensures c.uppercase == Collect(lines, UpperOf)
    ensures c.lowercase == Collect(lines, LowerOf)
    ensures c.titlecase == Collect(lines, TitleOf)
  {
    c := Collected([], [], [], [], [], []);
    for i := 0 to |lines|
      invariant |c.codes| == i
      invariant forall k :: 0 <= k < i ==> c.codes[k] == CodeCatOf(lines[k])
      invariant c.values == Collect(lines[..i], ValueOf)
      invariant c.decimals == Collect(lines[..i], DecimalAsWritten)
      invariant c.uppercase == Collect(lines[..i], UpperOf)
      invariant c.lowercase == Collect(lines[..i], LowerOf)
      invariant c.titlecase == Collect(lines[..i], TitleOf)
    {
      CollectSnoc(lines, ValueOf, i);
      CollectSnoc(lines, DecimalAsWritten, i);
      CollectSnoc(lines, UpperOf, i);
      CollectSnoc(lines, LowerOf, i);
      CollectSnoc(lines, TitleOf, i);
      c := AddLine(c, lines[i]);
    }
    assert lines[..|lines|] == lines;
  }
}
