/** The records the compiler builds from UnicodeData.txt, with named fields
    in place of the positional tuples of Program.cs. */
module Entities {
  import opened Base
  import opened Categories

  /** One element of `codes`: a codepoint and its category. */
  datatype CodeCat = CodeCat(code: u32, cat: Category)

  /** One element of `ranges`: inclusive bounds and a category. */
  datatype Range = Range(from: u32, to: u32, cat: Category)

  /** One element of `uniques`: a range of a single codepoint. */
  datatype Point = Point(code: u32, cat: Category)

  /** One element of `values`: the numeric-value text of field 8. */
  datatype NumericText = NumericText(code: u32, text: string)

  /** The eight bytes of a `double` as `BinaryWriter.Write(double)` emits them. */
  type Double8 = s: seq<byte> | |s| == 8 witness [0, 0, 0, 0, 0, 0, 0, 0]

  /** A numeric value once converted to a double. */
  datatype ValueEntry = ValueEntry(code: u32, number: Double8)

  /** One element of `decimals`; -1 marks an absent decimal or digit value. */
  datatype DecimalEntry = DecimalEntry(code: u32, decimal: i8, digit: i8)

  /** One element of `uppercase`, `lowercase`, `titlecase` or `upUnique`. */
  datatype CaseEntry = CaseEntry(code: u32, mapped: u32)

  /** One element of the uppercase/titlecase join. */
  datatype CaseTriple = CaseTriple(code: u32, upper: u32, title: u32)

  predicate Contains(r: Range, x: int)
  {
    r.from <= x <= r.to
  }
}
