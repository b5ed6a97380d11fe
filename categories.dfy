/** The .NET `UnicodeCategory` enumeration, whose ordinal is what the table
    stores, and the General_Category abbreviations of UAX #44, section 5.7.1.
    Like the .NET enumeration, a category is its ordinal. */
module Categories {
  import opened Base

  type Category = n: nat | n < 30

  const UppercaseLetter: Category := 0
  const LowercaseLetter: Category := 1
  const TitlecaseLetter: Category := 2
  const ModifierLetter: Category := 3
  const OtherLetter: Category := 4
  const NonSpacingMark: Category := 5
  const SpacingCombiningMark: Category := 6
  const EnclosingMark: Category := 7
  const DecimalDigitNumber: Category := 8
  const LetterNumber: Category := 9
  const OtherNumber: Category := 10
  const SpaceSeparator: Category := 11
  const LineSeparator: Category := 12
  const ParagraphSeparator: Category := 13
  const Control: Category := 14
  const Format: Category := 15
  const Surrogate: Category := 16
  const PrivateUse: Category := 17
  const ConnectorPunctuation: Category := 18
  const DashPunctuation: Category := 19
  const OpenPunctuation: Category := 20
  const ClosePunctuation: Category := 21
  const InitialQuotePunctuation: Category := 22
  const FinalQuotePunctuation: Category := 23
  const OtherPunctuation: Category := 24
  const MathSymbol: Category := 25
  const CurrencySymbol: Category := 26
  const ModifierSymbol: Category := 27
  const OtherSymbol: Category := 28
  /** 0x1d, the answer of a lookup that finds nothing. */
  const OtherNotAssigned: Category := 29

  /** The category byte as written to the table: `(byte)category`. */
  function CategoryByte(c: Category): (b: byte)
    ensures b < 30
    ensures FromByte(b) == Some(c)
  {
    c
  }

  /** Reads a category byte back; bytes 30..255 name no category. */
  function FromByte(b: byte): (r: Option<Category>)
    ensures r.Some? <==> b < 30
  {
    if b < 30 then Some(b) else None
  }

  /** The General_Category abbreviation (UAX #44) of each category, by ordinal. */
  const Tags: seq<string> := [
    "Lu", "Ll", "Lt", "Lm", "Lo", "Mn", "Mc", "Me", "Nd", "Nl",
    "No", "Zs", "Zl", "Zp", "Cc", "Cf", "Cs", "Co", "Pc", "Pd",
    "Ps", "Pe", "Pi", "Pf", "Po", "Sm", "Sc", "Sk", "So", "Cn"]

  function Tag(c: Category): string
  {
    Tags[c]
  }

  /** The `switch (items[2])` of the record loop: thirty known tags, and
      PrivateUse for anything else. */
  function FromTag(tag: string): (c: Category)
  {
    match tag
    case "Cc" => Control
    case "Cf" => Format
    case "Cn" => OtherNotAssigned
    case "Co" => PrivateUse
    case "Cs" => Surrogate
    case "Ll" => LowercaseLetter
    case "Lm" => ModifierLetter
    case "Lo" => OtherLetter
    case "Lt" => TitlecaseLetter
    case "Lu" => UppercaseLetter
    case "Mc" => SpacingCombiningMark
    case "Me" => EnclosingMark
    case "Mn" => NonSpacingMark
    case "Nd" => DecimalDigitNumber
    case "Nl" => LetterNumber
    case "No" => OtherNumber
    case "Pc" => ConnectorPunctuation
    case "Pd" => DashPunctuation
    case "Pe" => ClosePunctuation
    case "Pf" => FinalQuotePunctuation
    case "Pi" => InitialQuotePunctuation
    case "Po" => OtherPunctuation
    case "Ps" => OpenPunctuation
    case "Sc" => CurrencySymbol
    case "Sk" => ModifierSymbol
    case "Sm" => MathSymbol
    case "So" => OtherSymbol
    case "Zl" => LineSeparator
    case "Zp" => ParagraphSeparator
    case "Zs" => SpaceSeparator
    case _ => PrivateUse
  }

  predicate IsKnownTag(tag: string)
  {
    tag in Tags
  }

  /** Each of the thirty tags maps to the category it abbreviates. */
  lemma FromTagOfTag(c: Category)
    ensures FromTag(Tag(c)) == c
  {
    if c < 10 {
      assert c in {0, 1, 2, 3, 4, 5, 6, 7, 8, 9};
    } else if c < 20 {
      assert c in {10, 11, 12, 13, 14, 15, 16, 17, 18, 19};
    } else {
      assert c in {20, 21, 22, 23, 24, 25, 26, 27, 28, 29};
    }
  }

  /** A tag outside the thirty yields PrivateUse, PrivateUse comes only
      from "Co" or from an unknown tag, and any other result is the category
      the tag abbreviates. */
  lemma FromTagDefault(tag: string)
    ensures !IsKnownTag(tag) ==> FromTag(tag) == PrivateUse
    ensures FromTag(tag) != PrivateUse ==> Tag(FromTag(tag)) == tag
    ensures FromTag(tag) == PrivateUse <==> tag == "Co" || !IsKnownTag(tag)
  {
    if IsKnownTag(tag) {
      var c :| 0 <= c < |Tags| && Tags[c] == tag;
      FromTagOfTag(c);
    }
  }
}
