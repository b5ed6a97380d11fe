# genunicode — a verified model of the Unicode table compiler

`genunicode` reads the records of UnicodeData.txt and compiles them into one
binary file of character tables for a runtime library. It has no separate
library functions: everything is a single `Program.Main`. That program has
six stages, and each one is modelled here on its own:

1. **Record loop** (`Normaliser`). Each record yields:
   - its codepoint and general category: the two-letter tag goes to
     `UnicodeCategory`, and an unknown tag gives `PrivateUse`
     (`Categories`);
   - its numeric-value text;
   - its decimal/digit pair, where `-1` marks an absent value;
   - its upper, lower and title mappings.

   The loop is a method over a record of lists (`Collected`). Each list is
   proved equal to a filter (`Collect`) of the records.
2. **Range loop** (`RangeBuilder`, `RangeProperties`). The codes are
   sorted, then one scan merges each run of a category into an inclusive
   range. A range is closed one below the first codepoint of the next
   run, and the final range starts at `previous + 1`.
3. **Partition** (`Partition`):
   - the ranges above 255 split into wide ranges (`ranges2`) and
     single-codepoint points (`uniques`);
   - the 256-entry latin table takes, for each byte value, the category of
     the first range that holds it.
4. **Case join** (`CaseMapping`). The uppercase and titlecase lists are
   inner-joined on the codepoint. The triples then split into those whose
   two mappings agree (`upUnique`) and those whose mappings differ
   (`upDouble`).
5. **Writer** (`SevenBit`, `Output`, `Sections`, `Format`, `Compiler`):
   - a `BinaryWriter` whose `output` sequence grows with each write;
   - `Write7BitEncodedInt`, i.e. unsigned LEB128 as in section 7.6 of
     DWARF 4;
   - `Write(int)` as four little-endian bytes;
   - eight sections in a fixed order.

   `Format.Decode` reads a file back. `Format.DecodeEncode` proves that the
   file decodes to exactly the tables that were written.
   `Compiler.Compile` ties all the stages together. Its output is proved
   to be the encoding of `Compiled(lines)`, and to decode back to those
   tables.
6. **Lookup functions** (`Lookup`). These are the D functions the program's
   comments carry for reading the tables.
   - Each is a linear scan that stops early once an entry's key passes the
     query.
   - By default a category is `0x1d` (`OtherNotAssigned`), a value is the
     double `-1.0`, and a digit is `-1`.
   - Each scan is proved equal to the first-match search on a sorted
     table.
   - `Lookup.CategoryOfBuilt` proves that every recorded codepoint above
     255 looks up to its own category through the compiled sections. It
     has three hypotheses: the codepoint is not the first of the last run,
     no range straddles 255/256, and the last codepoint is below
     0xFFFF_FFFF.

Integers follow the source's widths:
- codepoints are `uint` (`Base.u32`) and counts are `int` (`Base.i32`);
- the unchecked `code - 1` and `previous + 1` wrap modulo 2^32
  (`Base.Dec32`, `Base.Inc32`);
- an `int` count that `Count()` cannot return is an overflow, after which
  the writer stops (`Format.CountsFit`);
- bytes are `Base.byte`, the integers 0..255 as a subset type of `int`
  rather than `bv8`, and `sbyte` is `Base.i8`.

Two behaviours of the code are worth knowing before the table:
- The final range starts at `previous + 1`. So the three records
  `(0x41, Lu), (0x42, Lu), (0x43, Ll)` give the ranges `[0x41, 0x42]` and
  the inverted `[0x44, 0x43]` (`RangeProperties.BuiltExample`).
- In UnicodeData.txt, field 6 is the decimal digit value and field 7 the
  digit value (the field list of Unicode Standard Annex #44). Line 126
  nevertheless parses field 6 for the digit value (see Findings).

## Model

| member | source | states |
|---|---|---|
| Base.Dec32 | src/genunicode/Program.cs:150 | `code - 1` on a `uint` wraps: the result plus one is the input modulo 2^32 |
| Base.Inc32 | src/genunicode/Program.cs:156 | `previous.Item1 + 1` on a `uint` wraps: 0xFFFF_FFFF becomes 0, and `Dec32` undoes it |
| Base.AsInt32 | src/genunicode/Program.cs:182-183 | the `(int)` cast of a `uint` keeps the bits: non-negative exactly below 2^31, and `AsUInt32` gives the `uint` back |
| Base.AsUInt32 | src/genunicode/Program.cs:18-21 | the `(uint)` reinterpretation inside `Write7BitEncodedInt`: non-negative values are kept, negative ones gain 2^32 |
| Base.AsInt32AsUInt32 | src/genunicode/Program.cs:18-21 | reinterpreting an `int` as `uint` and back is the identity |
| Base.SByteBits | src/genunicode/Program.cs:243-244 | the byte `Write(sbyte)` emits: `SByteOf` reads the same value back, and it is below 0x80 exactly when the value is non-negative |
| Categories.CategoryByte | src/genunicode/Program.cs:176 | `(byte)category` is below 30 and `FromByte` reads the category back from it |
| Categories.FromByte | src/genunicode/Program.cs:176 | a byte names a category exactly when it is below 30 |
| Categories.Tags | src/genunicode/Program.cs:77-110 | the thirty case labels of the switch, indexed by the category's ordinal. It has no ensures of its own; `FromTagOfTag` states that each label maps back to its own category |
| Categories.FromTagOfTag | src/genunicode/Program.cs:77-109 | each of the thirty two-letter tags maps to its own `UnicodeCategory` |
| Categories.FromTagDefault | src/genunicode/Program.cs:77-110 | an unknown tag gives `PrivateUse`, and `PrivateUse` comes from "Co" or an unknown tag and nothing else |
| Categories.FromTag | src/genunicode/Program.cs:77-110 | the `switch (items[2])`. Its mapping is stated by `FromTagOfTag` and `FromTagDefault`: each of the thirty tags gives its own category, any other result names its tag, and every unknown tag gives `PrivateUse` |
| Queries.Where | src/genunicode/Program.cs:158-160 | `Where` keeps at most as many elements as it is given, and every element it keeps satisfies the filter |
| Queries.WhereMember | src/genunicode/Program.cs:158-160 | an element survives `Where` exactly when it was in the input and satisfies the filter |
| Queries.WhereSplit | src/genunicode/Program.cs:254-255 | a filter and its negation split the input between them by count |
| Queries.WhereAscending | src/genunicode/Program.cs:158-160 | filtering keeps a list ascending |
| Queries.FirstIndex | src/genunicode/Program.cs:175 | `First(predicate)`: the first index that satisfies the predicate, with none before it; None exactly when no element does |
| Queries.Select | src/genunicode/Program.cs:160 | `Select` keeps the length and maps each element in place |
| Normaliser.TryParse | src/genunicode/Program.cs:123 | `sbyte.TryParse` succeeds exactly on a parsable field; its out value is the number, or 0 on failure |
| Normaliser.CodeCatOf | src/genunicode/Program.cs:75-111 | the element a record adds to `codes`: its own codepoint and the category its tag names; `PrivateUse` exactly for "Co" and for any tag outside the thirty |
| Normaliser.DecimalAsWritten | src/genunicode/Program.cs:117-129 | a decimal entry exists exactly when field 6 parses; its decimal is field 6, and its digit is also field 6, or -1 when field 7 is empty |
| Normaliser.DecimalIntended | src/genunicode/Program.cs:117-129 | the corrected loop: an entry exists when field 6 or field 7 parses; each value comes from its own field, with -1 for an absent field |
| Normaliser.SuperscriptTwoLosesDigit | src/genunicode/Program.cs:126 | U+00B2 (field 6 empty, field 7 "2") gets no entry as written but entry (0xB2, -1, 2) when corrected |
| Normaliser.AliasingHarmlessWhenFieldsAgree | src/genunicode/Program.cs:123-126 | when fields 6 and 7 agree, the code as written and the corrected loop give the same entry |
| Normaliser.Collect | src/genunicode/Program.cs:113-136 | a collected list is never longer than the records it comes from |
| Normaliser.CollectSnoc | src/genunicode/Program.cs:72-137 | one more record appends exactly what that record yields |
| Normaliser.CollectMember | src/genunicode/Program.cs:113-136 | an entry is in a collected list exactly when some record yields it |
| Normaliser.CollectAscending | src/genunicode/Program.cs:72-138 | records in ascending codepoint order give every list in ascending order |
| Normaliser.AddLine | src/genunicode/Program.cs:73-137 | one turn of the record loop appends the record's code and category, plus whatever the record yields to each of the five lists |
| Normaliser.Normalise | src/genunicode/Program.cs:72-138 | after the loop, `codes` holds one entry per record in file order, and each list is the filter of the records that carry that field |
| RangeBuilder.Insert | src/genunicode/Program.cs:140 | inserting adds exactly one element to the multiset |
| RangeBuilder.InsertSorted | src/genunicode/Program.cs:140 | inserting into a list sorted by code keeps it sorted |
| RangeBuilder.SortByCode | src/genunicode/Program.cs:140 | `OrderBy(code)` gives a list sorted by code that is a permutation of its input |
| RangeBuilder.RunStarts | src/genunicode/Program.cs:146-155 | the run starts begin at index 0 and lie within the records scanned |
| RangeBuilder.RunStartsAscending | src/genunicode/Program.cs:146-155 | run starts strictly ascend |
| RangeBuilder.RunStartsChange | src/genunicode/Program.cs:148 | every run start after the first has a category different from its predecessor's |
| RangeBuilder.RunStartsClosedRuns | src/genunicode/Program.cs:146-155 | every record between two run starts has the category of the earlier start |
| RangeBuilder.RunStartsOpenRun | src/genunicode/Program.cs:146-155 | every record of the open run has the category of its start |
| RangeBuilder.RunStartsStep | src/genunicode/Program.cs:148-153 | a record opens a new run exactly when its category differs from the open run's |
| RangeBuilder.LastRunStart | src/genunicode/Program.cs:146-156 | `previous` at the end of the loop is the first record of the last run: every later record shares its category |
| RangeBuilder.ClosedRanges | src/genunicode/Program.cs:150 | one range per closed run, from its first codepoint to one below the next run's first codepoint |
| RangeBuilder.ClosedRangesSnoc | src/genunicode/Program.cs:150 | opening a run closes exactly one more range |
| RangeBuilder.BuildStep | src/genunicode/Program.cs:146-155 | one turn of the loop keeps `ranges` and `previous` in step with the run starts |
| RangeBuilder.BuildRanges | src/genunicode/Program.cs:143-156 | the loop yields the closed ranges and then the final range; with no records, `codes[0]` throws (None) |
| RangeBuilder.FinalRange | src/genunicode/Program.cs:156 | the range added after the loop ends at the last record's codepoint with its category, and starts one above `previous` (modulo 2^32) |
| RangeBuilder.Built | src/genunicode/Program.cs:143-156 | the ranges exist exactly when there is a record; there is one range per run, and the last ends at the last record's codepoint |
| RangeBuilder.LastRunStartBefore | src/genunicode/Program.cs:146-155 | the open run's start lies among the records scanned |
| RangeProperties.BuiltLayout | src/genunicode/Program.cs:143-156 | the built ranges follow the run layout: one closed range per pair of run starts, then the final range |
| RangeProperties.StartCodesAscend | src/genunicode/Program.cs:146-155 | over sorted records, later run starts have larger codepoints |
| RangeProperties.StartCodes | src/genunicode/Program.cs:146-155 | the codepoints of the run starts, index for index |
| RangeProperties.Bracket | src/genunicode/Program.cs:150 | a value between the first and last of an ascending list lies between two neighbours |
| RangeProperties.LayoutAlternates | src/genunicode/Program.cs:148 | neighbouring ranges of a layout differ in category |
| RangeProperties.LayoutAbuts | src/genunicode/Program.cs:150-156 | closed ranges abut, and the last closed range ends two below the final range's start |
| RangeProperties.LayoutPairOrdered | src/genunicode/Program.cs:146-156 | over sorted records, an earlier range ends before a later one starts |
| RangeProperties.LayoutAscending | src/genunicode/Program.cs:146-156 | over sorted records, closed ranges are non-empty and the ranges are disjoint and ascending |
| RangeProperties.LayoutCovers | src/genunicode/Program.cs:146-156 | every record but the first of the last run lies in a range of its own category |
| RangeProperties.LayoutDrops | src/genunicode/Program.cs:156 | the first codepoint of the last run lies in no range |
| RangeProperties.LayoutTiles | src/genunicode/Program.cs:150 | every codepoint from the first record up to the last run's start lies in a closed range, gaps included |
| RangeProperties.BuiltCategoriesAlternate | src/genunicode/Program.cs:146-156 | neighbouring ranges have different categories |
| RangeProperties.BuiltAbut | src/genunicode/Program.cs:150-156 | each closed range ends one below the next range's start. The final range starts one above the last run's first codepoint, so the last closed range ends two below it |
| RangeProperties.BuiltFinalRangeInverted | src/genunicode/Program.cs:156 | when the last run is a single record, the final range is inverted (`from == to + 1`) |
| RangeProperties.BuiltAscending | src/genunicode/Program.cs:146-156 | over strictly ascending records, the closed ranges are non-empty and all ranges are disjoint and in ascending order |
| RangeProperties.BuiltCoverage | src/genunicode/Program.cs:146-156 | every record except the first of the last run lies in a built range of its own category |
| RangeProperties.BuiltDropsLastRunStart | src/genunicode/Program.cs:156 | the first codepoint of the last run lies in no built range |
| RangeProperties.BuiltTiles | src/genunicode/Program.cs:150 | every codepoint from the first record up to the last run's start, gaps included, lies in a closed range |
| RangeProperties.BuiltExample | src/genunicode/Program.cs:143-156 | records (0x41, Lu), (0x42, Lu), (0x43, Ll) give `[0x41, 0x42] Lu` and the inverted `[0x44, 0x43] Ll` |
| Partition.PartitionMembers | src/genunicode/Program.cs:158-160 | `ranges2` holds exactly the ranges above 255 with `from != to`; `uniques` holds exactly the points of ranges above 255 with `from == to` |
| Partition.PartitionCount | src/genunicode/Program.cs:158-160 | the two lists together have as many entries as there are ranges above 255 |
| Partition.PartitionOrdered | src/genunicode/Program.cs:158-160 | ascending ranges give ascending `ranges2` and `uniques` |
| Partition.Uniques | src/genunicode/Program.cs:158 | `uniques` is no longer than `ranges`, and each of its points lies above 255 |
| Partition.Ranges2 | src/genunicode/Program.cs:160 | `ranges2` is no longer than `ranges`, and each of its ranges lies above 255 with `from != to` |
| Partition.LatinPrefix | src/genunicode/Program.cs:173-177 | the first `n` latin bytes exist exactly when each of those byte values lies in a range, and each then is its range's category |
| Partition.LatinEntryCovered | src/genunicode/Program.cs:175 | `First` finds a range for a byte value exactly when some range holds it |
| Partition.LatinTableDefined | src/genunicode/Program.cs:173-177 | the latin loop completes exactly when every byte value 0..255 lies in some range, and then writes 256 bytes |
| Partition.LatinTableByte | src/genunicode/Program.cs:173-177 | latin byte `x` is the category of the first range holding `x` |
| Partition.LatinEntry | src/genunicode/Program.cs:175-176 | a byte found for `x` is the category byte of a range holding `x`; nothing is found exactly when no range holds `x` |
| Partition.LatinTable | src/genunicode/Program.cs:173-177 | a completed latin loop gives 256 bytes, byte `x` being the entry found for `x` |
| CaseMapping.Matches | src/genunicode/Program.cs:168 | one uppercase entry matches at most as many titlecase entries as there are |
| CaseMapping.Join | src/genunicode/Program.cs:168 | the LINQ join. It has no ensures of its own; `JoinLength`, `JoinMember` and `JoinAscending` state its size, its members and its order |
| CaseMapping.JoinLength | src/genunicode/Program.cs:168 | the join holds at most one triple per pair of an uppercase and a titlecase entry |
| CaseMapping.MatchesMember | src/genunicode/Program.cs:168 | the triples of one uppercase entry are exactly its pairings with titlecase entries of the same code |
| CaseMapping.JoinMember | src/genunicode/Program.cs:168 | a triple is in the join exactly when an uppercase and a titlecase entry share its codepoint and carry its two mappings |
| CaseMapping.MatchesAtMostOne | src/genunicode/Program.cs:168 | against an ascending titlecase list, an uppercase entry matches at most once, on its own codepoint |
| CaseMapping.JoinAscending | src/genunicode/Program.cs:168 | joining two ascending lists gives an ascending join |
| CaseMapping.UpSplit | src/genunicode/Program.cs:254-255 | `upUnique` holds exactly the joined triples whose mappings agree, `upDouble` exactly those whose mappings differ, and together they hold all |
| CaseMapping.UpUnique | src/genunicode/Program.cs:254 | `uptitlecase.Where(u => u.Item2 == u.Item3)`. It has no ensures of its own; `UpSplit` states that it holds exactly the joined triples whose mappings agree |
| CaseMapping.UpDouble | src/genunicode/Program.cs:255 | `uptitlecase.Where(u => u.Item2 != u.Item3)`. It has no ensures of its own; `UpSplit` states that it holds exactly the joined triples whose mappings differ, and that the two lists together are as long as the join |
| SevenBit.Encode7Bit | src/genunicode/Program.cs:18-21 | every 7-bit encoding has at least one byte |
| SevenBit.TerminatedCons | src/genunicode/Program.cs:18-21 | a continuation byte in front of a terminated encoding keeps it terminated |
| SevenBit.Encode7BitTerminated | src/genunicode/Program.cs:18-21 | every byte of an encoding but the last has the continuation bit, and the last does not |
| SevenBit.Decode7BitEncode7Bit | src/genunicode/Program.cs:18-21 | reading a 7-bit encoded integer gives back the value and leaves the bytes after it |
| SevenBit.Encode7BitWidth | src/genunicode/Program.cs:18-21 | a value below 128^k takes at most k bytes |
| SevenBit.Encode7BitAtMostFive | src/genunicode/Program.cs:18-21 | a `uint` takes at most five bytes |
| SevenBit.LittleEndian | src/genunicode/Program.cs:179 | the little-endian form of a value has exactly the requested number of bytes |
| SevenBit.LittleValueLittleEndian | src/genunicode/Program.cs:179 | reading little-endian bytes gives back any value that fits |
| SevenBit.Int32LE | src/genunicode/Program.cs:179 | `Write(int)` emits four bytes |
| SevenBit.ReadInt32Int32LE | src/genunicode/Program.cs:179 | `ReadInt32` gives back the `int` written and leaves the bytes after it |
| Output.Writer.WriteByte | src/genunicode/Program.cs:176 | appends exactly the byte |
| Output.Writer.WriteSByte | src/genunicode/Program.cs:243-244 | appends the byte of the same bits as the `sbyte` |
| Output.Writer.WriteInt32 | src/genunicode/Program.cs:179 | appends the four little-endian bytes of the `int` |
| Output.Writer.WriteDouble | src/genunicode/Program.cs:236 | appends the eight bytes of the double |
| Output.Writer.Write7Bit | src/genunicode/Program.cs:18-21 | the seven-bit loop appends exactly the encoding of the value taken as a `uint` |
| Sections.WriteRange | src/genunicode/Program.cs:182-184 | appends the range's from, its to and its category byte |
| Sections.WriteRangesEntries | src/genunicode/Program.cs:180-185 | the loop appends the entries of `ranges2` in order |
| Sections.WriteRanges | src/genunicode/Program.cs:179-185 | writes the count and the entries when the count fits an `int`; otherwise `Count()` throws before anything is written |
| Sections.WritePoint | src/genunicode/Program.cs:207-208 | appends the codepoint and its category byte |
| Sections.WritePointsEntries | src/genunicode/Program.cs:205-209 | the loop appends the entries of `uniques` in order |
| Sections.WritePoints | src/genunicode/Program.cs:204-209 | the same, for the `uniques` section |
| Sections.WriteValue | src/genunicode/Program.cs:228-236 | appends the codepoint and the eight bytes of the parsed double |
| Sections.WriteValuesEntries | src/genunicode/Program.cs:226-237 | the loop appends each value, converted, in order |
| Sections.WriteValues | src/genunicode/Program.cs:225-237 | the same, for the values section |
| Sections.WriteDecimal | src/genunicode/Program.cs:242-244 | appends the codepoint, the decimal byte and the digit byte |
| Sections.WriteDecimalsEntries | src/genunicode/Program.cs:240-245 | the loop appends the decimal entries in order |
| Sections.WriteDecimals | src/genunicode/Program.cs:239-245 | the same, for the decimals section |
| Sections.WriteLowercaseEntry | src/genunicode/Program.cs:250-251 | appends the codepoint and its lowercase mapping |
| Sections.WriteLowercaseEntries | src/genunicode/Program.cs:248-252 | the loop appends the lowercase entries in order |
| Sections.WriteLowercase | src/genunicode/Program.cs:247-252 | the same, for the lowercase section |
| Sections.WriteUpUniqueEntry | src/genunicode/Program.cs:260-261 | appends the codepoint and its single mapping |
| Sections.WriteUpUniqueEntries | src/genunicode/Program.cs:258-262 | the loop appends the `upUnique` triples in order |
| Sections.WriteUpUnique | src/genunicode/Program.cs:257-262 | the same, for the `upUnique` section |
| Sections.WriteUpDoubleEntry | src/genunicode/Program.cs:267-269 | appends the codepoint, its uppercase and its titlecase mapping |
| Sections.WriteUpDoubleEntries | src/genunicode/Program.cs:265-270 | the loop appends the `upDouble` triples in order |
| Sections.WriteUpDouble | src/genunicode/Program.cs:264-270 | the same, for the `upDouble` section |
| Format.ReadU32Encode | src/genunicode/Program.cs:18-21 | a 7-bit encoded `uint` reads back |
| Format.RangeBytes | src/genunicode/Program.cs:182-184 | a range entry takes 3 to 11 bytes, the category byte last |
| Format.PointBytes | src/genunicode/Program.cs:207-208 | a point entry takes 2 to 6 bytes, the category byte last |
| Format.ValueBytes | src/genunicode/Program.cs:228-236 | a value entry takes 9 to 13 bytes, the eight bytes of the double last |
| Format.DecimalBytes | src/genunicode/Program.cs:242-244 | a decimal entry takes 3 to 7 bytes, the two `sbyte` bytes last, decimal then digit |
| Format.CaseBytes | src/genunicode/Program.cs:250-251 | a lowercase entry takes 2 to 10 bytes |
| Format.UpUniqueBytes | src/genunicode/Program.cs:260-261 | an `upUnique` entry takes 2 to 10 bytes |
| Format.UpDoubleBytes | src/genunicode/Program.cs:267-269 | an `upDouble` entry takes 3 to 15 bytes |
| Format.ReadCategoryByte | src/genunicode/Program.cs:176 | a category byte reads back |
| Format.ReadRangeBytes | src/genunicode/Program.cs:182-184 | a range entry reads back and leaves what follows |
| Format.ReadPointBytes | src/genunicode/Program.cs:207-208 | a point entry reads back and leaves what follows |
| Format.ReadValueBytes | src/genunicode/Program.cs:228-236 | a value entry reads back and leaves what follows |
| Format.ReadDecimalBytes | src/genunicode/Program.cs:242-244 | a decimal entry reads back and leaves what follows |
| Format.ReadCaseBytes | src/genunicode/Program.cs:250-251 | a lowercase entry reads back and leaves what follows |
| Format.ReadUpUniqueBytes | src/genunicode/Program.cs:260-261 | an `upUnique` triple reads back, since its two mappings agree |
| Format.ReadUpDoubleBytes | src/genunicode/Program.cs:267-269 | an `upDouble` triple reads back and leaves what follows |
| Format.EncodeAllCons | src/genunicode/Program.cs:180-270 | the entries' bytes are the first entry's bytes, then the rest's |
| Format.EncodeAllSnoc | src/genunicode/Program.cs:180-270 | one more entry appends exactly its bytes |
| Format.DecodeAll | src/genunicode/Program.cs:180-270 | reading `n` entries gives `n` entries |
| Format.DecodeAllEncodeAll | src/genunicode/Program.cs:180-270 | entries read back in order whenever each one reads back |
| Format.ReadSectionSection | src/genunicode/Program.cs:179-185 | a section is a four-byte count followed by exactly that many entries, and it reads back whole |
| Format.ReadSection | src/genunicode/Program.cs:179-185 | reading a section gives as many entries as the four-byte count that opens it says |
| Format.Section | src/genunicode/Program.cs:179-270 | one section: `writer.Write(list.Count())`, then each entry's bytes. It has no ensures of its own; `ReadSectionSection` states that it is a four-byte count followed by exactly that many entries, and that it reads back whole |
| Format.RangesInvert | src/genunicode/Program.cs:182-184 | every range entry reads back |
| Format.PointsInvert | src/genunicode/Program.cs:207-208 | every point entry reads back |
| Format.ValuesInvert | src/genunicode/Program.cs:228-236 | every value entry reads back |
| Format.DecimalsInvert | src/genunicode/Program.cs:242-244 | every decimal entry reads back |
| Format.CasesInvert | src/genunicode/Program.cs:250-251 | every lowercase entry reads back |
| Format.UpUniquesInvert | src/genunicode/Program.cs:254-262 | every `upUnique` triple reads back |
| Format.UpDoublesInvert | src/genunicode/Program.cs:267-269 | every `upDouble` triple reads back |
| Format.EncodeSuffixes | src/genunicode/Program.cs:173-270 | the file is the latin table followed by the seven sections in order |
| Format.Encode | src/genunicode/Program.cs:173-270 | the whole file. It has no ensures of its own; `EncodeSuffixes` states the layout (latin table, then the seven sections in source order) and `DecodeEncode` states that it reads back as the tables written |
| Format.DecodeEncode | src/genunicode/Program.cs:173-270 | the whole file reads back as the tables written, whenever the latin table has 256 bytes and every count fits |
| Format.Decode | src/genunicode/Program.cs:173-270 | a file that decodes is at least 256 bytes long, its latin table is its first 256 bytes, and every decoded count fits an `int` |
| Compiler.TablesOfShape | src/genunicode/Program.cs:168-177 | whatever the compiler produces has a 256-byte latin table and agreeing `upUnique` mappings, so only the counts can overflow |
| Compiler.TablesOf | src/genunicode/Program.cs:158-177 | the tables exist exactly when every byte value 0..255 lies in some range; they then hold a 256-byte latin table and the collected decimals and lowercase lists unchanged |
| Compiler.Compiled | src/genunicode/Program.cs:72-270 | no records give no tables; otherwise the latin table has 256 bytes and the values, decimals and lowercase sections are no longer than the records |
| Compiler.WriteLatin | src/genunicode/Program.cs:173-177 | the latin loop completes exactly when every byte value lies in a range, and then appends the latin table |
| Compiler.WriteTables | src/genunicode/Program.cs:173-270 | the eight writer loops complete exactly when the latin table exists and every count fits, and then append the file's encoding |
| Compiler.WriteSections | src/genunicode/Program.cs:179-270 | after the latin table, the seven section loops complete exactly when every count fits an `int`, and the file is then the encoding of the tables |
| Compiler.WriteFirstSections | src/genunicode/Program.cs:179-245 | the ranges, points, values and decimals loops complete exactly when their four counts fit, and append those four sections in order |
| Compiler.WriteCaseSections | src/genunicode/Program.cs:247-270 | the lowercase, `upUnique` and `upDouble` loops complete exactly when their three counts fit, and append those three sections in order |
| Compiler.Compile | src/genunicode/Program.cs:72-270 | `Main` from the records onward: it completes exactly when the tables exist and every count fits. It then appends their encoding, which reads back as those tables |
| Lookup.Scan | src/genunicode/Program.cs:488-497 | the D loop's early exit: a hit lies in the table, and no entry before it is a hit or past the query |
| Lookup.ScanStep | src/genunicode/Program.cs:488-497 | one turn of the scan: stop on a hit, give up once past the query, otherwise look further |
| Lookup.ScanComplete | src/genunicode/Program.cs:485-549 | when "past" entries are never hits and stay past, the early-exit scan finds the first hit |
| Lookup.ScanIndex | src/genunicode/Program.cs:488-497 | the `for` loop with `break` and `return` computes the scan |
| Lookup.KeyScanFinds | src/genunicode/Program.cs:493-497 | on an ascending table, the scan for a key finds index `i` exactly when entry `i` has that key, and finds nothing exactly when no entry does |
| Lookup.RangeScanFinds | src/genunicode/Program.cs:488-492 | on ranges ascending by start, the scan finds the first range holding the code; with disjoint ranges, that is the (one) range holding it |
| Lookup.CategoryScan | src/genunicode/Program.cs:485-499 | ranges first, then points, then `0x1d` |
| Lookup.GetShortCategory | src/genunicode/Program.cs:485-499 | `getShortCategory` gives the category the tables assign to the code |
| Lookup.GetUintCategory | src/genunicode/Program.cs:503-517 | the corrected `getUintCategory`, which tests `uintRanges[i].from`, gives the category the tables assign |
| Lookup.UintRangeScanAsWritten | src/genunicode/Program.cs:507-511 | as written, a found range does hold the code |
| Lookup.UintRangeStepAsWritten | src/genunicode/Program.cs:507-511 | one turn of the loop as written, which tests `shortRanges[i]` |
| Lookup.GetUintCategoryAsWritten | src/genunicode/Program.cs:503-517 | the loop as written: `shortRanges[i]` outside that table is a fault (None) |
| Lookup.UintRangeScanAsWrittenFirst | src/genunicode/Program.cs:507-511 | when `shortRanges` is at least as long and all its starts are below 0x10000, the test never exits early and the loop finds the first range holding the code |
| Lookup.UintCategoryAsWrittenAgrees | src/genunicode/Program.cs:503-517 | under those conditions, the code as written agrees with the corrected lookup |
| Lookup.UintCategoryAsWrittenFaults | src/genunicode/Program.cs:509 | when `uintRanges` is longer and no range holds the code, the code as written indexes past `shortRanges` |
| Lookup.UintCategoryCounterexample | src/genunicode/Program.cs:509 | with no short ranges, one wide range, and code 0x20000, the code as written faults where the corrected lookup gives `0x1d` |
| Lookup.CategoryOfTables | src/genunicode/Program.cs:485-517 | on sorted, disjoint tables: a range holding the code gives its category; otherwise a point with the code gives its category; otherwise `0x1d` |
| Lookup.CategoryOf | src/genunicode/Program.cs:485-499 | the early-exit lookup gives a category byte of at most `0x1d`: either `0x1d`, or the category of a range holding the code, or that of a point with the code |
| Lookup.UintCategoryAsWritten | src/genunicode/Program.cs:503-517 | the loop as written faults only when `uintRanges` is longer than `shortRanges`; otherwise it gives a byte of at most `0x1d` |
| Lookup.GetValue | src/genunicode/Program.cs:519-527 | `getValue` gives the value the table assigns |
| Lookup.ValueOf | src/genunicode/Program.cs:519-527 | the value lookup gives `-1.0` or the value of an entry with the code |
| Lookup.ValueOfTable | src/genunicode/Program.cs:519-527 | on an ascending table, the value of the entry with that code, and `-1.0` when there is none |
| Lookup.GetDecimalDigit | src/genunicode/Program.cs:529-537 | `getDecimalDigit` gives the decimal value the table assigns |
| Lookup.GetDigitValue | src/genunicode/Program.cs:541-549 | `getDigitValue` gives the digit value the table assigns |
| Lookup.DecimalDigitOf | src/genunicode/Program.cs:529-537 | the decimal lookup gives `-1` or the decimal value of an entry with the code |
| Lookup.DigitValueOf | src/genunicode/Program.cs:541-549 | the digit lookup gives `-1` or the digit value of an entry with the code |
| Lookup.DigitsOfTable | src/genunicode/Program.cs:529-549 | on an ascending table, the two values of the entry with that code, and `-1` for both when there is none |
| Lookup.OnlyCovering | src/genunicode/Program.cs:488-492 | among disjoint ranges, at most one holds a given code |
| Lookup.BuiltFromAscending | src/genunicode/Program.cs:143-160 | the built ranges are ascending and disjoint, as the lookup needs |
| Lookup.LookupWide | src/genunicode/Program.cs:485-499 | a code in a wide range above 255 looks up to that range's category |
| Lookup.LookupPoint | src/genunicode/Program.cs:485-499 | a code that is a single-codepoint range above 255 looks up to its category |
| Lookup.CategoryOfBuilt | src/genunicode/Program.cs:143-160 | each record above 255 looks up to its own category through `ranges2` and `uniques`, except the first of the last run |

## Left out

- The culture printout and early return (lines 37–42) are not modelled. Neither is the fetch of UnicodeData.txt at lines 44–62. That covers the check of the file's age against the clock (`DateTime.Now - fileDate`, lines 47–50), the network download (lines 53–60) and the file read `File.ReadAllLines` (line 62). The records arrive as a parameter instead.
- Opening and closing the output file are file-system effects (`File.Create` at line 170, `stream.Close` at line 554). The writer is modelled as the sequence of bytes written. Console progress messages are left out.
- Splitting a line on `;` is left out. Records arrive as already-split fields (`Normaliser.Line`).
- `uint.Parse` of the hex fields is left out. The codepoint and the three case mappings arrive as numbers.
- The text parsing inside `sbyte.TryParse` is left out. Fields 6 and 7 arrive as `Empty`, `Parsed(v)` or `Unparsable` (`Normaliser.SByteField`). `Normaliser.TryParse` then behaves as .NET does: a failed parse gives `false` with out value 0. So, as written, field 6 = 5 with field 7 unparsable gives the entry (5, 5), because line 126 re-parses field 6.
- Sections.Converted: the conversion of field 8 to a `double` (lines 229–236) is a parameter `toDouble`. The model does not parse fractions or use floating point. A text that fails to parse would throw in the source; the model does not describe that.
- The `ushort` and `uint` table filters (lines 162–166) are not modelled. Neither is the D source the program prints (lines 274–483, 553), which is text generation. The lookup functions take their tables as sequences.
- `getLatinCategory` and the other parts of the printed D text outside lines 485–549 are not part of this model.
- RangeBuilder.SortByCode: states a sorted permutation. It does not state that `OrderBy` is stable among equal codes.
- Compiler.Compile: when the program throws part-way (no records, a byte value in no range, or a count that overflows `int`), the contract says nothing about the bytes written before the throw.
- Lookup.CategoryOfBuilt: a range that straddles 255/256 (`from <= 255 < to`) goes into neither `ranges2` nor `uniques`. The lemma therefore assumes no such range exists (`SplitAtLatin`). It also leaves out the first codepoint of the last run, which no range holds. And it assumes the last codepoint is below 0xFFFF_FFFF, so that `previous + 1` at line 156 does not wrap (UnicodeData.txt ends far below that).
- Lookup.GetShortCategory, Lookup.GetUintCategory: where the D code has fixed arrays, these take the tables as sequences. They assume the query range the D functions are called with.

## Findings

| source | as written | input that shows it | evidently intended | confidence | as-written member | corrected member |
|---|---|---|---|---|---|---|
| src/genunicode/Program.cs:126 | the digit value is parsed from `items[6]`, the decimal field | U+00B2: field 6 empty, field 7 "2": no entry, so the digit 2 is lost | parse `items[7]` | high, not executed | Normaliser.SuperscriptTwoLosesDigit | Normaliser.DecimalIntended |
| src/genunicode/Program.cs:509 | the `uintRanges` loop tests `shortRanges[i].from` | `shortRanges` empty, `uintRanges` = one range 0x10000–0x10010, code 0x20000: indexes past `shortRanges` | test `uintRanges[i].from` | high, not executed | Lookup.UintCategoryCounterexample | Lookup.GetUintCategory |

The two rows are handled differently:
- **Line 509** is in the lookup functions. The rest of the model uses the corrected lookup.
- **Line 126** is different, because it shapes the file the program writes. To describe that file faithfully, the compiler model (`Normaliser.Normalise`, `Compiler.Compile`) keeps the code as written. The corrected loop is proved separately as `Normaliser.DecimalIntended`. `Normaliser.AliasingHarmlessWhenFieldsAgree` proves that the two agree on every record whose fields 6 and 7 agree.
