/** What the range loop's output promises its readers: one range per run of
    a category, in order, abutting, with the final range's off-by-one start.
    Each property is proved once over an abstract layout of run starts and
    ranges, then carried over to `Built`. */
module RangeProperties {
  import opened Base
  import opened Categories
  import opened Entities
  import opened RangeBuilder

  predicate IndicesIn(codes: seq<CodeCat>, s: seq<nat>)
  {
    forall j :: 0 <= j < |s| ==> s[j] < |codes|
  }

  /** Run starts as `RunStarts` delivers them. */
  predicate WellStarted(codes: seq<CodeCat>, s: seq<nat>)
  {
    |s| >= 1 && s[0] == 0 && IndicesIn(codes, s) && Ascends(s) &&
    StartsChange(codes, s) && ClosedRunsUniform(codes, s) &&
    OpenRunUniform(codes, s[|s| - 1], |codes|)
  }

  /** `r` holds one range per run start: a closed range for every run but
      the last, then the final range. */
  predicate Layout(codes: seq<CodeCat>, s: seq<nat>, r: seq<Range>)
    requires WellStarted(codes, s)
  {
    |r| == |s| &&
    (forall j {:trigger r[j]} :: 0 <= j < |s| - 1 ==>
      r[j] == Range(codes[s[j]].code, Dec32(codes[s[j + 1]].code), codes[s[j]].cat)) &&
    r[|s| - 1] == FinalRange(codes, s[|s| - 1])
  }

  lemma BuiltLayout(codes: seq<CodeCat>)
    requires codes != []
    ensures WellStarted(codes, RunStarts(codes, |codes|))
    ensures Layout(codes, RunStarts(codes, |codes|), Built(codes).value)
    ensures LastRunStart(codes) == RunStarts(codes, |codes|)[|RunStarts(codes, |codes|)| - 1]
  {
    var n := |codes|;
    RunStartsAscending(codes, n);
    RunStartsChange(codes, n);
    RunStartsClosedRuns(codes, n);
    RunStartsOpenRun(codes, n);
    var s := RunStarts(codes, n);
    var c := ClosedRanges(codes, s);
    var r := Built(codes).value;
    assert r == c + [FinalRange(codes, s[|s| - 1])];
    assert forall j :: 0 <= j < |s| - 1 ==> r[j] == c[j];
  }

  /** On ascending records, run starts carry ascending codepoints. */
  lemma StartCodesAscend(codes: seq<CodeCat>, s: seq<nat>, i: int, j: int)
    requires StrictlyAscending(codes) && Ascends(s) && IndicesIn(codes, s)
    requires 0 <= i < j < |s|
    ensures codes[s[i]].code < codes[s[j]].code
  {
  }

  /** The codepoints at the run starts `s`. */
  function StartCodes(codes: seq<CodeCat>, s: seq<nat>): (c: seq<int>)
    requires IndicesIn(codes, s)
    ensures |c| == |s|
    ensures forall j :: 0 <= j < |s| ==> c[j] == codes[s[j]].code
  {
    if s == [] then [] else [codes[s[0]].code] + StartCodes(codes, s[1..])
  }

  /** Some step of an integer sequence straddles every value between its
      first and last elements. */
  lemma {:induction false} Bracket(a: seq<int>, x: int) returns (j: nat)
    requires |a| >= 1 && a[0] <= x < a[|a| - 1]
    ensures j < |a| - 1 && a[j] <= x < a[j + 1]
  {
    if x >= a[|a| - 2] {
      j := |a| - 2;
    } else {
      j := Bracket(a[..|a| - 1], x);
    }
  }

  // Properties of a layout

  lemma LayoutAlternates(codes: seq<CodeCat>, s: seq<nat>, r: seq<Range>)
    requires WellStarted(codes, s) && Layout(codes, s, r)
    ensures forall j :: 0 <= j < |r| - 1 ==> r[j].cat != r[j + 1].cat
  {
    forall j | 0 <= j < |r| - 1 ensures r[j].cat != r[j + 1].cat {
      assert s[j] <= s[j + 1] - 1 < s[j + 1];
      assert codes[s[j + 1] - 1].cat == codes[s[j]].cat;
      if j + 1 < |s| - 1 {
        assert r[j + 1].cat == codes[s[j + 1]].cat;
      } else {
        assert codes[|codes| - 1].cat == codes[s[j + 1]].cat;
      }
    }
  }

  lemma LayoutAbuts(codes: seq<CodeCat>, s: seq<nat>, r: seq<Range>)
    requires WellStarted(codes, s) && Layout(codes, s, r)
    ensures forall j :: 0 <= j < |r| - 2 ==> r[j].to == Dec32(r[j + 1].from)
    ensures |r| >= 2 ==> r[|r| - 2].to == Dec32(Dec32(r[|r| - 1].from))
  {
  }

  lemma LayoutPairOrdered(codes: seq<CodeCat>, s: seq<nat>, r: seq<Range>, i: nat, j: nat)
    requires WellStarted(codes, s) && Layout(codes, s, r)
    requires StrictlyAscending(codes) && codes[|codes| - 1].code < 0xFFFF_FFFF
    requires i < j < |r|
    ensures r[i].to < r[j].from
  {
    StartCodesAscend(codes, s, i, i + 1);
    assert r[i].to == codes[s[i + 1]].code - 1;
    if i + 1 < j {
      StartCodesAscend(codes, s, i + 1, j);
    }
  }

  lemma LayoutAscending(codes: seq<CodeCat>, s: seq<nat>, r: seq<Range>)
    requires WellStarted(codes, s) && Layout(codes, s, r)
    requires StrictlyAscending(codes) && codes[|codes| - 1].code < 0xFFFF_FFFF
    ensures forall j :: 0 <= j < |r| - 1 ==> r[j].from <= r[j].to
    ensures forall i, j :: 0 <= i < j < |r| ==> r[i].to < r[j].from
  {
    forall j | 0 <= j < |r| - 1 ensures r[j].from <= r[j].to {
      StartCodesAscend(codes, s, j, j + 1);
    }
    forall i, j | 0 <= i < j < |r| ensures r[i].to < r[j].from {
      LayoutPairOrdered(codes, s, r, i, j);
    }
  }

  lemma LayoutCovers(codes: seq<CodeCat>, s: seq<nat>, r: seq<Range>, k: nat) returns (j: nat)
    requires WellStarted(codes, s) && Layout(codes, s, r)
    requires StrictlyAscending(codes) && k < |codes| && k != s[|s| - 1]
    ensures j < |r| && Contains(r[j], codes[k].code) && r[j].cat == codes[k].cat
  {
    if k < s[|s| - 1] {
      j := Bracket(s, k);
      StartCodesAscend(codes, s, j, j + 1);
    } else {
      j := |r| - 1;
      assert codes[s[|s| - 1]].code < codes[k].code;
    }
  }

  lemma LayoutDrops(codes: seq<CodeCat>, s: seq<nat>, r: seq<Range>)
    requires WellStarted(codes, s) && Layout(codes, s, r)
    requires StrictlyAscending(codes) && codes[|codes| - 1].code < 0xFFFF_FFFF
    ensures forall j :: 0 <= j < |r| ==> !Contains(r[j], codes[s[|s| - 1]].code)
  {
    forall j | 0 <= j < |r| ensures !Contains(r[j], codes[s[|s| - 1]].code) {
      if j < |r| - 1 {
        StartCodesAscend(codes, s, j, j + 1);
        if j + 1 < |s| - 1 {
          StartCodesAscend(codes, s, j + 1, |s| - 1);
        }
      } else {
        assert codes[s[|s| - 1]].code <= codes[|codes| - 1].code;
      }
    }
  }

  lemma LayoutTiles(codes: seq<CodeCat>, s: seq<nat>, r: seq<Range>, x: int) returns (j: nat)
    requires WellStarted(codes, s) && Layout(codes, s, r)
    requires codes[0].code <= x < codes[s[|s| - 1]].code
    ensures j < |r| - 1 && Contains(r[j], x)
  {
    j := Bracket(StartCodes(codes, s), x);
  }

  // The same properties of the loop's output

  /** Consecutive ranges carry different categories. */
  lemma BuiltCategoriesAlternate(codes: seq<CodeCat>)
    requires codes != []
    ensures forall j :: 0 <= j < |Built(codes).value| - 1 ==>
      Built(codes).value[j].cat != Built(codes).value[j + 1].cat
  {
    BuiltLayout(codes);
    LayoutAlternates(codes, RunStarts(codes, |codes|), Built(codes).value);
  }

  /** Each closed range ends one below the next range's start; the last
      closed range ends two below the final range's start, which was moved
      up by one past the first codepoint of the last run; the final range
      ends at the last codepoint, with its category. */
  lemma BuiltAbut(codes: seq<CodeCat>)
    requires codes != []
    ensures forall j :: 0 <= j < |Built(codes).value| - 2 ==>
      Built(codes).value[j].to == Dec32(Built(codes).value[j + 1].from)
    ensures |Built(codes).value| >= 2 ==>
      Built(codes).value[|Built(codes).value| - 2].to ==
      Dec32(Dec32(Built(codes).value[|Built(codes).value| - 1].from))
    ensures Built(codes).value[|Built(codes).value| - 1] ==
      Range(Inc32(codes[LastRunStart(codes)].code), codes[|codes| - 1].code, codes[|codes| - 1].cat)
  {
    BuiltLayout(codes);
    LayoutAbuts(codes, RunStarts(codes, |codes|), Built(codes).value);
  }

  /** The final range's quirk: when the last run is a single codepoint, it
      starts one above where it ends. */
  lemma BuiltFinalRangeInverted(codes: seq<CodeCat>)
    requires codes != []
    requires |codes| == 1 || codes[|codes| - 1].cat != codes[|codes| - 2].cat
    requires codes[|codes| - 1].code < 0xFFFF_FFFF
    ensures Built(codes).value[|Built(codes).value| - 1].from ==
            Built(codes).value[|Built(codes).value| - 1].to + 1
  {
    BuiltLayout(codes);
    var s := RunStarts(codes, |codes|);
    assert s[|s| - 1] == |codes| - 1 by {
      if |codes| > 1 {
        assert codes[|codes| - 1].cat != codes[|codes| - 2].cat;
      }
    }
  }

  /** On ascending records, the closed ranges are non-empty and all ranges
      are strictly ascending, hence pairwise disjoint. */
  lemma BuiltAscending(codes: seq<CodeCat>)
    requires codes != [] && StrictlyAscending(codes)
    requires codes[|codes| - 1].code < 0xFFFF_FFFF
    ensures forall j :: 0 <= j < |Built(codes).value| - 1 ==>
      Built(codes).value[j].from <= Built(codes).value[j].to
    ensures forall i, j :: 0 <= i < j < |Built(codes).value| ==>
      Built(codes).value[i].to < Built(codes).value[j].from
  {
    BuiltLayout(codes);
    LayoutAscending(codes, RunStarts(codes, |codes|), Built(codes).value);
  }

  /** On ascending records, every record but the first of the last run lies
      in a range of its own category. */
  lemma BuiltCoverage(codes: seq<CodeCat>, k: nat) returns (j: nat)
    requires StrictlyAscending(codes)
    requires k < |codes| && k != LastRunStart(codes)
    ensures j < |Built(codes).value|
    ensures Contains(Built(codes).value[j], codes[k].code)
    ensures Built(codes).value[j].cat == codes[k].cat
  {
    BuiltLayout(codes);
    j := LayoutCovers(codes, RunStarts(codes, |codes|), Built(codes).value, k);
  }

  /** On ascending records, the first codepoint of the last run lies in no
      range at all. */
  lemma BuiltDropsLastRunStart(codes: seq<CodeCat>)
    requires codes != [] && StrictlyAscending(codes)
    requires codes[|codes| - 1].code < 0xFFFF_FFFF
    ensures forall j :: 0 <= j < |Built(codes).value| ==>
      !Contains(Built(codes).value[j], codes[LastRunStart(codes)].code)
  {
    BuiltLayout(codes);
    LayoutDrops(codes, RunStarts(codes, |codes|), Built(codes).value);
  }

  /** The closed ranges tile the codepoints from the first record up to the
      last run, gaps between records included. */
  lemma BuiltTiles(codes: seq<CodeCat>, x: int) returns (j: nat)
    requires codes != []
    requires codes[0].code <= x < codes[LastRunStart(codes)].code
    ensures j < |Built(codes).value| - 1
    ensures Contains(Built(codes).value[j], x)
  {
    BuiltLayout(codes);
    j := LayoutTiles(codes, RunStarts(codes, |codes|), Built(codes).value, x);
  }

  /** Three records, two of one category and one of another: the first run
      becomes a closed range, and the single-record last run an inverted
      range that holds no codepoint. */
  lemma BuiltExample()
    ensures Built([CodeCat(0x41, UppercaseLetter), CodeCat(0x42, UppercaseLetter), CodeCat(0x43, LowercaseLetter)]) ==
      Some([Range(0x41, 0x42, UppercaseLetter), Range(0x44, 0x43, LowercaseLetter)])
  {
    var codes := [CodeCat(0x41, UppercaseLetter), CodeCat(0x42, UppercaseLetter), CodeCat(0x43, LowercaseLetter)];
    assert RunStarts(codes, 2) == [0];
    assert RunStarts(codes, 3) == [0, 2];
    assert LastRunStart(codes) == 2;
    assert ClosedRanges(codes, [0, 2]) == [Range(0x41, 0x42, UppercaseLetter)];
    assert FinalRange(codes, 2) == Range(0x44, 0x43, LowercaseLetter);
    assert Built(codes).value == [Range(0x41, 0x42, UppercaseLetter)] + [Range(0x44, 0x43, LowercaseLetter)];
    assert Built(codes).Some?;
    assert [Range(0x41, 0x42, UppercaseLetter)] + [Range(0x44, 0x43, LowercaseLetter)] == [Range(0x41, 0x42, UppercaseLetter), Range(0x44, 0x43, LowercaseLetter)];
  }
}
