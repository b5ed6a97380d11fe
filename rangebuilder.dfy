/** The range loop of the compiler: `codes`, sorted by codepoint, is folded
    into `ranges` by closing a range wherever the category changes. */
module RangeBuilder {
  import opened Base
  import opened Categories
  import opened Entities

  predicate SortedByCode(s: seq<CodeCat>)
  {
    forall i, j :: 0 <= i < j < |s| ==> s[i].code <= s[j].code
  }

  /** One record per codepoint, in ascending order, as in UnicodeData.txt. */
  predicate StrictlyAscending(s: seq<CodeCat>)
  {
    forall i, j :: 0 <= i < j < |s| ==> s[i].code < s[j].code
  }

  /** Inserts `x` after every element whose codepoint is at most its own. */
  function Insert(s: seq<CodeCat>, x: CodeCat): (r: seq<CodeCat>)
    ensures multiset(r) == multiset(s) + multiset{x}
    ensures forall y :: y in r ==> y in s || y == x
  {
    if s == [] || x.code < s[0].code then [x] + s
    else
      assert s == [s[0]] + s[1..];
      [s[0]] + Insert(s[1..], x)
  }

  lemma {:induction false} InsertSorted(s: seq<CodeCat>, x: CodeCat)
    requires SortedByCode(s)
    ensures SortedByCode(Insert(s, x))
  {
    if s != [] && x.code >= s[0].code {
      var r0 := Insert(s[1..], x);
      InsertSorted(s[1..], x);
      assert forall y :: y in s[1..] ==> s[0].code <= y.code;
      var r := [s[0]] + r0;
      assert forall i :: 0 < i < |r| ==> r[i] == r0[i - 1];
    }
  }

  /** `codes.OrderBy(i => i.Item1)`: a sorted permutation of the records. */
  function SortByCode(s: seq<CodeCat>): (r: seq<CodeCat>)
    ensures SortedByCode(r)
    ensures multiset(r) == multiset(s)
  {
    if s == [] then []
    else
      assert s == s[..|s| - 1] + [s[|s| - 1]];
      var r0 := SortByCode(s[..|s| - 1]);
      InsertSorted(r0, s[|s| - 1]);
      Insert(r0, s[|s| - 1])
  }

  /** The indices in `codes[..k]` at which a run of one category starts:
      index 0 and every index whose category differs from its predecessor's. */
  function RunStarts(codes: seq<CodeCat>, k: nat): (s: seq<nat>)
    requires 1 <= k <= |codes|
    ensures |s| >= 1 && s[0] == 0
    ensures forall j :: 0 <= j < |s| ==> s[j] < k
    decreases k
  {
    if k == 1 then [0]
    else
      var s0 := RunStarts(codes, k - 1);
      if codes[k - 1].cat != codes[k - 2].cat then s0 + [k - 1] else s0
  }

  predicate Ascends(s: seq<nat>)
  {
    forall i, j :: 0 <= i < j < |s| ==> s[i] < s[j]
  }

  predicate StartsChange(codes: seq<CodeCat>, s: seq<nat>)
    requires forall j :: 0 <= j < |s| ==> s[j] < |codes|
  {
    forall j :: 0 < j < |s| ==> 0 < s[j] && codes[s[j]].cat != codes[s[j] - 1].cat
  }

  /** Every record of a closed run has the category of the run's start. */
  predicate ClosedRunsUniform(codes: seq<CodeCat>, s: seq<nat>)
  {
    forall j, t :: 0 <= j < |s| - 1 && s[j] <= t < s[j + 1] && t < |codes| && s[j] < |codes| ==>
      codes[t].cat == codes[s[j]].cat
  }

  /** Every record of `codes[p..k]` has the category of `codes[p]`. */
  predicate OpenRunUniform(codes: seq<CodeCat>, p: nat, k: nat)
    requires p < k <= |codes|
  {
    forall t :: p <= t < k ==> codes[t].cat == codes[p].cat
  }

  /** The run starts ascend. */
  lemma {:induction false} RunStartsAscending(codes: seq<CodeCat>, k: nat)
    requires 1 <= k <= |codes|
    ensures Ascends(RunStarts(codes, k))
    decreases k
  {
    if k > 1 {
      RunStartsAscending(codes, k - 1);
      var s0 := RunStarts(codes, k - 1);
      var s := RunStarts(codes, k);
      if codes[k - 1].cat != codes[k - 2].cat {
        assert s == s0 + [k - 1];
        forall i, j | 0 <= i < j < |s| ensures s[i] < s[j] {
          assert s[i] == s0[i] < k - 1;
          if j < |s0| { assert s[j] == s0[j]; } else { assert s[j] == k - 1; }
        }
      }
    }
  }

  /** Every run start other than 0 is a change of category. */
  lemma {:induction false} RunStartsChange(codes: seq<CodeCat>, k: nat)
    requires 1 <= k <= |codes|
    ensures StartsChange(codes, RunStarts(codes, k))
    decreases k
  {
    if k > 1 {
      RunStartsChange(codes, k - 1);
      var s0 := RunStarts(codes, k - 1);
      var s := RunStarts(codes, k);
      if codes[k - 1].cat != codes[k - 2].cat {
        assert s == s0 + [k - 1];
        forall j | 0 < j < |s| ensures 0 < s[j] && codes[s[j]].cat != codes[s[j] - 1].cat {
          if j < |s0| { assert s[j] == s0[j]; } else { assert s[j] == k - 1; }
        }
      }
    }
  }

  /** The records after the last run start share its category. */
  lemma {:induction false} RunStartsOpenRun(codes: seq<CodeCat>, k: nat)
    requires 1 <= k <= |codes|
    ensures OpenRunUniform(codes, LastRunStartBefore(codes, k), k)
    decreases k
  {
    if k > 1 {
      RunStartsOpenRun(codes, k - 1);
      var s0 := RunStarts(codes, k - 1);
      if codes[k - 1].cat != codes[k - 2].cat {
        assert RunStarts(codes, k) == s0 + [k - 1];
      } else {
        assert RunStarts(codes, k) == s0;
      }
    }
  }

  /** Every record of a closed run shares the category of the run's start. */
  lemma {:induction false} RunStartsClosedRuns(codes: seq<CodeCat>, k: nat)
    requires 1 <= k <= |codes|
    ensures ClosedRunsUniform(codes, RunStarts(codes, k))
    decreases k
  {
    if k > 1 {
      RunStartsClosedRuns(codes, k - 1);
      var s0 := RunStarts(codes, k - 1);
      var s := RunStarts(codes, k);
      if codes[k - 1].cat != codes[k - 2].cat {
        RunStartsOpenRun(codes, k - 1);
        assert s == s0 + [k - 1];
        forall j, t | 0 <= j < |s| - 1 && s[j] <= t < s[j + 1] && t < |codes| && s[j] < |codes|
          ensures codes[t].cat == codes[s[j]].cat
        {
          if j < |s0| - 1 {
            assert s[j] == s0[j] && s[j + 1] == s0[j + 1];
          } else {
            assert s[j] == s0[|s0| - 1] && s[j + 1] == k - 1;
          }
        }
      } else {
        assert s == s0;
      }
    }
  }

  /** The open run grows by one record, or a new run opens at `i`. */
  lemma RunStartsStep(codes: seq<CodeCat>, i: nat)
    requires 1 <= i < |codes|
    ensures codes[i].cat != codes[LastRunStartBefore(codes, i)].cat ==>
      RunStarts(codes, i + 1) == RunStarts(codes, i) + [i]
    ensures codes[i].cat == codes[LastRunStartBefore(codes, i)].cat ==>
      RunStarts(codes, i + 1) == RunStarts(codes, i)
  {
    RunStartsOpenRun(codes, i);
    assert codes[i - 1].cat == codes[LastRunStartBefore(codes, i)].cat;
  }

  /** The first record of the last run of one category. */
  function LastRunStart(codes: seq<CodeCat>): (p: nat)
    requires |codes| >= 1
    ensures p < |codes|
    ensures p == 0 || codes[p].cat != codes[p - 1].cat
    ensures forall t :: p <= t < |codes| ==> codes[t].cat == codes[p].cat
  {
    RunStartsOpenRun(codes, |codes|);
    RunStartsChange(codes, |codes|);
    LastRunStartBefore(codes, |codes|)
  }

  /** The range closed at each run boundary: from the run's first codepoint
      to one below the next run's first codepoint. */
  function ClosedRanges(codes: seq<CodeCat>, s: seq<nat>): (r: seq<Range>)
    requires |s| >= 1
    requires forall j :: 0 <= j < |s| ==> s[j] < |codes|
    ensures |r| == |s| - 1
    ensures forall j :: 0 <= j < |r| ==>
              r[j] == Range(codes[s[j]].code, Dec32(codes[s[j + 1]].code), codes[s[j]].cat)
    decreases |s|
  {
    if |s| == 1 then []
    else
      var s0 := s[..|s| - 1];
      assert forall j :: 0 <= j < |s0| ==> s0[j] == s[j];
      ClosedRanges(codes, s0) + [Range(codes[s[|s| - 2]].code, Dec32(codes[s[|s| - 1]].code), codes[s[|s| - 2]].cat)]
  }

  /** The range Program.cs adds after the loop, from `previous.Item1 + 1`,
      `previous` being the record at index `p`. */
  function FinalRange(codes: seq<CodeCat>, p: nat): (r: Range)
    requires p < |codes|
    ensures r.to == codes[|codes| - 1].code && r.cat == codes[|codes| - 1].cat
    ensures Dec32(r.from) == codes[p].code
  {
    Range(Inc32(codes[p].code), codes[|codes| - 1].code, codes[|codes| - 1].cat)
  }

  /** The ranges the loop produces: the closed ranges, then the final range.
      There are none when `codes` is empty (`codes[0]` throws). */
  function Built(codes: seq<CodeCat>): (r: Option<seq<Range>>)
    ensures r.None? <==> codes == []
    ensures r.Some? ==> |r.value| == |RunStarts(codes, |codes|)|
    ensures r.Some? ==> r.value[|r.value| - 1].to == codes[|codes| - 1].code
  {
    if codes == [] then None
    else Some(ClosedRanges(codes, RunStarts(codes, |codes|)) + [FinalRange(codes, LastRunStart(codes))])
  }

  /** Opening a run at `i` closes one more range. */
  lemma ClosedRangesSnoc(codes: seq<CodeCat>, s: seq<nat>, i: nat)
    requires |s| >= 1 && i < |codes|
    requires forall j :: 0 <= j < |s| ==> s[j] < |codes|
    ensures ClosedRanges(codes, s + [i]) ==
      ClosedRanges(codes, s) + [Range(codes[s[|s| - 1]].code, Dec32(codes[i].code), codes[s[|s| - 1]].cat)]
  {
    assert (s + [i])[..|s|] == s;
  }

  /** One turn of the loop keeps `ranges` and `previous` in step with the run
      starts of the records seen so far. */
  lemma BuildStep(codes: seq<CodeCat>, i: nat, ranges: seq<Range>, previous: CodeCat)
    requires 1 <= i < |codes|
    requires ranges == ClosedRanges(codes, RunStarts(codes, i))
    requires previous == codes[LastRunStartBefore(codes, i)]
    ensures previous.cat != codes[i].cat ==>
      ranges + [Range(previous.code, Dec32(codes[i].code), previous.cat)] ==
        ClosedRanges(codes, RunStarts(codes, i + 1)) &&
      codes[i] == codes[LastRunStartBefore(codes, i + 1)]
    ensures previous.cat == codes[i].cat ==>
      ranges == ClosedRanges(codes, RunStarts(codes, i + 1)) &&
      previous == codes[LastRunStartBefore(codes, i + 1)]
  {
    RunStartsStep(codes, i);
    if previous.cat != codes[i].cat {
      ClosedRangesSnoc(codes, RunStarts(codes, i), i);
    }
  }

  /** The loop over `codes`, with `tcode`, `tcateg` and `previous` as in
      Program.cs; `previous` always holds the first record of the open run. */
  method BuildRanges(codes: seq<CodeCat>) returns (r: Option<seq<Range>>)
    ensures r == Built(codes)
  {
    if |codes| == 0 {
      return None;
    }
    var ranges: seq<Range> := [];
    var tcode := codes[0].code;
    var tcateg := codes[0].cat;
    var previous := codes[0];
    for i := 1 to |codes|
      invariant ranges == ClosedRanges(codes, RunStarts(codes, i))
      invariant previous == codes[LastRunStartBefore(codes, i)]
      invariant tcode == previous.code && tcateg == previous.cat
    {
      BuildStep(codes, i, ranges, previous);
      if previous.cat != codes[i].cat {
        ranges := ranges + [Range(tcode, Dec32(codes[i].code), tcateg)];
        tcode := codes[i].code;
        tcateg := codes[i].cat;
        previous := codes[i];
      }
    }
    ranges := ranges + [Range(Inc32(previous.code), codes[|codes| - 1].code, codes[|codes| - 1].cat)];
    return Some(ranges);
  }

  /** The start of the open run after scanning `codes[..k]`. */
  function LastRunStartBefore(codes: seq<CodeCat>, k: nat): (p: nat)
    requires 1 <= k <= |codes|
    ensures p < k
  {
    var s := RunStarts(codes, k);
    s[|s| - 1]
  }
}
