/** The case-mapping resolver: the uppercase and titlecase lists joined on
    codepoint, then split by whether the two mappings agree. */
module CaseMapping {
  import opened Base
  import opened Entities
  import opened Queries

  /** The triples one uppercase entry forms with the titlecase entries of
      the same codepoint, in titlecase order. */
  function Matches(u: CaseEntry, ts: seq<CaseEntry>): (r: seq<CaseTriple>)
    ensures |r| <= |ts|
  {
    if ts == [] then []
    else
      (if ts[0].code == u.code then [CaseTriple(u.code, u.mapped, ts[0].mapped)] else []) +
      Matches(u, ts[1..])
  }

  /** `from u in uppercase join t in titlecase on u.Item1 equals t.Item1
      select (u.Item1, u.Item2, t.Item2)`: an inner join that enumerates
      the outer list and, for each element, its matches in inner order. */
  function Join(us: seq<CaseEntry>, ts: seq<CaseEntry>): seq<CaseTriple>
  {
    if us == [] then [] else Matches(us[0], ts) + Join(us[1..], ts)
  }

  /** Each uppercase entry contributes at most one triple per titlecase
      entry. */
  lemma {:induction false} JoinLength(us: seq<CaseEntry>, ts: seq<CaseEntry>)
    ensures |Join(us, ts)| <= |us| * |ts|
  {
    if us != [] {
      JoinLength(us[1..], ts);
      assert |us| * |ts| == (|us| - 1) * |ts| + |ts|;
    }
  }

  lemma {:induction false} MatchesMember(u: CaseEntry, ts: seq<CaseEntry>, x: CaseTriple)
    ensures x in Matches(u, ts) <==>
      exists k :: 0 <= k < |ts| && ts[k].code == u.code && x == CaseTriple(u.code, u.mapped, ts[k].mapped)
  {
    if ts != [] {
      MatchesMember(u, ts[1..], x);
      if exists k :: 0 <= k < |ts[1..]| && ts[1..][k].code == u.code &&
          x == CaseTriple(u.code, u.mapped, ts[1..][k].mapped) {
        var k :| 0 <= k < |ts[1..]| && ts[1..][k].code == u.code &&
          x == CaseTriple(u.code, u.mapped, ts[1..][k].mapped);
        assert ts[k + 1] == ts[1..][k];
      }
      if exists k :: 0 <= k < |ts| && ts[k].code == u.code && x == CaseTriple(u.code, u.mapped, ts[k].mapped) {
        var k :| 0 <= k < |ts| && ts[k].code == u.code && x == CaseTriple(u.code, u.mapped, ts[k].mapped);
        if k > 0 {
          assert ts[1..][k - 1] == ts[k];
        }
      }
    }
  }

  /** A triple is joined exactly when an uppercase entry and a titlecase
      entry share its codepoint and carry its two mappings. */
  lemma {:induction false} JoinMember(us: seq<CaseEntry>, ts: seq<CaseEntry>, x: CaseTriple)
    ensures x in Join(us, ts) <==>
      exists i, k :: 0 <= i < |us| && 0 <= k < |ts| && us[i].code == ts[k].code &&
        x == CaseTriple(us[i].code, us[i].mapped, ts[k].mapped)
  {
    if us != [] {
      JoinMember(us[1..], ts, x);
      MatchesMember(us[0], ts, x);
      if exists i, k :: 0 <= i < |us[1..]| && 0 <= k < |ts| && us[1..][i].code == ts[k].code &&
          x == CaseTriple(us[1..][i].code, us[1..][i].mapped, ts[k].mapped) {
        var i, k :| 0 <= i < |us[1..]| && 0 <= k < |ts| && us[1..][i].code == ts[k].code &&
          x == CaseTriple(us[1..][i].code, us[1..][i].mapped, ts[k].mapped);
        assert us[i + 1] == us[1..][i];
      }
      if exists i, k :: 0 <= i < |us| && 0 <= k < |ts| && us[i].code == ts[k].code &&
          x == CaseTriple(us[i].code, us[i].mapped, ts[k].mapped) {
        var i, k :| 0 <= i < |us| && 0 <= k < |ts| && us[i].code == ts[k].code &&
          x == CaseTriple(us[i].code, us[i].mapped, ts[k].mapped);
        if i > 0 {
          assert us[1..][i - 1] == us[i];
        }
      }
    }
  }

  function EntryCode(e: CaseEntry): int
  {
    e.code
  }

  function TripleCode(t: CaseTriple): int
  {
    t.code
  }

  /** Against a strictly ascending titlecase list an uppercase entry forms
      at most one triple, carrying its own codepoint. */
  lemma {:induction false} MatchesAtMostOne(u: CaseEntry, ts: seq<CaseEntry>)
    requires AscendingBy(ts, EntryCode)
    ensures |Matches(u, ts)| <= 1
    ensures forall t :: t in Matches(u, ts) ==> t.code == u.code
  {
    if ts != [] {
      MatchesAtMostOne(u, ts[1..]);
      forall t | t in Matches(u, ts[1..]) ensures t.code == u.code && u.code != ts[0].code {
        MatchesMember(u, ts[1..], t);
        var k :| 0 <= k < |ts[1..]| && ts[1..][k].code == u.code && t == CaseTriple(u.code, u.mapped, ts[1..][k].mapped);
        assert EntryCode(ts[0]) < EntryCode(ts[k + 1]);
      }
      var m := Matches(u, ts[1..]);
      assert |m| > 0 ==> m[0] in m;
      forall t | t in Matches(u, ts) ensures t.code == u.code {
        MatchesMember(u, ts, t);
      }
    }
  }

  /** On strictly ascending lists the joined triples are strictly ascending
      by codepoint. */
  lemma {:induction false} JoinAscending(us: seq<CaseEntry>, ts: seq<CaseEntry>)
    requires AscendingBy(us, EntryCode) && AscendingBy(ts, EntryCode)
    ensures AscendingBy(Join(us, ts), TripleCode)
  {
    if us != [] {
      JoinAscending(us[1..], ts);
      MatchesAtMostOne(us[0], ts);
      var m := Matches(us[0], ts);
      var j0 := Join(us[1..], ts);
      var j := m + j0;
      forall b | b in j0 ensures us[0].code < b.code {
        JoinMember(us[1..], ts, b);
        var i, k :| 0 <= i < |us[1..]| && 0 <= k < |ts| && us[1..][i].code == ts[k].code &&
          b == CaseTriple(us[1..][i].code, us[1..][i].mapped, ts[k].mapped);
        assert EntryCode(us[0]) < EntryCode(us[i + 1]);
      }
      forall a, b | 0 <= a < b < |j| ensures TripleCode(j[a]) < TripleCode(j[b]) {
        if a >= |m| {
          assert j[a] == j0[a - |m|] && j[b] == j0[b - |m|];
        } else {
          assert j[a] in m && j[b] == j0[b - |m|];
        }
      }
    }
  }

  predicate SameMapping(t: CaseTriple)
  {
    t.upper == t.title
  }

  predicate DistinctMapping(t: CaseTriple)
  {
    t.upper != t.title
  }

  /** `uptitlecase.Where(u => u.Item2 == u.Item3)`. */
  function UpUnique(js: seq<CaseTriple>): seq<CaseTriple>
  {
    Where(js, SameMapping)
  }

  /** `uptitlecase.Where(u => u.Item2 != u.Item3)`. */
  function UpDouble(js: seq<CaseTriple>): seq<CaseTriple>
  {
    Where(js, DistinctMapping)
  }

  /** Every joined triple lands in exactly one of the two lists, and the two
      lists together are as long as the join. */
  lemma UpSplit(js: seq<CaseTriple>)
    ensures forall t :: t in UpUnique(js) <==> t in js && t.upper == t.title
    ensures forall t :: t in UpDouble(js) <==> t in js && t.upper != t.title
    ensures |UpUnique(js)| + |UpDouble(js)| == |js|
  {
    forall t ensures t in UpUnique(js) <==> t in js && t.upper == t.title {
      WhereMember(js, SameMapping, t);
    }
    forall t ensures t in UpDouble(js) <==> t in js && t.upper != t.title {
      WhereMember(js, DistinctMapping, t);
    }
    WhereSplit(js, SameMapping, DistinctMapping);
  }
}
