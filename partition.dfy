/** The tables cut from the ranges: the 256-byte latin map, the multi-point
    ranges above it (`ranges2`) and the single points above it (`uniques`). */
module Partition {
  import opened Base
  import opened Categories
  import opened Entities
  import opened Queries

  predicate AboveLatin(r: Range)
  {
    r.from > 255
  }

  /** The filter of `uniques`. */
  predicate IsPoint(r: Range)
  {
    r.from > 255 && r.from == r.to
  }

  /** The filter of `ranges2`. */
  predicate IsWide(r: Range)
  {
    r.from > 255 && r.from != r.to
  }

  function PointOf(r: Range): Point
  {
    Point(r.from, r.cat)
  }

  function From(r: Range): int
  {
    r.from
  }

  function PointCode(p: Point): int
  {
    p.code
  }

  /** `ranges.Where(t => t.Item1 > 255 && t.Item1 == t.Item2).Select(...)`. */
  function Uniques(rs: seq<Range>): (r: seq<Point>)
    ensures |r| <= |rs|
    ensures forall i :: 0 <= i < |r| ==> r[i].code > 255
  {
    Select(Where(rs, IsPoint), PointOf)
  }

  /** `ranges.Where(t => t.Item1 > 255 && t.Item1 != t.Item2)`. */
  function Ranges2(rs: seq<Range>): (r: seq<Range>)
    ensures |r| <= |rs|
    ensures forall i :: 0 <= i < |r| ==> IsWide(r[i])
  {
    Where(rs, IsWide)
  }

  /** `ranges2` holds exactly the multi-point ranges above the latin block,
      `uniques` exactly the single points above it. */
  lemma PartitionMembers(rs: seq<Range>)
    ensures forall r :: r in Ranges2(rs) <==> r in rs && IsWide(r)
    ensures forall p :: p in Uniques(rs) <==> exists r :: r in rs && IsPoint(r) && p == PointOf(r)
  {
    forall r ensures r in Ranges2(rs) <==> r in rs && IsWide(r) {
      WhereMember(rs, IsWide, r);
    }
    var w := Where(rs, IsPoint);
    forall p ensures p in Uniques(rs) <==> exists r :: r in rs && IsPoint(r) && p == PointOf(r) {
      if p in Uniques(rs) {
        var i :| 0 <= i < |w| && Uniques(rs)[i] == p;
        WhereMember(rs, IsPoint, w[i]);
      }
      if exists r :: r in rs && IsPoint(r) && p == PointOf(r) {
        var r :| r in rs && IsPoint(r) && p == PointOf(r);
        WhereMember(rs, IsPoint, r);
        var i :| 0 <= i < |w| && w[i] == r;
        assert Uniques(rs)[i] == p;
      }
    }
  }

  /** Between them the two lists account for every range above the latin
      block exactly once. */
  lemma {:induction false} PartitionCount(rs: seq<Range>)
    ensures |Uniques(rs)| + |Ranges2(rs)| == |Where(rs, AboveLatin)|
  {
    if rs != [] {
      PartitionCount(rs[1..]);
    }
  }

  /** Both lists keep the order of `ranges`. */
  lemma PartitionOrdered(rs: seq<Range>)
    requires AscendingBy(rs, From)
    ensures AscendingBy(Ranges2(rs), From)
    ensures AscendingBy(Uniques(rs), PointCode)
  {
    WhereAscending(rs, IsWide, From);
    WhereAscending(rs, IsPoint, From);
  }

  /** The predicate of `ranges.First(t => x >= t.Item1 && x <= t.Item2)`. */
  function Covering(x: int): Range -> bool
  {
    r => Contains(r, x)
  }

  /** The latin byte of `x`: the category of the first range containing it,
      None where `First` throws. */
  function LatinEntry(rs: seq<Range>, x: int): (e: Option<byte>)
    ensures e.Some? ==> exists i :: 0 <= i < |rs| && Contains(rs[i], x) && e.value == CategoryByte(rs[i].cat)
    ensures e.None? ==> forall i :: 0 <= i < |rs| ==> !Contains(rs[i], x)
  {
    var i := FirstIndex(rs, Covering(x));
    if i.None? then None else Some(CategoryByte(rs[i.value].cat))
  }

  /** The latin bytes of 0 .. n - 1, None if one of them has no range. */
  function LatinPrefix(rs: seq<Range>, n: nat): (t: Option<seq<byte>>)
    ensures t.Some? <==> forall x :: 0 <= x < n ==> LatinEntry(rs, x).Some?
    ensures t.Some? ==> |t.value| == n
    ensures t.Some? ==> forall x :: 0 <= x < n ==> LatinEntry(rs, x) == Some(t.value[x])
  {
    if n == 0 then Some([])
    else
      var t0 := LatinPrefix(rs, n - 1);
      var e := LatinEntry(rs, n - 1);
      if t0.Some? && e.Some? then Some(t0.value + [e.value]) else None
  }

  /** The 256 bytes of the latin loop; None where it throws. */
  function LatinTable(rs: seq<Range>): (t: Option<seq<byte>>)
    ensures t.Some? ==> |t.value| == 256
    ensures t.Some? ==> forall x :: 0 <= x < 256 ==> LatinEntry(rs, x) == Some(t.value[x])
  {
    LatinPrefix(rs, 256)
  }

  predicate Covered(rs: seq<Range>, x: int)
  {
    exists i :: 0 <= i < |rs| && Contains(rs[i], x)
  }

  lemma LatinEntryCovered(rs: seq<Range>, x: int)
    ensures LatinEntry(rs, x).Some? <==> Covered(rs, x)
  {
    if Covered(rs, x) {
      var i :| 0 <= i < |rs| && Contains(rs[i], x);
      assert Covering(x)(rs[i]);
    }
    if LatinEntry(rs, x).Some? {
      var i := FirstIndex(rs, Covering(x)).value;
      assert Covering(x)(rs[i]);
    }
  }

  /** The latin loop completes exactly when every byte value lies in some
      range; it then writes 256 bytes. */
  lemma LatinTableDefined(rs: seq<Range>)
    ensures LatinTable(rs).Some? <==> forall x :: 0 <= x < 256 ==> Covered(rs, x)
    ensures LatinTable(rs).Some? ==> |LatinTable(rs).value| == 256
  {
    forall x | 0 <= x < 256 {
      LatinEntryCovered(rs, x);
    }
  }

  /** Byte `x` of the latin table is the category of the first range that
      holds `x`. */
  lemma LatinTableByte(rs: seq<Range>, x: nat) returns (i: nat)
    requires x < 256 && LatinTable(rs).Some?
    ensures i < |rs| && Contains(rs[i], x)
    ensures forall k :: 0 <= k < i ==> !Contains(rs[k], x)
    ensures LatinTable(rs).value[x] == CategoryByte(rs[i].cat)
  {
    assert LatinEntry(rs, x).Some?;
    i := FirstIndex(rs, Covering(x)).value;
    assert Covering(x)(rs[i]);
    forall k | 0 <= k < i ensures !Contains(rs[k], x) {
      assert !Covering(x)(rs[k]);
    }
  }
}
