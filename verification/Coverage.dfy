/** The line-interval merge behind a file's mechanical coverage. */
module Coverage {
  import opened Prelude

  datatype Range = Range(first: int, last: int)

  datatype FileCoverage = FileCoverage(ranges: seq<Range>, lines: int, remaining: Option<int>, complete: bool)

  predicate Covered(ranges: seq<Range>, x: int) {
    exists i :: 0 <= i < |ranges| && ranges[i].first <= x <= ranges[i].last
  }

  // ---- sorting ---------------------------------------------------------------------------

  /** Lists of two numbers compare first by one, then by the other. */
  predicate Before(a: Range, b: Range) {
    a.first < b.first || (a.first == b.first && a.last <= b.last)
  }

  predicate Ordered(ranges: seq<Range>) {
    forall i, j :: 0 <= i < j < |ranges| ==> Before(ranges[i], ranges[j])
  }

  method Sort(ranges: seq<Range>) returns (sorted: seq<Range>)
    ensures Ordered(sorted) && multiset(sorted) == multiset(ranges)
  {
    sorted := [];
    for n := 0 to |ranges|
      invariant Ordered(sorted) && multiset(sorted) == multiset(ranges[..n])
    {
      var r := ranges[n];
      var i := 0;
      while i < |sorted| && Before(sorted[i], r)
        invariant i <= |sorted| && forall k :: 0 <= k < i ==> Before(sorted[k], r)
      {
        i := i + 1;
      }
      assert sorted == sorted[..i] + sorted[i..];
      assert ranges[..n + 1] == ranges[..n] + [r];
      sorted := sorted[..i] + [r] + sorted[i..];
    }
    assert ranges[..|ranges|] == ranges;
  }

  lemma SameCovered(a: seq<Range>, b: seq<Range>, x: int)
    requires multiset(a) == multiset(b)
    ensures Covered(a, x) <==> Covered(b, x)
  {
    forall r
      ensures r in a <==> r in b
    {
      assert r in a <==> r in multiset(a);
      assert r in b <==> r in multiset(b);
    }
    if Covered(a, x) {
      var i :| 0 <= i < |a| && a[i].first <= x <= a[i].last;
      assert a[i] in b;
    }
    if Covered(b, x) {
      var i :| 0 <= i < |b| && b[i].first <= x <= b[i].last;
      assert b[i] in a;
    }
  }

  // ---- merging ---------------------------------------------------------------------------

  /** Consecutive merged ranges leave at least one line between them. */
  predicate Separated(merged: seq<Range>) {
    forall i, j :: 0 <= i < j < |merged| ==> merged[i].last + 1 < merged[j].first
  }

  predicate Proper(ranges: seq<Range>) {
    forall i :: 0 <= i < |ranges| ==> ranges[i].first <= ranges[i].last
  }

  lemma CoveredAppend(ranges: seq<Range>, r: Range, x: int)
    ensures Covered(ranges + [r], x) <==> Covered(ranges, x) || r.first <= x <= r.last
  {
    var all := ranges + [r];
    if Covered(ranges, x) {
      var i :| 0 <= i < |ranges| && ranges[i].first <= x <= ranges[i].last;
      assert all[i] == ranges[i];
    }
    assert all[|ranges|] == r;
  }

  lemma CoveredUpdate(ranges: seq<Range>, last: int, x: int)
    requires ranges != []
    ensures var n := |ranges| - 1;
            Covered(ranges[n := ranges[n].(last := last)], x)
            <==> Covered(ranges[..n], x) || ranges[n].first <= x <= last
  {
    var n := |ranges| - 1;
    var r := ranges[n].(last := last);
    assert ranges[n := r] == ranges[..n] + [r];
    CoveredAppend(ranges[..n], r, x);
  }

  /** Extending the last merged range by one that starts inside it or right behind it. */
  lemma ExtendCovers(merged: seq<Range>, r: Range, x: int)
    requires merged != [] && merged[|merged| - 1].first <= r.first <= merged[|merged| - 1].last + 1
    ensures var n := |merged| - 1;
            Covered(merged[n := merged[n].(last := Max(merged[n].last, r.last))], x)
            <==> Covered(merged, x) || r.first <= x <= r.last
  {
    var n := |merged| - 1;
    CoveredUpdate(merged, Max(merged[n].last, r.last), x);
    assert merged == merged[..n] + [merged[n]];
    CoveredAppend(merged[..n], merged[n], x);
  }

  /** Sorted ranges are merged left to right into the last one. */
  method MergeSorted(sorted: seq<Range>) returns (merged: seq<Range>)
    requires Ordered(sorted)
    ensures Separated(merged)
    ensures forall x :: Covered(merged, x) <==> Covered(sorted, x)
    ensures merged != [] <==> sorted != []
    ensures sorted != [] ==> merged[0].first == sorted[0].first
    ensures Proper(sorted) ==> Proper(merged)
  {
    merged := [];
    for i := 0 to |sorted|
      invariant Separated(merged)
      invariant forall x :: Covered(merged, x) <==> Covered(sorted[..i], x)
      invariant merged != [] <==> i > 0
      invariant i > 0 ==> merged[0].first == sorted[0].first && merged[|merged| - 1].first <= sorted[i - 1].first
      invariant Proper(sorted) ==> Proper(merged)
    {
      var r := sorted[i];
      assert i > 0 ==> Before(sorted[i - 1], r);
      ghost var before := merged;
      if merged == [] || r.first > merged[|merged| - 1].last + 1 {
        forall x
          ensures Covered(before + [r], x) <==> Covered(before, x) || r.first <= x <= r.last
        {
          CoveredAppend(before, r, x);
        }
        SeparatedAppend(merged, r);
        merged := merged + [r];
      } else {
        forall x
          ensures Covered(Extended(before, r), x) <==> Covered(before, x) || r.first <= x <= r.last
        {
          ExtendCovers(before, r, x);
        }
        merged := Extended(merged, r);
      }
      assert sorted[..i + 1] == sorted[..i] + [r];
      forall x
        ensures Covered(sorted[..i + 1], x) <==> Covered(sorted[..i], x) || r.first <= x <= r.last
      {
        CoveredAppend(sorted[..i], r, x);
      }
    }
    assert sorted[..|sorted|] == sorted;
  }

  function Extended(merged: seq<Range>, r: Range): seq<Range>
    requires merged != []
  {
    var n := |merged| - 1;
    merged[n := merged[n].(last := Max(merged[n].last, r.last))]
  }

  lemma SeparatedAppend(merged: seq<Range>, r: Range)
    requires Separated(merged) && (merged != [] ==> merged[|merged| - 1].last + 1 < r.first)
    requires merged != [] ==> merged[|merged| - 1].first <= r.first
    ensures Separated(merged + [r])
  {
    forall i, j | 0 <= i < j < |merged + [r]|
      ensures (merged + [r])[i].last + 1 < (merged + [r])[j].first
    {
      if j == |merged| && i < |merged| - 1 {
        assert merged[i].last + 1 < merged[|merged| - 1].first;
      }
    }
  }

  // ---- counting --------------------------------------------------------------------------

  function Span(first: int, last: int): (s: set<int>)
    ensures forall x :: x in s <==> first <= x <= last
    decreases last - first
  {
    if first > last then {} else Span(first, last - 1) + {last}
  }

  function Lines(ranges: seq<Range>): set<int> {
    if ranges == [] then {}
    else Lines(ranges[..|ranges| - 1]) + Span(ranges[|ranges| - 1].first, ranges[|ranges| - 1].last)
  }

  function Materialised(merged: seq<Range>): int {
    if merged == [] then 0
    else Materialised(merged[..|merged| - 1]) + merged[|merged| - 1].last - merged[|merged| - 1].first + 1
  }

  lemma {:induction false} LinesAreCovered(ranges: seq<Range>, x: int)
    ensures x in Lines(ranges) <==> Covered(ranges, x)
  {
    if ranges != [] {
      var n := |ranges| - 1;
      assert ranges == ranges[..n] + [ranges[n]];
      LinesAreCovered(ranges[..n], x);
      CoveredAppend(ranges[..n], ranges[n], x);
    }
  }

  lemma {:induction false} SpanSize(first: int, last: int)
    requires first <= last + 1
    ensures |Span(first, last)| == last - first + 1
    decreases last - first + 1
  {
    if first <= last {
      SpanSize(first, last - 1);
    }
  }

  /** Separated proper ranges count every line once. */
  lemma {:induction false} MaterialisedIsCount(merged: seq<Range>)
    requires Separated(merged) && Proper(merged)
    ensures Materialised(merged) == |Lines(merged)|
  {
    if merged != [] {
      var n := |merged| - 1;
      var s := Span(merged[n].first, merged[n].last);
      MaterialisedIsCount(merged[..n]);
      SpanSize(merged[n].first, merged[n].last);
      forall x | x in Lines(merged[..n])
        ensures x !in s
      {
        LinesAreCovered(merged[..n], x);
        var i :| 0 <= i < n && merged[..n][i].first <= x <= merged[..n][i].last;
        assert merged[i].last + 1 < merged[n].first;
      }
      assert Lines(merged[..n]) !! s;
    }
  }

  // ---- the file row ----------------------------------------------------------------------

  function CoverageOf(merged: seq<Range>, total: nat): FileCoverage {
    var lines := Materialised(merged);
    FileCoverage(merged, lines, if total == 0 then None else Some(Max(0, total - lines)),
                 total > 0 && lines >= total && merged != [] && merged[0].first <= 1)
  }

  /** Every line of the file was seen. */
  ghost predicate AllSeen(ranges: seq<Range>, total: nat) {
    Span(1, total) <= Lines(ranges)
  }

  /** Lines outside the file make up for the lines of it that were not seen. */
  ghost predicate Misleads(ranges: seq<Range>, total: nat) {
    && !AllSeen(ranges, total)
    && |Lines(ranges) - Span(1, total)| >= |Span(1, total) - Lines(ranges)|
    && exists i :: 0 <= i < |ranges| && ranges[i].first <= 1
  }

  /** What the row says of proper ranges: the number of lines seen; the exact number still to see if and only if every
      line seen is one of the file or nothing of it is missing; and complete exactly when all of it was seen, or the
      ranges mislead. */
  ghost predicate Tells(ranges: seq<Range>, total: nat, row: FileCoverage) {
    var seen, all := Lines(ranges), Span(1, total);
    && row.lines == |seen|
    && (row.remaining.None? <==> total == 0)
    && (total > 0 ==> (row.remaining == Some(|all - seen|) <==> seen <= all || all <= seen))
    && (row.complete <==> total > 0 && (AllSeen(ranges, total) || Misleads(ranges, total)))
  }

  lemma SizesApart(a: set<int>, b: set<int>)
    ensures |a| - |b| == |a - b| - |b - a|
    ensures |a - b| == 0 <==> a <= b
  {
    assert a == (a - b) + (a * b) && b == (b - a) + (a * b);
    assert a - b == {} <==> a <= b;
  }

  lemma SameLines(ranges: seq<Range>, merged: seq<Range>)
    requires forall x :: Covered(merged, x) <==> Covered(ranges, x)
    ensures Lines(merged) == Lines(ranges)
  {
    forall x
      ensures x in Lines(merged) <==> x in Lines(ranges)
    {
      LinesAreCovered(merged, x);
      LinesAreCovered(ranges, x);
    }
  }

  /** The first merged range starts at or before line one exactly when some range does. */
  lemma StartsEarly(ranges: seq<Range>, merged: seq<Range>)
    requires Separated(merged) && Proper(merged) && Proper(ranges)
    requires forall x :: Covered(merged, x) <==> Covered(ranges, x)
    ensures merged != [] && merged[0].first <= 1 <==> exists i :: 0 <= i < |ranges| && ranges[i].first <= 1
  {
    if i :| 0 <= i < |ranges| && ranges[i].first <= 1 {
      assert Covered(ranges, ranges[i].first);
      var j :| 0 <= j < |merged| && merged[j].first <= ranges[i].first <= merged[j].last;
      assert j > 0 ==> merged[0].last + 1 < merged[j].first;
    }
    if merged != [] && merged[0].first <= 1 {
      assert Covered(merged, merged[0].first);
    }
  }

  lemma RowTells(ranges: seq<Range>, merged: seq<Range>, total: nat)
    requires Separated(merged) && Proper(merged) && Proper(ranges)
    requires forall x :: Covered(merged, x) <==> Covered(ranges, x)
    ensures Tells(ranges, total, CoverageOf(merged, total))
  {
    var seen, all := Lines(ranges), Span(1, total);
    SameLines(ranges, merged);
    MaterialisedIsCount(merged);
    SpanSize(1, total);
    SizesApart(seen, all);
    SizesApart(all, seen);
    StartsEarly(ranges, merged);
    if total > 0 && AllSeen(ranges, total) {
      assert 1 in seen;
      LinesAreCovered(ranges, 1);
    }
  }

  // ---- the records of one file -----------------------------------------------------------

  /** What one observation examined of a file; the file's length may be missing. */
  datatype Record = Record(range: Range, total: Option<int>)

  function RangesOf(records: seq<Record>): (ranges: seq<Range>)
    ensures |ranges| == |records| && forall i :: 0 <= i < |records| ==> ranges[i] == records[i].range
  {
    seq(|records|, i requires 0 <= i < |records| => records[i].range)
  }

  /** The greatest length any record reports. */
  function FileTotal(records: seq<Record>): nat {
    if records == [] then 0
    else
      var n := |records| - 1;
      Max(FileTotal(records[..n]), ValueOr(records[n].total, 0))
  }

  lemma {:induction false} TotalIsGreatest(records: seq<Record>, i: nat)
    requires i < |records| && records[i].total.Some?
    ensures records[i].total.value <= FileTotal(records)
  {
    if i < |records| - 1 {
      TotalIsGreatest(records[..|records| - 1], i);
    }
  }

  /** Unless it is zero, some record reports it. */
  lemma {:induction false} TotalIsReported(records: seq<Record>)
    ensures FileTotal(records) == 0
            || exists i :: 0 <= i < |records| && records[i].total == Some(FileTotal(records))
  {
    if records != [] {
      var n := |records| - 1;
      TotalIsReported(records[..n]);
      if FileTotal(records) != 0 && records[n].total != Some(FileTotal(records)) {
        var i :| 0 <= i < n && records[..n][i].total == Some(FileTotal(records[..n]));
        assert records[i].total == Some(FileTotal(records));
      }
    }
  }

  /** The lines lie within the length the record itself reports, as in every record of the Standard provider. */
  predicate Bounded(r: Record) {
    r.total.Some? && 1 <= r.range.first <= r.range.last <= r.total.value
  }

  /** The row says exactly how many lines were seen, how many remain, and whether all were. */
  ghost predicate Exact(ranges: seq<Range>, total: nat, row: FileCoverage) {
    && row.lines == |Lines(ranges)|
    && row.remaining == (if total == 0 then None else Some(|Span(1, total) - Lines(ranges)|))
    && (row.complete <==> total > 0 && AllSeen(ranges, total))
  }

  lemma {:induction false} BoundedIsExact(records: seq<Record>, row: FileCoverage)
    requires forall i :: 0 <= i < |records| ==> Bounded(records[i])
    requires Tells(RangesOf(records), FileTotal(records), row)
    ensures Proper(RangesOf(records)) && Exact(RangesOf(records), FileTotal(records), row)
  {
    var ranges, total := RangesOf(records), FileTotal(records);
    forall x | x in Lines(ranges)
      ensures x in Span(1, total)
    {
      LinesAreCovered(ranges, x);
      var i :| 0 <= i < |ranges| && ranges[i].first <= x <= ranges[i].last;
      assert Bounded(records[i]);
      TotalIsGreatest(records, i);
    }
    assert Lines(ranges) - Span(1, total) == {};
    SizesApart(Span(1, total), Lines(ranges));
    forall i | 0 <= i < |ranges|
      ensures ranges[i].first <= ranges[i].last
    {
      assert Bounded(records[i]);
    }
    assert forall i :: 0 <= i < |ranges| ==> Bounded(records[i]);
  }

  /** Gathers the records of one file revision, sorts and merges their ranges, and counts its lines. */
  method MechanicalCoverage(records: seq<Record>) returns (row: FileCoverage)
    ensures Separated(row.ranges) && forall x :: Covered(row.ranges, x) <==> Covered(RangesOf(records), x)
    ensures row == CoverageOf(row.ranges, FileTotal(records))
    ensures Proper(RangesOf(records)) ==> Tells(RangesOf(records), FileTotal(records), row)
    ensures (forall i :: 0 <= i < |records| ==> Bounded(records[i]))
            ==> Exact(RangesOf(records), FileTotal(records), row)
  {
    var ranges, total := [], 0;
    for n := 0 to |records|
      invariant ranges == RangesOf(records[..n]) && total == FileTotal(records[..n])
    {
      assert records[..n + 1][..n] == records[..n];
      ranges := ranges + [records[n].range];
      if records[n].total.Some? {
        total := Max(total, records[n].total.value);
      }
    }
    assert records[..|records|] == records;
    var sorted := Sort(ranges);
    forall x
      ensures Covered(sorted, x) <==> Covered(ranges, x)
    {
      SameCovered(sorted, ranges, x);
    }
    forall i | 0 <= i < |sorted|
      ensures sorted[i] in ranges
    {
      assert sorted[i] in multiset(sorted);
    }
    var merged := MergeSorted(sorted);
    row := CoverageOf(merged, total);
    if Proper(ranges) {
      RowTells(ranges, merged, total);
      if forall i :: 0 <= i < |records| ==> Bounded(records[i]) {
        BoundedIsExact(records, row);
      }
    }
  }

  /** The flag agrees with all lines having been seen if and only if the ranges do not mislead. */
  lemma FlagIsExactIff(ranges: seq<Range>, merged: seq<Range>, total: nat)
    requires Separated(merged) && Proper(merged) && Proper(ranges) && total > 0
    requires forall x :: Covered(merged, x) <==> Covered(ranges, x)
    ensures (CoverageOf(merged, total).complete <==> AllSeen(ranges, total)) <==> !Misleads(ranges, total)
  {
    RowTells(ranges, merged, total);
  }

  /** Line 1, and lines 3 to 12. */
  predicate HasGap(ranges: seq<Range>) {
    |ranges| == 2 && ranges[0] == Range(1, 1) && ranges[1] == Range(3, 12)
  }

  lemma LinesWithGap(ranges: seq<Range>, x: int)
    requires HasGap(ranges)
    ensures x in Lines(ranges) <==> x == 1 || 3 <= x <= 12
  {
    LinesAreCovered(ranges, x);
  }

  lemma OneMissing(seen: set<int>, all: set<int>)
    requires forall x :: x in seen <==> x == 1 || 3 <= x <= 12
    requires forall x :: x in all <==> 1 <= x <= 10
    ensures !(all <= seen) && |seen - all| >= |all - seen|
  {
    assert 2 in all - seen && all - seen == {2} by {
      assert forall x :: x in all - seen <==> x == 2;
    }
    assert 11 in seen - all;
  }

  lemma GapMisleads(ranges: seq<Range>, total: nat)
    requires HasGap(ranges) && total == 10
    ensures Misleads(ranges, total) && 2 !in Lines(ranges)
  {
    forall x
      ensures x in Lines(ranges) <==> x == 1 || 3 <= x <= 12
    {
      LinesWithGap(ranges, x);
    }
    OneMissing(Lines(ranges), Span(1, total));
    assert ranges[0].first <= 1;
  }

  lemma {:induction false} UnboundedRecords(records: seq<Record>)
    requires |records| == 2 && records[0] == Record(Range(1, 1), Some(10)) && records[1] == Record(Range(3, 12), None)
    ensures Bounded(records[0]) && Proper(RangesOf(records)) && FileTotal(records) == 10
  {
    assert records[..1] == [records[0]] && records[..1][..0] == [];
    assert FileTotal(records[..1]) == 10;
  }

  /** A record that leaves out the length of its file can mislead: beside one that saw line 1 of 10, a record of lines
      3 to 12 makes the file complete with line 2 unseen. */
  lemma {:induction false} UnboundedCanMislead(records: seq<Record>)
    requires |records| == 2 && records[0] == Record(Range(1, 1), Some(10)) && records[1] == Record(Range(3, 12), None)
    ensures FileTotal(records) == 10 && Misleads(RangesOf(records), FileTotal(records))
    ensures 2 !in Lines(RangesOf(records))
  {
    UnboundedRecords(records);
    GapMisleads(RangesOf(records), FileTotal(records));
  }
}
