/** Half-open intervals, sorted and swept: the common core of the interval procedures of
    compat_audit_kernel_ranges.py, compat_audit_proof.py, compat_audit_memory.py and
    compat_audit_analysis.py. */
module Intervals {
  import opened Cardinality
  import opened Options
  import Sorting

  /** An interval; `writes` is the tag that some sweeps carry and others leave false. */
  datatype Span = Span(lo: nat, hi: nat, writes: bool)

  datatype Range = Range(lo: nat, hi: nat)

  ghost predicate In(s: seq<Span>, b: nat) {
    exists x :: x in s && x.lo <= b < x.hi
  }

  ghost predicate InRanges(m: seq<Range>, b: nat) {
    exists i :: 0 <= i < |m| && m[i].lo <= b < m[i].hi
  }

  predicate NonEmpty(s: seq<Span>) {
    forall i :: 0 <= i < |s| ==> s[i].lo < s[i].hi
  }

  /** Two accesses share a byte and one of them writes. */
  predicate Conflict(x: Span, y: Span) {
    x.lo < y.hi && y.lo < x.hi && (x.writes || y.writes)
  }

  /** Two entries of the sequence conflict. */
  predicate Clash(s: seq<Span>) {
    s != [] && ((exists y :: y in s[1..] && Conflict(s[0], y)) || Clash(s[1..]))
  }

  lemma {:induction false} ClashIsPairwise(s: seq<Span>)
    ensures Clash(s) <==> exists i, j :: 0 <= i < j < |s| && Conflict(s[i], s[j])
  {
    if s != [] {
      var t := s[1..];
      ClashIsPairwise(t);
      if Clash(t) {
        var i, j :| 0 <= i < j < |t| && Conflict(t[i], t[j]);
        assert Conflict(s[i + 1], s[j + 1]);
      } else if y :| y in t && Conflict(s[0], y) {
        var j :| 0 <= j < |t| && t[j] == y;
        assert Conflict(s[0], s[j + 1]);
      }
      if i, j :| 0 <= i < j < |s| && Conflict(s[i], s[j]) {
        if i > 0 { assert Conflict(t[i - 1], t[j - 1]); } else { assert t[j - 1] == s[j]; }
      }
    }
  }

  // ---- sorting by (lo, hi, writes), as Python sorts the tuples ----

  predicate Before(x: Span, y: Span) {
    x.lo < y.lo || (x.lo == y.lo && (x.hi < y.hi || (x.hi == y.hi && (y.writes || !x.writes))))
  }

  lemma BeforeIsTotal()
    ensures Sorting.TotalOrder(Before)
  {
  }

  ghost predicate Sorted(s: seq<Span>) {
    Sorting.Sorted(s, Before)
  }

  function Sort(s: seq<Span>): seq<Span> {
    Sorting.Sort(s, Before)
  }

  lemma ClashHead(x: Span, s: seq<Span>)
    ensures Clash([x] + s) <==> (exists y :: y in s && Conflict(x, y)) || Clash(s)
  {
    assert ([x] + s)[1..] == s;
  }

  lemma {:induction false} InsertClash(x: Span, s: seq<Span>)
    requires Sorted(s)
    ensures Clash(Sorting.Insert(x, s, Before)) <==> Clash([x] + s)
  {
    if s != [] && !Before(x, s[0]) {
      var t := s[1..];
      assert s == [s[0]] + t;
      BeforeIsTotal();
      Sorting.SortedCons(s[0], t, Before);
      var r := Sorting.Insert(x, t, Before);
      InsertClash(x, t);
      Sorting.InsertKeeps(x, t, Before);
      ClashHead(s[0], r);
      ClashHead(x, t);
      ClashHead(x, s);
      ClashHead(s[0], t);
      assert (exists y :: y in s && Conflict(x, y)) <==> Conflict(x, s[0]) || exists y :: y in t && Conflict(x, y);
      assert (exists y :: y in r && Conflict(s[0], y)) <==>
             Conflict(s[0], x) || exists y :: y in t && Conflict(s[0], y);
    }
  }

  lemma {:induction false} SortClash(s: seq<Span>)
    ensures Clash(Sort(s)) <==> Clash(s)
  {
    if s != [] {
      var t := Sort(s[1..]);
      SortClash(s[1..]);
      BeforeIsTotal();
      Sorting.SortKeeps(s[1..], Before);
      InsertClash(s[0], t);
      ClashHead(s[0], t);
      ClashHead(s[0], s[1..]);
      assert s == [s[0]] + s[1..];
    }
  }

  lemma SortKeeps(s: seq<Span>)
    ensures multiset(Sort(s)) == multiset(s) && |Sort(s)| == |s|
    ensures forall y :: y in Sort(s) <==> y in s
    ensures Clash(Sort(s)) <==> Clash(s)
    ensures Sorted(Sort(s))
    ensures NonEmpty(s) ==> NonEmpty(Sort(s))
  {
    hide Clash, Before;
    BeforeIsTotal();
    Sorting.SortKeeps(s, Before);
    SortClash(s);
    if NonEmpty(s) {
      assert forall y :: y in s ==> y.lo < y.hi;
      forall i | 0 <= i < |Sort(s)| ensures Sort(s)[i].lo < Sort(s)[i].hi {
        assert Sort(s)[i] in s;
      }
    }
  }

  // ---- merging ----

  /** Sorted, non-empty and separated by gaps. */
  ghost predicate Canonical(m: seq<Range>) {
    && (forall i :: 0 <= i < |m| ==> m[i].lo < m[i].hi)
    && (forall i, j :: 0 <= i < j < |m| ==> m[i].hi < m[j].lo)
  }

  /** The byte set determines the canonical form. */
  lemma {:induction false} CanonicalUnique(a: seq<Range>, b: seq<Range>)
    requires Canonical(a) && Canonical(b)
    requires forall x: nat :: InRanges(a, x) <==> InRanges(b, x)
    ensures a == b
  {
    if a == [] || b == [] {
      if a != [] { assert InRanges(a, a[0].lo); }
      if b != [] { assert InRanges(b, b[0].lo); }
    } else {
      FirstRangeEqual(a, b);
      FirstRangeEqual(b, a);
      forall x: nat ensures InRanges(a[1..], x) <==> InRanges(b[1..], x) {
        TailBytes(a, x);
        TailBytes(b, x);
      }
      CanonicalUnique(a[1..], b[1..]);
    }
  }

  lemma FirstRangeEqual(a: seq<Range>, b: seq<Range>)
    requires a != [] && b != [] && Canonical(a) && Canonical(b)
    requires forall x: nat :: InRanges(a, x) <==> InRanges(b, x)
    ensures a[0].lo <= b[0].lo
    ensures a[0].lo == b[0].lo ==> a[0].hi <= b[0].hi
  {
    assert InRanges(b, b[0].lo);
    assert !InRanges(b, b[0].hi);
  }

  lemma TailBytes(a: seq<Range>, x: nat)
    requires a != [] && Canonical(a)
    ensures InRanges(a[1..], x) <==> InRanges(a, x) && x >= a[0].hi
  {
    var t := a[1..];
    if InRanges(t, x) {
      var i :| 0 <= i < |t| && t[i].lo <= x < t[i].hi;
      assert a[i + 1] == t[i];
    }
    if InRanges(a, x) && x >= a[0].hi {
      var i :| 0 <= i < |a| && a[i].lo <= x < a[i].hi;
      assert t[i - 1] == a[i];
    }
  }

  lemma ExtendLast(a: seq<Range>, m: seq<Range>, x: Span)
    requires a != [] && Canonical(a) && x.lo < x.hi
    requires var last := a[|a| - 1];
             last.lo <= x.lo <= last.hi
             && m == a[|a| - 1 := Range(last.lo, if last.hi < x.hi then x.hi else last.hi)]
    ensures Canonical(m)
    ensures forall b: nat :: InRanges(m, b) <==> InRanges(a, b) || x.lo <= b < x.hi
  {
    forall b: nat ensures InRanges(m, b) <==> InRanges(a, b) || x.lo <= b < x.hi {
      if InRanges(a, b) {
        var i :| 0 <= i < |a| && a[i].lo <= b < a[i].hi;
        assert m[i].lo <= b < m[i].hi;
      } else if x.lo <= b < x.hi {
        assert m[|a| - 1].lo <= b < m[|a| - 1].hi;
      }
      if InRanges(m, b) && !(x.lo <= b < x.hi) {
        var i :| 0 <= i < |m| && m[i].lo <= b < m[i].hi;
        assert a[i].lo <= b < a[i].hi;
      }
    }
  }

  lemma AppendRange(a: seq<Range>, m: seq<Range>, x: Span)
    requires Canonical(a) && x.lo < x.hi && m == a + [Range(x.lo, x.hi)]
    requires a != [] ==> a[|a| - 1].hi < x.lo
    ensures Canonical(m)
    ensures forall b: nat :: InRanges(m, b) <==> InRanges(a, b) || x.lo <= b < x.hi
  {
    forall b: nat ensures InRanges(m, b) <==> InRanges(a, b) || x.lo <= b < x.hi {
      if InRanges(a, b) {
        var i :| 0 <= i < |a| && a[i].lo <= b < a[i].hi;
        assert m[i] == a[i];
      }
      if x.lo <= b < x.hi { assert m[|a|].lo <= b < m[|a|].hi; }
    }
  }

  /** `merged` is the canonical form of the first n sorted intervals. */
  ghost predicate Swept(s: seq<Span>, n: nat, merged: seq<Range>)
    requires n <= |s|
  {
    && Canonical(merged) && (merged == [] <==> n == 0)
    && (forall b: nat :: InRanges(merged, b) <==> In(s[..n], b))
    && (n > 0 ==>
          && merged[|merged| - 1].lo <= s[n - 1].lo
          && (forall i :: 0 <= i < n ==> s[i].hi <= merged[|merged| - 1].hi)
          && (exists i :: 0 <= i < n && s[i].hi == merged[|merged| - 1].hi))
  }

  /** Adding one interval to the merged list, as the loop body does. */
  function MergeOne(merged: seq<Range>, x: Span): seq<Range> {
    if merged == [] || merged[|merged| - 1].hi < x.lo then merged + [Range(x.lo, x.hi)]
    else
      var last := merged[|merged| - 1];
      merged[|merged| - 1 := Range(last.lo, if last.hi < x.hi then x.hi else last.hi)]
  }

  lemma InPrefix(s: seq<Span>, n: nat, next: nat)
    requires n < |s| && next == n + 1
    ensures forall b: nat :: In(s[..next], b) <==> In(s[..n], b) || s[n].lo <= b < s[n].hi
  {
    assert s[..next] == s[..n] + [s[n]];
  }

  lemma SweptStep(s: seq<Span>, n: nat, merged: seq<Range>)
    requires n < |s| && Sorted(s) && NonEmpty(s) && Swept(s, n, merged)
    ensures Swept(s, n + 1, MergeOne(merged, s[n]))
  {
    var x, next := s[n], MergeOne(merged, s[n]);
    InPrefix(s, n, n + 1);
    if n > 0 {
      assert Before(s[n - 1], x);
      if merged[|merged| - 1].hi < x.lo { AppendRange(merged, next, x); } else { ExtendLast(merged, next, x); }
      var i :| 0 <= i < n && s[i].hi == merged[|merged| - 1].hi;
      assert s[i].hi == next[|next| - 1].hi || s[n].hi == next[|next| - 1].hi;
    } else {
      AppendRange(merged, next, x);
    }
  }

  /** The writing test looks only at the last merged range, and misses no conflict. */
  lemma WriteTest(s: seq<Span>, n: nat, merged: seq<Range>)
    requires n < |s| && Sorted(s) && NonEmpty(s) && Swept(s, n, merged)
    ensures s[n].writes ==>
              (n > 0 && s[n].lo < merged[|merged| - 1].hi <==> exists i :: 0 <= i < n && Conflict(s[i], s[n]))
  {
    if n > 0 && s[n].writes && s[n].lo < merged[|merged| - 1].hi {
      var i :| 0 <= i < n && s[i].hi == merged[|merged| - 1].hi;
      assert Before(s[i], s[n]);
      assert Conflict(s[i], s[n]);
    }
  }

  /** The merge loop over sorted intervals of one operand and mode. A write that overlaps
      what came before is refused. */
  method Merge(spans: seq<Span>) returns (r: Option<seq<Range>>)
    requires NonEmpty(spans)
    requires forall x, y :: x in spans && y in spans ==> x.writes == y.writes
    ensures r.None? <==> Clash(spans)
    ensures r.Some? ==> Canonical(r.value) && forall b: nat :: InRanges(r.value, b) <==> In(spans, b)
  {
    hide Clash, Swept, In, InRanges, Canonical;
    var s := Sort(spans);
    SortKeeps(spans);
    ClashIsPairwise(s);
    var merged: seq<Range> := [];
    SweptStart(s);
    for n := 0 to |s|
      invariant Swept(s, n, merged)
      invariant forall i, j :: 0 <= i < j < n ==> !Conflict(s[i], s[j])
    {
      var x := s[n];
      SweptShape(s, n, merged);
      WriteTest(s, n, merged);
      SweptStep(s, n, merged);
      SameTag(spans, s, n);
      if merged != [] && x.lo < merged[|merged| - 1].hi && x.writes { return None; }
      if merged != [] && x.lo <= merged[|merged| - 1].hi {
        var last := merged[|merged| - 1];
        merged := merged[|merged| - 1 := Range(last.lo, if last.hi < x.hi then x.hi else last.hi)];
      } else {
        merged := merged + [Range(x.lo, x.hi)];
      }
    }
    SweptDone(s, spans, merged);
    r := Some(merged);
  }

  lemma SameTag(spans: seq<Span>, s: seq<Span>, n: nat)
    requires n < |s| && forall y :: y in s <==> y in spans
    requires forall x, y :: x in spans && y in spans ==> x.writes == y.writes
    ensures forall i :: 0 <= i < n ==> s[i].writes == s[n].writes
  {
    assert s[n] in spans && forall i :: 0 <= i < n ==> s[i] in spans;
  }

  lemma SweptStart(s: seq<Span>)
    ensures Swept(s, 0, [])
  {
  }

  lemma SweptShape(s: seq<Span>, n: nat, merged: seq<Range>)
    requires n <= |s| && Swept(s, n, merged)
    ensures merged == [] <==> n == 0
  {
  }

  lemma SweptDone(s: seq<Span>, spans: seq<Span>, merged: seq<Range>)
    requires Swept(s, |s|, merged) && forall y :: y in s <==> y in spans
    ensures Canonical(merged) && forall b: nat :: InRanges(merged, b) <==> In(spans, b)
  {
    assert s[..|s|] == s;
  }

  // ---- counting bytes ----

  function RangeBytes(lo: nat, hi: nat): (r: set<nat>)
    ensures forall b :: b in r <==> lo <= b < hi
    ensures |r| == if lo < hi then hi - lo else 0
  {
    if lo >= hi then {} else RangeBytes(lo, hi - 1) + {hi - 1}
  }

  function Bytes(s: seq<Span>): set<nat> {
    if s == [] then {} else Bytes(s[..|s| - 1]) + RangeBytes(s[|s| - 1].lo, s[|s| - 1].hi)
  }

  lemma {:induction false} BytesAreIn(s: seq<Span>)
    ensures forall b: nat :: b in Bytes(s) <==> In(s, b)
  {
    if s != [] {
      var n := |s| - 1;
      BytesAreIn(s[..n]);
      InPrefix(s, n, n + 1);
      assert s[..n + 1] == s;
    }
  }

  lemma BytesSameMembers(s: seq<Span>, t: seq<Span>)
    requires forall y :: y in s <==> y in t
    ensures Bytes(s) == Bytes(t)
  {
    BytesAreIn(s);
    BytesAreIn(t);
    assert forall b: nat :: In(s, b) <==> In(t, b);
    assert forall b :: b in Bytes(s) <==> b in Bytes(t);
  }

  function TotalSize(s: seq<Span>): nat
    requires forall x :: x in s ==> x.lo <= x.hi
  {
    if s == [] then 0
    else TotalSize(s[..|s| - 1]) + (s[|s| - 1].hi - s[|s| - 1].lo)
  }

  function RangesSize(m: seq<Range>): nat
    requires forall i :: 0 <= i < |m| ==> m[i].lo <= m[i].hi
  {
    if m == [] then 0 else RangesSize(m[..|m| - 1]) + (m[|m| - 1].hi - m[|m| - 1].lo)
  }

  function RangesBytes(m: seq<Range>): set<nat> {
    if m == [] then {} else RangesBytes(m[..|m| - 1]) + RangeBytes(m[|m| - 1].lo, m[|m| - 1].hi)
  }

  lemma InRangesSplit(m: seq<Range>, b: nat)
    requires m != []
    ensures InRanges(m, b) <==> InRanges(m[..|m| - 1], b) || m[|m| - 1].lo <= b < m[|m| - 1].hi
  {
    var init := m[..|m| - 1];
    if InRanges(init, b) {
      var i :| 0 <= i < |init| && init[i].lo <= b < init[i].hi;
      assert m[i] == init[i];
    }
    if InRanges(m, b) {
      var i :| 0 <= i < |m| && m[i].lo <= b < m[i].hi;
      assert i == |m| - 1 || init[i] == m[i];
    }
  }

  lemma {:induction false} RangesBytesAreIn(m: seq<Range>)
    ensures forall b: nat :: b in RangesBytes(m) <==> InRanges(m, b)
  {
    if m != [] {
      RangesBytesAreIn(m[..|m| - 1]);
      forall b: nat ensures b in RangesBytes(m) <==> InRanges(m, b) {
        InRangesSplit(m, b);
      }
    }
  }

  lemma LastRangeApart(m: seq<Range>)
    requires Canonical(m) && m != []
    ensures RangesBytes(m[..|m| - 1]) !! RangeBytes(m[|m| - 1].lo, m[|m| - 1].hi)
  {
    var init, last := m[..|m| - 1], m[|m| - 1];
    RangesBytesAreIn(init);
    hide RangesBytes;
    forall b | b in RangesBytes(init) ensures b !in RangeBytes(last.lo, last.hi) {
      var i :| 0 <= i < |init| && init[i].lo <= b < init[i].hi;
      assert m[i].hi < m[|m| - 1].lo;
    }
  }

  /** The lengths of gap-separated ranges add up to the number of bytes in them. */
  lemma {:induction false} CanonicalSize(m: seq<Range>)
    requires Canonical(m)
    ensures |RangesBytes(m)| == RangesSize(m)
  {
    if m != [] {
      var init, last := m[..|m| - 1], m[|m| - 1];
      CanonicalSize(init);
      LastRangeApart(m);
      UnionOfTwo(RangesBytes(init), RangeBytes(last.lo, last.hi));
    }
  }

  ghost predicate Disjoint(s: seq<Span>) {
    forall i, j :: 0 <= i < j < |s| ==> !Share(s[i], s[j])
  }

  ghost predicate ApartFrom(s: seq<Span>, x: Span) {
    forall i :: 0 <= i < |s| ==> !Share(s[i], x)
  }

  lemma DisjointSplit(s: seq<Span>)
    requires s != []
    ensures Disjoint(s) <==> Disjoint(s[..|s| - 1]) && ApartFrom(s[..|s| - 1], s[|s| - 1])
  {
    var init := s[..|s| - 1];
    assert forall i :: 0 <= i < |init| ==> init[i] == s[i];
  }

  /** A union never counts more than the lengths, and counts less exactly when two of the
      non-empty intervals share a byte. */
  lemma {:induction false} UnionBelowTotal(s: seq<Span>)
    requires NonEmpty(s)
    ensures forall x :: x in s ==> x.lo <= x.hi
    ensures |Bytes(s)| <= TotalSize(s)
    ensures |Bytes(s)| == TotalSize(s) <==> Disjoint(s)
  {
    assert forall x :: x in s ==> x.lo < x.hi;
    if s != [] {
      var init, last := s[..|s| - 1], s[|s| - 1];
      UnionBelowTotal(init);
      DisjointSplit(s);
      SharedWithLast(init, last);
      UnionOfTwo(Bytes(init), RangeBytes(last.lo, last.hi));
      hide Disjoint, ApartFrom, RangeBytes, NonEmpty;
    }
  }

  predicate Share(x: Span, y: Span) {
    x.lo < y.hi && y.lo < x.hi
  }

  lemma SharedWithLast(init: seq<Span>, last: Span)
    requires NonEmpty(init) && last.lo < last.hi
    ensures Bytes(init) !! RangeBytes(last.lo, last.hi) <==> ApartFrom(init, last)
  {
    BytesAreIn(init);
    if i :| 0 <= i < |init| && Share(init[i], last) {
      var b := if init[i].lo < last.lo then last.lo else init[i].lo;
      assert init[i] in init;
      assert In(init, b);
      assert b in Bytes(init) && b in RangeBytes(last.lo, last.hi);
    }
  }
}
