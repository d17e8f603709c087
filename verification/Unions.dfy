/** The interval procedures built on the sweeps: the access recorder, the declared-range
    envelopes, the chunk union, and the byte union behind the tensor-extent check. */
module Unions {
  import opened Cardinality
  import opened Options
  import opened Intervals

  const U64_MAX: nat := 0xffff_ffff_ffff_ffff
  const MAX_INTERVALS: nat := 400_000
  const MAX_RANGES: nat := 100_000

  // ---- range_union_bytes ----

  /** Offsets and sizes, as spans; None when an end does not fit 64 bits. */
  function SpansOf(ranges: seq<(nat, nat)>): Option<seq<Span>> {
    if ranges == [] then Some([])
    else
      var (offset, size) := ranges[|ranges| - 1];
      var rest := SpansOf(ranges[..|ranges| - 1]);
      if offset > U64_MAX || size > U64_MAX || offset + size > U64_MAX || rest.None? then None
      else Some(rest.value + [Span(offset, offset + size, false)])
  }

  /** After n sorted spans: `total` bytes seen, none at or above `stop`, and every byte from
      the latest start up to `stop` already counted. */
  ghost predicate Counted(s: seq<Span>, n: nat, total: nat, stop: nat)
    requires n <= |s|
  {
    && total == |Bytes(s[..n])|
    && (forall b: nat :: In(s[..n], b) ==> b < stop)
    && (n > 0 ==> forall b: nat :: s[n - 1].lo <= b < stop ==> In(s[..n], b))
    && (n == 0 ==> stop == 0)
  }

  /** The bytes that the next span adds, in sorted order. */
  lemma NewBytes(s: seq<Span>, n: nat, next: nat, total: nat, stop: nat)
    requires n < |s| && next == n + 1 && Sorted(s) && s[n].lo <= s[n].hi && Counted(s, n, total, stop)
    ensures var x := s[n];
            var first := if x.lo < stop then stop else x.lo;
            var seen, added := Bytes(s[..n]), RangeBytes(first, x.hi);
            Bytes(s[..next]) == seen + added && seen !! added && (x.hi <= stop ==> added == {})
  {
    hide Bytes, In, Sorted, Counted;
    CountedFacts(s, n, total, stop);
    InPrefix(s, n, next);
    BytesAreIn(s[..n]);
    BytesAreIn(s[..next]);
    AddedBytes(Bytes(s[..n]), Bytes(s[..next]), s[n].lo, s[n].hi, stop);
  }

  lemma CountedFacts(s: seq<Span>, n: nat, total: nat, stop: nat)
    requires n < |s| && Sorted(s) && Counted(s, n, total, stop)
    ensures forall b :: b in Bytes(s[..n]) ==> b < stop
    ensures forall b: nat :: !In(s[..n], b) ==> !(s[n].lo <= b < stop)
  {
    SortedNeighbours(s, n);
    BytesAreIn(s[..n]);
  }

  lemma AddedBytes(seen: set<nat>, next: set<nat>, lo: nat, hi: nat, stop: nat)
    requires forall b :: b in seen ==> b < stop
    requires forall b :: b !in seen ==> !(lo <= b < stop)
    requires forall b :: b in next <==> b in seen || lo <= b < hi
    ensures var added := RangeBytes(if lo < stop then stop else lo, hi);
            next == seen + added && seen !! added && (hi <= stop ==> added == {})
  {
  }

  lemma SortedNeighbours(s: seq<Span>, n: nat)
    requires n < |s| && Sorted(s)
    ensures n > 0 ==> s[n - 1].lo <= s[n].lo
  {
    if n > 0 { assert Before(s[n - 1], s[n]); }
  }

  lemma CountStep(s: seq<Span>, n: nat, total: nat, stop: nat)
    requires n < |s| && Sorted(s) && s[n].lo <= s[n].hi && Counted(s, n, total, stop)
    ensures var x := s[n];
            var first := if x.lo < stop then stop else x.lo;
            if x.hi > stop then Counted(s, n + 1, total + (x.hi - first), x.hi)
            else Counted(s, n + 1, total, stop)
  {
    hide Bytes, In, Sorted;
    SortedNeighbours(s, n);
    NewBytes(s, n, n + 1, total, stop);
    InPrefix(s, n, n + 1);
    UnionOfTwo(Bytes(s[..n]), RangeBytes(if s[n].lo < stop then stop else s[n].lo, s[n].hi));
  }

  lemma {:induction false} SpansOfShape(ranges: seq<(nat, nat)>)
    requires SpansOf(ranges).Some?
    ensures var s := SpansOf(ranges).value;
            && |s| == |ranges|
            && (forall i :: 0 <= i < |s| ==> s[i] == Span(ranges[i].0, ranges[i].0 + ranges[i].1, false))
            && (forall x :: x in s ==> x.lo <= x.hi <= U64_MAX)
  {
    if ranges != [] { SpansOfShape(ranges[..|ranges| - 1]); }
  }

  lemma CountStart(s: seq<Span>)
    ensures Counted(s, 0, 0, 0)
  {
  }

  /** The running total cannot exceed the last end, so its own overflow test never fires. */
  lemma CountValue(s: seq<Span>, n: nat, total: nat, stop: nat)
    requires n <= |s| && Counted(s, n, total, stop)
    ensures total == |Bytes(s[..n])| && total <= stop
  {
    BytesAreIn(s[..n]);
    SubsetSize(Bytes(s[..n]), RangeBytes(0, stop));
  }

  /** The union loop returns the number of distinct bytes, whatever the order of its input. */
  method RangeUnionBytes(ranges: seq<(nat, nat)>) returns (r: Option<nat>)
    ensures r == if SpansOf(ranges).None? then None else Some(|Bytes(SpansOf(ranges).value)|)
  {
    hide Counted, Bytes, SpansOf, Sort, Sorted, NonEmpty;
    var spans := SpansOf(ranges);
    if spans.None? { return None; }
    SpansOfShape(ranges);
    var s := Sort(spans.value);
    SortKeeps(spans.value);
    BytesSameMembers(s, spans.value);
    var total: nat, stop: nat := 0, 0;
    CountStart(s);
    for n := 0 to |s|
      invariant Counted(s, n, total, stop) && stop <= U64_MAX
    {
      assert s[n] in spans.value;
      CountStep(s, n, total, stop);
      if s[n].hi > stop {
        var first := if s[n].lo < stop then stop else s[n].lo;
        CountValue(s, n + 1, total + (s[n].hi - first), s[n].hi);
        if total + (s[n].hi - first) > U64_MAX { return None; }
        total := total + (s[n].hi - first);
        stop := s[n].hi;
      }
    }
    CountValue(s, |s|, total, stop);
    assert s[..|s|] == s;
    r := Some(total);
  }

  predicate Overlap(r: (nat, nat), t: (nat, nat)) {
    r.0 < t.0 + t.1 && t.0 < r.0 + r.1
  }

  /** The tensor-extent test: comparing the union with the sum of the sizes finds exactly
      the files in which two known tensors overlap. Tensor sizes are positive. */
  lemma ExtentTestExact(ranges: seq<(nat, nat)>)
    requires SpansOf(ranges).Some? && forall i :: 0 <= i < |ranges| ==> ranges[i].1 > 0
    ensures |Bytes(SpansOf(ranges).value)| != SizeSum(ranges) <==>
            exists i, j :: 0 <= i < j < |ranges| && Overlap(ranges[i], ranges[j])
  {
    var s := SpansOf(ranges).value;
    SpansOfShape(ranges);
    SizeSumIsTotal(ranges);
    UnionBelowTotal(s);
    hide SpansOf, Bytes, TotalSize, SizeSum;
    forall i, j | 0 <= i < j < |ranges| ensures Share(s[i], s[j]) <==> Overlap(ranges[i], ranges[j]) {
    }
  }

  function SizeSum(ranges: seq<(nat, nat)>): nat {
    if ranges == [] then 0 else SizeSum(ranges[..|ranges| - 1]) + ranges[|ranges| - 1].1
  }

  lemma {:induction false} SizeSumIsTotal(ranges: seq<(nat, nat)>)
    requires SpansOf(ranges).Some?
    ensures forall x :: x in SpansOf(ranges).value ==> x.lo <= x.hi
    ensures TotalSize(SpansOf(ranges).value) == SizeSum(ranges)
  {
    SpansOfShape(ranges);
    if ranges != [] {
      var init := ranges[..|ranges| - 1];
      SizeSumIsTotal(init);
      assert SpansOf(ranges).value[..|ranges| - 1] == SpansOf(init).value;
    }
  }

  // ---- _Accesses ----

  datatype Operand = Operand(name: string, write: bool)

  datatype Recorded = Recorded | IntegerFault | SumFault | CountFault

  ghost predicate Tagged(items: map<Operand, seq<Span>>) {
    forall o :: o in items ==>
      NonEmpty(items[o]) && forall i :: 0 <= i < |items[o]| ==> items[o][i].writes == o.write
  }

  class Accesses {
    var items: map<Operand, seq<Span>>
    var count: nat

    ghost predicate Valid()
      reads this
    {
      Tagged(items)
    }

    constructor ()
      ensures Valid() && items == map[] && count == 0
    {
      items, count := map[], 0;
    }

    method Add(operand: Operand, offset: nat, length: nat) returns (r: Recorded)
      requires Valid()
      modifies this
      ensures Valid()
      ensures r == if offset > U64_MAX || length > U64_MAX then IntegerFault
                   else if offset + length > U64_MAX then SumFault
                   else if length > 0 && old(count) + 1 > MAX_INTERVALS then CountFault else Recorded
      ensures count == old(count) + if r.CountFault? || (r.Recorded? && length > 0) then 1 else 0
      ensures items == if r != Recorded || length == 0 then old(items)
                       else old(items)[operand := (if operand in old(items) then old(items)[operand] else [])
                                                  + [Span(offset, offset + length, operand.write)]]
    {
      if offset > U64_MAX || length > U64_MAX { return IntegerFault; }
      var end := offset + length;
      if end > U64_MAX { return SumFault; }
      if length == 0 { return Recorded; }
      count := count + 1;
      if count > MAX_INTERVALS { return CountFault; }
      var before := if operand in items then items[operand] else [];
      items := items[operand := before + [Span(offset, end, operand.write)]];
      r := Recorded;
    }

    /** Refused exactly when two non-empty writes of one operand overlap; otherwise every
        operand gets the one gap-separated form of its byte set. */
    method Result() returns (r: Option<map<Operand, seq<Range>>>)
      requires Valid()
      ensures r.None? <==> exists o :: o in items && Clash(items[o])
      ensures r.Some? ==>
                && r.value.Keys == items.Keys
                && forall o :: o in items ==>
                     Canonical(r.value[o]) && forall b: nat :: InRanges(r.value[o], b) <==> In(items[o], b)
    {
      hide Clash, Canonical, InRanges, In;
      var ranges: map<Operand, seq<Range>> := map[];
      var todo := items.Keys;
      while todo != {}
        invariant todo <= items.Keys && ranges.Keys == items.Keys - todo
        invariant forall o :: o in ranges ==>
          !Clash(items[o]) && Canonical(ranges[o]) && forall b: nat :: InRanges(ranges[o], b) <==> In(items[o], b)
      {
        var o :| o in todo;
        assert forall x :: x in items[o] ==> x.writes == o.write;
        var merged := Merge(items[o]);
        if merged.None? { return None; }
        ranges := ranges[o := merged.value];
        todo := todo - {o};
      }
      r := Some(ranges);
    }
  }

  /** Reads never clash, so only a destination can be refused. */
  lemma ReadsNeverClash(s: seq<Span>)
    requires forall i :: 0 <= i < |s| ==> !s[i].writes
    ensures !Clash(s)
  {
    ClashIsPairwise(s);
  }

  // ---- memory_envelopes ----

  /** After n sorted accesses: the furthest end so far, of all accesses and of writes. */
  ghost predicate Ends(s: seq<Span>, n: nat, maxEnd: nat, writeEnd: nat)
    requires n <= |s|
  {
    && (forall i :: 0 <= i < n ==> s[i].hi <= maxEnd)
    && (forall i :: 0 <= i < n && s[i].writes ==> s[i].hi <= writeEnd)
    && (maxEnd == 0 || exists i :: 0 <= i < n && s[i].hi == maxEnd)
    && (writeEnd == 0 || exists i :: 0 <= i < n && s[i].writes && s[i].hi == writeEnd)
  }

  lemma SweepTest(s: seq<Span>, n: nat, maxEnd: nat, writeEnd: nat)
    requires n < |s| && Sorted(s) && NonEmpty(s) && Ends(s, n, maxEnd, writeEnd)
    ensures s[n].lo < writeEnd || (s[n].writes && s[n].lo < maxEnd) <==>
            exists i :: 0 <= i < n && Conflict(s[i], s[n])
  {
    if s[n].lo < writeEnd {
      var i :| 0 <= i < n && s[i].writes && s[i].hi == writeEnd;
      assert Before(s[i], s[n]) && Conflict(s[i], s[n]);
    } else if s[n].writes && s[n].lo < maxEnd {
      var i :| 0 <= i < n && s[i].hi == maxEnd;
      assert Before(s[i], s[n]) && Conflict(s[i], s[n]);
    }
    if i :| 0 <= i < n && Conflict(s[i], s[n]) {
      assert s[i].hi <= maxEnd;
    }
  }

  lemma EndsStep(s: seq<Span>, n: nat, maxEnd: nat, writeEnd: nat)
    requires n < |s| && Ends(s, n, maxEnd, writeEnd)
    ensures Ends(s, n + 1, if maxEnd < s[n].hi then s[n].hi else maxEnd,
                 if s[n].writes && writeEnd < s[n].hi then s[n].hi else writeEnd)
  {
  }

  lemma EndsStart(s: seq<Span>)
    ensures Ends(s, 0, 0, 0)
  {
  }

  /** The one-pass sweep over the accesses of one allocation finds exactly the conflicts. */
  method OverlappingWrite(accesses: seq<Span>) returns (found: bool)
    requires NonEmpty(accesses)
    ensures found <==> exists i, j :: 0 <= i < j < |accesses| && Conflict(accesses[i], accesses[j])
  {
    var s := Sort(accesses);
    SortKeeps(accesses);
    ClashIsPairwise(accesses);
    ClashIsPairwise(s);
    hide Clash, Ends, Sorted, Sort, Conflict;
    EndsStart(s);
    var maxEnd: nat, writeEnd: nat := 0, 0;
    for n := 0 to |s|
      invariant Ends(s, n, maxEnd, writeEnd)
      invariant forall i, j :: 0 <= i < j < n ==> !Conflict(s[i], s[j])
    {
      SweepTest(s, n, maxEnd, writeEnd);
      EndsStep(s, n, maxEnd, writeEnd);
      if s[n].lo < writeEnd || (s[n].writes && s[n].lo < maxEnd) { return true; }
      if maxEnd < s[n].hi { maxEnd := s[n].hi; }
      if s[n].writes && writeEnd < s[n].hi { writeEnd := s[n].hi; }
    }
    found := false;
  }
}
