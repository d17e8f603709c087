/** Insertion sort by a total order, and the order of strings by character. */
module Sorting {
  ghost predicate TotalOrder<T(!new)>(le: (T, T) -> bool) {
    && (forall x, y :: le(x, y) || le(y, x))
    && (forall x, y, z :: le(x, y) && le(y, z) ==> le(x, z))
  }

  ghost predicate Sorted<T>(s: seq<T>, le: (T, T) -> bool) {
    forall i, j :: 0 <= i < j < |s| ==> le(s[i], s[j])
  }

  function Insert<T>(x: T, s: seq<T>, le: (T, T) -> bool): seq<T> {
    if s == [] || le(x, s[0]) then [x] + s else [s[0]] + Insert(x, s[1..], le)
  }

  function Sort<T>(s: seq<T>, le: (T, T) -> bool): seq<T> {
    if s == [] then [] else Insert(s[0], Sort(s[1..], le), le)
  }

  ghost predicate Below<T>(x: T, s: seq<T>, le: (T, T) -> bool) {
    forall i :: 0 <= i < |s| ==> le(x, s[i])
  }

  lemma SortedCons<T>(x: T, s: seq<T>, le: (T, T) -> bool)
    ensures Sorted([x] + s, le) <==> Below(x, s, le) && Sorted(s, le)
  {
    var t := [x] + s;
    if Sorted(t, le) {
      forall i | 0 <= i < |s| ensures le(x, s[i]) {
        assert le(t[0], t[i + 1]);
      }
      forall i, j | 0 <= i < j < |s| ensures le(s[i], s[j]) {
        assert le(t[i + 1], t[j + 1]);
      }
    }
  }

  lemma {:induction false} InsertKeeps<T(!new)>(x: T, s: seq<T>, le: (T, T) -> bool)
    requires TotalOrder(le) && Sorted(s, le)
    ensures Sorted(Insert(x, s, le), le)
    ensures multiset(Insert(x, s, le)) == multiset{x} + multiset(s)
    ensures forall y :: y in Insert(x, s, le) <==> y == x || y in s
  {
    if s != [] {
      var y, rest := s[0], s[1..];
      assert s == [y] + rest;
      SortedCons(y, rest, le);
      if le(x, y) {
        assert Below(x, s, le);
        SortedCons(x, s, le);
      } else {
        InsertKeeps(x, rest, le);
        var t := Insert(x, rest, le);
        forall i | 0 <= i < |t| ensures le(y, t[i]) {
          assert t[i] in multiset(t);
          assert t[i] == x || t[i] in rest;
        }
        SortedCons(y, t, le);
      }
    }
  }

  lemma {:induction false} SortKeeps<T(!new)>(s: seq<T>, le: (T, T) -> bool)
    requires TotalOrder(le)
    ensures Sorted(Sort(s, le), le)
    ensures multiset(Sort(s, le)) == multiset(s) && |Sort(s, le)| == |s|
    ensures forall x :: x in Sort(s, le) <==> x in s
  {
    if s != [] {
      SortKeeps(s[1..], le);
      InsertKeeps(s[0], Sort(s[1..], le), le);
      assert s == [s[0]] + s[1..];
    }
    assert |Sort(s, le)| == |multiset(Sort(s, le))| == |multiset(s)| == |s|;
    forall x ensures x in Sort(s, le) <==> x in s {
      assert x in multiset(Sort(s, le)) <==> x in multiset(s);
    }
  }

  predicate Distinct<T(==)>(s: seq<T>) {
    forall i, j :: 0 <= i < j < |s| ==> s[i] != s[j]
  }

  lemma DistinctCons<T>(x: T, s: seq<T>)
    ensures Distinct([x] + s) <==> x !in s && Distinct(s)
  {
    var t := [x] + s;
    if Distinct(t) {
      forall i | 0 <= i < |s| ensures s[i] != x {
        assert t[0] != t[i + 1];
      }
      forall i, j | 0 <= i < j < |s| ensures s[i] != s[j] {
        assert t[i + 1] != t[j + 1];
      }
    }
  }

  lemma {:induction false} InsertDistinct<T(!new)>(x: T, s: seq<T>, le: (T, T) -> bool)
    requires Distinct(s) && x !in s
    ensures Distinct(Insert(x, s, le))
    ensures forall y :: y in Insert(x, s, le) <==> y == x || y in s
  {
    if s == [] || le(x, s[0]) {
      DistinctCons(x, s);
    } else {
      var y, rest := s[0], s[1..];
      assert s == [y] + rest;
      DistinctCons(y, rest);
      InsertDistinct(x, rest, le);
      DistinctCons(y, Insert(x, rest, le));
    }
  }

  /** Sorting keeps distinct elements distinct. */
  lemma {:induction false} SortDistinct<T(!new)>(s: seq<T>, le: (T, T) -> bool)
    requires Distinct(s)
    ensures Distinct(Sort(s, le))
    ensures forall x :: x in Sort(s, le) <==> x in s
  {
    if s != [] {
      assert s == [s[0]] + s[1..];
      DistinctCons(s[0], s[1..]);
      SortDistinct(s[1..], le);
      InsertDistinct(s[0], Sort(s[1..], le), le);
    }
  }

  // ---- numbers and strings ----

  predicate NatLe(x: nat, y: nat) {
    x <= y
  }

  predicate StringLe(a: string, b: string) {
    a == [] || (b != [] && (a[0] < b[0] || (a[0] == b[0] && StringLe(a[1..], b[1..]))))
  }

  /** a is smaller at the first difference. */
  predicate SmallerFirst(a: string, b: string, i: nat) {
    i < |a| && i < |b| && a[..i] == b[..i] && a[i] < b[i]
  }

  lemma SmallerLater(a: string, b: string, i: nat)
    requires a != [] && b != []
    ensures SmallerFirst(a, b, i + 1) <==> a[0] == b[0] && SmallerFirst(a[1..], b[1..], i)
  {
    if i + 1 < |a| && i + 1 < |b| {
      assert a[..i + 1] == [a[0]] + a[1..][..i] && b[..i + 1] == [b[0]] + b[1..][..i];
      assert a[1..][i] == a[i + 1] && b[1..][i] == b[i + 1];
    }
  }

  lemma SmallerNow(a: string, b: string)
    requires a != [] && b != []
    ensures SmallerFirst(a, b, 0) <==> a[0] < b[0]
  {
    assert a[..0] == b[..0];
  }

  lemma PrefixLater(a: string, b: string)
    requires a != [] && b != []
    ensures a <= b <==> a[0] == b[0] && a[1..] <= b[1..]
  {
    assert a == [a[0]] + a[1..] && b == [b[0]] + b[1..];
  }

  /** The order of strings: a is a beginning of b, or smaller at the first difference. */
  lemma {:induction false} StringLeExact(a: string, b: string)
    ensures StringLe(a, b) <==> a <= b || exists i: nat :: SmallerFirst(a, b, i)
  {
    if a != [] && b != [] {
      hide SmallerFirst;
      var c, d := a[1..], b[1..];
      SmallerNow(a, b);
      PrefixLater(a, b);
      StringLeExact(c, d);
      if i: nat :| SmallerFirst(a, b, i) && i > 0 { SmallerLater(a, b, i - 1); }
      if i: nat :| SmallerFirst(c, d, i) { SmallerLater(a, b, i); }
    } else {
      NoneSmaller(a, b);
    }
  }

  lemma NoneSmaller(a: string, b: string)
    ensures a == [] || b == [] ==> forall i: nat :: !SmallerFirst(a, b, i)
  {
  }

  lemma {:induction false} StringLeTotal(a: string, b: string)
    ensures StringLe(a, b) || StringLe(b, a)
    ensures StringLe(a, b) && StringLe(b, a) ==> a == b
  {
    if a != [] && b != [] && a[0] == b[0] {
      StringLeTotal(a[1..], b[1..]);
      assert a == [a[0]] + a[1..] && b == [b[0]] + b[1..];
    }
  }

  lemma {:induction false} StringLeTransitive(a: string, b: string, c: string)
    requires StringLe(a, b) && StringLe(b, c)
    ensures StringLe(a, c)
  {
    if a != [] && a[0] == b[0] && b[0] == c[0] { StringLeTransitive(a[1..], b[1..], c[1..]); }
  }

  lemma OrdersAreTotal()
    ensures TotalOrder(NatLe) && TotalOrder(StringLe)
  {
    forall a, b ensures StringLe(a, b) || StringLe(b, a) {
      StringLeTotal(a, b);
    }
    forall a, b, c | StringLe(a, b) && StringLe(b, c) ensures StringLe(a, c) {
      StringLeTransitive(a, b, c);
    }
  }
}
