/** ORDER BY as insertion sort, uniqueness of the sorted list, and the order on strings by code point. */
module Sorting {
  import opened Sequences

  ghost predicate Sorted<T(!new)>(leq: (T, T) -> bool, s: seq<T>) {
    forall i, j :: 0 <= i < j < |s| ==> leq(s[i], s[j])
  }

  /** `leq` is a total order among the members of `s`. */
  ghost predicate TotalOn<T(!new)>(leq: (T, T) -> bool, s: seq<T>) {
    && (forall x, y :: x in s && y in s ==> leq(x, y) || leq(y, x))
    && (forall x, y :: x in s && y in s && leq(x, y) && leq(y, x) ==> x == y)
    && forall x, y, z :: x in s && y in s && z in s && leq(x, y) && leq(y, z) ==> leq(x, z)
  }

  function Insert<T>(leq: (T, T) -> bool, x: T, s: seq<T>): (r: seq<T>)
    ensures |r| == |s| + 1
  {
    if s == [] || leq(s[|s| - 1], x) then s + [x]
    else Insert(leq, x, s[..|s| - 1]) + [s[|s| - 1]]
  }

  lemma {:induction false} InsertMembers<T>(leq: (T, T) -> bool, x: T, s: seq<T>)
    ensures multiset(Insert(leq, x, s)) == multiset(s) + multiset{x}
  {
    if s != [] && !leq(s[|s| - 1], x) {
      InsertMembers(leq, x, s[..|s| - 1]);
      assert s == s[..|s| - 1] + [s[|s| - 1]];
    }
  }

  function SortBy<T>(leq: (T, T) -> bool, s: seq<T>): (r: seq<T>)
    ensures |r| == |s|
  {
    if s == [] then [] else Insert(leq, s[|s| - 1], SortBy(leq, s[..|s| - 1]))
  }

  lemma {:induction false} SortByMembers<T>(leq: (T, T) -> bool, s: seq<T>)
    ensures multiset(SortBy(leq, s)) == multiset(s)
  {
    if s != [] {
      var front, last := s[..|s| - 1], s[|s| - 1];
      SortByMembers(leq, front);
      InsertMembers(leq, last, SortBy(leq, front));
      assert s == front + [last];
    }
  }

  lemma SameMembers<T(!new)>(s: seq<T>, t: seq<T>)
    requires multiset(s) == multiset(t)
    ensures forall x :: x in s <==> x in t
  {
    forall x ensures x in s <==> x in t {
      assert x in multiset(s) <==> x in multiset(t);
    }
  }

  lemma SortedMembers<T(!new)>(leq: (T, T) -> bool, s: seq<T>)
    ensures forall x :: x in SortBy(leq, s) <==> x in s
  {
    SortByMembers(leq, s);
    SameMembers(SortBy(leq, s), s);
  }

  lemma SortedPlus<T(!new)>(leq: (T, T) -> bool, s: seq<T>, last: T)
    requires Sorted(leq, s) && forall y :: y in s ==> leq(y, last)
    ensures Sorted(leq, s + [last])
  {
    assert forall i :: 0 <= i < |s| ==> s[i] in s;
  }

  lemma {:induction false} InsertSorted<T(!new)>(leq: (T, T) -> bool, x: T, s: seq<T>)
    requires Sorted(leq, s) && TotalOn(leq, s + [x])
    ensures Sorted(leq, Insert(leq, x, s))
  {
    if s != [] {
      var front, last := s[..|s| - 1], s[|s| - 1];
      assert s == front + [last] && last in s + [x] && x in s + [x];
      assert forall y :: y in front ==> y in s + [x] && leq(y, last);
      if leq(last, x) {
        SortedPlus(leq, s, x);
      } else {
        assert forall y :: y in front + [x] ==> y in s + [x];
        InsertSorted(leq, x, front);
        InsertMembers(leq, x, front);
        SameMembers(Insert(leq, x, front), front + [x]);
        SortedPlus(leq, Insert(leq, x, front), last);
      }
    }
  }

  lemma {:induction false} SortBySorts<T(!new)>(leq: (T, T) -> bool, s: seq<T>)
    requires TotalOn(leq, s)
    ensures Sorted(leq, SortBy(leq, s))
  {
    if s != [] {
      var front, last := s[..|s| - 1], s[|s| - 1];
      assert forall y :: y in front ==> y in s;
      SortBySorts(leq, front);
      var r := SortBy(leq, front);
      SortedMembers(leq, front);
      assert forall y :: y in r + [last] ==> y in s;
      InsertSorted(leq, last, r);
    }
  }

  lemma SomeMember<T(!new)>(s: seq<T>, t: seq<T>)
    requires forall x :: x in s ==> x in t
    ensures s != [] ==> t != []
  {
    if s != [] {
      assert s[0] in t;
    }
  }

  /** A list without repeats is determined by its members and the order. */
  lemma {:induction false} SortedUnique<T(!new)>(leq: (T, T) -> bool, s: seq<T>, t: seq<T>)
    requires TotalOn(leq, s) && Sorted(leq, s) && Sorted(leq, t) && NoRepeats(s) && NoRepeats(t)
    requires forall x :: x in s <==> x in t
    ensures s == t
  {
    SomeMember(s, t);
    SomeMember(t, s);
    if s != [] {
      assert s[0] in s && t[0] in t;
      var i :| 0 <= i < |t| && t[i] == s[0];
      var j :| 0 <= j < |s| && s[j] == t[0];
      assert leq(t[0], t[i]) && leq(s[0], s[j]);
      assert s[0] == t[0];
      forall x ensures x in s[1..] <==> x in t[1..] {
        assert x in s[1..] ==> x in s && x != s[0];
        assert x in t[1..] ==> x in t && x != t[0];
      }
      assert forall x :: x in s[1..] ==> x in s;
      SortedUnique(leq, s[1..], t[1..]);
    }
  }

  lemma {:induction false} DistinctCounts<T(!new)>(s: seq<T>)
    ensures NoRepeats(s) <==> forall x :: multiset(s)[x] <= 1
  {
    if s != [] {
      var front, last := s[..|s| - 1], s[|s| - 1];
      assert s == front + [last];
      DistinctCounts(front);
      assert forall x :: multiset(s)[x] == multiset(front)[x] + if x == last then 1 else 0;
      assert last in front <==> last in multiset(front);
      if NoRepeats(s) {
        assert last !in front;
        assert NoRepeats(front);
      }
      if forall x :: multiset(s)[x] <= 1 {
        forall x ensures multiset(front)[x] <= 1 {
          assert multiset(s)[x] <= 1;
        }
        assert multiset(s)[last] <= 1;
      }
    }
  }

  lemma SortByDistinct<T(!new)>(leq: (T, T) -> bool, s: seq<T>)
    requires NoRepeats(s)
    ensures NoRepeats(SortBy(leq, s))
  {
    SortByMembers(leq, s);
    DistinctCounts(s);
    DistinctCounts(SortBy(leq, s));
  }

  /** A list without repeats has as many members as places. */
  lemma {:induction false} MemberCount<T(!new)>(s: seq<T>)
    requires NoRepeats(s)
    ensures |set x | x in s| == |s|
  {
    if s != [] {
      var front, last := s[..|s| - 1], s[|s| - 1];
      MemberCount(front);
      assert s == front + [last];
      assert (set x | x in s) == (set x | x in front) + {last};
      assert last !in front;
    }
  }

  lemma SortedPart<T(!new)>(leq: (T, T) -> bool, s: seq<T>, lo: nat, hi: nat)
    requires Sorted(leq, s) && NoRepeats(s) && lo <= hi <= |s|
    ensures Sorted(leq, s[lo..hi]) && NoRepeats(s[lo..hi])
  {
    assert forall i :: 0 <= i < hi - lo ==> s[lo..hi][i] == s[lo + i];
  }

  // ---- where insertion puts an element ----

  /** After the last element it does not precede. */
  function Slot<T>(leq: (T, T) -> bool, x: T, s: seq<T>): (i: nat)
    ensures i <= |s|
  {
    if s == [] || leq(s[|s| - 1], x) then |s| else Slot(leq, x, s[..|s| - 1])
  }

  /** `x` put in at place `i`. */
  function PutIn<T>(s: seq<T>, i: nat, x: T): seq<T>
    requires i <= |s|
  {
    s[..i] + [x] + s[i..]
  }

  lemma {:induction false} InsertAtSlot<T>(leq: (T, T) -> bool, x: T, s: seq<T>)
    ensures Insert(leq, x, s) == PutIn(s, Slot(leq, x, s), x)
    ensures Slot(leq, x, s) == |s| <==> s == [] || leq(s[|s| - 1], x)
  {
    if s != [] && !leq(s[|s| - 1], x) {
      var front, last := s[..|s| - 1], s[|s| - 1];
      var i := Slot(leq, x, front);
      InsertAtSlot(leq, x, front);
      PutInKeepsLast(front, last, i, x);
      assert front + [last] == s;
      assert Insert(leq, x, s) == Insert(leq, x, front) + [last];
    }
  }

  lemma PutInKeepsLast<T>(front: seq<T>, last: T, i: nat, x: T)
    requires i <= |front|
    ensures PutIn(front, i, x) + [last] == PutIn(front + [last], i, x)
  {
  }

  // ---- strings by code point ----

  predicate StringLeq(a: string, b: string) {
    a == "" || (b != "" && (a[0] < b[0] || (a[0] == b[0] && StringLeq(a[1..], b[1..]))))
  }

  /** A string precedes another if it begins it, or has the smaller character where they first differ. */
  lemma {:induction false} StringLeqIs(a: string, b: string)
    ensures StringLeq(a, b) <==> a <= b || exists i :: 0 <= i < |a| && i < |b| && a[..i] == b[..i] && a[i] < b[i]
  {
    if a != "" && b != "" && a[0] == b[0] {
      var s, t := a[1..], b[1..];
      StringLeqIs(s, t);
      assert a == [a[0]] + s && b == [b[0]] + t;
      if i :| 0 <= i < |s| && i < |t| && s[..i] == t[..i] && s[i] < t[i] {
        assert a[..i + 1] == [a[0]] + s[..i] && b[..i + 1] == [b[0]] + t[..i];
      }
      if i :| 0 <= i < |a| && i < |b| && a[..i] == b[..i] && a[i] < b[i] {
        assert s[..i - 1] == a[..i][1..] && t[..i - 1] == b[..i][1..];
        assert s[i - 1] < t[i - 1];
      }
    } else if a != "" && b != "" && a[0] < b[0] {
      assert a[..0] == b[..0];
    }
  }

  lemma {:induction false} StringLeqTotal(a: string, b: string)
    ensures StringLeq(a, b) || StringLeq(b, a)
    ensures StringLeq(a, b) && StringLeq(b, a) ==> a == b
  {
    if a != "" && b != "" {
      StringLeqTotal(a[1..], b[1..]);
      assert a == [a[0]] + a[1..] && b == [b[0]] + b[1..];
    }
  }

  lemma {:induction false} StringLeqTransitive(a: string, b: string, c: string)
    requires StringLeq(a, b) && StringLeq(b, c)
    ensures StringLeq(a, c)
  {
    if a != "" && a[0] == b[0] == c[0] {
      StringLeqTransitive(a[1..], b[1..], c[1..]);
    }
  }

  lemma StringsTotal(s: seq<string>)
    ensures TotalOn(StringLeq, s)
  {
    forall x, y ensures (StringLeq(x, y) || StringLeq(y, x)) && (StringLeq(x, y) && StringLeq(y, x) ==> x == y) {
      StringLeqTotal(x, y);
    }
    forall x, y, z | StringLeq(x, y) && StringLeq(y, z) ensures StringLeq(x, z) {
      StringLeqTransitive(x, y, z);
    }
  }
}
