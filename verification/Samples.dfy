/**
  The samples of a tenant: the table, its ordered listing in pages, and the rule that
  a sample created without a position goes to the end.
*/
module Samples {
  import opened Arithmetic
  import opened Options
  import opened Pagination
  import opened Sequences
  import opened Sorting

  datatype Sample = Sample(
    id: string, tenantId: string, name: string, description: Option<string>, isActive: bool,
    sortOrder: int, createdAt: int, deleted: bool)

  type Table = seq<Sample>

  /** `id` is the primary key. */
  ghost predicate DistinctIds(t: Table) {
    forall i, j :: 0 <= i < j < |t| ==> t[i].id != t[j].id
  }

  predicate Shown(r: Sample, tenantId: string) {
    r.tenantId == tenantId && !r.deleted
  }

  function Live(t: Table, tenantId: string): seq<Sample> {
    if t == [] then [] else
      var rest := Live(t[..|t| - 1], tenantId);
      if Shown(t[|t| - 1], tenantId) then rest + [t[|t| - 1]] else rest
  }

  /** ORDER BY sortOrder ASC, createdAt DESC, id ASC. */
  predicate Leq(a: Sample, b: Sample) {
    || a.sortOrder < b.sortOrder
    || (a.sortOrder == b.sortOrder && a.createdAt > b.createdAt)
    || (a.sortOrder == b.sortOrder && a.createdAt == b.createdAt && StringLeq(a.id, b.id))
  }

  function Listing(t: Table, tenantId: string): seq<Sample> {
    SortBy(Leq, Live(t, tenantId))
  }

  /** MAX over no rows is null, which the repository answers with -1. */
  function MaxSortOrder(rows: seq<Sample>): Option<int> {
    if rows == [] then None else
      var last := rows[|rows| - 1].sortOrder;
      match MaxSortOrder(rows[..|rows| - 1])
      case None => Some(last)
      case Some(m) => Some(if m > last then m else last)
  }

  function NextSortOrder(t: Table, tenantId: string): int {
    match MaxSortOrder(Live(t, tenantId))
    case None => -1 + 1
    case Some(m) => m + 1
  }

  /** UPDATE ... WHERE id AND tenantId: also on a soft-deleted row, and never the creation time. */
  function Updated(t: Table, s: Sample): Table {
    if t == [] then [] else
      var last := t[|t| - 1];
      Updated(t[..|t| - 1], s) + [if last.id == s.id && last.tenantId == s.tenantId
                                  then last.(name := s.name, description := s.description, isActive := s.isActive, sortOrder := s.sortOrder)
                                  else last]
  }

  function SoftDeleted(t: Table, id: string, tenantId: string): Table {
    if t == [] then [] else
      var last := t[|t| - 1];
      SoftDeleted(t[..|t| - 1], id, tenantId) + [if last.id == id && last.tenantId == tenantId then last.(deleted := true) else last]
  }

  function FindById(t: Table, id: string, tenantId: string): Option<Sample> {
    if t == [] then None
    else if t[|t| - 1].id == id && Shown(t[|t| - 1], tenantId) then Some(t[|t| - 1])
    else FindById(t[..|t| - 1], id, tenantId)
  }

  // ---- the listing ----

  lemma {:induction false} LiveMembers(t: Table, tenantId: string, r: Sample)
    ensures r in Live(t, tenantId) <==> r in t && Shown(r, tenantId)
  {
    if t != [] {
      LiveMembers(t[..|t| - 1], tenantId, r);
      assert t == t[..|t| - 1] + [t[|t| - 1]];
    }
  }

  lemma {:induction false} LiveDistinct(t: Table, tenantId: string)
    requires DistinctIds(t)
    ensures DistinctIds(Live(t, tenantId))
  {
    if t != [] {
      var front := t[..|t| - 1];
      LiveDistinct(front, tenantId);
      forall r | r in Live(front, tenantId) ensures r.id != t[|t| - 1].id {
        LiveMembers(front, tenantId, r);
      }
    }
  }

  /** With `id` as the last criterion the order is total, so the sorted list is unique. */
  lemma OrderIsTotal(rows: seq<Sample>)
    requires DistinctIds(rows)
    ensures TotalOn(Leq, rows) && NoRepeats(rows)
  {
    forall x, y, z
      ensures (Leq(x, y) || Leq(y, x)) && (Leq(x, y) && Leq(y, z) ==> Leq(x, z))
      ensures Leq(x, y) && Leq(y, x) ==> x.id == y.id
    {
      StringLeqTotal(x.id, y.id);
      if StringLeq(x.id, y.id) && StringLeq(y.id, z.id) {
        StringLeqTransitive(x.id, y.id, z.id);
      }
    }
  }

  /** The listing is the one sorted list without repeats of the tenant's live samples. */
  lemma ListingIsUnique(t: Table, tenantId: string, l: seq<Sample>)
    requires DistinctIds(t)
    ensures l == Listing(t, tenantId) <==>
            Sorted(Leq, l) && NoRepeats(l) && forall r :: r in l <==> r in t && Shown(r, tenantId)
  {
    var rows, s := Live(t, tenantId), Listing(t, tenantId);
    LiveDistinct(t, tenantId);
    OrderIsTotal(rows);
    SortBySorts(Leq, rows);
    SortByDistinct(Leq, rows);
    SortedMembers(Leq, rows);
    forall r ensures r in s <==> r in t && Shown(r, tenantId) {
      LiveMembers(t, tenantId, r);
    }
    assert TotalOn(Leq, s);
    if Sorted(Leq, l) && NoRepeats(l) && forall r :: r in l <==> r in t && Shown(r, tenantId) {
      SortedUnique(Leq, s, l);
    }
  }

  /** The order without the `id`, on which the comment at the query insists. */
  predicate LeqWithoutId(a: Sample, b: Sample) {
    a.sortOrder < b.sortOrder || (a.sortOrder == b.sortOrder && a.createdAt >= b.createdAt)
  }

  function Swapped(l: seq<Sample>, i: nat): seq<Sample>
    requires i + 1 < |l|
  {
    l[i := l[i + 1]][i + 1 := l[i]]
  }

  lemma SwapTied(l: seq<Sample>, i: nat)
    requires Sorted(Leq, l) && i + 1 < |l|
    requires l[i].sortOrder == l[i + 1].sortOrder && l[i].createdAt == l[i + 1].createdAt
    ensures Sorted(LeqWithoutId, l) && Sorted(LeqWithoutId, Swapped(l, i))
    ensures multiset(Swapped(l, i)) == multiset(l)
  {
    var w := Swapped(l, i);
    forall a, b | 0 <= a < b < |l| ensures LeqWithoutId(l[a], l[b]) {
      assert Leq(l[a], l[b]);
    }
    forall a, b | 0 <= a < b < |w| ensures LeqWithoutId(w[a], w[b]) {
      var a', b' := if a == i then i + 1 else if a == i + 1 then i else a, if b == i then i + 1 else if b == i + 1 then i else b;
      assert w[a] == l[a'] && w[b] == l[b'];
      if a' < b' {
        assert LeqWithoutId(l[a'], l[b']);
      }
    }
  }

  /**
    Without the id, two neighbours with the same position and creation time may come in
    either order, and a page boundary between them shows one row on both pages and the
    other on none, when the order changes from one request to the next.
  */
  lemma TiesNeedTheId(t: Table, tenantId: string, i: nat)
    requires DistinctIds(t) && i + 1 < |Listing(t, tenantId)|
    requires var l := Listing(t, tenantId); l[i].sortOrder == l[i + 1].sortOrder && l[i].createdAt == l[i + 1].createdAt
    ensures var l, w := Listing(t, tenantId), Swapped(Listing(t, tenantId), i);
            && Sorted(LeqWithoutId, l) && Sorted(LeqWithoutId, w) && multiset(l) == multiset(w)
            && l[i] in Page(l, 1, i + 1) && l[i] in Page(w, 2, i + 1)
            && l[i + 1] !in Page(l, 1, i + 1) && l[i + 1] !in Page(w, 2, i + 1)
  {
    var l := Listing(t, tenantId);
    var w := Swapped(l, i);
    ListingIsUnique(t, tenantId, l);
    SwapTied(l, i);
    SwappedDistinct(l, i);
    FirstTwoPages(l, i);
    FirstTwoPages(w, i);
    assert w[i] == l[i + 1] && w[i + 1] == l[i];
  }

  lemma SwappedDistinct(l: seq<Sample>, i: nat)
    requires NoRepeats(l) && i + 1 < |l|
    ensures NoRepeats(Swapped(l, i))
  {
  }

  lemma FirstTwoPages(l: seq<Sample>, i: nat)
    requires NoRepeats(l) && i + 1 < |l|
    ensures l[i] in Page(l, 1, i + 1) && l[i] !in Page(l, 2, i + 1)
    ensures l[i + 1] !in Page(l, 1, i + 1) && l[i + 1] in Page(l, 2, i + 1)
  {
    Quotient(i, i + 1, 0);
    Quotient(i + 1, i + 1, 1);
    EachRowOnOnePage(l, i, i + 1, 1);
    EachRowOnOnePage(l, i, i + 1, 2);
    EachRowOnOnePage(l, i + 1, i + 1, 1);
    EachRowOnOnePage(l, i + 1, i + 1, 2);
  }

  // ---- creating ----

  /** A new row leaves the others in order; it ends the list exactly when the last of them precedes it. */
  lemma CreateInserts(t: Table, r: Sample)
    requires Shown(r, r.tenantId)
    ensures var l := Listing(t, r.tenantId);
            var i := Slot(Leq, r, l);
            && Listing(t + [r], r.tenantId) == PutIn(l, i, r)
            && (i == |l| <==> l == [] || Leq(l[|l| - 1], r))
    ensures forall other :: other != r.tenantId ==> Listing(t + [r], other) == Listing(t, other)
  {
    var l := Listing(t, r.tenantId);
    assert (t + [r])[..|t|] == t;
    assert Live(t + [r], r.tenantId) == Live(t, r.tenantId) + [r];
    assert (Live(t, r.tenantId) + [r])[..|Live(t, r.tenantId)|] == Live(t, r.tenantId);
    InsertAtSlot(Leq, r, l);
  }

  lemma {:induction false} MaxIsMax(rows: seq<Sample>)
    ensures MaxSortOrder(rows).None? <==> rows == []
    ensures forall r :: r in rows ==> r.sortOrder <= MaxSortOrder(rows).value
    ensures rows != [] ==> exists r :: r in rows && r.sortOrder == MaxSortOrder(rows).value
  {
    if rows != [] {
      var front, last := rows[..|rows| - 1], rows[|rows| - 1];
      MaxIsMax(front);
      assert rows == front + [last];
      assert last in rows;
    }
  }

  lemma NextIsAbove(t: Table, tenantId: string, r: Sample)
    requires r in Listing(t, tenantId)
    ensures r.sortOrder < NextSortOrder(t, tenantId)
  {
    SortedMembers(Leq, Live(t, tenantId));
    MaxIsMax(Live(t, tenantId));
  }

  /** Creating without a position turns the list L into L followed by the new sample; the first one gets 0. */
  lemma AppendsAtEnd(t: Table, r: Sample)
    requires Shown(r, r.tenantId) && r.sortOrder == NextSortOrder(t, r.tenantId)
    ensures Listing(t + [r], r.tenantId) == Listing(t, r.tenantId) + [r]
    ensures Listing(t, r.tenantId) == [] ==> r.sortOrder == 0
  {
    var l := Listing(t, r.tenantId);
    CreateInserts(t, r);
    if l != [] {
      NextIsAbove(t, r.tenantId, l[|l| - 1]);
    }
  }

  /** Two creations that both read the maximum before either is saved end up newest first. */
  lemma InterleavedCreatesSwap(t: Table, a: Sample, b: Sample)
    requires a.tenantId == b.tenantId && !a.deleted && !b.deleted && a.createdAt < b.createdAt
    requires a.sortOrder == b.sortOrder == NextSortOrder(t, a.tenantId)
    ensures Listing(t + [a] + [b], a.tenantId) == Listing(t, a.tenantId) + [b, a]
  {
    var l := Listing(t, a.tenantId);
    AppendsAtEnd(t, a);
    CreateInserts(t + [a], b);
    if l != [] {
      NextIsAbove(t, a.tenantId, l[|l| - 1]);
    }
    SlotBeforeLast(l, a, b);
    PutBeforeLast(l, a, b);
  }

  lemma PutBeforeLast(l: seq<Sample>, a: Sample, b: Sample)
    ensures PutIn(l + [a], |l|, b) == l + [b, a]
  {
  }

  lemma SlotBeforeLast(l: seq<Sample>, last: Sample, x: Sample)
    requires !Leq(last, x)
    requires l == [] || Leq(l[|l| - 1], x)
    ensures Slot(Leq, x, l + [last]) == |l|
  {
    assert (l + [last])[..|l|] == l;
  }

  // ---- changing and deleting ----

  function Without(l: seq<Sample>, id: string): seq<Sample> {
    if l == [] then [] else
      var rest := Without(l[..|l| - 1], id);
      if l[|l| - 1].id == id then rest else rest + [l[|l| - 1]]
  }

  lemma {:induction false} WithoutIs(l: seq<Sample>, id: string)
    ensures forall r :: r in Without(l, id) <==> r in l && r.id != id
    ensures NoRepeats(l) ==> NoRepeats(Without(l, id))
    ensures Sorted(Leq, l) ==> Sorted(Leq, Without(l, id))
  {
    if l != [] {
      var front, last := l[..|l| - 1], l[|l| - 1];
      assert l == front + [last];
      WithoutIs(front, id);
      var w := Without(front, id);
      if Sorted(Leq, l) {
        forall k | 0 <= k < |w| ensures Leq(w[k], last) {
          assert w[k] in front;
        }
      }
    }
  }

  lemma {:induction false} SoftDeletedAt(t: Table, id: string, tenantId: string)
    ensures |SoftDeleted(t, id, tenantId)| == |t|
    ensures forall i :: 0 <= i < |t| ==>
              SoftDeleted(t, id, tenantId)[i] == if t[i].id == id && t[i].tenantId == tenantId then t[i].(deleted := true) else t[i]
  {
    if t != [] {
      SoftDeletedAt(t[..|t| - 1], id, tenantId);
    }
  }

  lemma {:induction false} UpdatedAt(t: Table, s: Sample)
    ensures |Updated(t, s)| == |t|
    ensures forall i :: 0 <= i < |t| ==>
              Updated(t, s)[i] == if t[i].id == s.id && t[i].tenantId == s.tenantId
                                  then t[i].(name := s.name, description := s.description, isActive := s.isActive, sortOrder := s.sortOrder)
                                  else t[i]
  {
    if t != [] {
      UpdatedAt(t[..|t| - 1], s);
    }
  }

  /** A deletion takes its row out of the tenant's list, keeps the order of the rest, and touches no other tenant. */
  lemma DeleteRemoves(t: Table, id: string, tenantId: string, tenant: string)
    requires DistinctIds(t)
    ensures DistinctIds(SoftDeleted(t, id, tenantId))
    ensures Listing(SoftDeleted(t, id, tenantId), tenant) ==
            if tenant == tenantId then Without(Listing(t, tenant), id) else Listing(t, tenant)
  {
    var d, l := SoftDeleted(t, id, tenantId), Listing(t, tenant);
    var w := if tenant == tenantId then Without(l, id) else l;
    SoftDeletedAt(t, id, tenantId);
    ListingIsUnique(t, tenant, l);
    WithoutIs(l, id);
    forall r ensures r in w <==> r in d && Shown(r, tenant) {
      if r in w {
        var i :| 0 <= i < |t| && t[i] == r;
        assert d[i] == r;
      }
      if r in d && Shown(r, tenant) {
        var i :| 0 <= i < |d| && d[i] == r;
        assert t[i] in t;
      }
    }
    ListingIsUnique(d, tenant, w);
  }

  /** An update keeps the order of all other rows, in every tenant. */
  lemma UpdateMovesOne(t: Table, s: Sample, tenant: string)
    requires DistinctIds(t)
    ensures DistinctIds(Updated(t, s))
    ensures Without(Listing(Updated(t, s), tenant), s.id) == Without(Listing(t, tenant), s.id)
    ensures tenant != s.tenantId ==> Listing(Updated(t, s), tenant) == Listing(t, tenant)
  {
    var u := Updated(t, s);
    var l, lu := Listing(t, tenant), Listing(u, tenant);
    UpdatedAt(t, s);
    ListingIsUnique(t, tenant, l);
    ListingIsUnique(u, tenant, lu);
    WithoutIs(l, s.id);
    WithoutIs(lu, s.id);
    SameOthers(t, u, s);
    LiveDistinct(t, tenant);
    OrderIsTotal(Live(t, tenant));
    SortedMembers(Leq, Live(t, tenant));
    SortedUnique(Leq, Without(l, s.id), Without(lu, s.id));
    if tenant != s.tenantId {
      OtherTenantsSame(t, s, tenant);
    }
  }

  lemma OtherTenantsSame(t: Table, s: Sample, tenant: string)
    requires DistinctIds(t) && DistinctIds(Updated(t, s)) && tenant != s.tenantId
    ensures Listing(Updated(t, s), tenant) == Listing(t, tenant)
  {
    var u := Updated(t, s);
    UpdatedAt(t, s);
    forall r ensures r in u && Shown(r, tenant) <==> r in t && Shown(r, tenant) {
      if r in t && Shown(r, tenant) {
        var i :| 0 <= i < |t| && t[i] == r;
        assert u[i] == r;
      }
      if r in u && Shown(r, tenant) {
        var i :| 0 <= i < |u| && u[i] == r;
        assert t[i] == r;
      }
    }
    ListingIsUnique(t, tenant, Listing(t, tenant));
    ListingIsUnique(u, tenant, Listing(t, tenant));
  }

  lemma SameOthers(t: Table, u: Table, s: Sample)
    requires u == Updated(t, s)
    ensures forall r: Sample :: r.id != s.id ==> (r in t <==> r in u)
  {
    UpdatedAt(t, s);
    forall r: Sample | r.id != s.id ensures r in t <==> r in u {
      if r in t {
        var i :| 0 <= i < |t| && t[i] == r;
        assert u[i] == r;
      }
      if r in u {
        var i :| 0 <= i < |u| && u[i] == r;
        assert t[i] == r;
      }
    }
  }

  lemma {:induction false} FindByIdIs(t: Table, id: string, tenantId: string)
    requires DistinctIds(t)
    ensures forall r :: FindById(t, id, tenantId) == Some(r) <==> r in t && r.id == id && Shown(r, tenantId)
  {
    if t != [] {
      FindByIdIs(t[..|t| - 1], id, tenantId);
      assert t == t[..|t| - 1] + [t[|t| - 1]];
    }
  }
}
