/** The sample repository, whose table is changed in place, and the use cases that create and list samples. */
module SampleUseCases {
  import opened Options
  import opened Pagination
  import opened Samples
  import opened Sequences
  import Sorting

  datatype Error = DuplicateId | OutOfRange | NotFound

  /** What the application hands to `save`; the database adds the id and the creation time. */
  datatype Draft = Draft(tenantId: string, name: string, description: Option<string>, isActive: bool, sortOrder: int)

  datatype CreateDto = CreateDto(name: string, description: Option<string>, sortOrder: Option<int>)

  /** The range of the `integer` column that holds `sortOrder`. */
  const INT4_MIN := -0x8000_0000
  const INT4_MAX := 0x7FFF_FFFF

  predicate FitsInt4(n: int) {
    INT4_MIN <= n <= INT4_MAX
  }

  predicate Taken(t: Table, id: string) {
    exists i :: 0 <= i < |t| && t[i].id == id
  }

  predicate Exists(t: Table, id: string, tenantId: string) {
    exists i :: 0 <= i < |t| && t[i].id == id && Shown(t[i], tenantId)
  }

  /** Reading back after an update finds the written row, if it is live. */
  lemma ReloadFinds(t: Table, s: Sample)
    requires DistinctIds(t)
    ensures var found := FindById(Updated(t, s), s.id, s.tenantId);
            && (found.Some? <==> Exists(t, s.id, s.tenantId))
            && (found.Some? ==> found.value in Updated(t, s) && found.value.id == s.id && found.value.sortOrder == s.sortOrder)
  {
    var u := Updated(t, s);
    var found := FindById(u, s.id, s.tenantId);
    UpdateMovesOne(t, s, s.tenantId);
    UpdatedAt(t, s);
    FindByIdIs(u, s.id, s.tenantId);
    if Exists(t, s.id, s.tenantId) {
      var i :| 0 <= i < |t| && t[i].id == s.id && Shown(t[i], s.tenantId);
      assert u[i] in u && found == Some(u[i]);
    } else if found.Some? {
      var i :| 0 <= i < |u| && u[i] == found.value;
      assert t[i].id == s.id && Shown(t[i], s.tenantId);
    }
  }

  ghost function LiveCount(t: Table, tenantId: string): nat {
    |set r | r in t && Shown(r, tenantId)|
  }

  lemma ListingCounts(t: Table, tenantId: string, l: seq<Sample>)
    requires DistinctIds(t) && l == Listing(t, tenantId)
    ensures |l| == LiveCount(t, tenantId)
    ensures Sorting.Sorted(Leq, l) && NoRepeats(l) && forall r :: r in l <==> r in t && Shown(r, tenantId)
  {
    ListingIsUnique(t, tenantId, l);
    Sorting.MemberCount(l);
    assert (set r | r in t && Shown(r, tenantId)) == set r | r in l;
  }

  /** `rows` are the rows of `l` from place `skip` on, at most `take` of them. */
  ghost predicate StretchOf(rows: seq<Sample>, l: seq<Sample>, skip: nat, take: nat) {
    && |rows| == (if skip >= |l| then 0 else if |l| - skip < take then |l| - skip else take)
    && forall k :: 0 <= k < |rows| ==> rows[k] == l[skip + k]
  }

  lemma PageOf(l: seq<Sample>, page: nat, perPage: nat, skip: nat)
    requires page >= 1 && skip == (page - 1) * perPage && Sorting.Sorted(Leq, l) && NoRepeats(l)
    ensures var rows := Page(l, page, perPage);
            && StretchOf(rows, l, skip, perPage)
            && (forall r :: r in rows ==> r in l)
            && Sorting.Sorted(Leq, rows) && NoRepeats(rows)
  {
    PageIs(l, page, perPage, skip);
    if skip < |l| {
      Sorting.SortedPart(Leq, l, skip, if skip + perPage <= |l| then skip + perPage else |l|);
    }
  }

  class SampleRepository {
    var table: Table

    constructor ()
      ensures table == [] && DistinctIds(table)
    {
      table := [];
    }

    method Save(draft: Draft, id: string, now: int) returns (r: Result<Sample, Error>)
      requires DistinctIds(table)
      modifies this
      ensures DistinctIds(table)
      ensures r.Ok? <==> -0x8000_0000 <= draft.sortOrder <= 0x7FFF_FFFF && !exists i :: 0 <= i < |old(table)| && old(table)[i].id == id
      ensures r.Ok? ==> table == old(table) + [r.value]
      ensures r.Ok? ==> r.value == Sample(id, draft.tenantId, draft.name, draft.description, draft.isActive, draft.sortOrder, now, false)
      ensures r.Err? ==> table == old(table)
    {
      if !FitsInt4(draft.sortOrder) {
        return Err(OutOfRange);
      }
      if Taken(table, id) {
        return Err(DuplicateId);
      }
      var row := Sample(id, draft.tenantId, draft.name, draft.description, draft.isActive, draft.sortOrder, now, false);
      table := table + [row];
      return Ok(row);
    }

    /**
      The live rows of the tenant from place `(page - 1) * perPage` of their order on, at
      most `perPage` of them, and the number of all live rows of the tenant.
    */
    method FindAll(tenantId: string, page: nat, perPage: nat) returns (rows: seq<Sample>, total: nat)
      requires page >= 1 && DistinctIds(table)
      ensures total == LiveCount(table, tenantId) == |Listing(table, tenantId)|
      ensures StretchOf(rows, Listing(table, tenantId), (page - 1) * perPage, perPage)
      ensures NoRepeats(rows) && forall r :: r in rows ==> r in table && r.tenantId == tenantId && !r.deleted
      ensures forall i, j :: 0 <= i < j < |rows| ==>
                || rows[i].sortOrder < rows[j].sortOrder
                || (rows[i].sortOrder == rows[j].sortOrder && rows[i].createdAt > rows[j].createdAt)
                || (rows[i].sortOrder == rows[j].sortOrder && rows[i].createdAt == rows[j].createdAt &&
                    Sorting.StringLeq(rows[i].id, rows[j].id))
      ensures rows == Page(Listing(table, tenantId), page, perPage)
    {
      var listing := Listing(table, tenantId);
      rows := Page(listing, page, perPage);
      total := |listing|;
      ListingCounts(table, tenantId, listing);
      PageOf(listing, page, perPage, (page - 1) * perPage);
    }

    method GetMaxSortOrder(tenantId: string) returns (max: int)
      ensures forall r :: r in Listing(table, tenantId) ==> r.sortOrder <= max
      ensures Listing(table, tenantId) == [] ==> max == -1
      ensures Listing(table, tenantId) != [] ==> exists r :: r in Listing(table, tenantId) && r.sortOrder == max
      ensures max + 1 == NextSortOrder(table, tenantId)
    {
      var rows := Live(table, tenantId);
      MaxIsMax(rows);
      Sorting.SortedMembers(Leq, rows);
      var m := MaxSortOrder(rows);
      max := if m.Some? then m.value else -1;
    }

    /** The UPDATE, then the read-back that fails when no live row has the id. */
    method Update(sample: Sample) returns (r: Result<Sample, Error>)
      requires DistinctIds(table)
      modifies this
      ensures DistinctIds(table)
      ensures !FitsInt4(sample.sortOrder) ==> table == old(table)
      ensures |table| == |old(table)|
      ensures FitsInt4(sample.sortOrder) ==> forall i :: 0 <= i < |table| ==>
                table[i] ==
                if table[i].id == sample.id && table[i].tenantId == sample.tenantId then
                  old(table)[i].(name := sample.name, description := sample.description, isActive := sample.isActive, sortOrder := sample.sortOrder)
                else old(table)[i]
      ensures table == if FitsInt4(sample.sortOrder) then Updated(old(table), sample) else old(table)
      ensures forall tenant ::
                Without(Listing(table, tenant), sample.id) == Without(old(Listing(table, tenant)), sample.id)
      ensures r.Ok? <==>
                && -0x8000_0000 <= sample.sortOrder <= 0x7FFF_FFFF
                && exists i :: 0 <= i < |old(table)| && old(table)[i].id == sample.id
                                 && old(table)[i].tenantId == sample.tenantId && !old(table)[i].deleted
      ensures r.Ok? ==> r.value in table && r.value.id == sample.id && r.value.sortOrder == sample.sortOrder
    {
      if !FitsInt4(sample.sortOrder) {
        return Err(OutOfRange);
      }
      forall tenant {
        UpdateMovesOne(table, sample, tenant);
      }
      UpdateMovesOne(table, sample, sample.tenantId);
      ReloadFinds(table, sample);
      UpdatedAt(table, sample);
      table := Updated(table, sample);
      var found := FindById(table, sample.id, sample.tenantId);
      r := if found.Some? then Ok(found.value) else Err(NotFound);
    }

    method SoftDelete(id: string, tenantId: string)
      requires DistinctIds(table)
      modifies this
      ensures DistinctIds(table)
      ensures |table| == |old(table)| && forall i :: 0 <= i < |table| ==>
                table[i] == if table[i].id == id && table[i].tenantId == tenantId then old(table)[i].(deleted := true) else old(table)[i]
      ensures table == SoftDeleted(old(table), id, tenantId)
      ensures Listing(table, tenantId) == Without(old(Listing(table, tenantId)), id)
      ensures forall tenant :: tenant != tenantId ==> Listing(table, tenant) == old(Listing(table, tenant))
    {
      SoftDeletedAt(table, id, tenantId);
      DeleteRemoves(table, id, tenantId, tenantId);
      forall tenant | tenant != tenantId {
        DeleteRemoves(table, id, tenantId, tenant);
      }
      table := SoftDeleted(table, id, tenantId);
    }
  }

  class CreateSampleUseCase {
    const sampleRepo: SampleRepository

    constructor (sampleRepo: SampleRepository)
      ensures this.sampleRepo == sampleRepo
    {
      this.sampleRepo := sampleRepo;
    }

    /** `id` is the generated UUID and `now` the creation time the database sets. */
    method Execute(dto: CreateDto, tenantId: string, id: string, now: int) returns (r: Result<Sample, Error>)
      requires DistinctIds(sampleRepo.table)
      modifies sampleRepo
      ensures DistinctIds(sampleRepo.table)
      ensures r.Err? ==> sampleRepo.table == old(sampleRepo.table)
      ensures dto.sortOrder.None? && r.Ok? ==> Listing(sampleRepo.table, tenantId) == old(Listing(sampleRepo.table, tenantId)) + [r.value]
      ensures dto.sortOrder.Some? && r.Ok? ==> Without(Listing(sampleRepo.table, tenantId), id) == old(Listing(sampleRepo.table, tenantId))
      ensures r.Ok? ==> sampleRepo.table == old(sampleRepo.table) + [r.value]
      ensures r.Ok? ==> r.value.id == id && r.value.tenantId == tenantId && r.value.createdAt == now
      ensures r.Ok? ==> r.value.name == dto.name && r.value.description == dto.description && r.value.isActive
      ensures r.Ok? && dto.sortOrder.Some? ==> r.value.sortOrder == dto.sortOrder.value
      ensures r.Ok? <==> !Taken(old(sampleRepo.table), id) &&
                         FitsInt4(if dto.sortOrder.Some? then dto.sortOrder.value else old(NextSortOrder(sampleRepo.table, tenantId)))
      ensures forall tenant :: tenant != tenantId ==> Listing(sampleRepo.table, tenant) == old(Listing(sampleRepo.table, tenant))
    {
      var sortOrder: int;
      if dto.sortOrder.Some? {
        sortOrder := dto.sortOrder.value;
      } else {
        var max := sampleRepo.GetMaxSortOrder(tenantId);
        sortOrder := max + 1;
      }
      ghost var before := sampleRepo.table;
      r := sampleRepo.Save(Draft(tenantId, dto.name, dto.description, true, sortOrder), id, now);
      if r.Ok? {
        CreateInserts(before, r.value);
        if dto.sortOrder.None? {
          AppendsAtEnd(before, r.value);
        } else {
          NewRowComesOut(before, r.value);
        }
      }
    }
  }

  lemma NewRowComesOut(t: Table, r: Sample)
    requires DistinctIds(t + [r]) && Shown(r, r.tenantId)
    ensures Without(Listing(t + [r], r.tenantId), r.id) == Listing(t, r.tenantId)
  {
    var l, n := Listing(t, r.tenantId), Listing(t + [r], r.tenantId);
    var w := Without(n, r.id);
    ListingIsUnique(t + [r], r.tenantId, n);
    WithoutIs(n, r.id);
    assert DistinctIds(t) by {
      assert forall i :: 0 <= i < |t| ==> (t + [r])[i] == t[i];
    }
    forall x ensures x in w <==> x in t && Shown(x, r.tenantId) {
      if x in t {
        var i :| 0 <= i < |t| && t[i] == x;
        assert (t + [r])[i] == x && (t + [r])[|t|] == r;
      }
    }
    ListingIsUnique(t, r.tenantId, w);
  }

  /** Creating at the end fails exactly when some live sample already has the largest position. */
  lemma AppendFailsIff(t: Table, tenantId: string)
    requires forall r :: r in Listing(t, tenantId) ==> FitsInt4(r.sortOrder)
    ensures !FitsInt4(NextSortOrder(t, tenantId)) <==> exists r :: r in Listing(t, tenantId) && r.sortOrder == INT4_MAX
  {
    var rows := Live(t, tenantId);
    MaxIsMax(rows);
    Sorting.SortedMembers(Leq, rows);
  }

  class ListSamplesUseCase {
    const sampleRepo: SampleRepository

    constructor (sampleRepo: SampleRepository)
      ensures this.sampleRepo == sampleRepo
    {
      this.sampleRepo := sampleRepo;
    }

    method Execute(tenantId: string, page: Option<string>, perPage: Option<string>) returns (data: seq<Sample>, meta: Meta)
      requires DistinctIds(sampleRepo.table)
      ensures 1 <= meta.page && 1 <= meta.perPage <= 100
      ensures Params(meta.page, meta.perPage) == ParsePaginationParams(page, perPage)
      ensures var l := Listing(sampleRepo.table, tenantId);
              && data == Page(l, meta.page, meta.perPage)
              && meta.total == |l|
              && PagesUpTo(l, meta.totalPages, meta.perPage) == l
              && (meta.hasNext <==> Page(l, meta.page + 1, meta.perPage) != [])
              && (meta.hasPrevious <==> meta.page > 1)
    {
      var params := ParsePaginationParams(page, perPage);
      var samples, total := sampleRepo.FindAll(tenantId, params.page, params.perPage);
      data, meta := samples, BuildPaginationMeta(total, params.page, params.perPage);
      PagesPartition(Listing(sampleRepo.table, tenantId), params.perPage, params.page);
      MetaTells(Listing(sampleRepo.table, tenantId), params.page, params.perPage);
    }
  }
}
