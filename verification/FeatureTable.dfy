/**
  The tenant_features table, its repository and the bulk update over it. Rows keep
  their place; a partial unique index allows one live row per tenant and key.
*/
module FeatureTables {
  import opened Options
  import opened Sequences
  import opened Sorting

  /** What the application reads of a row. */
  datatype Feature = Feature(featureKey: string, enabled: bool, numericValue: Option<int>)

  datatype Row = Row(tenantId: string, feature: Feature, live: bool)

  type Table = seq<Row>

  predicate Matches(r: Row, tenantId: string, key: string) {
    r.live && r.tenantId == tenantId && r.feature.featureKey == key
  }

  /** The partial unique index. */
  ghost predicate OneLive(t: Table) {
    forall i, j :: 0 <= i < j < |t| && t[i].live && t[j].live ==>
      t[i].tenantId != t[j].tenantId || t[i].feature.featureKey != t[j].feature.featureKey
  }

  /** The position of the live row for a key, or `|t|`. */
  function Position(t: Table, tenantId: string, key: string): (i: nat)
    ensures i <= |t|
    ensures i < |t| ==> Matches(t[i], tenantId, key)
    ensures forall j :: 0 <= j < i ==> !Matches(t[j], tenantId, key)
  {
    if t == [] then 0
    else if Matches(t[0], tenantId, key) then 0
    else
      var i := Position(t[1..], tenantId, key);
      assert forall j :: 1 <= j < |t| ==> t[j] == t[1..][j - 1];
      i + 1
  }

  function Lookup(t: Table, tenantId: string, key: string): Option<Feature> {
    var i := Position(t, tenantId, key);
    if i < |t| then Some(t[i].feature) else None
  }

  /** The limit a key has, without a live row none. */
  function LimitOf(t: Table, tenantId: string, key: string): Option<int> {
    var f := Lookup(t, tenantId, key);
    if f.Some? then f.value.numericValue else None
  }

  predicate KeyLeq(a: Feature, b: Feature) {
    StringLeq(a.featureKey, b.featureKey)
  }

  function LiveRows(t: Table, tenantId: string): seq<Feature> {
    if t == [] then [] else
      var rest := LiveRows(t[..|t| - 1], tenantId);
      if t[|t| - 1].live && t[|t| - 1].tenantId == tenantId then rest + [t[|t| - 1].feature] else rest
  }

  lemma {:induction false} LiveRowsMembers(t: Table, tenantId: string, f: Feature)
    ensures f in LiveRows(t, tenantId) <==> Row(tenantId, f, true) in t
  {
    if t != [] {
      LiveRowsMembers(t[..|t| - 1], tenantId, f);
      assert t == t[..|t| - 1] + [t[|t| - 1]];
    }
  }

  /** SELECT the tenant's live rows ORDER BY featureKey. */
  function FindByTenant(t: Table, tenantId: string): seq<Feature> {
    SortBy(KeyLeq, LiveRows(t, tenantId))
  }

  /** INSERT ... ON CONFLICT (tenantId, featureKey) WHERE deletedAt IS NULL DO UPDATE, for one row. */
  function UpsertRow(t: Table, tenantId: string, f: Feature): Table {
    var i := Position(t, tenantId, f.featureKey);
    if i < |t| then t[i := Row(tenantId, f, true)] else t + [Row(tenantId, f, true)]
  }

  function Upsert(t: Table, tenantId: string, fs: seq<Feature>): Table {
    if fs == [] then t else UpsertRow(Upsert(t, tenantId, fs[..|fs| - 1]), tenantId, fs[|fs| - 1])
  }

  ghost predicate DistinctKeys(fs: seq<Feature>) {
    forall i, j :: 0 <= i < j < |fs| ==> fs[i].featureKey != fs[j].featureKey
  }

  // ---- reading ----

  lemma PositionIs(t: Table, tenantId: string, key: string, i: nat)
    requires OneLive(t) && i < |t| && Matches(t[i], tenantId, key)
    ensures Position(t, tenantId, key) == i
  {
    assert Position(t, tenantId, key) <= i;
  }

  lemma LiveRowsAreLookups(t: Table, tenantId: string, f: Feature)
    requires OneLive(t)
    ensures f in LiveRows(t, tenantId) <==> Lookup(t, tenantId, f.featureKey) == Some(f)
  {
    LiveRowsMembers(t, tenantId, f);
    if f in LiveRows(t, tenantId) {
      var i :| 0 <= i < |t| && t[i] == Row(tenantId, f, true);
      PositionIs(t, tenantId, f.featureKey, i);
    }
  }

  lemma {:induction false} LiveRowsDistinct(t: Table, tenantId: string)
    requires OneLive(t)
    ensures DistinctKeys(LiveRows(t, tenantId))
  {
    if t != [] {
      var front, last := t[..|t| - 1], t[|t| - 1];
      LiveRowsDistinct(front, tenantId);
      if last.live && last.tenantId == tenantId {
        forall f | f in LiveRows(front, tenantId) ensures f.featureKey != last.feature.featureKey {
          LiveRowsMembers(front, tenantId, f);
          var i :| 0 <= i < |front| && front[i] == Row(tenantId, f, true);
          assert t[i] == front[i];
        }
      }
    }
  }

  lemma KeysTotal(fs: seq<Feature>)
    requires DistinctKeys(fs)
    ensures TotalOn(KeyLeq, fs) && NoRepeats(fs)
  {
    forall x, y, z ensures (KeyLeq(x, y) || KeyLeq(y, x)) && (KeyLeq(x, y) && KeyLeq(y, z) ==> KeyLeq(x, z)) {
      StringLeqTotal(x.featureKey, y.featureKey);
      if KeyLeq(x, y) && KeyLeq(y, z) {
        StringLeqTransitive(x.featureKey, y.featureKey, z.featureKey);
      }
    }
    forall x, y | x in fs && y in fs && KeyLeq(x, y) && KeyLeq(y, x) ensures x == y {
      StringLeqTotal(x.featureKey, y.featureKey);
    }
  }

  /** The read returns each live row of the tenant exactly once, in key order. */
  lemma FindIsExact(t: Table, tenantId: string)
    requires OneLive(t)
    ensures var fs := FindByTenant(t, tenantId);
            && Sorted(KeyLeq, fs) && DistinctKeys(fs) && NoRepeats(fs)
            && forall f :: f in fs <==> Lookup(t, tenantId, f.featureKey) == Some(f)
  {
    var rows, fs := LiveRows(t, tenantId), FindByTenant(t, tenantId);
    LiveRowsDistinct(t, tenantId);
    KeysTotal(rows);
    SortBySorts(KeyLeq, rows);
    SortByDistinct(KeyLeq, rows);
    SortedMembers(KeyLeq, rows);
    forall f ensures f in fs <==> Lookup(t, tenantId, f.featureKey) == Some(f) {
      LiveRowsAreLookups(t, tenantId, f);
    }
    forall i, j | 0 <= i < j < |fs| ensures fs[i].featureKey != fs[j].featureKey {
      assert fs[i] in rows && fs[j] in rows && fs[i] != fs[j];
    }
  }

  /** Two tables that agree on a tenant's keys give it the same list. */
  lemma FindDetermined(t: Table, u: Table, tenantId: string)
    requires OneLive(t) && OneLive(u)
    requires forall key :: Lookup(t, tenantId, key) == Lookup(u, tenantId, key)
    ensures FindByTenant(t, tenantId) == FindByTenant(u, tenantId)
  {
    FindIsExact(t, tenantId);
    FindIsExact(u, tenantId);
    KeysTotal(FindByTenant(t, tenantId));
    SortedUnique(KeyLeq, FindByTenant(t, tenantId), FindByTenant(u, tenantId));
  }

  // ---- writing ----

  lemma UpsertRowLookup(t: Table, tenantId: string, f: Feature)
    requires OneLive(t)
    ensures var u := UpsertRow(t, tenantId, f);
            && OneLive(u)
            && forall x, key :: Lookup(u, x, key) == if x == tenantId && key == f.featureKey then Some(f) else Lookup(t, x, key)
  {
    var u := UpsertRow(t, tenantId, f);
    var i := Position(t, tenantId, f.featureKey);
    assert OneLive(u);
    forall x, key ensures Lookup(u, x, key) == if x == tenantId && key == f.featureKey then Some(f) else Lookup(t, x, key) {
      if x == tenantId && key == f.featureKey {
        PositionIs(u, x, key, i);
      } else {
        var p := Position(t, x, key);
        if p < |t| {
          assert u[p] == t[p];
          PositionIs(u, x, key, p);
        } else {
          assert forall j :: 0 <= j < |u| ==> !Matches(u[j], x, key);
        }
      }
    }
  }

  /** The feature a list of distinct keys holds for `key`. */
  function Listed(fs: seq<Feature>, key: string): Option<Feature> {
    if fs == [] then None
    else if fs[|fs| - 1].featureKey == key then Some(fs[|fs| - 1])
    else Listed(fs[..|fs| - 1], key)
  }

  lemma {:induction false} UpsertLookup(t: Table, tenantId: string, fs: seq<Feature>)
    requires OneLive(t)
    ensures var u := Upsert(t, tenantId, fs);
            && OneLive(u)
            && forall x, key ::
                 Lookup(u, x, key) == if x == tenantId && Listed(fs, key).Some? then Listed(fs, key) else Lookup(t, x, key)
  {
    if fs != [] {
      UpsertLookup(t, tenantId, fs[..|fs| - 1]);
      UpsertRowLookup(Upsert(t, tenantId, fs[..|fs| - 1]), tenantId, fs[|fs| - 1]);
    }
  }

  /** A write for one tenant leaves what every other tenant reads. */
  lemma UpsertIsScoped(t: Table, tenantId: string, fs: seq<Feature>, other: string)
    requires OneLive(t) && other != tenantId
    ensures OneLive(Upsert(t, tenantId, fs)) && FindByTenant(Upsert(t, tenantId, fs), other) == FindByTenant(t, other)
  {
    UpsertLookup(t, tenantId, fs);
    FindDetermined(Upsert(t, tenantId, fs), t, other);
  }

  // ---- the bulk update ----

  /** The three states of `numericValue` in the request: absent, null, a number. */
  datatype Patch = Absent | Null | Limit(n: int)

  datatype Update = Update(featureKey: string, enabled: bool, numericValue: Patch)

  ghost predicate DistinctUpdates(dto: seq<Update>) {
    forall i, j :: 0 <= i < j < |dto| ==> dto[i].featureKey != dto[j].featureKey
  }

  function ResolveNumericValue(u: Update, current: Option<Feature>): Option<int> {
    match u.numericValue
    case Limit(n) => Some(n)
    case Null => None
    case Absent => if current.Some? then current.value.numericValue else None
  }

  function MergeOne(u: Update, current: Option<Feature>): Feature {
    Feature(u.featureKey, u.enabled, ResolveNumericValue(u, current))
  }

  /** The rows to write; `current` is the list read before, as a map in which a later entry wins. */
  function Merge(dto: seq<Update>, current: seq<Feature>): (fs: seq<Feature>)
    ensures |fs| == |dto|
    ensures forall i :: 0 <= i < |dto| ==> fs[i] == MergeOne(dto[i], Listed(current, dto[i].featureKey))
  {
    seq(|dto|, i requires 0 <= i < |dto| => MergeOne(dto[i], Listed(current, dto[i].featureKey)))
  }

  function BulkUpdate(t: Table, tenantId: string, dto: seq<Update>): Table {
    Upsert(t, tenantId, Merge(dto, FindByTenant(t, tenantId)))
  }

  function Updates(dto: seq<Update>, key: string): Option<Update> {
    if dto == [] then None
    else if dto[|dto| - 1].featureKey == key then Some(dto[|dto| - 1])
    else Updates(dto[..|dto| - 1], key)
  }

  lemma {:induction false} ListedIn(fs: seq<Feature>, key: string)
    requires DistinctKeys(fs)
    ensures match Listed(fs, key)
            case None => forall f :: f in fs ==> f.featureKey != key
            case Some(f) => f in fs && f.featureKey == key
  {
    if fs != [] {
      assert fs == fs[..|fs| - 1] + [fs[|fs| - 1]];
      ListedIn(fs[..|fs| - 1], key);
    }
  }

  lemma ListedIsLookup(t: Table, tenantId: string, key: string)
    requires OneLive(t)
    ensures Listed(FindByTenant(t, tenantId), key) == Lookup(t, tenantId, key)
  {
    FindIsExact(t, tenantId);
    ListedIn(FindByTenant(t, tenantId), key);
    var found := Lookup(t, tenantId, key);
    assert found.Some? ==> found.value in FindByTenant(t, tenantId);
  }

  lemma {:induction false} MergedListed(dto: seq<Update>, current: seq<Feature>, key: string)
    ensures Listed(Merge(dto, current), key) ==
            match Updates(dto, key) case None => None case Some(u) => Some(MergeOne(u, Listed(current, key)))
  {
    if dto != [] {
      assert Merge(dto, current)[..|dto| - 1] == Merge(dto[..|dto| - 1], current);
      MergedListed(dto[..|dto| - 1], current, key);
    }
  }

  lemma {:induction false} UpdatesIn(dto: seq<Update>, key: string)
    requires DistinctUpdates(dto)
    ensures forall u :: u in dto && u.featureKey == key <==> Updates(dto, key) == Some(u)
  {
    if dto != [] {
      assert dto == dto[..|dto| - 1] + [dto[|dto| - 1]];
      UpdatesIn(dto[..|dto| - 1], key);
    }
  }

  lemma {:induction false} UpdatesKey(dto: seq<Update>, key: string)
    ensures Updates(dto, key).Some? ==> Updates(dto, key).value.featureKey == key && Updates(dto, key).value in dto
  {
    if dto != [] {
      UpdatesKey(dto[..|dto| - 1], key);
    }
  }

  /** What a listed key is written with, field by field: absent keeps the limit, null clears it, a number sets it. */
  lemma MergedFields(u: Update, current: Option<Feature>)
    ensures var f := MergeOne(u, current);
            && f.featureKey == u.featureKey && f.enabled == u.enabled
            && (u.numericValue == Absent ==> f.numericValue == if current.Some? then current.value.numericValue else None)
            && (u.numericValue == Null ==> f.numericValue == None)
            && (u.numericValue.Limit? ==> f.numericValue == Some(u.numericValue.n))
  {
  }

  /**
    The bulk update: each listed key of the tenant has a live row with the flag asked for,
    and its limit kept, cleared or set; every other key and tenant is untouched, and there
    is still one live row per tenant and key.
  */
  lemma BulkUpdateWrites(t: Table, tenantId: string, dto: seq<Update>, u: Update)
    requires OneLive(t) && DistinctUpdates(dto) && u in dto
    ensures var before, after := Lookup(t, tenantId, u.featureKey), Lookup(BulkUpdate(t, tenantId, dto), tenantId, u.featureKey);
            && after.Some? && after.value.featureKey == u.featureKey && after.value.enabled == u.enabled
            && (u.numericValue == Absent ==> after.value.numericValue == if before.Some? then before.value.numericValue else None)
            && (u.numericValue == Null ==> after.value.numericValue == None)
            && (u.numericValue.Limit? ==> after.value.numericValue == Some(u.numericValue.n))
  {
    UpdatesIn(dto, u.featureKey);
    BulkUpdateAt(t, tenantId, dto, tenantId, u.featureKey);
    MergedFields(u, Lookup(t, tenantId, u.featureKey));
  }

  lemma BulkUpdateLeaves(t: Table, tenantId: string, dto: seq<Update>, x: string, key: string)
    requires OneLive(t) && DistinctUpdates(dto) && (x != tenantId || forall u :: u in dto ==> u.featureKey != key)
    ensures OneLive(BulkUpdate(t, tenantId, dto)) && Lookup(BulkUpdate(t, tenantId, dto), x, key) == Lookup(t, x, key)
  {
    UpdatesIn(dto, key);
    BulkUpdateAt(t, tenantId, dto, x, key);
  }

  /** The whole table after it, as one equation for each key of each tenant. */
  lemma BulkUpdateLookup(t: Table, tenantId: string, dto: seq<Update>)
    requires OneLive(t)
    ensures OneLive(BulkUpdate(t, tenantId, dto))
    ensures forall x, key ::
              Lookup(BulkUpdate(t, tenantId, dto), x, key) ==
              if x == tenantId && Updates(dto, key).Some? then Some(MergeOne(Updates(dto, key).value, Lookup(t, x, key)))
              else Lookup(t, x, key)
  {
    var current := FindByTenant(t, tenantId);
    UpsertLookup(t, tenantId, Merge(dto, current));
    forall key ensures Listed(Merge(dto, current), key) ==
                       match Updates(dto, key) case None => None case Some(u) => Some(MergeOne(u, Lookup(t, tenantId, key))) {
      MergedListed(dto, current, key);
      ListedIsLookup(t, tenantId, key);
    }
  }

  /** The same for one key. */
  lemma BulkUpdateAt(t: Table, tenantId: string, dto: seq<Update>, x: string, key: string)
    requires OneLive(t)
    ensures OneLive(BulkUpdate(t, tenantId, dto))
    ensures Lookup(BulkUpdate(t, tenantId, dto), x, key) ==
            if x == tenantId && Updates(dto, key).Some? then Some(MergeOne(Updates(dto, key).value, Lookup(t, x, key)))
            else Lookup(t, x, key)
  {
    BulkUpdateLookup(t, tenantId, dto);
  }

  /** Other tenants read the same list before and after. */
  lemma BulkUpdateIsScoped(t: Table, tenantId: string, dto: seq<Update>, other: string)
    requires OneLive(t) && other != tenantId
    ensures FindByTenant(BulkUpdate(t, tenantId, dto), other) == FindByTenant(t, other)
  {
    UpsertIsScoped(t, tenantId, Merge(dto, FindByTenant(t, tenantId)), other);
  }

  /** Repeating a request changes nothing any tenant reads. */
  lemma BulkUpdateIsIdempotent(t: Table, tenantId: string, dto: seq<Update>, x: string)
    requires OneLive(t)
    ensures var once := BulkUpdate(t, tenantId, dto);
            FindByTenant(BulkUpdate(once, tenantId, dto), x) == FindByTenant(once, x)
  {
    var once := BulkUpdate(t, tenantId, dto);
    var twice := BulkUpdate(once, tenantId, dto);
    BulkUpdateLookup(t, tenantId, dto);
    BulkUpdateLookup(once, tenantId, dto);
    forall key ensures Lookup(twice, x, key) == Lookup(once, x, key) {
      BulkUpdateAt(t, tenantId, dto, x, key);
      BulkUpdateAt(once, tenantId, dto, x, key);
    }
    FindDetermined(twice, once, x);
  }

  lemma BulkUpdatesCommuteAt(t: Table, a: string, dtoA: seq<Update>, b: string, dtoB: seq<Update>, x: string, key: string)
    requires OneLive(t) && OneLive(BulkUpdate(t, a, dtoA)) && OneLive(BulkUpdate(t, b, dtoB))
    requires a != b || Updates(dtoA, key) == None || Updates(dtoB, key) == None
    ensures Lookup(BulkUpdate(BulkUpdate(t, a, dtoA), b, dtoB), x, key) ==
            Lookup(BulkUpdate(BulkUpdate(t, b, dtoB), a, dtoA), x, key)
  {
    BulkUpdateAt(t, a, dtoA, x, key);
    BulkUpdateAt(t, b, dtoB, x, key);
    BulkUpdateAt(BulkUpdate(t, a, dtoA), b, dtoB, x, key);
    BulkUpdateAt(BulkUpdate(t, b, dtoB), a, dtoA, x, key);
  }

  lemma BulkUpdateKeepsIndex(t: Table, tenantId: string, dto: seq<Update>)
    requires OneLive(t)
    ensures OneLive(BulkUpdate(t, tenantId, dto))
  {
    BulkUpdateLookup(t, tenantId, dto);
  }

  /** Requests that name no common key, or different tenants, commute. */
  lemma BulkUpdatesCommute(t: Table, a: string, dtoA: seq<Update>, b: string, dtoB: seq<Update>, x: string)
    requires OneLive(t)
    requires a != b || forall key :: Updates(dtoA, key) == None || Updates(dtoB, key) == None
    ensures FindByTenant(BulkUpdate(BulkUpdate(t, a, dtoA), b, dtoB), x) ==
            FindByTenant(BulkUpdate(BulkUpdate(t, b, dtoB), a, dtoA), x)
  {
    var ta, tb := BulkUpdate(t, a, dtoA), BulkUpdate(t, b, dtoB);
    BulkUpdateKeepsIndex(t, a, dtoA);
    BulkUpdateKeepsIndex(t, b, dtoB);
    BulkUpdateKeepsIndex(ta, b, dtoB);
    BulkUpdateKeepsIndex(tb, a, dtoA);
    forall key ensures Lookup(BulkUpdate(ta, b, dtoB), x, key) == Lookup(BulkUpdate(tb, a, dtoA), x, key) {
      BulkUpdatesCommuteAt(t, a, dtoA, b, dtoB, x, key);
    }
    FindDetermined(BulkUpdate(ta, b, dtoB), BulkUpdate(tb, a, dtoA), x);
  }

  lemma LiveRowIs(t: Table, tenantId: string, f: Feature)
    requires OneLive(t)
    ensures Row(tenantId, f, true) in t <==> Lookup(t, tenantId, f.featureKey) == Some(f)
  {
    LiveRowsMembers(t, tenantId, f);
    LiveRowsAreLookups(t, tenantId, f);
  }

  /** The same of the rows themselves. */
  lemma BulkUpdateRows(t: Table, tenantId: string, dto: seq<Update>, x: string, f: Feature)
    requires OneLive(t) && DistinctUpdates(dto)
    ensures OneLive(BulkUpdate(t, tenantId, dto))
    ensures x != tenantId || (forall u :: u in dto ==> u.featureKey != f.featureKey) ==>
              (Row(x, f, true) in BulkUpdate(t, tenantId, dto) <==> Row(x, f, true) in t)
    ensures forall u :: u in dto && u.featureKey == f.featureKey && x == tenantId ==>
              (Row(x, f, true) in BulkUpdate(t, tenantId, dto) <==>
                && f.enabled == u.enabled
                && (u.numericValue == Null ==> f.numericValue == None)
                && (u.numericValue.Limit? ==> f.numericValue == Some(u.numericValue.n))
                && (u.numericValue == Absent ==> f.numericValue == LimitOf(t, tenantId, f.featureKey)))
  {
    BulkUpdateKeepsIndex(t, tenantId, dto);
    LiveRowIs(t, x, f);
    LiveRowIs(BulkUpdate(t, tenantId, dto), x, f);
    if u :| u in dto && u.featureKey == f.featureKey && x == tenantId {
      BulkUpdateWrites(t, tenantId, dto, u);
    } else {
      BulkUpdateLeaves(t, tenantId, dto, x, f.featureKey);
    }
  }

  /** The rows of `fs` whose key is among the listed updates. */
  function OnlyKeys(fs: seq<Feature>, dto: seq<Feature>): seq<Feature> {
    if fs == [] then [] else
      var rest := OnlyKeys(fs[..|fs| - 1], dto);
      if Listed(dto, fs[|fs| - 1].featureKey).Some? then rest + [fs[|fs| - 1]] else rest
  }

  lemma {:induction false} OnlyKeysMembers(fs: seq<Feature>, dto: seq<Feature>)
    ensures forall f :: f in OnlyKeys(fs, dto) <==> f in fs && Listed(dto, f.featureKey).Some?
    ensures Sorted(KeyLeq, fs) ==> Sorted(KeyLeq, OnlyKeys(fs, dto))
  {
    if fs != [] {
      var front, last := fs[..|fs| - 1], fs[|fs| - 1];
      assert fs == front + [last];
      OnlyKeysMembers(front, dto);
      var rest := OnlyKeys(front, dto);
      if Sorted(KeyLeq, fs) {
        forall i | 0 <= i < |rest| ensures KeyLeq(rest[i], last) {
          assert rest[i] in front;
        }
      }
    }
  }

  /** What a bulk update answers: exactly the rows it wrote, in key order. */
  lemma SavedAreTheWritten(t: Table, tenantId: string, fs: seq<Feature>)
    requires OneLive(t) && DistinctKeys(fs)
    ensures var saved := OnlyKeys(FindByTenant(Upsert(t, tenantId, fs), tenantId), fs);
            Sorted(KeyLeq, saved) && forall f :: f in saved <==> f in fs
  {
    var u := Upsert(t, tenantId, fs);
    UpsertLookup(t, tenantId, fs);
    FindIsExact(u, tenantId);
    OnlyKeysMembers(FindByTenant(u, tenantId), fs);
    forall f ensures f in OnlyKeys(FindByTenant(u, tenantId), fs) <==> f in fs {
      ListedIn(fs, f.featureKey);
    }
  }

  class TenantFeatureRepository {
    var table: Table

    constructor ()
      ensures table == [] && OneLive(table)
    {
      table := [];
    }

    /** Each live row of the tenant once, in key order. */
    method FindByTenantId(tenantId: string) returns (fs: seq<Feature>)
      requires OneLive(table)
      ensures Sorted(KeyLeq, fs) && DistinctKeys(fs)
      ensures forall f :: f in fs <==> Row(tenantId, f, true) in table
      ensures fs == FindByTenant(table, tenantId)
    {
      fs := FindByTenant(table, tenantId);
      FindIsExact(table, tenantId);
      SortedMembers(KeyLeq, LiveRows(table, tenantId));
      forall f ensures f in fs <==> Row(tenantId, f, true) in table {
        LiveRowsMembers(table, tenantId, f);
      }
    }

    /** The saved rows are read back after the write; an empty list writes nothing. */
    method BulkUpsert(tenantId: string, features: seq<Feature>) returns (saved: seq<Feature>)
      requires OneLive(table) && DistinctKeys(features)
      modifies this
      ensures OneLive(table)
      ensures table == Upsert(old(table), tenantId, features)
      ensures saved == OnlyKeys(FindByTenant(table, tenantId), features)
    {
      if features == [] {
        NothingListed(FindByTenant(table, tenantId));
        return [];
      }
      UpsertLookup(table, tenantId, features);
      table := Upsert(table, tenantId, features);
      saved := OnlyKeys(FindByTenant(table, tenantId), features);
    }
  }

  lemma {:induction false} NothingListed(fs: seq<Feature>)
    ensures OnlyKeys(fs, []) == []
  {
    if fs != [] {
      NothingListed(fs[..|fs| - 1]);
    }
  }

  lemma {:induction false} MergeKeysDistinct(dto: seq<Update>, current: seq<Feature>)
    requires DistinctUpdates(dto)
    ensures DistinctKeys(Merge(dto, current))
  {
  }
}
