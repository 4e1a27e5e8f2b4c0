/**
  The feature service over the cache and the table, the bulk update use case, and
  the theorem that with atomic operations the cache cannot be observed.
*/
module FeatureServices {
  import opened Options
  import opened Sequences
  import opened Sorting
  import opened InsertionOrderedMaps
  import opened FeatureTables
  import opened FeatureCaches

  datatype Error = TenantContextMissing | TenantNotFound

  /** The clock reads of one load: the cache lookup, then, after a miss, the sweep and the new expiry. */
  datatype Times = Times(getAt: int, pruneAt: int, setAt: int)

  // ---- the three reads over a loaded list ----

  /** The first feature of the list with this key stands at `i`. */
  predicate FirstAt(fs: seq<Feature>, key: string, i: int) {
    0 <= i < |fs| && fs[i].featureKey == key && forall j :: 0 <= j < i ==> fs[j].featureKey != key
  }

  predicate Unlisted(fs: seq<Feature>, key: string) {
    forall i :: 0 <= i < |fs| ==> fs[i].featureKey != key
  }

  /** `find`: the first feature with the key. */
  function FirstWith(fs: seq<Feature>, key: string): (r: Option<Feature>)
    ensures r.None? <==> Unlisted(fs, key)
    ensures forall i :: FirstAt(fs, key, i) ==> r == Some(fs[i])
  {
    if fs == [] then None
    else if fs[0].featureKey == key then Some(fs[0])
    else
      var r := FirstWith(fs[1..], key);
      assert forall i :: 1 <= i < |fs| ==> fs[i] == fs[1..][i - 1];
      assert forall i :: FirstAt(fs, key, i) ==> FirstAt(fs[1..], key, i - 1);
      assert Unlisted(fs, key) <==> Unlisted(fs[1..], key);
      r
  }

  function EnabledIn(fs: seq<Feature>, key: string): bool {
    var f := FirstWith(fs, key);
    if f.Some? then f.value.enabled else true
  }

  function LimitIn(fs: seq<Feature>, key: string): Option<int> {
    var f := FirstWith(fs, key);
    if f.Some? then f.value.numericValue else None
  }

  function KeysOf(fs: seq<Feature>): (keys: seq<string>)
    ensures |keys| == |fs| && forall i :: 0 <= i < |fs| ==> keys[i] == fs[i].featureKey
  {
    seq(|fs|, i requires 0 <= i < |fs| => fs[i].featureKey)
  }

  /** `new Set(...)`: the first occurrence of each key. */
  function Unique(keys: seq<string>): (r: seq<string>)
    ensures NoRepeats(r)
    ensures forall k :: k in r <==> k in keys
  {
    if keys == [] then [] else
      var rest := Unique(keys[..|keys| - 1]);
      assert keys == keys[..|keys| - 1] + [keys[|keys| - 1]];
      if keys[|keys| - 1] in rest then rest else rest + [keys[|keys| - 1]]
  }

  function Effective(fs: seq<Feature>, key: string): Feature {
    var f := Listed(fs, key);
    if f.Some? then f.value else Feature(key, true, None)
  }

  function EffectiveAt(fs: seq<Feature>, keys: seq<string>): seq<Feature> {
    seq(|keys|, i requires 0 <= i < |keys| => Effective(fs, keys[i]))
  }

  function AllKeys(declared: seq<string>, fs: seq<Feature>): seq<string> {
    SortBy(StringLeq, Unique(declared + KeysOf(fs)))
  }

  /** Every declared key and every persisted one, sorted; an unknown key counts as enabled without limit. */
  function AllIn(declared: seq<string>, fs: seq<Feature>): seq<Feature> {
    EffectiveAt(fs, AllKeys(declared, fs))
  }

  lemma {:induction false} FirstIsListed(fs: seq<Feature>, key: string)
    requires DistinctKeys(fs)
    ensures FirstWith(fs, key) == Listed(fs, key)
  {
    if fs != [] {
      FirstIsListed(fs[1..], key);
      ListedIn(fs, key);
      ListedIn(fs[1..], key);
      assert forall f :: f in fs <==> f == fs[0] || f in fs[1..];
      forall f | f in fs[1..] ensures f.featureKey != fs[0].featureKey {
        var i :| 0 <= i < |fs[1..]| && fs[1..][i] == f;
        assert f == fs[i + 1];
      }
      var found := Listed(fs, key);
      if found.Some? && fs[0].featureKey != key {
        var other := Listed(fs[1..], key).value;
        assert other in fs && found.value in fs;
      }
    }
  }

  /** The keys listed: sorted, each declared or persisted key once. */
  lemma AllKeysAre(declared: seq<string>, fs: seq<Feature>)
    ensures Sorted(StringLeq, AllKeys(declared, fs)) && NoRepeats(AllKeys(declared, fs))
    ensures forall key :: key in AllKeys(declared, fs) <==> key in declared || key in KeysOf(fs)
  {
    var all := Unique(declared + KeysOf(fs));
    StringsTotal(all);
    SortBySorts(StringLeq, all);
    SortByDistinct(StringLeq, all);
    SortedMembers(StringLeq, all);
  }

  lemma EffectiveKey(fs: seq<Feature>, key: string)
    requires DistinctKeys(fs)
    ensures Effective(fs, key).featureKey == key
  {
    ListedIn(fs, key);
  }

  lemma EffectiveKeys(fs: seq<Feature>, keys: seq<string>)
    requires DistinctKeys(fs)
    ensures KeysOf(EffectiveAt(fs, keys)) == keys
  {
    forall i | 0 <= i < |keys| ensures KeysOf(EffectiveAt(fs, keys))[i] == keys[i] {
      EffectiveKey(fs, keys[i]);
    }
  }

  lemma PersistedIsEffective(fs: seq<Feature>, keys: seq<string>, f: Feature)
    requires DistinctKeys(fs) && f in fs && f.featureKey in keys
    ensures f in EffectiveAt(fs, keys)
  {
    var i :| 0 <= i < |keys| && keys[i] == f.featureKey;
    ListedIn(fs, f.featureKey);
    assert EffectiveAt(fs, keys)[i] == f;
  }

  lemma OthersAreDefaults(fs: seq<Feature>, keys: seq<string>, f: Feature)
    requires DistinctKeys(fs) && f in EffectiveAt(fs, keys) && f !in fs
    ensures f == Feature(f.featureKey, true, None) && f.featureKey !in KeysOf(fs)
  {
    var i :| 0 <= i < |keys| && EffectiveAt(fs, keys)[i] == f;
    ListedIn(fs, keys[i]);
    forall j | 0 <= j < |fs| ensures KeysOf(fs)[j] != f.featureKey {
      assert fs[j] in fs;
    }
  }

  /** What the list endpoint answers: strictly sorted, each declared or persisted key once, with its effective state. */
  lemma AllInIsExact(declared: seq<string>, fs: seq<Feature>)
    requires DistinctKeys(fs)
    ensures var r := AllIn(declared, fs);
            && Sorted(KeyLeq, r) && DistinctKeys(r)
            && (forall key :: key in KeysOf(r) <==> key in declared || key in KeysOf(fs))
            && (forall f :: f in fs ==> f in r)
            && (forall f :: f in r && f !in fs ==> f == Feature(f.featureKey, true, None) && f.featureKey !in KeysOf(fs))
  {
    var keys := AllKeys(declared, fs);
    AllKeysAre(declared, fs);
    EffectiveKeys(fs, keys);
    SortedByKey(EffectiveAt(fs, keys));
    forall f | f in fs ensures f in EffectiveAt(fs, keys) {
      var j :| 0 <= j < |fs| && fs[j] == f;
      assert KeysOf(fs)[j] == f.featureKey;
      PersistedIsEffective(fs, keys, f);
    }
    forall f | f in EffectiveAt(fs, keys) && f !in fs ensures f == Feature(f.featureKey, true, None) && f.featureKey !in KeysOf(fs) {
      OthersAreDefaults(fs, keys, f);
    }
  }

  lemma SortedByKey(r: seq<Feature>)
    requires Sorted(StringLeq, KeysOf(r)) && NoRepeats(KeysOf(r))
    ensures Sorted(KeyLeq, r) && DistinctKeys(r)
  {
    forall i, j | 0 <= i < j < |r| ensures KeyLeq(r[i], r[j]) && r[i].featureKey != r[j].featureKey {
      assert KeysOf(r)[i] == r[i].featureKey && KeysOf(r)[j] == r[j].featureKey;
    }
  }

  // ---- the classes ----

  class TenantFeatureService {
    const repo: TenantFeatureRepository
    const cache: InMemoryTenantFeatureCache
    const declared: seq<string>

    ghost predicate Valid()
      reads repo, cache
    {
      cache.Valid() && OneLive(repo.table)
    }

    constructor (repo: TenantFeatureRepository, cache: InMemoryTenantFeatureCache, declared: seq<string>)
      ensures this.repo == repo && this.cache == cache && this.declared == declared
    {
      this.repo, this.cache, this.declared := repo, cache, declared;
    }

    method LoadFeatures(tenantId: string, at: Times) returns (r: Result<seq<Feature>, Error>)
      requires Valid()
      modifies cache
      ensures Valid()
      ensures r.Err? <==> tenantId == ""
      ensures r.Err? ==> r.error == TenantContextMissing && cache.entries == old(cache.entries)
      ensures var was := old(cache.entries.val);
              r.Ok? ==>
                if tenantId in was && was[tenantId].expiresAt > at.getAt then
                  r.value == was[tenantId].features && cache.entries == old(cache.entries)
                else
                  && r.value == FindByTenant(repo.table, tenantId)
                  && (cache.limits.ttlMs > 0 ==>
                        tenantId in cache.entries.val && cache.entries.val[tenantId] == CacheEntry(r.value, at.setAt + cache.limits.ttlMs))
      ensures r == Load(repo.table, old(cache.entries), cache.limits, tenantId, at).reply
      ensures cache.entries == Load(repo.table, old(cache.entries), cache.limits, tenantId, at).entries
    {
      if tenantId == "" {
        return Err(TenantContextMissing);
      }
      var cached := cache.Get(tenantId, at.getAt);
      if cached.Some? {
        return Ok(cached.value);
      }
      var features := repo.FindByTenantId(tenantId);
      cache.Set(tenantId, features, at.pruneAt, at.setAt);
      return Ok(features);
    }

    method IsFeatureEnabled(tenantId: string, key: string, at: Times) returns (r: Result<bool, Error>)
      requires Valid()
      modifies cache
      ensures Valid()
      ensures cache.entries == Load(repo.table, old(cache.entries), cache.limits, tenantId, at).entries
      ensures r == match Load(repo.table, old(cache.entries), cache.limits, tenantId, at).reply
                   case Err(e) => Err(e)
                   case Ok(fs) => Ok(EnabledIn(fs, key))
      ensures var loaded := Load(repo.table, old(cache.entries), cache.limits, tenantId, at).reply;
              loaded.Ok? ==>
                && r.Ok? && (Unlisted(loaded.value, key) ==> r.value)
                && forall i :: FirstAt(loaded.value, key, i) ==> r.value == loaded.value[i].enabled
    {
      var fs := LoadFeatures(tenantId, at);
      r := match fs case Err(e) => Err(e) case Ok(l) => Ok(EnabledIn(l, key));
    }

    method GetNumericLimit(tenantId: string, key: string, at: Times) returns (r: Result<Option<int>, Error>)
      requires Valid()
      modifies cache
      ensures Valid()
      ensures cache.entries == Load(repo.table, old(cache.entries), cache.limits, tenantId, at).entries
      ensures r == match Load(repo.table, old(cache.entries), cache.limits, tenantId, at).reply
                   case Err(e) => Err(e)
                   case Ok(fs) => Ok(LimitIn(fs, key))
      ensures var loaded := Load(repo.table, old(cache.entries), cache.limits, tenantId, at).reply;
              loaded.Ok? ==>
                && r.Ok? && (Unlisted(loaded.value, key) ==> r.value == None)
                && forall i :: FirstAt(loaded.value, key, i) ==> r.value == loaded.value[i].numericValue
    {
      var fs := LoadFeatures(tenantId, at);
      r := match fs case Err(e) => Err(e) case Ok(l) => Ok(LimitIn(l, key));
    }

    method GetAllFeatures(tenantId: string, at: Times) returns (r: Result<seq<Feature>, Error>)
      requires Valid()
      modifies cache
      ensures Valid()
      ensures cache.entries == Load(repo.table, old(cache.entries), cache.limits, tenantId, at).entries
      ensures r == match Load(repo.table, old(cache.entries), cache.limits, tenantId, at).reply
                   case Err(e) => Err(e)
                   case Ok(fs) => Ok(AllIn(declared, fs))
    {
      var fs := LoadFeatures(tenantId, at);
      r := match fs case Err(e) => Err(e) case Ok(l) => Ok(AllIn(declared, l));
    }

    method InvalidateCache(tenantId: string)
      requires Valid()
      modifies cache
      ensures Valid() && cache.entries == AfterInvalidate(old(cache.entries), tenantId)
    {
      cache.Invalidate(tenantId);
    }
  }

  /** The answer of an update: the rows of the listed keys, sorted. */
  lemma UpdateAnswer(t: Table, tenantId: string, dto: seq<Update>)
    requires OneLive(t) && DistinctUpdates(dto)
    ensures var u := BulkUpdate(t, tenantId, dto);
            var saved := OnlyKeys(FindByTenant(u, tenantId), Merge(dto, FindByTenant(t, tenantId)));
            && Sorted(KeyLeq, saved)
            && forall f :: f in saved <==> Row(tenantId, f, true) in u && exists e :: e in dto && e.featureKey == f.featureKey
  {
    var current, u := FindByTenant(t, tenantId), BulkUpdate(t, tenantId, dto);
    var fs := Merge(dto, current);
    BulkUpdateKeepsIndex(t, tenantId, dto);
    MergeKeysDistinct(dto, current);
    FindIsExact(u, tenantId);
    OnlyKeysMembers(FindByTenant(u, tenantId), fs);
    forall f ensures f in OnlyKeys(FindByTenant(u, tenantId), fs) <==>
                     Row(tenantId, f, true) in u && exists e :: e in dto && e.featureKey == f.featureKey {
      LiveRowIs(u, tenantId, f);
      MergedListed(dto, current, f.featureKey);
      UpdatesIn(dto, f.featureKey);
    }
  }

  class BulkUpdateTenantFeaturesUseCase {
    const repo: TenantFeatureRepository
    const tenantFeatureService: TenantFeatureService
    const tenants: set<string>

    ghost predicate Valid()
      reads repo, tenantFeatureService.repo, tenantFeatureService.cache
    {
      tenantFeatureService.repo == repo && tenantFeatureService.Valid()
    }

    constructor (repo: TenantFeatureRepository, service: TenantFeatureService, tenants: set<string>)
      ensures this.repo == repo && tenantFeatureService == service && this.tenants == tenants
    {
      this.repo, tenantFeatureService, this.tenants := repo, service, tenants;
    }

    /** The request schema has already refused duplicate keys. */
    method Execute(tenantId: string, dto: seq<Update>) returns (r: Result<seq<Feature>, Error>)
      requires Valid() && DistinctUpdates(dto)
      modifies repo, tenantFeatureService.cache
      ensures Valid()
      ensures r == Err(TenantContextMissing) <==> tenantId == ""
      ensures r == Err(TenantNotFound) <==> tenantId != "" && tenantId !in tenants
      ensures r.Ok? <==> tenantId != "" && tenantId in tenants
      ensures r.Err? ==> repo.table == old(repo.table)
      ensures r.Ok? ==> forall u, f: Feature :: u in dto && f.featureKey == u.featureKey ==>
                (Row(tenantId, f, true) in repo.table <==>
                  && f.enabled == u.enabled
                  && (u.numericValue == Null ==> f.numericValue == None)
                  && (u.numericValue.Limit? ==> f.numericValue == Some(u.numericValue.n))
                  && (u.numericValue == Absent ==> f.numericValue == LimitOf(old(repo.table), tenantId, f.featureKey)))
      ensures forall x, f: Feature :: x != tenantId || (forall u :: u in dto ==> u.featureKey != f.featureKey) ==>
                (Row(x, f, true) in repo.table <==> Row(x, f, true) in old(repo.table))
      ensures r.Ok? ==>
                && Sorted(KeyLeq, r.value)
                && forall f :: f in r.value <==> Row(tenantId, f, true) in repo.table && exists u :: u in dto && u.featureKey == f.featureKey
      ensures match Refusal(tenants, tenantId)
              case Some(e) =>
                r == Err(e) && repo.table == old(repo.table) && tenantFeatureService.cache.entries == old(tenantFeatureService.cache.entries)
              case None =>
                && repo.table == BulkUpdate(old(repo.table), tenantId, dto)
                && tenantFeatureService.cache.entries == AfterInvalidate(old(tenantFeatureService.cache.entries), tenantId)
                && r == Ok(OnlyKeys(FindByTenant(repo.table, tenantId), Merge(dto, FindByTenant(old(repo.table), tenantId))))
    {
      if tenantId == "" {
        return Err(TenantContextMissing);
      }
      if tenantId !in tenants {
        return Err(TenantNotFound);
      }
      var current := repo.FindByTenantId(tenantId);
      var features := Merge(dto, current);
      MergeKeysDistinct(dto, current);
      UpdateAnswer(repo.table, tenantId, dto);
      forall x, f {
        BulkUpdateRows(repo.table, tenantId, dto, x, f);
      }
      var updated := repo.BulkUpsert(tenantId, features);
      tenantFeatureService.InvalidateCache(tenantId);
      return Ok(updated);
    }
  }

  // ---- the same operations on values ----

  datatype Loaded = Loaded(reply: Result<seq<Feature>, Error>, entries: Entries)

  function Load(t: Table, entries: Entries, l: Limits, tenantId: string, at: Times): Loaded
    requires l.maxTenants > 0
  {
    if tenantId == "" then Loaded(Err(TenantContextMissing), entries)
    else match Hit(entries, tenantId, at.getAt)
      case Some(fs) => Loaded(Ok(fs), entries)
      case None =>
        var fs := FindByTenant(t, tenantId);
        Loaded(Ok(fs), AfterSet(AfterGet(entries, tenantId, at.getAt), l, tenantId, fs, at.pruneAt, at.setAt))
  }

  function Refusal(tenants: set<string>, tenantId: string): Option<Error> {
    if tenantId == "" then Some(TenantContextMissing) else if tenantId !in tenants then Some(TenantNotFound) else None
  }

  datatype Op =
    | IsEnabled(tenantId: string, key: string, at: Times)
    | NumericLimit(tenantId: string, key: string, at: Times)
    | All(tenantId: string, at: Times)
    | Bulk(tenantId: string, dto: seq<Update>)

  datatype Reply = Enabled(yes: bool) | LimitIs(n: Option<int>) | Features(fs: seq<Feature>) | Failed(e: Error)

  datatype Config = Config(limits: Limits, declared: seq<string>, tenants: set<string>)

  /** What an operation answers from a loaded list. */
  function Answer(c: Config, op: Op, fs: seq<Feature>): Reply {
    match op
    case IsEnabled(_, key, _) => Enabled(EnabledIn(fs, key))
    case NumericLimit(_, key, _) => LimitIs(LimitIn(fs, key))
    case _ => Features(AllIn(c.declared, fs))
  }

  function BulkReply(t: Table, tenantId: string, dto: seq<Update>): Reply {
    Features(OnlyKeys(FindByTenant(BulkUpdate(t, tenantId, dto), tenantId), Merge(dto, FindByTenant(t, tenantId))))
  }

  datatype World = World(table: Table, entries: Entries, replies: seq<Reply>)

  function Step(c: Config, w: World, op: Op): World
    requires c.limits.maxTenants > 0
  {
    if op.Bulk? then
      match Refusal(c.tenants, op.tenantId)
      case Some(e) => w.(replies := w.replies + [Failed(e)])
      case None =>
        World(BulkUpdate(w.table, op.tenantId, op.dto), AfterInvalidate(w.entries, op.tenantId),
              w.replies + [BulkReply(w.table, op.tenantId, op.dto)])
    else
      var loaded := Load(w.table, w.entries, c.limits, op.tenantId, op.at);
      var reply := match loaded.reply case Err(e) => Failed(e) case Ok(fs) => Answer(c, op, fs);
      World(w.table, loaded.entries, w.replies + [reply])
  }

  /** The reference: every read goes to the table. */
  datatype Plain = Plain(table: Table, replies: seq<Reply>)

  function PlainStep(c: Config, p: Plain, op: Op): Plain {
    if op.tenantId == "" then p.(replies := p.replies + [Failed(TenantContextMissing)])
    else if !op.Bulk? then Plain(p.table, p.replies + [Answer(c, op, FindByTenant(p.table, op.tenantId))])
    else if op.tenantId !in c.tenants then p.(replies := p.replies + [Failed(TenantNotFound)])
    else Plain(BulkUpdate(p.table, op.tenantId, op.dto), p.replies + [BulkReply(p.table, op.tenantId, op.dto)])
  }

  function Run(c: Config, ops: seq<Op>): World
    requires c.limits.maxTenants > 0
  {
    if ops == [] then World([], Empty(), []) else Step(c, Run(c, ops[..|ops| - 1]), ops[|ops| - 1])
  }

  function PlainRun(c: Config, ops: seq<Op>): Plain {
    if ops == [] then Plain([], []) else PlainStep(c, PlainRun(c, ops[..|ops| - 1]), ops[|ops| - 1])
  }

  // ---- the cache cannot be observed ----

  /** Every entry, expired or not, is what the table holds. */
  ghost predicate Coherent(c: Config, w: World) {
    && OneLive(w.table)
    && ValidEntries(w.entries, c.limits)
    && forall k :: k in w.entries.val ==> w.entries.val[k].features == FindByTenant(w.table, k)
  }

  lemma LoadIsFind(c: Config, w: World, tenantId: string, at: Times)
    requires c.limits.maxTenants > 0 && Coherent(c, w) && tenantId != ""
    ensures var r := Load(w.table, w.entries, c.limits, tenantId, at);
            r.reply == Ok(FindByTenant(w.table, tenantId)) && Coherent(c, World(w.table, r.entries, w.replies))
  {
    if Hit(w.entries, tenantId, at.getAt) == None {
      var missed := AfterGet(w.entries, tenantId, at.getAt);
      OthersKeepValid(w.entries, c.limits, tenantId, at.getAt);
      SetKeepsValid(missed, c.limits, tenantId, FindByTenant(w.table, tenantId), at.pruneAt, at.setAt);
      if c.limits.ttlMs > 0 {
        SetWrites(missed, c.limits, tenantId, FindByTenant(w.table, tenantId), at.pruneAt, at.setAt);
      }
    }
  }

  lemma BulkKeepsCoherent(c: Config, w: World, tenantId: string, dto: seq<Update>)
    requires Coherent(c, w)
    ensures Coherent(c, World(BulkUpdate(w.table, tenantId, dto), AfterInvalidate(w.entries, tenantId), w.replies))
  {
    var after := AfterInvalidate(w.entries, tenantId);
    OthersKeepValid(w.entries, c.limits, tenantId, 0);
    BulkUpdateKeepsIndex(w.table, tenantId, dto);
    forall k | k in after.val ensures after.val[k].features == FindByTenant(BulkUpdate(w.table, tenantId, dto), k) {
      BulkUpdateIsScoped(w.table, tenantId, dto, k);
    }
  }

  /**
    Atomic operations in any order, on any tenants, with any clock, any TTL and any
    capacity: the cache stays coherent, and the cached service and a cacheless one
    give the same table and the same replies.
  */
  lemma {:induction false} CacheIsUnobservable(c: Config, ops: seq<Op>)
    requires c.limits.maxTenants > 0
    ensures Coherent(c, Run(c, ops))
    ensures Plain(Run(c, ops).table, Run(c, ops).replies) == PlainRun(c, ops)
  {
    if ops != [] {
      var front, op := ops[..|ops| - 1], ops[|ops| - 1];
      var w := Run(c, front);
      CacheIsUnobservable(c, front);
      if op.Bulk? {
        BulkKeepsCoherent(c, w, op.tenantId, op.dto);
      } else if op.tenantId != "" {
        LoadIsFind(c, w, op.tenantId, op.at);
      }
    }
  }

  // ---- what an update means to later reads ----

  lemma ReadReply(c: Config, ops: seq<Op>, op: Op)
    requires c.limits.maxTenants > 0 && !op.Bulk? && op.tenantId != ""
    ensures Run(c, ops + [op]).table == Run(c, ops).table
    ensures Run(c, ops + [op]).replies == Run(c, ops).replies + [Answer(c, op, FindByTenant(Run(c, ops).table, op.tenantId))]
  {
    CacheIsUnobservable(c, ops);
    assert (ops + [op])[..|ops|] == ops;
    LoadIsFind(c, Run(c, ops), op.tenantId, op.at);
  }

  lemma UpdateTable(c: Config, ops: seq<Op>, tenantId: string, dto: seq<Update>)
    requires c.limits.maxTenants > 0 && tenantId != "" && tenantId in c.tenants
    ensures OneLive(Run(c, ops).table) && OneLive(Run(c, ops + [Bulk(tenantId, dto)]).table)
    ensures Run(c, ops + [Bulk(tenantId, dto)]).table == BulkUpdate(Run(c, ops).table, tenantId, dto)
  {
    var op := Bulk(tenantId, dto);
    CacheIsUnobservable(c, ops);
    CacheIsUnobservable(c, ops + [op]);
    assert (ops + [op])[..|ops|] == ops;
  }

  /** What the two reads of one key answer, told from its live row. */
  lemma ReadsOfKey(t: Table, tenantId: string, key: string)
    requires OneLive(t)
    ensures EnabledIn(FindByTenant(t, tenantId), key) == var f := Lookup(t, tenantId, key); f.Some? ==> f.value.enabled
    ensures LimitIn(FindByTenant(t, tenantId), key) == LimitOf(t, tenantId, key)
  {
    FindIsExact(t, tenantId);
    FirstIsListed(FindByTenant(t, tenantId), key);
    ListedIsLookup(t, tenantId, key);
  }

  /**
    After an admitted update, whatever ran before and whatever the cache then held, each
    listed key is answered as it was asked for; an omitted limit is the one that would
    have been answered before.
  */
  lemma UpdateIsServed(c: Config, ops: seq<Op>, tenantId: string, dto: seq<Update>, u: Update, at: Times) returns (limit: Option<int>)
    requires c.limits.maxTenants > 0 && tenantId != "" && tenantId in c.tenants && DistinctUpdates(dto) && u in dto
    ensures var after := ops + [Bulk(tenantId, dto)];
            && Run(c, after + [IsEnabled(tenantId, u.featureKey, at)]).replies == Run(c, after).replies + [Enabled(u.enabled)]
            && Run(c, after + [NumericLimit(tenantId, u.featureKey, at)]).replies == Run(c, after).replies + [LimitIs(limit)]
    ensures u.numericValue == Null ==> limit == None
    ensures u.numericValue.Limit? ==> limit == Some(u.numericValue.n)
    ensures u.numericValue == Absent ==>
              Run(c, ops + [NumericLimit(tenantId, u.featureKey, at)]).replies == Run(c, ops).replies + [LimitIs(limit)]
  {
    var after, key := ops + [Bulk(tenantId, dto)], u.featureKey;
    UpdateTable(c, ops, tenantId, dto);
    ReadReply(c, after, IsEnabled(tenantId, key, at));
    ReadReply(c, after, NumericLimit(tenantId, key, at));
    ReadReply(c, ops, NumericLimit(tenantId, key, at));
    ReadsOfKey(Run(c, ops).table, tenantId, key);
    ReadsOfKey(Run(c, after).table, tenantId, key);
    BulkUpdateWrites(Run(c, ops).table, tenantId, dto, u);
    limit := LimitOf(Run(c, after).table, tenantId, key);
  }

  /** Every other key, and every key of another tenant, is answered as before. */
  lemma UpdateLeavesOthers(c: Config, ops: seq<Op>, tenantId: string, dto: seq<Update>, x: string, key: string, at: Times)
      returns (enabled: bool, limit: Option<int>)
    requires c.limits.maxTenants > 0 && tenantId != "" && tenantId in c.tenants && DistinctUpdates(dto) && x != ""
    requires x != tenantId || forall u :: u in dto ==> u.featureKey != key
    ensures Run(c, ops + [IsEnabled(x, key, at)]).replies == Run(c, ops).replies + [Enabled(enabled)]
    ensures Run(c, ops + [NumericLimit(x, key, at)]).replies == Run(c, ops).replies + [LimitIs(limit)]
    ensures var after := ops + [Bulk(tenantId, dto)];
            && Run(c, after + [IsEnabled(x, key, at)]).replies == Run(c, after).replies + [Enabled(enabled)]
            && Run(c, after + [NumericLimit(x, key, at)]).replies == Run(c, after).replies + [LimitIs(limit)]
  {
    var after := ops + [Bulk(tenantId, dto)];
    UpdateTable(c, ops, tenantId, dto);
    ReadReply(c, after, IsEnabled(x, key, at));
    ReadReply(c, after, NumericLimit(x, key, at));
    ReadReply(c, ops, IsEnabled(x, key, at));
    ReadReply(c, ops, NumericLimit(x, key, at));
    ReadsOfKey(Run(c, ops).table, x, key);
    ReadsOfKey(Run(c, after).table, x, key);
    BulkUpdateLeaves(Run(c, ops).table, tenantId, dto, x, key);
    enabled, limit := EnabledIn(FindByTenant(Run(c, ops).table, x), key), LimitOf(Run(c, ops).table, x, key);
  }

  // ---- eviction takes the entry soonest to expire ----

  ghost predicate Ticking(ops: seq<Op>) {
    && (forall i :: 0 <= i < |ops| && !ops[i].Bulk? ==> ops[i].at.getAt <= ops[i].at.pruneAt <= ops[i].at.setAt)
    && forall i, j :: 0 <= i < j < |ops| && !ops[i].Bulk? && !ops[j].Bulk? ==> ops[i].at.setAt <= ops[j].at.getAt
  }

  lemma GetMissesAfterwards(entries: Entries, tenantId: string, now: int)
    requires entries.Valid() && ByExpiry(entries)
    ensures var e := AfterGet(entries, tenantId, now);
            && e.Valid() && ByExpiry(e) && (forall k :: k in e.val ==> k in entries.val && e.val[k] == entries.val[k])
            && (Hit(entries, tenantId, now) == None ==> tenantId !in e.val)
  {
    KeepByExpiry(entries, entries.val.Keys - {tenantId});
  }

  /** Under a monotone clock insertion order is expiry order in every reachable state, and no entry outlives `now + ttl`. */
  lemma {:induction false} RunByExpiry(c: Config, ops: seq<Op>, now: int)
    requires c.limits.maxTenants > 0 && Ticking(ops)
    requires forall i :: 0 <= i < |ops| && !ops[i].Bulk? ==> ops[i].at.setAt <= now
    ensures var e := Run(c, ops).entries;
            e.Valid() && ByExpiry(e) && forall k :: k in e.val ==> e.val[k].expiresAt <= now + c.limits.ttlMs
  {
    CacheIsUnobservable(c, ops);
    if ops != [] {
      var front, op := ops[..|ops| - 1], ops[|ops| - 1];
      var w := Run(c, front);
      assert forall i :: 0 <= i < |front| ==> front[i] == ops[i];
      if op.Bulk? {
        RunByExpiry(c, front, now);
        KeepByExpiry(w.entries, w.entries.val.Keys - {op.tenantId});
      } else {
        assert forall i :: 0 <= i < |front| && !front[i].Bulk? ==> front[i].at.setAt <= op.at.getAt;
        RunByExpiry(c, front, op.at.setAt);
        if op.tenantId != "" && Hit(w.entries, op.tenantId, op.at.getAt) == None {
          GetMissesAfterwards(w.entries, op.tenantId, op.at.getAt);
          SetKeepsByExpiry(AfterGet(w.entries, op.tenantId, op.at.getAt), c.limits, op.tenantId,
                           FindByTenant(w.table, op.tenantId), op.at.pruneAt, op.at.setAt);
        }
      }
    }
  }

  /**
    In every state a run under a monotone clock reaches, what the load of a missed list
    throws out unexpired is due no later than anything it leaves in the cache.
  */
  lemma EvictionTakesSoonest(c: Config, ops: seq<Op>, op: Op, out: string, kept: string)
    requires c.limits.maxTenants > 0 && Ticking(ops + [op]) && !op.Bulk? && op.tenantId != ""
    requires Hit(Run(c, ops).entries, op.tenantId, op.at.getAt) == None
    requires var before, after := AfterGet(Run(c, ops).entries, op.tenantId, op.at.getAt), Run(c, ops + [op]).entries;
             out in Fresh(before, op.at.pruneAt) && out !in after.val && kept in after.val
    ensures Run(c, ops).entries.val[out].expiresAt <= Run(c, ops + [op]).entries.val[kept].expiresAt
  {
    var w := Run(c, ops);
    var before := AfterGet(w.entries, op.tenantId, op.at.getAt);
    LastOp(ops, op);
    RunByExpiry(c, ops, op.at.getAt);
    GetMissesAfterwards(w.entries, op.tenantId, op.at.getAt);
    assert Run(c, ops + [op]).entries ==
           AfterSet(before, c.limits, op.tenantId, FindByTenant(w.table, op.tenantId), op.at.pruneAt, op.at.setAt);
    SetEvictsSoonest(before, c.limits, op.tenantId, FindByTenant(w.table, op.tenantId), op.at, out, kept);
  }

  lemma LastOp(ops: seq<Op>, op: Op)
    requires Ticking(ops + [op]) && !op.Bulk?
    ensures (ops + [op])[..|ops|] == ops && (ops + [op])[|ops|] == op && Ticking(ops)
    ensures op.at.getAt <= op.at.pruneAt <= op.at.setAt
    ensures forall i :: 0 <= i < |ops| && !ops[i].Bulk? ==> ops[i].at.setAt <= op.at.getAt
  {
    var all := ops + [op];
    assert all[|ops|] == op && forall i :: 0 <= i < |ops| ==> all[i] == ops[i];
  }

  lemma SetEvictsSoonest(before: Entries, l: Limits, tenantId: string, features: seq<Feature>, at: Times, out: string, kept: string)
    requires l.maxTenants > 0 && before.Valid() && ByExpiry(before) && tenantId !in before.val && at.getAt <= at.setAt
    requires forall k :: k in before.val ==> before.val[k].expiresAt <= at.getAt + l.ttlMs
    requires var after := AfterSet(before, l, tenantId, features, at.pruneAt, at.setAt).val;
             out in Fresh(before, at.pruneAt) && out !in after && kept in after
    ensures before.val[out].expiresAt <= AfterSet(before, l, tenantId, features, at.pruneAt, at.setAt).val[kept].expiresAt
  {
    SetWrites(before, l, tenantId, features, at.pruneAt, at.setAt);
    RoomMadeValid(before, l.maxTenants, at.pruneAt);
    if kept != tenantId {
      EvictsSoonestToExpire(before, l.maxTenants, at.pruneAt, out, kept);
    }
  }
}
