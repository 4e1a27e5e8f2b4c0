/**
  The feature service with every await split: many processes, each with its own
  cache, over one table. Any database call may fail, a failed write may or may not
  have reached the table, and the steps of all operations interleave.
*/
module FeatureConcurrency {
  import opened Options
  import opened InsertionOrderedMaps
  import opened FeatureTables
  import opened FeatureCaches

  /** The table after a committed write, when, and for which tenant. */
  datatype Version = Version(at: int, table: Table, tenantId: string)

  /** An operation suspended at an await. `version` and `readAt` say which table a list was read from, and when. */
  datatype Flight =
    | Querying(proc: nat, tenantId: string)
    | Queried(proc: nat, tenantId: string, version: nat, readAt: int, features: seq<Feature>)
    | ReadingCurrent(proc: nat, tenantId: string, dto: seq<Update>)
    | Writing(proc: nat, tenantId: string, dto: seq<Update>, version: nat, merged: seq<Feature>)
    | Rereading(proc: nat, tenantId: string, version: nat)
    | Invalidating(proc: nat, tenantId: string, version: nat)

  /** A load that ran to its end: where its list came from and when it was stored. */
  datatype LoadLog = LoadLog(proc: nat, tenantId: string, version: nat, readAt: int, setAt: int, features: seq<Feature>)

  /** A list handed to a caller, and the load it stems from. */
  datatype Answer = Answer(proc: nat, tenantId: string, at: int, features: seq<Feature>, hit: bool, load: nat)

  /** An invalidation: the write it belongs to and how many loads had ended by then. */
  datatype Drop = Drop(proc: nat, tenantId: string, version: nat, at: int, loadsBefore: nat)

  datatype Sys = Sys(
    clock: int, history: seq<Version>, caches: map<nat, Entries>, flights: map<nat, Flight>,
    origin: map<(nat, string), nat>, loads: seq<LoadLog>, answers: seq<Answer>, drops: seq<Drop>)

  const START := Sys(0, [Version(0, [], "")], map[], map[], map[], [], [], [])

  datatype Event =
    | Ask(id: nat, proc: nat, tenantId: string, at: int)
    | Query(id: nat, ok: bool, at: int)
    | Finish(id: nat, pruneAt: int, at: int)
    | Put(id: nat, proc: nat, tenantId: string, dto: seq<Update>, at: int)
    | Write(id: nat, reached: bool, ok: bool, at: int)
    | Reread(id: nat, ok: bool, at: int)
    | Invalidate(id: nat, at: int)

  function CacheOf(s: Sys, p: nat): Entries {
    if p in s.caches then s.caches[p] else Empty()
  }

  function Current(s: Sys): Table
    requires s.history != []
  {
    s.history[|s.history| - 1].table
  }

  ghost predicate Enabled(s: Sys, e: Event) {
    && s.clock <= e.at
    && match e
       case Ask(id, _, tenantId, _) => id !in s.flights && tenantId != ""
       case Put(id, _, tenantId, dto, _) => id !in s.flights && tenantId != "" && DistinctUpdates(dto)
       case Query(id, _, _) => id in s.flights && (s.flights[id].Querying? || s.flights[id].ReadingCurrent?)
       case Finish(id, pruneAt, _) => id in s.flights && s.flights[id].Queried? && s.clock <= pruneAt <= e.at
       case Write(id, reached, ok, _) => id in s.flights && s.flights[id].Writing? && (ok ==> reached)
       case Reread(id, _, _) => id in s.flights && s.flights[id].Rereading?
       case Invalidate(id, _) => id in s.flights && s.flights[id].Invalidating?
  }

  // ---- one step of each kind ----

  /** `loadFeatures` up to its await: the cache lookup, and on a miss the query is sent. */
  function Asked(s: Sys, id: nat, p: nat, t: string, at: int): Sys {
    var cache := CacheOf(s, p);
    var found := Hit(cache, t, at);
    var s1 := s.(clock := at, caches := s.caches[p := AfterGet(cache, t, at)]);
    if found.Some? then
      s1.(answers := s.answers + [Answer(p, t, at, found.value, true, if (p, t) in s.origin then s.origin[(p, t)] else 0)])
    else s1.(flights := s.flights[id := Querying(p, t)])
  }

  /** The rows are read, for a load or for an update. */
  function Fetched(s: Sys, id: nat, ok: bool, at: int): Sys
    requires s.history != [] && id in s.flights && (s.flights[id].Querying? || s.flights[id].ReadingCurrent?)
  {
    var f := s.flights[id];
    var rows := FindByTenant(Current(s), f.tenantId);
    s.(clock := at,
       flights := if !ok then s.flights - {id}
                  else s.flights[id := if f.Querying? then Queried(f.proc, f.tenantId, |s.history| - 1, at, rows)
                                       else Writing(f.proc, f.tenantId, f.dto, |s.history| - 1, Merge(f.dto, rows))])
  }

  /** The rest of a load: the list goes into the cache and to the caller. */
  function Finished(l: Limits, s: Sys, id: nat, pruneAt: int, at: int): Sys
    requires l.maxTenants > 0 && id in s.flights && s.flights[id].Queried?
  {
    var f := s.flights[id];
    s.(clock := at, flights := s.flights - {id},
       caches := s.caches[f.proc := AfterSet(CacheOf(s, f.proc), l, f.tenantId, f.features, pruneAt, at)],
       origin := s.origin[(f.proc, f.tenantId) := |s.loads|],
       loads := s.loads + [LoadLog(f.proc, f.tenantId, f.version, f.readAt, at, f.features)],
       answers := s.answers + [Answer(f.proc, f.tenantId, at, f.features, false, |s.loads|)])
  }

  /** The upsert reaches the table or not, and reports that it worked or not. */
  function Written(s: Sys, id: nat, reached: bool, ok: bool, at: int): Sys
    requires s.history != [] && id in s.flights && s.flights[id].Writing?
  {
    var f := s.flights[id];
    s.(clock := at,
       history := if reached then s.history + [Version(at, Upsert(Current(s), f.tenantId, f.merged), f.tenantId)] else s.history,
       flights := if ok then s.flights[id := Rereading(f.proc, f.tenantId, |s.history|)] else s.flights - {id})
  }

  /** The saved rows are read back. */
  function ReadBack(s: Sys, id: nat, ok: bool, at: int): Sys
    requires id in s.flights && s.flights[id].Rereading?
  {
    var f := s.flights[id];
    s.(clock := at, flights := if ok then s.flights[id := Invalidating(f.proc, f.tenantId, f.version)] else s.flights - {id})
  }

  function Invalidated(s: Sys, id: nat, at: int): Sys
    requires id in s.flights && s.flights[id].Invalidating?
  {
    var f := s.flights[id];
    s.(clock := at, flights := s.flights - {id},
       caches := s.caches[f.proc := AfterInvalidate(CacheOf(s, f.proc), f.tenantId)],
       drops := s.drops + [Drop(f.proc, f.tenantId, f.version, at, |s.loads|)])
  }

  ghost function Apply(l: Limits, s: Sys, e: Event): (t: Sys)
    requires l.maxTenants > 0 && s.history != [] && Enabled(s, e)
    ensures t.history != []
  {
    match e
    case Ask(id, p, t, at) => Asked(s, id, p, t, at)
    case Query(id, ok, at) => Fetched(s, id, ok, at)
    case Finish(id, pruneAt, at) => Finished(l, s, id, pruneAt, at)
    case Put(id, p, t, dto, at) => s.(clock := at, flights := s.flights[id := ReadingCurrent(p, t, dto)])
    case Write(id, reached, ok, at) => Written(s, id, reached, ok, at)
    case Reread(id, ok, at) => ReadBack(s, id, ok, at)
    case Invalidate(id, at) => Invalidated(s, id, at)
  }

  /** Every event of the run is enabled when it happens. */
  ghost predicate Possible(l: Limits, events: seq<Event>)
    requires l.maxTenants > 0
    decreases |events|, 0
  {
    events == [] ||
    var front := events[..|events| - 1];
    Possible(l, front) && Enabled(Run(l, front), events[|events| - 1])
  }

  ghost function Run(l: Limits, events: seq<Event>): (s: Sys)
    requires l.maxTenants > 0 && Possible(l, events)
    ensures s.history != []
    decreases |events|, 1
  {
    if events == [] then START else Apply(l, Run(l, events[..|events| - 1]), events[|events| - 1])
  }

  // ---- the invariant ----

  ghost predicate HistoryOk(h: seq<Version>, clock: int) {
    && h != []
    && (forall i :: 0 <= i < |h| ==> OneLive(h[i].table) && h[i].at <= clock)
    && InOrder(h)
    && EachScoped(h)
  }

  ghost predicate InOrder(h: seq<Version>) {
    forall i, j :: 0 <= i < j < |h| ==> h[i].at <= h[j].at
  }

  ghost predicate EachScoped(h: seq<Version>) {
    forall i :: 0 < i < |h| ==> ScopedAt(h, i)
  }

  ghost predicate ScopedAt(h: seq<Version>, i: int)
    requires 0 < i < |h|
  {
    ScopedTo(h[i - 1].table, h[i].table, h[i].tenantId)
  }

  /** Only this tenant's rows differ. */
  ghost predicate ScopedTo(t: Table, u: Table, tenantId: string) {
    forall x :: x != tenantId ==> FindByTenant(u, x) == FindByTenant(t, x)
  }

  /** Version `v` was the table at instant `at`. */
  ghost predicate InForce(s: Sys, v: nat, at: int) {
    v < |s.history| && s.history[v].at <= at <= s.clock && (v + 1 < |s.history| ==> at <= s.history[v + 1].at)
  }

  ghost predicate FlightOk(s: Sys, f: Flight) {
    match f
    case Queried(_, t, v, readAt, fs) => InForce(s, v, readAt) && fs == FindByTenant(s.history[v].table, t)
    case Writing(_, t, dto, v, merged) => v < |s.history| && merged == Merge(dto, FindByTenant(s.history[v].table, t))
    case Rereading(_, t, v) => v < |s.history| && s.history[v].tenantId == t
    case Invalidating(_, t, v) => v < |s.history| && s.history[v].tenantId == t
    case _ => true
  }

  ghost predicate LoadOk(s: Sys, r: LoadLog) {
    InForce(s, r.version, r.readAt) && r.readAt <= r.setAt <= s.clock && r.features == FindByTenant(s.history[r.version].table, r.tenantId)
  }

  ghost predicate EntryOk(l: Limits, s: Sys, p: nat, t: string, e: CacheEntry) {
    && (p, t) in s.origin && s.origin[(p, t)] < |s.loads|
    && var r := s.loads[s.origin[(p, t)]];
       r.proc == p && r.tenantId == t && e == CacheEntry(r.features, r.setAt + l.ttlMs)
  }

  ghost predicate AnswerOk(l: Limits, s: Sys, a: Answer) {
    && a.load < |s.loads|
    && var r := s.loads[a.load];
       && r.proc == a.proc && r.tenantId == a.tenantId && r.features == a.features
       && r.setAt <= a.at
       && (a.hit ==> a.at < r.setAt + l.ttlMs)
       && (!a.hit ==> a.at == r.setAt)
  }

  ghost predicate DropOk(s: Sys, d: Drop) {
    && d.version < |s.history| && s.history[d.version].tenantId == d.tenantId
    && s.history[d.version].at <= d.at <= s.clock && d.loadsBefore <= |s.loads|
    && (forall i :: d.loadsBefore <= i < |s.loads| ==> d.at <= s.loads[i].setAt)
    && (d.proc in s.caches && d.tenantId in s.caches[d.proc].val && (d.proc, d.tenantId) in s.origin ==>
          d.loadsBefore <= s.origin[(d.proc, d.tenantId)])
  }

  ghost predicate CachesOk(l: Limits, s: Sys) {
    forall p :: p in s.caches ==>
      && ValidEntries(s.caches[p], l)
      && (l.ttlMs == 0 ==> s.caches[p].val == map[])
      && forall t :: t in s.caches[p].val ==> EntryOk(l, s, p, t, s.caches[p].val[t])
  }

  ghost predicate Inv(l: Limits, s: Sys) {
    && HistoryOk(s.history, s.clock)
    && CachesOk(l, s)
    && (forall id :: id in s.flights ==> FlightOk(s, s.flights[id]))
    && (forall i :: 0 <= i < |s.loads| ==> LoadOk(s, s.loads[i]))
    && (forall i :: 0 <= i < |s.answers| ==> AnswerOk(l, s, s.answers[i]))
    && (forall i :: 0 <= i < |s.drops| ==> DropOk(s, s.drops[i]))
  }

  // ---- one step keeps it ----

  /** Records survive when the history and the load log only grow and the clock only advances. */
  ghost predicate Grows(s: Sys, t: Sys) {
    && s.clock <= t.clock
    && |s.history| <= |t.history| && t.history[..|s.history|] == s.history
    && (|t.history| > |s.history| > 0 ==> t.history[|s.history|].at >= s.clock)
    && |s.loads| <= |t.loads| && t.loads[..|s.loads|] == s.loads
  }

  lemma InForceLater(s: Sys, t: Sys, v: nat, at: int)
    requires Grows(s, t) && InForce(s, v, at)
    ensures InForce(t, v, at) && t.history[v] == s.history[v]
  {
    assert t.history[..|s.history|][v] == t.history[v];
    if v + 1 < |s.history| {
      assert t.history[..|s.history|][v + 1] == t.history[v + 1];
    }
  }

  lemma RecordsSurvive(l: Limits, s: Sys, t: Sys)
    requires Inv(l, s) && Grows(s, t)
    ensures forall id :: id in s.flights ==> FlightOk(t, s.flights[id])
    ensures forall i :: 0 <= i < |s.loads| ==> LoadOk(t, t.loads[i])
    ensures forall i :: 0 <= i < |s.answers| ==> AnswerOk(l, t, s.answers[i])
  {
    assert forall i :: 0 <= i < |s.loads| ==> t.loads[i] == s.loads[i];
    assert forall i :: 0 <= i < |s.history| ==> t.history[i] == s.history[i];
    forall id | id in s.flights ensures FlightOk(t, s.flights[id]) {
      assert FlightOk(s, s.flights[id]);
      if s.flights[id].Queried? {
        InForceLater(s, t, s.flights[id].version, s.flights[id].readAt);
      }
    }
    forall i | 0 <= i < |s.loads| ensures LoadOk(t, t.loads[i]) {
      assert LoadOk(s, s.loads[i]);
      InForceLater(s, t, s.loads[i].version, s.loads[i].readAt);
    }
    forall i | 0 <= i < |s.answers| ensures AnswerOk(l, t, s.answers[i]) {
      assert AnswerOk(l, s, s.answers[i]);
    }
  }

  lemma DropsSurvive(s: Sys, t: Sys, d: Drop)
    requires Grows(s, t) && DropOk(s, d)
    requires forall i :: |s.loads| <= i < |t.loads| ==> d.at <= t.loads[i].setAt
    requires d.proc in t.caches && d.tenantId in t.caches[d.proc].val && (d.proc, d.tenantId) in t.origin ==>
               d.loadsBefore <= t.origin[(d.proc, d.tenantId)]
    ensures DropOk(t, d)
  {
    assert t.history[d.version] == s.history[d.version] by {
      assert t.history[..|s.history|][d.version] == s.history[d.version];
    }
    forall i | 0 <= i < |s.loads| ensures t.loads[i] == s.loads[i] {
      assert t.loads[..|s.loads|][i] == s.loads[i];
    }
  }

  /** A step that changes one cache only by removing entries, and logs nothing about loads. */
  lemma ShrunkCacheOk(l: Limits, s: Sys, t: Sys, p: nat, cache: Entries)
    requires Inv(l, s) && ValidEntries(cache, l)
    requires t.caches == s.caches[p := cache] && t.origin == s.origin && t.loads == s.loads
    requires cache.val.Keys <= CacheOf(s, p).val.Keys && forall k :: k in cache.val ==> cache.val[k] == CacheOf(s, p).val[k]
    ensures CachesOk(l, t)
  {
    forall q | q in t.caches
      ensures ValidEntries(t.caches[q], l) && (l.ttlMs == 0 ==> t.caches[q].val == map[])
      ensures forall k :: k in t.caches[q].val ==> EntryOk(l, t, q, k, t.caches[q].val[k])
    {
      forall k | k in t.caches[q].val ensures EntryOk(l, t, q, k, t.caches[q].val[k]) {
        assert EntryOk(l, s, q, k, CacheOf(s, q).val[k]);
      }
    }
  }

  lemma CacheOfOk(l: Limits, s: Sys, p: nat)
    requires CachesOk(l, s) && l.maxTenants > 0
    ensures ValidEntries(CacheOf(s, p), l) && (l.ttlMs == 0 ==> CacheOf(s, p).val == map[])
    ensures forall k :: k in CacheOf(s, p).val ==> EntryOk(l, s, p, k, CacheOf(s, p).val[k])
  {
  }

  lemma HitAnswerOk(l: Limits, s: Sys, p: nat, tenantId: string, at: int)
    requires l.maxTenants > 0 && Inv(l, s) && s.clock <= at && Hit(CacheOf(s, p), tenantId, at).Some?
    ensures (p, tenantId) in s.origin
    ensures AnswerOk(l, s, Answer(p, tenantId, at, Hit(CacheOf(s, p), tenantId, at).value, true, s.origin[(p, tenantId)]))
  {
    CacheOfOk(l, s, p);
    assert EntryOk(l, s, p, tenantId, CacheOf(s, p).val[tenantId]);
    assert LoadOk(s, s.loads[s.origin[(p, tenantId)]]);
  }

  /** A step that leaves the history and the load log alone, shrinks at most one cache, and adds sound flights and answers. */
  lemma QuietStepKeepsInv(l: Limits, s: Sys, t: Sys, p: nat, cache: Entries)
    requires l.maxTenants > 0 && Inv(l, s) && s.clock <= t.clock
    requires t.history == s.history && t.loads == s.loads && t.origin == s.origin && t.drops == s.drops
    requires t.caches == s.caches[p := cache] && ValidEntries(cache, l)
    requires cache.val.Keys <= CacheOf(s, p).val.Keys && forall k :: k in cache.val ==> cache.val[k] == CacheOf(s, p).val[k]
    requires forall id :: id in t.flights ==> (id in s.flights && t.flights[id] == s.flights[id]) || FlightOk(t, t.flights[id])
    requires |s.answers| <= |t.answers| && t.answers[..|s.answers|] == s.answers
    requires forall i :: |s.answers| <= i < |t.answers| ==> AnswerOk(l, s, t.answers[i])
    ensures Inv(l, t)
  {
    RecordsSurvive(l, s, t);
    ShrunkCacheOk(l, s, t, p, cache);
    forall i | 0 <= i < |t.drops| ensures DropOk(t, t.drops[i]) {
      DropsSurvive(s, t, s.drops[i]);
    }
    forall i | 0 <= i < |t.answers| ensures AnswerOk(l, t, t.answers[i]) {
      assert i < |s.answers| ==> t.answers[..|s.answers|][i] == s.answers[i];
    }
  }

  lemma HitKeepsInv(l: Limits, s: Sys, p: nat, t: string, at: int, after: Sys)
    requires l.maxTenants > 0 && Inv(l, s) && s.clock <= at && Hit(CacheOf(s, p), t, at).Some? && (p, t) in s.origin
    requires var found := Hit(CacheOf(s, p), t, at).value;
             after == s.(clock := at, caches := s.caches[p := AfterGet(CacheOf(s, p), t, at)],
                         answers := s.answers + [Answer(p, t, at, found, true, s.origin[(p, t)])])
    ensures Inv(l, after)
  {
    CacheOfOk(l, s, p);
    OthersKeepValid(CacheOf(s, p), l, t, at);
    HitAnswerOk(l, s, p, t, at);
    QuietStepKeepsInv(l, s, after, p, AfterGet(CacheOf(s, p), t, at));
  }

  lemma MissKeepsInv(l: Limits, s: Sys, id: nat, p: nat, t: string, at: int, after: Sys)
    requires l.maxTenants > 0 && Inv(l, s) && s.clock <= at && id !in s.flights
    requires after == s.(clock := at, caches := s.caches[p := AfterGet(CacheOf(s, p), t, at)], flights := s.flights[id := Querying(p, t)])
    ensures Inv(l, after)
  {
    CacheOfOk(l, s, p);
    OthersKeepValid(CacheOf(s, p), l, t, at);
    QuietStepKeepsInv(l, s, after, p, AfterGet(CacheOf(s, p), t, at));
  }

  lemma AskKeepsInv(l: Limits, s: Sys, id: nat, p: nat, t: string, at: int)
    requires l.maxTenants > 0 && Inv(l, s) && s.clock <= at && id !in s.flights
    ensures Inv(l, Asked(s, id, p, t, at))
  {
    if Hit(CacheOf(s, p), t, at).Some? {
      HitAnswerOk(l, s, p, t, at);
      HitKeepsInv(l, s, p, t, at, Asked(s, id, p, t, at));
    } else {
      MissKeepsInv(l, s, id, p, t, at, Asked(s, id, p, t, at));
    }
  }

  lemma CachesSurvive(l: Limits, s: Sys, t: Sys)
    requires Inv(l, s) && t.caches == s.caches && t.origin == s.origin && t.loads == s.loads
    ensures CachesOk(l, t)
  {
    forall p, k | p in t.caches && k in t.caches[p].val ensures EntryOk(l, t, p, k, t.caches[p].val[k]) {
      assert EntryOk(l, s, p, k, s.caches[p].val[k]);
    }
  }

  /** What the cache of the finishing process holds afterwards: the new list, and entries it had. */
  lemma FinishedEntry(l: Limits, s: Sys, id: nat, pruneAt: int, at: int, p: nat, k: string)
    requires l.maxTenants > 0 && CachesOk(l, s) && id in s.flights && s.flights[id].Queried?
    requires var t := Finished(l, s, id, pruneAt, at); p in t.caches && k in t.caches[p].val
    ensures var t, f := Finished(l, s, id, pruneAt, at), s.flights[id];
            if (p, k) == (f.proc, f.tenantId) then t.caches[p].val[k] == CacheEntry(f.features, at + l.ttlMs)
            else p in s.caches && k in s.caches[p].val && t.caches[p].val[k] == s.caches[p].val[k]
  {
    var f := s.flights[id];
    CacheOfOk(l, s, p);
    if p == f.proc && l.ttlMs > 0 {
      SetWrites(CacheOf(s, p), l, f.tenantId, f.features, pruneAt, at);
    }
  }

  lemma FinishedEntryOk(l: Limits, s: Sys, id: nat, pruneAt: int, at: int, p: nat, k: string)
    requires l.maxTenants > 0 && CachesOk(l, s) && id in s.flights && s.flights[id].Queried?
    requires var t := Finished(l, s, id, pruneAt, at); p in t.caches && k in t.caches[p].val
    ensures var t := Finished(l, s, id, pruneAt, at); EntryOk(l, t, p, k, t.caches[p].val[k])
  {
    FinishedEntry(l, s, id, pruneAt, at, p, k);
    if (p, k) != (s.flights[id].proc, s.flights[id].tenantId) {
      assert EntryOk(l, s, p, k, s.caches[p].val[k]);
    }
  }

  lemma FinishKeepsCaches(l: Limits, s: Sys, id: nat, pruneAt: int, at: int)
    requires l.maxTenants > 0 && CachesOk(l, s) && id in s.flights && s.flights[id].Queried?
    ensures CachesOk(l, Finished(l, s, id, pruneAt, at))
  {
    var f := s.flights[id];
    var t := Finished(l, s, id, pruneAt, at);
    CacheOfOk(l, s, f.proc);
    SetKeepsValid(CacheOf(s, f.proc), l, f.tenantId, f.features, pruneAt, at);
    forall p, k | p in t.caches && k in t.caches[p].val ensures EntryOk(l, t, p, k, t.caches[p].val[k]) {
      FinishedEntryOk(l, s, id, pruneAt, at, p, k);
    }
  }

  lemma FinishKeepsDrop(l: Limits, s: Sys, id: nat, pruneAt: int, at: int, d: Drop)
    requires l.maxTenants > 0 && CachesOk(l, s) && id in s.flights && s.flights[id].Queried?
    requires s.clock <= at && s.history != [] && DropOk(s, d)
    ensures DropOk(Finished(l, s, id, pruneAt, at), d)
  {
    var t := Finished(l, s, id, pruneAt, at);
    if d.proc in t.caches && d.tenantId in t.caches[d.proc].val {
      FinishedEntry(l, s, id, pruneAt, at, d.proc, d.tenantId);
      if d.proc in s.caches && d.tenantId in s.caches[d.proc].val {
        assert EntryOk(l, s, d.proc, d.tenantId, s.caches[d.proc].val[d.tenantId]);
      }
    }
    DropsSurvive(s, t, d);
  }

  lemma FinishGrows(l: Limits, s: Sys, id: nat, pruneAt: int, at: int)
    requires l.maxTenants > 0 && s.clock <= at && id in s.flights && s.flights[id].Queried? && FlightOk(s, s.flights[id])
    ensures var t, f := Finished(l, s, id, pruneAt, at), s.flights[id];
            Grows(s, t) && LoadOk(t, LoadLog(f.proc, f.tenantId, f.version, f.readAt, at, f.features))
  {
    var f := s.flights[id];
    InForceLater(s, Finished(l, s, id, pruneAt, at), f.version, f.readAt);
  }

  lemma FinishKeepsRecords(l: Limits, s: Sys, id: nat, pruneAt: int, at: int)
    requires l.maxTenants > 0 && Inv(l, s) && s.clock <= at && id in s.flights && s.flights[id].Queried?
    ensures var t := Finished(l, s, id, pruneAt, at);
            && Grows(s, t)
            && (forall i :: 0 <= i < |t.loads| ==> LoadOk(t, t.loads[i]))
            && (forall i :: 0 <= i < |t.answers| ==> AnswerOk(l, t, t.answers[i]))
            && forall other :: other in t.flights ==> FlightOk(t, t.flights[other])
  {
    var t := Finished(l, s, id, pruneAt, at);
    FinishGrows(l, s, id, pruneAt, at);
    RecordsSurvive(l, s, t);
  }

  lemma FinishKeepsInv(l: Limits, s: Sys, id: nat, pruneAt: int, at: int)
    requires l.maxTenants > 0 && Inv(l, s) && s.clock <= at && id in s.flights && s.flights[id].Queried?
    ensures Inv(l, Finished(l, s, id, pruneAt, at))
  {
    var t := Finished(l, s, id, pruneAt, at);
    FinishKeepsRecords(l, s, id, pruneAt, at);
    FinishKeepsCaches(l, s, id, pruneAt, at);
    forall i | 0 <= i < |t.drops| ensures DropOk(t, t.drops[i]) {
      FinishKeepsDrop(l, s, id, pruneAt, at, s.drops[i]);
    }
  }

  lemma ScopedExtends(h: seq<Version>, v: Version)
    requires h != [] && EachScoped(h) && ScopedTo(h[|h| - 1].table, v.table, v.tenantId)
    ensures EachScoped(h + [v])
  {
    var g := h + [v];
    forall i | 0 < i < |g| ensures ScopedAt(g, i) {
      assert g[i] == (if i < |h| then h[i] else v) && g[i - 1] == h[i - 1];
      if i < |h| {
        assert ScopedAt(h, i);
      }
    }
  }

  lemma OrderExtends(h: seq<Version>, clock: int, v: Version)
    requires InOrder(h) && clock <= v.at && forall i :: 0 <= i < |h| ==> h[i].at <= clock
    ensures InOrder(h + [v])
  {
  }

  /** An upsert adds a version that differs in the written tenant's rows only. */
  lemma UpsertExtendsHistory(h: seq<Version>, clock: int, tenantId: string, fs: seq<Feature>, at: int)
    requires HistoryOk(h, clock) && clock <= at
    ensures HistoryOk(h + [Version(at, Upsert(h[|h| - 1].table, tenantId, fs), tenantId)], at)
  {
    var last := h[|h| - 1].table;
    assert OneLive(last);
    UpsertLookup(last, tenantId, fs);
    forall x | x != tenantId {
      UpsertIsScoped(last, tenantId, fs, x);
    }
    var v := Version(at, Upsert(last, tenantId, fs), tenantId);
    ScopedExtends(h, v);
    OrderExtends(h, clock, v);
  }

  /** A step that leaves caches, loads, answers and drops alone and may add one version. */
  lemma TableStepKeepsInv(l: Limits, s: Sys, t: Sys)
    requires l.maxTenants > 0 && Inv(l, s) && Grows(s, t) && HistoryOk(t.history, t.clock)
    requires t == s.(clock := t.clock, history := t.history, flights := t.flights)
    requires forall id :: id in t.flights ==> (id in s.flights && t.flights[id] == s.flights[id]) || FlightOk(t, t.flights[id])
    ensures Inv(l, t)
  {
    RecordsSurvive(l, s, t);
    CachesSurvive(l, s, t);
    forall i | 0 <= i < |t.drops| ensures DropOk(t, t.drops[i]) {
      DropsSurvive(s, t, s.drops[i]);
    }
  }

  lemma FetchedFlightOk(s: Sys, id: nat, at: int)
    requires s.history != [] && s.history[|s.history| - 1].at <= at
    requires id in s.flights && (s.flights[id].Querying? || s.flights[id].ReadingCurrent?)
    ensures var t := Fetched(s, id, true, at); FlightOk(t, t.flights[id])
  {
    var t := Fetched(s, id, true, at);
    assert InForce(t, |s.history| - 1, at);
  }

  lemma QueryKeepsInv(l: Limits, s: Sys, id: nat, ok: bool, at: int)
    requires l.maxTenants > 0 && Inv(l, s) && s.clock <= at
    requires id in s.flights && (s.flights[id].Querying? || s.flights[id].ReadingCurrent?)
    ensures Inv(l, Fetched(s, id, ok, at))
  {
    FetchedFlightOk(s, id, at);
    TableStepKeepsInv(l, s, Fetched(s, id, ok, at));
  }

  lemma WriteKeepsInv(l: Limits, s: Sys, id: nat, reached: bool, ok: bool, at: int)
    requires l.maxTenants > 0 && Inv(l, s) && s.clock <= at && id in s.flights && s.flights[id].Writing? && (ok ==> reached)
    ensures Inv(l, Written(s, id, reached, ok, at))
  {
    UpsertExtendsHistory(s.history, s.clock, s.flights[id].tenantId, s.flights[id].merged, at);
    TableStepKeepsInv(l, s, Written(s, id, reached, ok, at));
  }

  lemma ReadBackKeepsInv(l: Limits, s: Sys, id: nat, ok: bool, at: int)
    requires l.maxTenants > 0 && Inv(l, s) && s.clock <= at && id in s.flights && s.flights[id].Rereading?
    ensures Inv(l, ReadBack(s, id, ok, at))
  {
    assert FlightOk(s, s.flights[id]);
    TableStepKeepsInv(l, s, ReadBack(s, id, ok, at));
  }

  lemma InvalidateKeepsInv(l: Limits, s: Sys, id: nat, at: int)
    requires l.maxTenants > 0 && Inv(l, s) && s.clock <= at && id in s.flights && s.flights[id].Invalidating?
    ensures Inv(l, Invalidated(s, id, at))
  {
    var t := Invalidated(s, id, at);
    var f := s.flights[id];
    var cache := CacheOf(s, f.proc);
    CacheOfOk(l, s, f.proc);
    OthersKeepValid(cache, l, f.tenantId, at);
    RecordsSurvive(l, s, t);
    ShrunkCacheOk(l, s, t, f.proc, AfterInvalidate(cache, f.tenantId));
    DropsAfterInvalidation(l, s, id, at, t);
  }

  lemma DropsAfterInvalidation(l: Limits, s: Sys, id: nat, at: int, t: Sys)
    requires l.maxTenants > 0 && Inv(l, s) && s.clock <= at && id in s.flights && s.flights[id].Invalidating?
    requires t == Invalidated(s, id, at)
    ensures forall i :: 0 <= i < |t.drops| ==> DropOk(t, t.drops[i])
  {
    assert FlightOk(s, s.flights[id]);
    forall i | 0 <= i < |t.drops| ensures DropOk(t, t.drops[i]) {
      if i < |s.drops| {
        assert DropOk(s, s.drops[i]);
        DropsSurvive(s, t, s.drops[i]);
      }
    }
  }

  lemma {:induction false} RunKeepsInv(l: Limits, events: seq<Event>)
    requires l.maxTenants > 0 && Possible(l, events)
    ensures Inv(l, Run(l, events))
  {
    if events != [] {
      var front, e := events[..|events| - 1], events[|events| - 1];
      RunKeepsInv(l, front);
      var s := Run(l, front);
      match e
      case Ask(id, p, t, at) => AskKeepsInv(l, s, id, p, t, at);
      case Query(id, ok, at) => QueryKeepsInv(l, s, id, ok, at);
      case Finish(id, pruneAt, at) => FinishKeepsInv(l, s, id, pruneAt, at);
      case Put(_, _, _, _, _) => TableStepKeepsInv(l, s, Apply(l, s, e));
      case Write(id, reached, ok, at) => WriteKeepsInv(l, s, id, reached, ok, at);
      case Reread(id, ok, at) => ReadBackKeepsInv(l, s, id, ok, at);
      case Invalidate(id, at) => InvalidateKeepsInv(l, s, id, at);
    }
  }

  // ---- main results ----

  /**
    Bounded staleness. Every list ever handed out is exactly what the table held for
    that tenant when some ended load of the same process read it; a cache hit comes
    less than the TTL plus that load's read-to-set delay after the read.
  */
  lemma AnswersAreBoundedlyStale(l: Limits, events: seq<Event>, s: Sys, i: nat) returns (r: LoadLog)
    requires l.maxTenants > 0 && Possible(l, events) && s == Run(l, events) && i < |s.answers|
    ensures var a := s.answers[i];
            && r in s.loads && r.proc == a.proc && r.tenantId == a.tenantId
            && InForce(s, r.version, r.readAt)
            && a.features == FindByTenant(s.history[r.version].table, a.tenantId)
            && r.readAt <= a.at
            && (a.hit ==> a.at - r.readAt < l.ttlMs + (r.setAt - r.readAt))
            && (!a.hit ==> a.at == r.setAt)
  {
    RunKeepsInv(l, events);
    assert AnswerOk(l, s, s.answers[i]);
    r := s.loads[s.answers[i].load];
    assert LoadOk(s, s.loads[s.answers[i].load]);
  }

  lemma UntouchedStep(h: seq<Version>, tenantId: string, w: nat)
    requires EachScoped(h) && 0 < w < |h| && h[w].tenantId != tenantId
    ensures FindByTenant(h[w - 1].table, tenantId) == FindByTenant(h[w].table, tenantId)
  {
    assert ScopedAt(h, w);
  }

  lemma {:induction false} UntouchedBetween(h: seq<Version>, tenantId: string, v: nat, w: nat)
    requires EachScoped(h) && v <= w < |h|
    requires forall i :: v < i <= w ==> h[i].tenantId != tenantId
    ensures FindByTenant(h[v].table, tenantId) == FindByTenant(h[w].table, tenantId)
    decreases w
  {
    if v < w {
      UntouchedBetween(h, tenantId, v, w - 1);
      UntouchedStep(h, tenantId, w);
    }
  }

  /** Writes for other tenants never make a list stale: a difference needs a committed write for this tenant after the read. */
  lemma FreshUntilOwnWrite(l: Limits, events: seq<Event>, s: Sys, tenantId: string, v: nat, w: nat)
    requires l.maxTenants > 0 && Possible(l, events) && s == Run(l, events) && v <= w < |s.history|
    requires forall i :: v < i <= w ==> s.history[i].tenantId != tenantId
    ensures FindByTenant(s.history[v].table, tenantId) == FindByTenant(s.history[w].table, tenantId)
  {
    RunKeepsInv(l, events);
    UntouchedBetween(s.history, tenantId, v, w);
  }

  lemma ServedAfterDrop(l: Limits, s: Sys, tenantId: string, now: int, d: Drop) returns (r: LoadLog)
    requires l.maxTenants > 0 && Inv(l, s) && DropOk(s, d) && d.tenantId == tenantId
    requires Hit(CacheOf(s, d.proc), tenantId, now).Some?
    ensures r in s.loads && LoadOk(s, r) && r.proc == d.proc && r.tenantId == tenantId && d.at <= r.setAt
    ensures Hit(CacheOf(s, d.proc), tenantId, now) == Some(r.features) && now < r.setAt + l.ttlMs
  {
    CacheOfOk(l, s, d.proc);
    assert EntryOk(l, s, d.proc, tenantId, CacheOf(s, d.proc).val[tenantId]);
    var o := s.origin[(d.proc, tenantId)];
    r := s.loads[o];
    assert LoadOk(s, s.loads[o]);
  }

  lemma ReadBefore(s: Sys, v: nat, at: int, w: nat)
    requires InOrder(s.history) && InForce(s, v, at) && v < w < |s.history|
    ensures at <= s.history[w].at
  {
    assert v + 1 < w ==> s.history[v + 1].at <= s.history[w].at;
  }

  /**
    What an invalidation leaves behind in its process: an entry that later serves the
    tenant was stored by a load that ended after it, so one that read an older table
    than the invalidated write was in flight: read before the write, set after the
    invalidation.
  */
  lemma StaleHitWasInFlight(l: Limits, events: seq<Event>, s: Sys, tenantId: string, now: int, i: nat) returns (r: LoadLog)
    requires l.maxTenants > 0 && Possible(l, events) && s == Run(l, events)
    requires i < |s.drops| && s.drops[i].tenantId == tenantId
    requires Hit(CacheOf(s, s.drops[i].proc), tenantId, now).Some?
    ensures var d := s.drops[i];
            && r in s.loads && r.proc == d.proc && r.tenantId == tenantId
            && Hit(CacheOf(s, d.proc), tenantId, now) == Some(r.features) && now < r.setAt + l.ttlMs
            && InForce(s, r.version, r.readAt) && r.features == FindByTenant(s.history[r.version].table, tenantId)
            && d.version < |s.history| && d.at <= r.setAt
            && (r.version < d.version ==> r.readAt <= s.history[d.version].at <= d.at <= r.setAt)
  {
    RunKeepsInv(l, events);
    var d := s.drops[i];
    assert DropOk(s, d);
    r := ServedAfterDrop(l, s, tenantId, now, d);
    if r.version < d.version {
      ReadBefore(s, r.version, r.readAt, d.version);
    }
  }

  /** The last committed write for the tenant after version `v`. */
  ghost predicate LastOwnWrite(h: seq<Version>, tenantId: string, v: nat, w: int) {
    v < w < |h| && h[w].tenantId == tenantId && forall i :: w < i < |h| ==> h[i].tenantId != tenantId
  }

  /** It left the tenant other rows than version `v`. */
  ghost predicate ChangedBy(h: seq<Version>, tenantId: string, v: nat, w: int) {
    LastOwnWrite(h, tenantId, v, w) && FindByTenant(h[w].table, tenantId) != FindByTenant(h[v].table, tenantId)
  }

  /** The last write for the tenant in (v, n], or `v` when there is none. */
  lemma {:induction false} FindLastOwnWrite(h: seq<Version>, tenantId: string, v: nat, n: nat) returns (w: nat)
    requires v <= n < |h|
    ensures v <= w <= n && (w == v || h[w].tenantId == tenantId)
    ensures forall i :: w < i <= n ==> h[i].tenantId != tenantId
    decreases n
  {
    if n == v || h[n].tenantId == tenantId {
      w := n;
    } else {
      w := FindLastOwnWrite(h, tenantId, v, n - 1);
    }
  }

  /** The last own write, or `v` when there is none, left what the tenant reads now. */
  lemma LatestRows(h: seq<Version>, tenantId: string, v: nat) returns (w: nat)
    requires EachScoped(h) && v < |h|
    ensures v <= w < |h| && (w == v || h[w].tenantId == tenantId)
    ensures forall i :: w < i < |h| ==> h[i].tenantId != tenantId
    ensures FindByTenant(h[w].table, tenantId) == FindByTenant(h[|h| - 1].table, tenantId)
  {
    w := FindLastOwnWrite(h, tenantId, v, |h| - 1);
    UntouchedBetween(h, tenantId, w, |h| - 1);
  }

  /** The rows a tenant reads now differ from those of version `v` exactly when the last own write since left others. */
  lemma ChangedSinceIff(h: seq<Version>, tenantId: string, v: nat)
    requires EachScoped(h) && v < |h|
    ensures FindByTenant(h[v].table, tenantId) != FindByTenant(h[|h| - 1].table, tenantId) <==> exists w :: ChangedBy(h, tenantId, v, w)
  {
    var w := LatestRows(h, tenantId, v);
    if u :| ChangedBy(h, tenantId, v, u) {
      assert u == w;
    } else if w > v {
      assert !ChangedBy(h, tenantId, v, w);
    }
  }

  lemma ServedFrom(l: Limits, s: Sys, p: nat, tenantId: string, now: int) returns (r: LoadLog)
    requires l.maxTenants > 0 && Inv(l, s) && Hit(CacheOf(s, p), tenantId, now).Some?
    ensures r in s.loads && LoadOk(s, r) && r.proc == p && r.tenantId == tenantId
    ensures Hit(CacheOf(s, p), tenantId, now) == Some(r.features) && now < r.setAt + l.ttlMs
    ensures forall i :: 0 <= i < |s.drops| && s.drops[i].proc == p && s.drops[i].tenantId == tenantId ==> s.drops[i].at <= r.setAt
  {
    CacheOfOk(l, s, p);
    assert EntryOk(l, s, p, tenantId, CacheOf(s, p).val[tenantId]);
    var o := s.origin[(p, tenantId)];
    r := s.loads[o];
    assert LoadOk(s, s.loads[o]);
    forall i | 0 <= i < |s.drops| && s.drops[i].proc == p && s.drops[i].tenantId == tenantId ensures s.drops[i].at <= r.setAt {
      assert DropOk(s, s.drops[i]);
    }
  }

  /**
    Exactly when a hit is stale, in any process, whether or not an invalidation was
    skipped. The list comes from a load; it differs from the table's rows if and only if
    the last write for the tenant committed after the version that load read left other
    rows. Such a write came no earlier than the read, and every invalidation of the
    tenant in that process came no later than the load's set.
  */
  lemma StaleHitIff(l: Limits, events: seq<Event>, s: Sys, p: nat, tenantId: string, now: int) returns (r: LoadLog)
    requires l.maxTenants > 0 && Possible(l, events) && s == Run(l, events)
    requires Hit(CacheOf(s, p), tenantId, now).Some?
    ensures r in s.loads && r.proc == p && r.tenantId == tenantId && InForce(s, r.version, r.readAt)
    ensures r.readAt <= r.setAt && now < r.setAt + l.ttlMs
    ensures Hit(CacheOf(s, p), tenantId, now).value != FindByTenant(Current(s), tenantId) <==>
            exists w :: ChangedBy(s.history, tenantId, r.version, w)
    ensures forall w :: LastOwnWrite(s.history, tenantId, r.version, w) ==> r.readAt <= s.history[w].at
    ensures forall i :: 0 <= i < |s.drops| && s.drops[i].proc == p && s.drops[i].tenantId == tenantId ==> s.drops[i].at <= r.setAt
  {
    RunKeepsInv(l, events);
    r := ServedFrom(l, s, p, tenantId, now);
    StaleLoadIff(l, s, r);
  }

  lemma StaleServedIff(h: seq<Version>, tenantId: string, v: nat, features: seq<Feature>, current: Table)
    requires EachScoped(h) && v < |h| && current == h[|h| - 1].table && features == FindByTenant(h[v].table, tenantId)
    ensures features != FindByTenant(current, tenantId) <==> exists w :: ChangedBy(h, tenantId, v, w)
  {
    ChangedSinceIff(h, tenantId, v);
  }

  lemma StaleListIff(s: Sys, r: LoadLog)
    requires s.history != [] && EachScoped(s.history) && InOrder(s.history) && LoadOk(s, r)
    ensures r.features != FindByTenant(Current(s), r.tenantId) <==> exists w :: ChangedBy(s.history, r.tenantId, r.version, w)
    ensures forall w :: LastOwnWrite(s.history, r.tenantId, r.version, w) ==> r.readAt <= s.history[w].at
  {
    StaleServedIff(s.history, r.tenantId, r.version, r.features, Current(s));
    WritesAfterRead(s, r);
  }

  lemma StaleLoadIff(l: Limits, s: Sys, r: LoadLog)
    requires Inv(l, s) && LoadOk(s, r)
    ensures r.features != FindByTenant(Current(s), r.tenantId) <==> exists w :: ChangedBy(s.history, r.tenantId, r.version, w)
    ensures forall w :: LastOwnWrite(s.history, r.tenantId, r.version, w) ==> r.readAt <= s.history[w].at
  {
    HistoryInOrder(l, s);
    StaleListIff(s, r);
  }

  lemma WritesAfterRead(s: Sys, r: LoadLog)
    requires InOrder(s.history) && InForce(s, r.version, r.readAt)
    ensures forall w :: LastOwnWrite(s.history, r.tenantId, r.version, w) ==> r.readAt <= s.history[w].at
  {
    forall w | LastOwnWrite(s.history, r.tenantId, r.version, w) ensures r.readAt <= s.history[w].at {
      ReadBefore(s, r.version, r.readAt, w);
    }
  }

  lemma HistoryInOrder(l: Limits, s: Sys)
    requires Inv(l, s)
    ensures s.history != [] && EachScoped(s.history) && InOrder(s.history)
    ensures forall i :: 0 <= i < |s.history| ==> OneLive(s.history[i].table)
  {
  }

  /** A call that reports a failure ends its operation there: nothing after it is done, so no invalidation either. */
  lemma FailureEnds(s: Sys, id: nat, reached: bool, at: int)
    requires s.history != [] && id in s.flights
    ensures var f := s.flights[id];
            && (f.Querying? || f.ReadingCurrent? ==> Fetched(s, id, false, at) == s.(clock := at, flights := s.flights - {id}))
            && (f.Writing? ==> Written(s, id, reached, false, at).flights == s.flights - {id} && Written(s, id, reached, false, at).caches == s.caches)
            && (f.Rereading? ==> ReadBack(s, id, false, at) == s.(clock := at, flights := s.flights - {id}))
  {
  }

  // ---- what an update writes back ----

  /** A committed write merges its request into the rows its execution read, not into those it overwrites. */
  lemma WriteMerges(s: Sys, id: nat, ok: bool, at: int, key: string)
    requires HistoryOk(s.history, s.clock) && id in s.flights && s.flights[id].Writing? && FlightOk(s, s.flights[id])
    ensures var f, t := s.flights[id], Written(s, id, true, ok, at);
            var after, listed := Lookup(Current(t), f.tenantId, key), Updates(f.dto, key);
            && Written(s, id, false, false, at).history == s.history
            && (listed == None ==> after == Lookup(Current(s), f.tenantId, key))
            && (listed.Some? ==>
                  && after.Some? && after.value.featureKey == key && after.value.enabled == listed.value.enabled
                  && (listed.value.numericValue == Absent ==>
                        after.value.numericValue == LimitOf(s.history[f.version].table, f.tenantId, key))
                  && (listed.value.numericValue == Null ==> after.value.numericValue == None)
                  && (listed.value.numericValue.Limit? ==> after.value.numericValue == Some(listed.value.numericValue.n)))
  {
    var f := s.flights[id];
    var read := s.history[f.version].table;
    assert OneLive(read) && OneLive(Current(s));
    UpsertLookup(Current(s), f.tenantId, f.merged);
    MergedListed(f.dto, FindByTenant(read, f.tenantId), key);
    ListedIsLookup(read, f.tenantId, key);
    if Updates(f.dto, key).Some? {
      UpdatesKey(f.dto, key);
      MergedFields(Updates(f.dto, key).value, Lookup(read, f.tenantId, key));
    }
  }

  /**
    "Absent keeps", in any interleaving: a key listed without a limit has the same limit
    after the write as just before it exactly when the limit has not changed since this
    execution read it. What is written is the limit that was read.
  */
  lemma AbsentKeepsIff(l: Limits, events: seq<Event>, s: Sys, id: nat, ok: bool, at: int, key: string)
    requires l.maxTenants > 0 && Possible(l, events) && s == Run(l, events)
    requires id in s.flights && s.flights[id].Writing?
    requires Updates(s.flights[id].dto, key).Some? && Updates(s.flights[id].dto, key).value.numericValue == Absent
    ensures var f := s.flights[id];
            && f.version < |s.history|
            && var read, before, after := s.history[f.version].table, Current(s), Current(Written(s, id, true, ok, at));
               && LimitOf(after, f.tenantId, key) == LimitOf(read, f.tenantId, key)
               && (LimitOf(after, f.tenantId, key) == LimitOf(before, f.tenantId, key) <==>
                     LimitOf(before, f.tenantId, key) == LimitOf(read, f.tenantId, key))
  {
    RunKeepsInv(l, events);
    assert FlightOk(s, s.flights[id]);
    WriteMerges(s, id, ok, at, key);
  }

  lemma SameRowsSameLimit(t: Table, u: Table, tenantId: string, key: string)
    requires OneLive(t) && OneLive(u) && FindByTenant(t, tenantId) == FindByTenant(u, tenantId)
    ensures LimitOf(t, tenantId, key) == LimitOf(u, tenantId, key)
  {
    ListedIsLookup(t, tenantId, key);
    ListedIsLookup(u, tenantId, key);
  }

  lemma UndisturbedLimit(s: Sys, f: Flight, key: string)
    requires EachScoped(s.history) && forall i :: 0 <= i < |s.history| ==> OneLive(s.history[i].table)
    requires f.Writing? && f.version < |s.history|
    requires forall w :: f.version < w < |s.history| ==> s.history[w].tenantId != f.tenantId
    ensures LimitOf(Current(s), f.tenantId, key) == LimitOf(s.history[f.version].table, f.tenantId, key)
  {
    var n := |s.history| - 1;
    var read, now := s.history[f.version].table, s.history[n].table;
    assert OneLive(read) && OneLive(now);
    UntouchedBetween(s.history, f.tenantId, f.version, n);
    SameRowsSameLimit(read, now, f.tenantId, key);
  }

  /** So it is kept whenever no write for the tenant was committed between the read and the write. */
  lemma AbsentKeepsUndisturbed(l: Limits, events: seq<Event>, s: Sys, id: nat, ok: bool, at: int, key: string)
    requires l.maxTenants > 0 && Possible(l, events) && s == Run(l, events)
    requires id in s.flights && s.flights[id].Writing?
    requires Updates(s.flights[id].dto, key).Some? && Updates(s.flights[id].dto, key).value.numericValue == Absent
    requires forall w :: s.flights[id].version < w < |s.history| ==> s.history[w].tenantId != s.flights[id].tenantId
    ensures LimitOf(Current(Written(s, id, true, ok, at)), s.flights[id].tenantId, key) == LimitOf(Current(s), s.flights[id].tenantId, key)
  {
    AbsentKeepsIff(l, events, s, id, ok, at, key);
    RunKeepsInv(l, events);
    HistoryInOrder(l, s);
    UndisturbedLimit(s, s.flights[id], key);
  }

  const SET_FIVE := [Update("K", true, Limit(5))]
  const KEEP := [Update("K", true, Absent)]

  lemma RequestArrives(l: Limits, s: Sys, id: nat, p: nat, dto: seq<Update>, at: int)
    requires l.maxTenants > 0 && s.history != [] && s.clock <= at && id !in s.flights && DistinctUpdates(dto)
    ensures var e := Put(id, p, "t", dto, at);
            Enabled(s, e) && Apply(l, s, e) == s.(clock := at, flights := s.flights[id := ReadingCurrent(p, "t", dto)])
  {
  }

  /** It reads the empty table. */
  lemma ReadEmpty(l: Limits, before: seq<Event>, s: Sys, id: nat, p: nat, dto: seq<Update>, at: int) returns (events: seq<Event>, t: Sys)
    requires l.maxTenants > 0 && Possible(l, before) && s == Run(l, before) && s.clock <= at
    requires s.history == [Version(0, [], "")] && id in s.flights && s.flights[id] == ReadingCurrent(p, "t", dto)
    ensures events == before + [Query(id, true, at)] && Possible(l, events) && t == Run(l, events)
    ensures t == s.(clock := at, flights := s.flights[id := Writing(p, "t", dto, 0, Merge(dto, FindByTenant([], "t")))])
  {
    events, t := Then(l, before, s, Query(id, true, at));
  }

  /** Both requests have read the empty table and are about to write. */
  lemma BothRead(l: Limits) returns (events: seq<Event>, s: Sys)
    requires l.maxTenants > 0
    ensures events == [] + [Put(1, 0, "t", SET_FIVE, 1)] + [Put(2, 1, "t", KEEP, 2)] + [Query(1, true, 3)] + [Query(2, true, 4)]
    ensures Possible(l, events) && s == Run(l, events) && s.clock == 4 && s.history == [Version(0, [], "")]
    ensures 1 in s.flights && s.flights[1] == Writing(0, "t", SET_FIVE, 0, Merge(SET_FIVE, FindByTenant([], "t")))
    ensures 2 in s.flights && s.flights[2] == Writing(1, "t", KEEP, 0, Merge(KEEP, FindByTenant([], "t")))
  {
    RequestArrives(l, START, 1, 0, SET_FIVE, 1);
    events, s := Then(l, [], START, Put(1, 0, "t", SET_FIVE, 1));
    RequestArrives(l, s, 2, 1, KEEP, 2);
    events, s := Then(l, events, s, Put(2, 1, "t", KEEP, 2));
    events, s := ReadEmpty(l, events, s, 1, 0, SET_FIVE, 3);
    events, s := ReadEmpty(l, events, s, 2, 1, KEEP, 4);
  }

  /** The condition can fail: a limit set between another update's read and its write is lost, though that one left it out. */
  lemma LimitIsLost(l: Limits) returns (events: seq<Event>, before: Sys, after: Sys)
    requires l.maxTenants > 0
    ensures events == [] + [Put(1, 0, "t", SET_FIVE, 1)] + [Put(2, 1, "t", KEEP, 2)] + [Query(1, true, 3)] + [Query(2, true, 4)]
                      + [Write(1, true, true, 5)]
    ensures Possible(l, events) && before == Run(l, events)
    ensures Possible(l, events + [Write(2, true, true, 6)]) && after == Run(l, events + [Write(2, true, true, 6)])
    ensures LimitOf(Current(before), "t", "K") == Some(5) && LimitOf(Current(after), "t", "K") == None
  {
    var s;
    events, s := BothRead(l);
    RunKeepsInv(l, events);
    assert [Update("K", true, Limit(5))][..0] == [];
    assert FlightOk(s, s.flights[1]);
    WriteMerges(s, 1, true, 5, "K");
    events, before := Then(l, events, s, Write(1, true, true, 5));
    RunKeepsInv(l, events);
    AbsentKeepsIff(l, events, before, 2, true, 6, "K");
    var more;
    more, after := Then(l, events, before, Write(2, true, true, 6));
  }

  // ---- exact coherence fails ----

  lemma Then(l: Limits, events: seq<Event>, s: Sys, e: Event) returns (more: seq<Event>, t: Sys)
    requires l.maxTenants > 0 && Possible(l, events) && s == Run(l, events) && Enabled(s, e)
    ensures more == events + [e] && Possible(l, more) && t == Run(l, more) && t == Apply(l, s, e)
  {
    more, t := events + [e], Apply(l, s, e);
    assert more[..|more| - 1] == events;
  }

  /** The requests of the two runs below: process 0 reads tenant "t" while it switches feature "K" off. */
  const OFF := [Update("K", false, Absent)]

  function SwitchedOffTable(): Table {
    Upsert([], "t", Merge(OFF, []))
  }

  lemma OffIsVisible()
    ensures FindByTenant([], "t") == [] && OneLive([])
    ensures FindByTenant(SwitchedOffTable(), "t") != []
  {
    var f := Feature("K", false, None);
    UpsertLookup([], "t", Merge(OFF, []));
    assert Merge(OFF, []) == [f];
    assert Listed([f], "K") == Some(f);
    var u := Upsert([], "t", Merge(OFF, []));
    assert Lookup(u, "t", "K") == Some(f);
    FindIsExact(u, "t");
    assert f in FindByTenant(u, "t");
  }

  /** The tenant has rows, where an empty list was read before. */
  ghost predicate IsOff(t: Table) {
    FindByTenant(t, "t") != []
  }

  ghost predicate ServesStale(s: Sys) {
    && s.history != [] && s.answers != []
    && var a := s.answers[|s.answers| - 1];
       a.hit && a.features != FindByTenant(Current(s), a.tenantId)
  }

  lemma FirstAsk(p: nat)
    ensures var s := Asked(START, 1, p, "t", 1);
            s.clock == 1 && s.history == START.history && s.flights == map[1 := Querying(p, "t")]
  {
  }

  lemma FirstFetch(s: Sys, p: nat)
    requires s.history == [Version(0, [], "")] && s.flights == map[1 := Querying(p, "t")]
    ensures var t := Fetched(s, 1, true, 2);
            t.clock == 2 && t.history == s.history && t.flights == map[1 := Queried(p, "t", 0, 2, [])]
  {
    OffIsVisible();
  }

  /** A miss, then the query: the list of an empty table, not stored yet. */
  lemma ReadBeforeWrite(l: Limits, p: nat) returns (events: seq<Event>, s: Sys)
    requires l.maxTenants > 0
    ensures events == [] + [Ask(1, p, "t", 1)] + [Query(1, true, 2)] && Possible(l, events) && s == Run(l, events)
    ensures s.clock == 2 && s.flights == map[1 := Queried(p, "t", 0, 2, [])] && s.history == [Version(0, [], "")]
  {
    FirstAsk(p);
    events, s := Then(l, [], START, Ask(1, p, "t", 1));
    FirstFetch(s, p);
    events, s := Then(l, events, s, Query(1, true, 2));
  }

  lemma WriteOff(l: Limits, before: seq<Event>, s: Sys, at: int) returns (events: seq<Event>, t: Sys)
    requires l.maxTenants > 0 && Possible(l, before) && s == Run(l, before) && s.clock <= at && s.history == [Version(0, [], "")]
    requires 2 in s.flights && s.flights[2] == Writing(0, "t", OFF, 0, Merge(OFF, FindByTenant([], "t")))
    ensures events == before + [Write(2, true, true, at)] && Possible(l, events) && t == Run(l, events)
    ensures t.clock == at && t.caches == s.caches && IsOff(Current(t))
    ensures t.flights == s.flights[2 := Rereading(0, "t", 1)]
  {
    OffIsVisible();
    events, t := Then(l, before, s, Write(2, true, true, at));
  }

  lemma OneUpdateIsDistinct(u: Update)
    ensures DistinctUpdates([u])
  {
  }

  /** An update up to its committed write. */
  lemma SwitchedOff(l: Limits, before: seq<Event>, s: Sys, at: int) returns (events: seq<Event>, t: Sys)
    requires l.maxTenants > 0 && Possible(l, before) && s == Run(l, before)
    requires s.clock <= at && 2 !in s.flights && s.history == [Version(0, [], "")]
    ensures events == before + [Put(2, 0, "t", OFF, at)] + [Query(2, true, at + 1)] + [Write(2, true, true, at + 2)]
    ensures Possible(l, events) && t == Run(l, events)
    ensures t.clock == at + 2 && t.flights == s.flights[2 := Rereading(0, "t", 1)] && t.caches == s.caches
    ensures IsOff(Current(t))
  {
    OneUpdateIsDistinct(OFF[0]);
    RequestArrives(l, s, 2, 0, OFF, at);
    events, t := Then(l, before, s, Put(2, 0, "t", OFF, at));
    events, t := ReadEmpty(l, events, t, 2, 0, OFF, at + 1);
    events, t := WriteOff(l, events, t, at + 2);
  }

  /** A finished load puts its list into the cache. */
  lemma Stored(l: Limits, before: seq<Event>, s: Sys, p: nat, at: int) returns (events: seq<Event>, t: Sys)
    requires l.maxTenants > 0 && l.ttlMs > 0 && Possible(l, before) && s == Run(l, before)
    requires s.clock <= at && 1 in s.flights && s.flights[1] == Queried(p, "t", 0, 2, [])
    ensures events == before + [Finish(1, at, at)] && Possible(l, events) && t == Run(l, events)
    ensures t.clock == at && t.flights == s.flights - {1} && t.history == s.history
    ensures "t" in CacheOf(t, p).val && CacheOf(t, p).val["t"] == CacheEntry([], at + l.ttlMs)
  {
    RunKeepsInv(l, before);
    CacheOfOk(l, s, p);
    SetWrites(CacheOf(s, p), l, "t", [], at, at);
    events, t := Then(l, before, s, Finish(1, at, at));
  }

  lemma HitAnswers(s: Sys, p: nat, at: int, expiresAt: int)
    requires at < expiresAt && s.history != []
    requires "t" in CacheOf(s, p).val && CacheOf(s, p).val["t"] == CacheEntry([], expiresAt)
    ensures var t := Asked(s, 3, p, "t", at);
            && t.history == s.history && t.answers != []
            && var a := t.answers[|t.answers| - 1]; a.hit && a.features == [] && a.tenantId == "t"
  {
  }

  lemma HitServesStale(s: Sys, p: nat, at: int, expiresAt: int, rows: seq<Feature>, t: Sys)
    requires at < expiresAt && s.history != [] && rows == FindByTenant(Current(s), "t") && rows != [] && t == Asked(s, 3, p, "t", at)
    requires "t" in CacheOf(s, p).val && CacheOf(s, p).val["t"] == CacheEntry([], expiresAt)
    ensures ServesStale(t)
  {
    HitAnswers(s, p, at, expiresAt);
    assert Current(t) == Current(s);
  }

  lemma HitIsStale(l: Limits, before: seq<Event>, s: Sys, p: nat, at: int, expiresAt: int) returns (events: seq<Event>)
    requires l.maxTenants > 0 && Possible(l, before) && s == Run(l, before)
    requires s.clock <= at < expiresAt && 3 !in s.flights && IsOff(Current(s))
    requires "t" in CacheOf(s, p).val && CacheOf(s, p).val["t"] == CacheEntry([], expiresAt)
    ensures events == before + [Ask(3, p, "t", at)] && Possible(l, events) && ServesStale(Run(l, events))
  {
    var t;
    events, t := Then(l, before, s, Ask(3, p, "t", at));
    HitServesStale(s, p, at, expiresAt, FindByTenant(Current(s), "t"), t);
  }

  lemma InvalidatedAt(l: Limits, before: seq<Event>, s: Sys, at: int) returns (events: seq<Event>, t: Sys)
    requires l.maxTenants > 0 && Possible(l, before) && s == Run(l, before)
    requires s.clock <= at && 2 in s.flights && s.flights[2] == Rereading(0, "t", 1)
    ensures events == before + [Reread(2, true, at)] + [Invalidate(2, at + 1)] && Possible(l, events) && t == Run(l, events)
    ensures t.clock == at + 1 && t.flights == s.flights - {2} && t.history == s.history
  {
    events, t := Then(l, before, s, Reread(2, true, at));
    events, t := Then(l, events, t, Invalidate(2, at + 1));
  }

  /** The load is still in flight when the update has written. */
  lemma ReadThenWritten(l: Limits) returns (events: seq<Event>, s: Sys)
    requires l.maxTenants > 0
    ensures events == [] + [Ask(1, 0, "t", 1)] + [Query(1, true, 2)]
                      + [Put(2, 0, "t", OFF, 3)] + [Query(2, true, 4)] + [Write(2, true, true, 5)]
    ensures Possible(l, events) && s == Run(l, events) && s.clock == 5 && IsOff(Current(s))
    ensures s.flights == map[1 := Queried(0, "t", 0, 2, []), 2 := Rereading(0, "t", 1)]
  {
    events, s := ReadBeforeWrite(l, 0);
    events, s := SwitchedOff(l, events, s, 3);
  }

  /** And when it has invalidated. */
  lemma WrittenMeanwhile(l: Limits) returns (events: seq<Event>, s: Sys)
    requires l.maxTenants > 0
    ensures events == [] + [Ask(1, 0, "t", 1)] + [Query(1, true, 2)]
                      + [Put(2, 0, "t", OFF, 3)] + [Query(2, true, 4)] + [Write(2, true, true, 5)]
                      + [Reread(2, true, 6)] + [Invalidate(2, 7)]
    ensures Possible(l, events) && s == Run(l, events)
    ensures s.clock == 7 && s.flights == map[1 := Queried(0, "t", 0, 2, [])] && IsOff(Current(s))
  {
    events, s := ReadThenWritten(l);
    events, s := InvalidatedAt(l, events, s, 6);
  }

  /** A load that read before the write and sets after the invalidation makes the next hit stale. */
  lemma LateSetOutlivesInvalidation(l: Limits) returns (events: seq<Event>)
    requires l.maxTenants > 0 && l.ttlMs > 1
    ensures Possible(l, events) && ServesStale(Run(l, events))
    ensures events == [] + [Ask(1, 0, "t", 1)] + [Query(1, true, 2)]
                      + [Put(2, 0, "t", OFF, 3)] + [Query(2, true, 4)] + [Write(2, true, true, 5)]
                      + [Reread(2, true, 6)] + [Invalidate(2, 7)] + [Finish(1, 8, 8)] + [Ask(3, 0, "t", 9)]
  {
    var s;
    events, s := WrittenMeanwhile(l);
    events, s := Stored(l, events, s, 0, 8);
    events := HitIsStale(l, events, s, 0, 9, 8 + l.ttlMs);
  }

  /** A stored list, and then an update up to its committed write. */
  lemma WrittenAfterStored(l: Limits, p: nat) returns (events: seq<Event>, s: Sys)
    requires l.maxTenants > 0 && l.ttlMs > 0
    ensures events == [] + [Ask(1, p, "t", 1)] + [Query(1, true, 2)] + [Finish(1, 3, 3)]
                      + [Put(2, 0, "t", OFF, 4)] + [Query(2, true, 5)] + [Write(2, true, true, 6)]
    ensures Possible(l, events) && s == Run(l, events) && s.clock == 6
    ensures s.flights == map[2 := Rereading(0, "t", 1)] && IsOff(Current(s))
    ensures "t" in CacheOf(s, p).val && CacheOf(s, p).val["t"] == CacheEntry([], 3 + l.ttlMs)
  {
    events, s := ReadBeforeWrite(l, p);
    events, s := Stored(l, events, s, p, 3);
    events, s := SwitchedOff(l, events, s, 4);
  }

  /** So does a read-back that fails after the write has reached the table: the invalidation is skipped. */
  lemma FailedRereadSkipsInvalidation(l: Limits) returns (events: seq<Event>)
    requires l.maxTenants > 0 && l.ttlMs > 5
    ensures Possible(l, events) && ServesStale(Run(l, events))
    ensures events == [] + [Ask(1, 0, "t", 1)] + [Query(1, true, 2)] + [Finish(1, 3, 3)]
                      + [Put(2, 0, "t", OFF, 4)] + [Query(2, true, 5)] + [Write(2, true, true, 6)]
                      + [Reread(2, false, 7)] + [Ask(3, 0, "t", 8)]
  {
    var s;
    events, s := WrittenAfterStored(l, 0);
    events, s := Then(l, events, s, Reread(2, false, 7));
    events := HitIsStale(l, events, s, 0, 8, 3 + l.ttlMs);
  }

  /** An invalidation reaches the cache of its own process only, and in it only the tenant's entry. */
  lemma InvalidationIsLocal(s: Sys, id: nat, at: int)
    requires id in s.flights && s.flights[id].Invalidating?
    ensures var f, t := s.flights[id], Invalidated(s, id, at);
            && (forall q :: q != f.proc ==> CacheOf(t, q) == CacheOf(s, q))
            && CacheOf(t, f.proc).val == CacheOf(s, f.proc).val - {f.tenantId}
  {
  }

  /** So another process goes on serving its list: the update has written and invalidated without any failure. */
  lemma OtherProcessServesStale(l: Limits) returns (events: seq<Event>)
    requires l.maxTenants > 0 && l.ttlMs > 6
    ensures Possible(l, events) && ServesStale(Run(l, events))
    ensures events == [] + [Ask(1, 1, "t", 1)] + [Query(1, true, 2)] + [Finish(1, 3, 3)]
                      + [Put(2, 0, "t", OFF, 4)] + [Query(2, true, 5)] + [Write(2, true, true, 6)]
                      + [Reread(2, true, 7)] + [Invalidate(2, 8)] + [Ask(3, 1, "t", 9)]
  {
    var s;
    events, s := WrittenAfterStored(l, 1);
    events, s := Then(l, events, s, Reread(2, true, 7));
    InvalidationIsLocal(s, 2, 8);
    events, s := Then(l, events, s, Invalidate(2, 8));
    events := HitIsStale(l, events, s, 1, 9, 3 + l.ttlMs);
  }
}
