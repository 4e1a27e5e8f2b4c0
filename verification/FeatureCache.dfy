/** The per-process feature cache: a JavaScript Map with a TTL and a tenant limit. */
module FeatureCaches {
  import opened Options
  import opened InsertionOrderedMaps
  import opened FeatureTables

  datatype CacheEntry = CacheEntry(features: seq<Feature>, expiresAt: int)

  type Entries = OrderedMap<string, CacheEntry>

  /** The two settings; the constructor reads a TTL of 0 or more and a limit of at least 1. */
  datatype Limits = Limits(ttlMs: nat, maxTenants: nat)

  // ---- the operations on values ----

  function Hit(entries: Entries, tenantId: string, now: int): Option<seq<Feature>> {
    if tenantId in entries.val && entries.val[tenantId].expiresAt > now then Some(entries.val[tenantId].features) else None
  }

  function AfterGet(entries: Entries, tenantId: string, now: int): Entries {
    if tenantId in entries.val && entries.val[tenantId].expiresAt <= now then entries.Delete(tenantId) else entries
  }

  function Fresh(entries: Entries, now: int): set<string> {
    set k | k in entries.val && entries.val[k].expiresAt > now
  }

  function Evicted(entries: Entries, maxTenants: nat): Entries
    requires maxTenants > 0
  {
    if entries.Size() >= maxTenants then entries.DropOldest(entries.Size() - maxTenants + 1) else entries
  }

  /** What `set` keeps before it writes: the unexpired entries, the newest `maxTenants - 1` of them. */
  function RoomMade(entries: Entries, maxTenants: nat, now: int): Entries
    requires maxTenants > 0
  {
    Evicted(entries.Keep(Fresh(entries, now)), maxTenants)
  }

  function AfterSet(entries: Entries, l: Limits, tenantId: string, features: seq<Feature>, pruneAt: int, setAt: int): Entries
    requires l.maxTenants > 0
  {
    if l.ttlMs == 0 then entries
    else RoomMade(entries, l.maxTenants, pruneAt).Put(tenantId, CacheEntry(features, setAt + l.ttlMs))
  }

  function AfterInvalidate(entries: Entries, tenantId: string): Entries {
    entries.Delete(tenantId)
  }

  ghost predicate ValidEntries(entries: Entries, l: Limits) {
    entries.Valid() && entries.Size() <= l.maxTenants
  }

  class InMemoryTenantFeatureCache {
    var entries: Entries
    const limits: Limits

    ghost predicate Valid()
      reads this
    {
      limits.maxTenants > 0 && ValidEntries(entries, limits)
    }

    constructor (limits: Limits)
      requires limits.maxTenants > 0
      ensures Valid() && this.limits == limits && entries == Empty()
    {
      this.limits := limits;
      entries := Empty();
    }

    method Get(tenantId: string, now: int) returns (features: Option<seq<Feature>>)
      requires Valid()
      modifies this
      ensures Valid()
      ensures features.Some? <==> tenantId in old(entries.val) && old(entries.val)[tenantId].expiresAt > now
      ensures features.Some? ==> features.value == old(entries.val)[tenantId].features && entries == old(entries)
      ensures features.None? ==> entries.val == old(entries.val) - {tenantId}
      ensures features == Hit(old(entries), tenantId, now) && entries == AfterGet(old(entries), tenantId, now)
    {
      if tenantId !in entries.val {
        return None;
      }
      var entry := entries.val[tenantId];
      if entry.expiresAt <= now {
        KeepValid(entries, entries.val.Keys - {tenantId});
        entries := entries.Delete(tenantId);
        return None;
      }
      return Some(entry.features);
    }

    method Set(tenantId: string, features: seq<Feature>, pruneAt: int, setAt: int)
      requires Valid()
      modifies this
      ensures Valid()
      ensures limits.ttlMs == 0 ==> entries == old(entries)
      ensures limits.ttlMs > 0 ==> tenantId in entries.val && entries.val[tenantId] == CacheEntry(features, setAt + limits.ttlMs)
      ensures entries == AfterSet(old(entries), limits, tenantId, features, pruneAt, setAt)
    {
      SetKeepsValid(entries, limits, tenantId, features, pruneAt, setAt);
      if limits.ttlMs == 0 {
        return;
      }
      KeepValid(entries, Fresh(entries, pruneAt));
      Prune(pruneAt);
      EvictOldest();
      entries := entries.Put(tenantId, CacheEntry(features, setAt + limits.ttlMs));
    }

    /** The eviction loop of `set`, with the size of the map as its measure. */
    method EvictOldest()
      requires entries.Valid() && limits.maxTenants > 0
      modifies this
      ensures entries == Evicted(old(entries), limits.maxTenants)
    {
      ghost var was := entries;
      ghost var dropped := 0;
      DropNone(was);
      while entries.Size() >= limits.maxTenants
        invariant dropped <= was.Size() && (dropped > 0 ==> was.Size() - dropped + 1 >= limits.maxTenants)
        invariant entries == was.DropOldest(dropped) && entries.Size() == was.Size() - dropped
        decreases entries.Size()
      {
        DropOneMore(was, dropped, entries);
        entries := entries.Delete(entries.order[0]);
        dropped := dropped + 1;
      }
    }

    method Invalidate(tenantId: string)
      requires Valid()
      modifies this
      ensures Valid()
      ensures entries.val == old(entries.val) - {tenantId}
      ensures entries == AfterInvalidate(old(entries), tenantId)
    {
      KeepValid(entries, entries.val.Keys - {tenantId});
      entries := entries.Delete(tenantId);
    }

    method Prune(now: int)
      requires entries.Valid()
      modifies this
      ensures entries == old(entries).Keep(Fresh(old(entries), now))
    {
      ghost var was := entries;
      var visited := entries.order;
      ghost var expired := (e: CacheEntry) => e.expiresAt <= now;
      UnvisitedEnds(was, expired);
      for i := 0 to |visited|
        invariant entries == was.Keep(Unvisited(was, expired, i))
      {
        UnvisitedNext(was, expired, i);
        if entries.val[visited[i]].expiresAt <= now {
          entries := entries.Delete(visited[i]);
        }
      }
      assert Unvisited(was, expired, |visited|) == Fresh(was, now);
    }
  }

  lemma DropNone(entries: Entries)
    requires entries.Valid()
    ensures entries.DropOldest(0) == entries
  {
    assert entries.order[0..] == entries.order;
  }

  // ---- representation ----

  lemma RoomMadeValid(entries: Entries, maxTenants: nat, now: int)
    requires entries.Valid() && maxTenants > 0
    ensures var r := RoomMade(entries, maxTenants, now);
            && r.Valid() && r.Size() < maxTenants
            && r.val.Keys <= Fresh(entries, now) && forall k :: k in r.val ==> r.val[k] == entries.val[k]
  {
    KeepValid(entries, Fresh(entries, now));
    var p := entries.Keep(Fresh(entries, now));
    if p.Size() >= maxTenants {
      DropOldestValid(p, p.Size() - maxTenants + 1);
    }
  }

  /**
    Exactly what is left before the write: the unexpired entries in their order, and of
    them the newest `maxTenants - 1` when there are as many as the limit or more.
  */
  lemma RoomMadeIs(entries: Entries, maxTenants: nat, now: int)
    requires entries.Valid() && maxTenants > 0
    ensures var live := Select(entries.order, (set k | k in entries.val && entries.val[k].expiresAt > now));
            var r := RoomMade(entries, maxTenants, now);
            && r.order == (if |live| < maxTenants then live else live[|live| - maxTenants + 1..])
            && (forall k :: k in r.val <==> k in r.order)
            && forall k :: k in r.val ==> k in entries.val && r.val[k] == entries.val[k]
  {
    RoomMadeValid(entries, maxTenants, now);
    assert Fresh(entries, now) == set k | k in entries.val && entries.val[k].expiresAt > now;
  }

  /** After a set: that, with the tenant's new entry at its old place or at the end. */
  lemma SetIs(entries: Entries, l: Limits, tenantId: string, features: seq<Feature>, pruneAt: int, setAt: int)
    requires l.maxTenants > 0 && entries.Valid() && l.ttlMs > 0
    ensures var live := Select(entries.order, (set k | k in entries.val && entries.val[k].expiresAt > pruneAt));
            var kept := if |live| < l.maxTenants then live else live[|live| - l.maxTenants + 1..];
            var after := AfterSet(entries, l, tenantId, features, pruneAt, setAt);
            && after.order == (if tenantId in kept then kept else kept + [tenantId])
            && (forall k :: k in after.val <==> k in kept || k == tenantId)
            && after.val[tenantId] == CacheEntry(features, setAt + l.ttlMs)
            && forall k :: k in kept && k != tenantId ==> k in entries.val && after.val[k] == entries.val[k]
  {
    RoomMadeIs(entries, l.maxTenants, pruneAt);
  }

  /** The cache never holds more than `maxTenants` entries. */
  lemma SetKeepsValid(entries: Entries, l: Limits, tenantId: string, features: seq<Feature>, pruneAt: int, setAt: int)
    requires l.maxTenants > 0 && ValidEntries(entries, l)
    ensures ValidEntries(AfterSet(entries, l, tenantId, features, pruneAt, setAt), l)
  {
    RoomMadeValid(entries, l.maxTenants, pruneAt);
    PutValid(RoomMade(entries, l.maxTenants, pruneAt), tenantId, CacheEntry(features, setAt + l.ttlMs));
  }

  lemma OthersKeepValid(entries: Entries, l: Limits, tenantId: string, now: int)
    requires ValidEntries(entries, l)
    ensures ValidEntries(AfterGet(entries, tenantId, now), l) && ValidEntries(AfterInvalidate(entries, tenantId), l)
  {
    KeepValid(entries, entries.val.Keys - {tenantId});
  }

  /** After a set, every other entry is an old unexpired one, and the tenant's own is the new one. */
  lemma SetWrites(entries: Entries, l: Limits, tenantId: string, features: seq<Feature>, pruneAt: int, setAt: int)
    requires l.maxTenants > 0 && entries.Valid() && l.ttlMs > 0
    ensures var after := AfterSet(entries, l, tenantId, features, pruneAt, setAt).val;
            && tenantId in after && after[tenantId] == CacheEntry(features, setAt + l.ttlMs)
            && forall k :: k in after && k != tenantId ==> k in entries.val && after[k] == entries.val[k] && after[k].expiresAt > pruneAt
  {
    RoomMadeValid(entries, l.maxTenants, pruneAt);
  }

  // ---- eviction order ----

  ghost predicate DueInOrder(s: seq<string>, val: map<string, CacheEntry>) {
    && (forall k :: k in s ==> k in val)
    && forall i, j :: 0 <= i < j < |s| ==> val[s[i]].expiresAt <= val[s[j]].expiresAt
  }

  /** Insertion order is expiry order. */
  ghost predicate ByExpiry(entries: Entries) {
    DueInOrder(entries.order, entries.val)
  }

  lemma {:induction false} SelectKeepsOrder(s: seq<string>, keep: set<string>, val: map<string, CacheEntry>)
    requires DueInOrder(s, val)
    ensures DueInOrder(Select(s, keep), val)
  {
    if s != [] {
      var front, last := s[..|s| - 1], s[|s| - 1];
      SelectKeepsOrder(front, keep, val);
      var r := Select(front, keep);
      forall i | 0 <= i < |r| ensures val[r[i]].expiresAt <= val[last].expiresAt {
        assert r[i] in front;
        var m :| 0 <= m < |front| && front[m] == r[i];
        assert s[m] == r[i];
      }
    }
  }

  lemma KeepByExpiry(entries: Entries, keep: set<string>)
    requires entries.Valid() && ByExpiry(entries)
    ensures entries.Keep(keep).Valid() && ByExpiry(entries.Keep(keep))
  {
    KeepValid(entries, keep);
    SelectKeepsOrder(entries.order, keep, entries.val);
    var r := entries.Keep(keep);
    assert forall k :: k in r.order ==> k in r.val && r.val[k] == entries.val[k];
  }

  lemma PutByExpiry(entries: Entries, tenantId: string, e: CacheEntry)
    requires entries.Valid() && ByExpiry(entries) && tenantId !in entries.val
    requires forall k :: k in entries.val ==> entries.val[k].expiresAt <= e.expiresAt
    ensures ByExpiry(entries.Put(tenantId, e))
  {
  }

  lemma EvictedByExpiry(entries: Entries, maxTenants: nat)
    requires maxTenants > 0 && entries.Valid() && ByExpiry(entries)
    ensures ByExpiry(Evicted(entries, maxTenants))
  {
  }

  lemma RoomMadeByExpiry(entries: Entries, maxTenants: nat, now: int)
    requires maxTenants > 0 && entries.Valid() && ByExpiry(entries)
    ensures ByExpiry(RoomMade(entries, maxTenants, now))
  {
    KeepByExpiry(entries, Fresh(entries, now));
    EvictedByExpiry(entries.Keep(Fresh(entries, now)), maxTenants);
  }

  /** A set that follows a miss, with no entry newer than its own clock, keeps insertion order equal to expiry order. */
  lemma SetKeepsByExpiry(entries: Entries, l: Limits, tenantId: string, features: seq<Feature>, pruneAt: int, setAt: int)
    requires l.maxTenants > 0 && entries.Valid() && ByExpiry(entries)
    requires tenantId !in entries.val && forall k :: k in entries.val ==> entries.val[k].expiresAt <= setAt + l.ttlMs
    ensures var after := AfterSet(entries, l, tenantId, features, pruneAt, setAt);
            ByExpiry(after) && forall k :: k in after.val ==> after.val[k].expiresAt <= setAt + l.ttlMs
  {
    if l.ttlMs > 0 {
      RoomMadeByExpiry(entries, l.maxTenants, pruneAt);
      RoomMadeValid(entries, l.maxTenants, pruneAt);
      PutByExpiry(RoomMade(entries, l.maxTenants, pruneAt), tenantId, CacheEntry(features, setAt + l.ttlMs));
    }
  }

  lemma NotDropped(entries: Entries, n: nat, i: nat)
    requires entries.Valid() && n <= |entries.order| && i < |entries.order|
    ensures entries.order[i] !in entries.DropOldest(n).val ==> i < n
  {
    assert n <= i ==> entries.order[i] == entries.order[n..][i - n];
  }

  /** Then what a set evicts is never due later than anything it keeps. */
  lemma EvictsSoonestToExpire(entries: Entries, maxTenants: nat, now: int, out: string, kept: string)
    requires maxTenants > 0 && entries.Valid() && ByExpiry(entries)
    requires out in Fresh(entries, now) && out !in RoomMade(entries, maxTenants, now).val
    requires kept in RoomMade(entries, maxTenants, now).val
    ensures entries.val[out].expiresAt <= entries.val[kept].expiresAt
  {
    KeepByExpiry(entries, Fresh(entries, now));
    var p := entries.Keep(Fresh(entries, now));
    assert p.Size() >= maxTenants;
    var n := p.Size() - maxTenants + 1;
    var j :| n <= j < |p.order| && p.order[j] == kept;
    var i :| 0 <= i < |p.order| && p.order[i] == out;
    NotDropped(p, n, i);
  }
}
