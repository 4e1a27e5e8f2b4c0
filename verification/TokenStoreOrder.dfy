/**
  Whether the mark the cap throws out is the first to expire, as the comment at the cap
  takes for granted: when it is, when the marks stay in order of expiry, and a run of
  the store in which it is not.
*/
module TokenStoreOrder {
  import opened InsertionOrderedMaps
  import opened TokenStores

  /** When the marks expire, oldest mark first. */
  ghost function Expiries(order: seq<string>, val: map<string, int>): (e: seq<int>)
    ensures |e| == |order|
  {
    if order == [] then [] else
      var last := order[|order| - 1];
      Expiries(order[..|order| - 1], val) + [if last in val then val[last] else 0]
  }

  ghost predicate Ascending(s: seq<int>) {
    forall i, j :: 0 <= i < j < |s| ==> s[i] <= s[j]
  }

  /** Everything before place `i` is at most `e` and everything after it at least `e`. */
  ghost predicate FitsAt(s: seq<int>, i: nat, e: int) {
    && (forall j :: 0 <= j < i && j < |s| ==> s[j] <= e)
    && (forall j :: i < j < |s| ==> e <= s[j])
  }

  ghost predicate OldestFirst(used: Marks) {
    Ascending(Expiries(used.order, used.val))
  }

  lemma {:induction false} ExpiryAt(order: seq<string>, val: map<string, int>, i: nat)
    requires i < |order|
    ensures Expiries(order, val)[i] == if order[i] in val then val[order[i]] else 0
  {
    if i < |order| - 1 {
      ExpiryAt(order[..|order| - 1], val, i);
    }
  }

  lemma {:induction false} SameExpiries(order: seq<string>, val: map<string, int>, other: map<string, int>)
    requires forall k :: k in order ==> k in val && k in other && val[k] == other[k]
    ensures Expiries(order, val) == Expiries(order, other)
  {
    if order != [] {
      SameExpiries(order[..|order| - 1], val, other);
    }
  }

  lemma SweepKeepsOldestFirst(s: Store, now: int)
    requires ValidStore(s) && OldestFirst(s.used)
    ensures OldestFirst(Pruned(s, now).used)
  {
    var u := Pruned(s, now).used;
    if u != s.used {
      forall i, j | 0 <= i < j < |u.order| ensures Expiries(u.order, u.val)[i] <= Expiries(u.order, u.val)[j] {
        var a, b := SelectKeepsPlaces(s.used.order, Live(s.used, now).Keys, i, j);
        ExpiryAt(s.used.order, s.used.val, a);
        ExpiryAt(s.used.order, s.used.val, b);
        ExpiryAt(u.order, u.val, i);
        ExpiryAt(u.order, u.val, j);
      }
    }
  }

  // ---- writing a mark into marks that are in order ----

  /** Where a mark for `jti` goes: its old place, or the end. */
  ghost function Place(order: seq<string>, jti: string): (i: nat)
    ensures i <= |order|
    ensures i < |order| ==> order[i] == jti
    ensures i == |order| <==> jti !in order
  {
    if order == [] then 0
    else if order[0] == jti then 0
    else 1 + Place(order[1..], jti)
  }

  lemma AscendingWith(s: seq<int>, e: int)
    requires Ascending(s)
    ensures Ascending(s + [e]) <==> FitsAt(s, |s|, e)
  {
    var w := s + [e];
    assert w[|s|] == e && forall i :: 0 <= i < |s| ==> w[i] == s[i];
  }

  /** Dropping the first of at least two does not change whether the end is in order. */
  lemma AscendingTail(s: seq<int>, e: int)
    requires Ascending(s) && |s| >= 2
    ensures Ascending((s + [e])[1..]) <==> FitsAt(s, |s|, e)
  {
    var w, t := (s + [e])[1..], s[1..];
    assert w == t + [e];
    assert Ascending(t);
    AscendingWith(t, e);
    assert s[0] <= s[1] && t[0] == s[1];
    assert FitsAt(t, |t|, e) ==> forall i :: 1 <= i < |s| ==> s[i] == t[i - 1] <= e;
  }

  lemma AscendingUpdate(s: seq<int>, i: nat, e: int)
    requires Ascending(s) && i < |s|
    ensures Ascending(s[i := e]) <==> FitsAt(s, i, e)
  {
    var w := s[i := e];
    assert w[i] == e && forall j :: 0 <= j < |s| && j != i ==> w[j] == s[j];
  }

  lemma ExpiriesOfPut(u: Marks, jti: string, expiry: int)
    requires u.Valid() && jti !in u.val
    ensures var p := u.Put(jti, expiry); Expiries(p.order, p.val) == Expiries(u.order, u.val) + [expiry]
  {
    var p := u.Put(jti, expiry);
    assert p.order[..|u.order|] == u.order;
    SameExpiries(u.order, u.val, p.val);
  }

  lemma ExpiriesOfTail(p: Marks)
    requires p.Valid() && p.order != []
    ensures var w := p.DropOldest(1); Expiries(w.order, w.val) == Expiries(p.order, p.val)[1..]
  {
    var w := p.DropOldest(1);
    forall i | 0 <= i < |w.order| ensures Expiries(w.order, w.val)[i] == Expiries(p.order, p.val)[i + 1] {
      ExpiryAt(w.order, w.val, i);
      ExpiryAt(p.order, p.val, i + 1);
    }
  }

  lemma ExpiriesOfOverwrite(u: Marks, i: nat, expiry: int)
    requires u.Valid() && i < |u.order|
    ensures Expiries(u.order, u.val[u.order[i] := expiry]) == Expiries(u.order, u.val)[i := expiry]
  {
    var val := u.val[u.order[i] := expiry];
    forall j | 0 <= j < |u.order| ensures Expiries(u.order, val)[j] == Expiries(u.order, u.val)[i := expiry][j] {
      ExpiryAt(u.order, val, j);
      ExpiryAt(u.order, u.val, j);
    }
  }

  lemma PutInOrder(u: Marks, jti: string, expiry: int)
    requires u.Valid() && OldestFirst(u) && jti !in u.val
    ensures OldestFirst(u.Put(jti, expiry)) <==> FitsAt(Expiries(u.order, u.val), |u.order|, expiry)
  {
    ExpiriesOfPut(u, jti, expiry);
    AscendingWith(Expiries(u.order, u.val), expiry);
  }

  lemma PutInOrderEvicting(u: Marks, jti: string, expiry: int)
    requires u.Valid() && OldestFirst(u) && jti !in u.val && u.Size() >= 2
    ensures OldestFirst(u.Put(jti, expiry).DropOldest(1)) <==> FitsAt(Expiries(u.order, u.val), |u.order|, expiry)
  {
    PutValid(u, jti, expiry);
    ExpiriesOfPut(u, jti, expiry);
    ExpiriesOfTail(u.Put(jti, expiry));
    AscendingTail(Expiries(u.order, u.val), expiry);
  }

  lemma OverwriteInOrder(u: Marks, i: nat, expiry: int)
    requires u.Valid() && OldestFirst(u) && i < |u.order|
    ensures OldestFirst(u.Put(u.order[i], expiry)) <==> FitsAt(Expiries(u.order, u.val), i, expiry)
  {
    ExpiriesOfOverwrite(u, i, expiry);
    AscendingUpdate(Expiries(u.order, u.val), i, expiry);
  }

  lemma PutKeepsOldestFirst(u: Marks, jti: string, expiry: int, after: Marks)
    requires u.Valid() && OldestFirst(u) && u.Size() <= MAX_ENTRIES
    requires after == Capped(u.Put(jti, expiry))
    ensures OldestFirst(after) <==> FitsAt(Expiries(u.order, u.val), Place(u.order, jti), expiry)
  {
    if jti in u.order {
      OverwriteInOrder(u, Place(u.order, jti), expiry);
    } else if u.Size() == MAX_ENTRIES {
      PutInOrderEvicting(u, jti, expiry);
    } else {
      PutInOrder(u, jti, expiry);
    }
  }

  lemma FirstUseIsPut(s: Store, jti: string, ttlMs: int, now: int)
    requires ValidStore(s) && OldestFirst(s.used) && Mark(s, jti, ttlMs, now).firstUse
    ensures var kept := Pruned(s, now).used;
            && Mark(s, jti, ttlMs, now).store.used == Capped(kept.Put(jti, now + ttlMs))
            && kept.Valid() && kept.Size() <= MAX_ENTRIES && OldestFirst(kept)
  {
    PrunedKeepsValid(s, now);
    SweepKeepsOldestFirst(s, now);
  }

  /**
    Marks that are in order of expiry stay so through a first use exactly when the new
    expiry fits where the mark goes: the end for a fresh jti, the old place for one
    whose expired mark is overwritten.
  */
  lemma FirstUseKeepsOldestFirst(s: Store, jti: string, ttlMs: int, now: int)
    requires ValidStore(s) && OldestFirst(s.used) && Mark(s, jti, ttlMs, now).firstUse
    ensures var kept := Pruned(s, now).used;
            OldestFirst(Mark(s, jti, ttlMs, now).store.used) <==>
            FitsAt(Expiries(kept.order, kept.val), Place(kept.order, jti), now + ttlMs)
  {
    FirstUseIsPut(s, jti, ttlMs, now);
    PutKeepsOldestFirst(Pruned(s, now).used, jti, now + ttlMs, Mark(s, jti, ttlMs, now).store.used);
  }

  /** Lifetimes differ from token to token: at any time a longer and then a shorter one leave an older mark that outlives the newer. */
  lemma OldestMayOutlive(a: string, b: string, now: int, long: int, short: int)
    requires a != b && long > short
    ensures !OldestFirst(Mark(Mark(EMPTY_STORE, a, long, now).store, b, short, now).store.used)
  {
    var one := Mark(EMPTY_STORE, a, long, now).store;
    FirstMark(a, long, now);
    assert [a][..0] == [];
    assert Expiries([a], one.used.val) == [now + long];
    FirstUseKeepsOldestFirst(one, b, short, now);
    assert [now + long][0] > now + short;
  }

  lemma FirstMark(a: string, ttlMs: int, now: int)
    ensures var s := Mark(EMPTY_STORE, a, ttlMs, now).store;
            s.used == OrderedMap([a], map[a := now + ttlMs]) && now - s.lastPruneAt < PRUNE_INTERVAL_MS
  {
    var p := Pruned(EMPTY_STORE, now);
    assert p.used.order == [] && p.used.val == map[];
  }

  // ---- what the cap throws out ----

  /** The cap acts exactly on a fresh jti in a full store, and then it throws out the oldest retained mark and nothing else. */
  lemma CapThrowsOutTheOldest(s: Store, jti: string, ttlMs: int, now: int)
    requires ValidStore(s)
    ensures var m, kept := Mark(s, jti, ttlMs, now), Pruned(s, now).used;
            && (m.evicted != {} <==> jti !in kept.val && kept.Size() == 100_000)
            && (m.evicted != {} ==> m.evicted == {kept.order[0]} && m.store.used.val == (kept.val - {kept.order[0]})[jti := now + ttlMs])
  {
    var kept := Pruned(s, now).used;
    PrunedKeepsValid(s, now);
    if jti !in kept.val && kept.Size() == MAX_ENTRIES {
      FullPut(kept, jti, now + ttlMs);
    } else if jti !in kept.val {
      assert kept.Put(jti, now + ttlMs).Size() <= MAX_ENTRIES;
    }
  }

  lemma PutThenRemove(val: map<string, int>, out: string, jti: string, expiry: int)
    requires out in val && jti !in val
    ensures val[jti := expiry] - {out} == (val - {out})[jti := expiry]
    ensures val[jti := expiry].Keys - (val[jti := expiry] - {out}).Keys == {out}
  {
  }

  lemma FullPut(u: Marks, jti: string, expiry: int)
    requires u.Valid() && jti !in u.val && u.Size() == MAX_ENTRIES
    ensures var p, w := u.Put(jti, expiry), Capped(u.Put(jti, expiry));
            && p.val.Keys - w.val.Keys == {u.order[0]}
            && w.val == (u.val - {u.order[0]})[jti := expiry]
  {
    var p := u.Put(jti, expiry);
    PutValid(u, jti, expiry);
    assert u.order[0] in u.val;
    assert p.order[0] == u.order[0] && Capped(p) == p.DropOldest(1);
    DropFirst(p);
    PutThenRemove(u.val, u.order[0], jti, expiry);
  }

  /** What the comment promises, for a mark that is thrown out: it is due no later than any mark that stays. */
  ghost predicate DueFirst(due: int, stay: map<string, int>) {
    forall k :: k in stay ==> due <= stay[k]
  }

  /**
    When the comment is right: the mark thrown out is due no later than all that stay
    exactly when the oldest retained mark is the first of them to expire and not due
    after the new one.
  */
  lemma EvictedIsDueFirstIff(s: Store, jti: string, ttlMs: int, now: int, out: string)
    requires ValidStore(s) && out in Mark(s, jti, ttlMs, now).evicted
    ensures var kept := Pruned(s, now).used;
            && out in kept.val && out == kept.order[0]
            && (DueFirst(kept.val[out], Mark(s, jti, ttlMs, now).store.used.val) <==>
                  DueFirst(kept.val[out], kept.val) && kept.val[out] <= now + ttlMs)
  {
    var kept := Pruned(s, now).used;
    PrunedKeepsValid(s, now);
    CapThrowsOutTheOldest(s, jti, ttlMs, now);
    StayingMarks(kept.val, out, jti, now + ttlMs);
  }

  lemma StayingMarks(val: map<string, int>, out: string, jti: string, expiry: int)
    requires out in val && jti !in val
    ensures DueFirst(val[out], (val - {out})[jti := expiry]) <==> DueFirst(val[out], val) && val[out] <= expiry
  {
    var stay := (val - {out})[jti := expiry];
    assert jti in stay && stay[jti] == expiry;
    assert forall k :: k in val && k != out ==> k in stay && stay[k] == val[k];
  }

  // ---- a run that fills the store ----

  function Name(i: nat): string {
    seq(i + 1, _ => 'a')
  }

  /** The lifetimes of the tokens of such a run; in the application the remaining lives of whole-second expiries. */
  datatype Lives = Lives(long: int, short: int)

  function LifeOf(l: Lives, i: nat): int {
    if i == 0 then l.long else l.short
  }

  /** `n` different tokens used at one instant, the first of which has another lifetime. */
  function Filling(l: Lives, n: nat, now: int): (calls: seq<Call>)
    ensures |calls| == n && forall i :: 0 <= i < n ==> calls[i].now == now
  {
    if n == 0 then [] else Filling(l, n - 1, now) + [Call(Name(n - 1), LifeOf(l, n - 1), now)]
  }

  ghost predicate Filled(l: Lives, s: Store, n: nat, now: int) {
    && ValidStore(s) && s.used.Size() == n
    && (forall i :: 0 <= i < n ==> s.used.order[i] == Name(i))
    && (forall i :: 0 <= i < n ==> Name(i) in s.used.val && s.used.val[Name(i)] == now + LifeOf(l, i))
    && (n > 0 ==> now - s.lastPruneAt < PRUNE_INTERVAL_MS)
  }

  lemma NamesDiffer(i: nat, j: nat)
    requires i != j
    ensures Name(i) != Name(j)
  {
    assert |Name(i)| == i + 1 && |Name(j)| == j + 1;
  }

  lemma FilledFirst(l: Lives, now: int)
    ensures Filled(l, Mark(EMPTY_STORE, Name(0), LifeOf(l, 0), now).store, 1, now)
  {
    FirstMark(Name(0), LifeOf(l, 0), now);
  }

  lemma FilledNext(l: Lives, s: Store, n: nat, now: int)
    requires Filled(l, s, n, now) && 0 < n < MAX_ENTRIES
    ensures Filled(l, Mark(s, Name(n), LifeOf(l, n), now).store, n + 1, now)
  {
    var t := Mark(s, Name(n), LifeOf(l, n), now).store;
    FreshName(l, s, n, now);
    MarkKeepsValid(s, Name(n), LifeOf(l, n), now);
    assert t.used == s.used.Put(Name(n), now + LifeOf(l, n));
    forall i | 0 <= i < n ensures Name(i) != Name(n) {
      NamesDiffer(i, n);
    }
  }

  lemma FreshName(l: Lives, s: Store, n: nat, now: int)
    requires Filled(l, s, n, now)
    ensures Name(n) !in s.used.val
  {
    forall i | 0 <= i < n ensures s.used.order[i] != Name(n) {
      NamesDiffer(i, n);
    }
    assert Name(n) !in s.used.order;
  }

  lemma {:induction false} FillingFills(l: Lives, n: nat, now: int)
    requires n <= MAX_ENTRIES
    ensures Filled(l, Run(Filling(l, n, now)).store, n, now)
  {
    if n > 0 {
      var calls, before := Filling(l, n, now), Filling(l, n - 1, now);
      assert calls[..n - 1] == before && calls[n - 1] == Call(Name(n - 1), LifeOf(l, n - 1), now);
      FillingFills(l, n - 1, now);
      if n == 1 {
        FilledFirst(l, now);
      } else {
        FilledNext(l, Run(before).store, n - 1, now);
      }
    }
  }

  /**
    For any two lifetimes and at any time, a reachable full store from which the cap
    throws out a mark that is due after one that stays: one token more than fit are
    used, the first living longest.
  */
  lemma CapThrowsOutALongerLivedMark(l: Lives, now: int, n: nat)
    requires n == MAX_ENTRIES && l.long > l.short
    ensures var calls := Filling(l, n + 1, now);
            var before, after := Run(Filling(l, n, now)).store.used, Run(calls).store.used;
            && Monotone(calls) && before.Size() == MAX_ENTRIES && Run(calls).evicted[n] == {Name(0)}
            && Name(0) in before.val && Name(1) in after.val && before.val[Name(0)] > after.val[Name(1)]
  {
    var calls := Filling(l, n + 1, now);
    var s := Run(Filling(l, n, now)).store;
    assert calls[..n] == Filling(l, n, now) && calls[n] == Call(Name(n), LifeOf(l, n), now);
    FillingFills(l, n, now);
    FreshName(l, s, n, now);
    assert Pruned(s, now) == s;
    CapThrowsOutTheOldest(s, Name(n), LifeOf(l, n), now);
    NamesDiffer(0, 1);
    assert s.used.order[0] == Name(0) && s.used.order[1] == Name(1);
  }
}
