/**
  The in-memory register of spent form tokens: what one call does, and how far it
  agrees with a plain unbounded "jti to expiry" map over any sequence of calls.
*/
module TokenStores {
  import opened InsertionOrderedMaps

  const PRUNE_INTERVAL_MS := 60_000
  const MAX_ENTRIES := 100_000

  type Marks = OrderedMap<string, int>

  /** The two fields of the store, as a value. */
  datatype Store = Store(used: Marks, lastPruneAt: int)

  const EMPTY_STORE := Store(Empty(), 0)

  ghost predicate ValidStore(s: Store) {
    s.used.Valid() && s.used.Size() <= MAX_ENTRIES
  }

  /** The marks that still refuse a token at instant `now`. */
  function Live(used: Marks, now: int): map<string, int> {
    map j | j in used.val && used.val[j] > now :: used.val[j]
  }

  function Pruned(s: Store, now: int): Store {
    if now - s.lastPruneAt < PRUNE_INTERVAL_MS then s
    else Store(s.used.Keep(Live(s.used, now).Keys), now)
  }

  function Capped(used: Marks): Marks {
    if used.Size() <= MAX_ENTRIES then used else used.DropOldest(used.Size() - MAX_ENTRIES)
  }

  /** What one `markUsed` call leaves behind; `evicted` are the keys the cap threw out. */
  datatype Marked = Marked(store: Store, firstUse: bool, evicted: set<string>)

  function Mark(s: Store, jti: string, ttlMs: int, now: int): Marked {
    var p := Pruned(s, now);
    if jti in p.used.val && p.used.val[jti] > now then
      Marked(p, false, {})
    else
      var written := p.used.Put(jti, now + ttlMs);
      var kept := Capped(written);
      Marked(Store(kept, p.lastPruneAt), true, written.val.Keys - kept.val.Keys)
  }

  class InMemoryTokenStore {
    var used: Marks
    var lastPruneAt: int

    ghost predicate Valid()
      reads this
    {
      ValidStore(State())
    }

    ghost function State(): Store
      reads this
    {
      Store(used, lastPruneAt)
    }

    constructor ()
      ensures Valid() && State() == EMPTY_STORE
    {
      used := Empty();
      lastPruneAt := 0;
    }

    /** `now` is the one clock value of the synchronous segment the call runs in. */
    method MarkUsed(jti: string, ttlMs: int, now: int) returns (firstUse: bool)
      requires Valid()
      modifies this
      ensures Valid() && used.Size() <= 100_000
      ensures firstUse <==> !(jti in old(used.val) && old(used.val)[jti] > now)
      ensures firstUse ==> jti in used.val && used.val[jti] == now + ttlMs
      ensures State() == Mark(old(State()), jti, ttlMs, now).store
      ensures firstUse == Mark(old(State()), jti, ttlMs, now).firstUse
    {
      MarkKeepsValid(State(), jti, ttlMs, now);
      PrunedKeepsValid(State(), now);
      MarkOnLive(State(), jti, ttlMs, now);
      Prune(now);
      if jti in used.val && used.val[jti] > now {
        return false;
      }
      PutValid(used, jti, now + ttlMs);
      used := used.Put(jti, now + ttlMs);
      EnforceCap();
      return true;
    }

    method Prune(now: int)
      requires used.Valid()
      modifies this
      ensures State() == Pruned(old(State()), now)
    {
      if now - lastPruneAt < PRUNE_INTERVAL_MS {
        return;
      }
      lastPruneAt := now;
      var visited := used.order;
      ghost var was := used;
      ghost var expired := (e: int) => e <= now;
      UnvisitedEnds(was, expired);
      for i := 0 to |visited|
        invariant used == was.Keep(Unvisited(was, expired, i)) && lastPruneAt == now
      {
        var jti := visited[i];
        UnvisitedNext(was, expired, i);
        if used.val[jti] <= now {
          used := used.Delete(jti);
        }
      }
      assert Unvisited(was, expired, |visited|) == Live(was, now).Keys;
    }

    method EnforceCap()
      requires used.Valid()
      modifies this`used
      ensures used == Capped(old(used))
    {
      if used.Size() <= MAX_ENTRIES {
        return;
      }
      ghost var was := used;
      var excess := used.Size() - MAX_ENTRIES;
      var removed := 0;
      while removed < excess
        invariant 0 <= removed <= excess
        invariant used == was.DropOldest(removed)
      {
        DropOneMore(was, removed, used);
        var jti := used.order[0];
        used := used.Delete(jti);
        removed := removed + 1;
      }
    }
  }

  /** A sweep in terms of the marks: none within a minute of the last one, otherwise exactly the expired marks go. */
  lemma PrunedIs(s: Store, now: int)
    ensures var t := Pruned(s, now);
            && (now - s.lastPruneAt < 60_000 ==> t == s)
            && (now - s.lastPruneAt >= 60_000 ==>
                  && t.lastPruneAt == now
                  && (forall j :: j in t.used.val <==> j in s.used.val && s.used.val[j] > now)
                  && (forall j :: j in t.used.val ==> t.used.val[j] == s.used.val[j])
                  && t.used.order == Select(s.used.order, t.used.val.Keys))
  {
    assert s.used.Keep(Live(s.used, now).Keys).val.Keys == Live(s.used, now).Keys;
  }

  // ---- one call ----

  lemma PrunedKeepsValid(s: Store, now: int)
    requires ValidStore(s)
    ensures ValidStore(Pruned(s, now))
  {
    KeepValid(s.used, Live(s.used, now).Keys);
  }

  /** The cap keeps the size at most 100 000 after every call. */
  lemma MarkKeepsValid(s: Store, jti: string, ttlMs: int, now: int)
    requires ValidStore(s)
    ensures ValidStore(Mark(s, jti, ttlMs, now).store) && Mark(s, jti, ttlMs, now).store.used.Size() <= 100_000
  {
    PrunedKeepsValid(s, now);
    var written := Pruned(s, now).used.Put(jti, now + ttlMs);
    PutValid(Pruned(s, now).used, jti, now + ttlMs);
    if written.Size() > MAX_ENTRIES {
      DropOldestValid(written, written.Size() - MAX_ENTRIES);
    }
  }

  /** Sweeping removes expired marks only, so it never changes what is refused now or later. */
  lemma PruneKeepsLive(s: Store, now: int, later: int)
    requires ValidStore(s) && now <= later
    ensures Live(Pruned(s, now).used, later) == Live(s.used, later)
  {
  }

  /** The cap evicts exactly the keys that disappear, never the newest one, and only from a full store. */
  lemma CapEvicts(used: Marks)
    requires used.Valid() && 0 < used.Size() <= MAX_ENTRIES + 1
    ensures var kept := Capped(used);
            && kept.Valid()
            && (kept.val.Keys != used.val.Keys ==> kept.Size() == MAX_ENTRIES)
            && kept.val == used.val - (used.val.Keys - kept.val.Keys)
            && (used.Size() > MAX_ENTRIES ==> used.order[used.Size() - 1] in kept.val)
  {
    if used.Size() > MAX_ENTRIES {
      DropOldestValid(used, 1);
      assert used.order[1..][MAX_ENTRIES - 1] == used.order[used.Size() - 1];
    }
  }

  /**
    One call against the live marks alone. It answers `true` exactly when no live
    mark carries the jti, then adds its own mark, and apart from that only what the
    cap evicted is missing afterwards.
  */
  lemma MarkOnLive(s: Store, jti: string, ttlMs: int, now: int)
    requires ValidStore(s)
    ensures var m := Mark(s, jti, ttlMs, now);
            && (m.firstUse <==> jti !in Live(s.used, now))
            && (!m.firstUse ==> m.evicted == {})
            && (m.firstUse ==>
                  && jti !in m.evicted
                  && jti in m.store.used.val && m.store.used.val[jti] == now + ttlMs)
            && (m.evicted != {} ==> m.store.used.Size() == 100_000)
  {
    PruneKeepsLive(s, now, now);
    PrunedKeepsValid(s, now);
    var p := Pruned(s, now);
    assert jti in Live(p.used, now) <==> jti in p.used.val && p.used.val[jti] > now;
    if Mark(s, jti, ttlMs, now).firstUse {
      PutValid(p.used, jti, now + ttlMs);
      CapEvicts(p.used.Put(jti, now + ttlMs));
    }
  }

  /** What a later instant sees of any key `j`: the old mark, or the new one, unless the cap evicted it. */
  lemma MarkLeavesLive(s: Store, jti: string, ttlMs: int, now: int, j: string, later: int)
    requires ValidStore(s) && now <= later
    ensures var m := Mark(s, jti, ttlMs, now);
            var before, after := Live(s.used, later), Live(m.store.used, later);
            && (j in after ==> if m.firstUse && j == jti then after[j] == now + ttlMs else j in before && after[j] == before[j])
            && (j in after <==>
                  && j !in m.evicted
                  && if m.firstUse && j == jti then now + ttlMs > later else j in before)
  {
    PruneKeepsLive(s, now, later);
    PrunedKeepsValid(s, now);
    var p := Pruned(s, now);
    assert j in Live(p.used, later) <==> j in p.used.val && p.used.val[j] > later;
    if Mark(s, jti, ttlMs, now).firstUse {
      PutValid(p.used, jti, now + ttlMs);
      CapEvicts(p.used.Put(jti, now + ttlMs));
    }
  }

  /** One call writes at most its own mark; every other mark is an old one. */
  lemma MarkWrites(s: Store, jti: string, ttlMs: int, now: int)
    requires ValidStore(s)
    ensures var m := Mark(s, jti, ttlMs, now);
            && m.store.used.val.Keys <= s.used.val.Keys + (if m.firstUse then {jti} else {})
            && forall j :: j in m.store.used.val && !(m.firstUse && j == jti) ==> m.store.used.val[j] == s.used.val[j]
  {
    PrunedKeepsValid(s, now);
    var p := Pruned(s, now);
    if Mark(s, jti, ttlMs, now).firstUse {
      PutValid(p.used, jti, now + ttlMs);
      CapEvicts(p.used.Put(jti, now + ttlMs));
    }
  }

  // ---- a run of calls against the plain map ----

  datatype Call = Call(jti: string, ttlMs: int, now: int)

  ghost predicate Monotone(calls: seq<Call>) {
    forall i, j :: 0 <= i < j < |calls| ==> calls[i].now <= calls[j].now
  }

  /** The state after a run, with the answers and the keys each call evicted. */
  datatype History = History(store: Store, answers: seq<bool>, evicted: seq<set<string>>)

  function Run(calls: seq<Call>): (h: History)
    ensures |h.answers| == |h.evicted| == |calls|
  {
    if calls == [] then History(EMPTY_STORE, [], []) else
      var h := Run(calls[..|calls| - 1]);
      var c := calls[|calls| - 1];
      var m := Mark(h.store, c.jti, c.ttlMs, c.now);
      History(m.store, h.answers + [m.firstUse], h.evicted + [m.evicted])
  }

  /** The reference: an unbounded map that is never swept. */
  datatype Plain = Plain(expiry: map<string, int>, answers: seq<bool>)

  function PlainRun(calls: seq<Call>): (p: Plain)
    ensures |p.answers| == |calls|
  {
    if calls == [] then Plain(map[], []) else
      var p := PlainRun(calls[..|calls| - 1]);
      var c := calls[|calls| - 1];
      var refused := c.jti in p.expiry && p.expiry[c.jti] > c.now;
      Plain(if refused then p.expiry else p.expiry[c.jti := c.now + c.ttlMs], p.answers + [!refused])
  }

  lemma {:induction false} RunValid(calls: seq<Call>)
    ensures ValidStore(Run(calls).store)
  {
    if calls != [] {
      var c := calls[|calls| - 1];
      RunValid(calls[..|calls| - 1]);
      MarkKeepsValid(Run(calls[..|calls| - 1]).store, c.jti, c.ttlMs, c.now);
    }
  }

  ghost predicate NeverEvicted(calls: seq<Call>, jti: string) {
    forall i :: 0 <= i < |calls| ==> jti !in Run(calls).evicted[i]
  }

  /** As long as the cap never evicted `jti`, both maps hold the same live mark for it at every later instant. */
  lemma {:induction false} RunTracksPlain(calls: seq<Call>, jti: string, later: int)
    requires Monotone(calls) && NeverEvicted(calls, jti)
    requires calls != [] ==> calls[|calls| - 1].now <= later
    ensures var live, plain := Live(Run(calls).store.used, later), PlainRun(calls).expiry;
            && (jti in live <==> jti in plain && plain[jti] > later)
            && (jti in live ==> live[jti] == plain[jti])
  {
    if calls != [] {
      var front, c := calls[..|calls| - 1], calls[|calls| - 1];
      var h := Run(front);
      forall i | 0 <= i < |front| ensures jti !in h.evicted[i] {
        assert Run(calls).evicted[i] == h.evicted[i];
      }
      assert front != [] ==> front[|front| - 1] == calls[|front| - 1];
      assert jti !in Run(calls).evicted[|front|];
      RunTracksPlain(front, jti, later);
      RunTracksPlain(front, jti, c.now);
      RunValid(front);
      MarkOnLive(h.store, c.jti, c.ttlMs, c.now);
      MarkLeavesLive(h.store, c.jti, c.ttlMs, c.now, jti, later);
      assert c.jti == jti ==> (c.jti in Live(h.store.used, c.now) <==> !PlainRun(calls).answers[|front|]);
    }
  }

  /** The store refines the plain map: every answer about a jti that was not evicted before is the plain map's. */
  lemma {:induction false} AnswersAgree(calls: seq<Call>, i: nat)
    requires Monotone(calls) && i < |calls|
    requires NeverEvicted(calls[..i], calls[i].jti)
    ensures Run(calls).answers[i] == PlainRun(calls).answers[i]
  {
    var front := calls[..|calls| - 1];
    if i < |front| {
      assert front[..i] == calls[..i];
      AnswersAgree(front, i);
    } else {
      var c := calls[i];
      RunTracksPlain(front, c.jti, c.now);
      RunValid(front);
      MarkOnLive(Run(front).store, c.jti, c.ttlMs, c.now);
    }
  }

  ghost predicate SweptClean(s: Store, now: int) {
    s.lastPruneAt <= now && forall j :: j in s.used.val ==> s.used.val[j] > s.lastPruneAt
  }

  lemma MarkKeepsClean(s: Store, jti: string, ttlMs: int, now: int)
    requires SweptClean(s, now) && ttlMs > 0
    ensures SweptClean(Mark(s, jti, ttlMs, now).store, now)
  {
    assert SweptClean(Pruned(s, now), now);
  }

  /** With positive lifetimes every retained mark outlives the last sweep. */
  lemma {:induction false} MarksOutliveSweep(calls: seq<Call>)
    requires Monotone(calls)
    requires forall i :: 0 <= i < |calls| ==> calls[i].ttlMs > 0 && calls[i].now >= 0
    ensures SweptClean(Run(calls).store, if calls == [] then 0 else calls[|calls| - 1].now)
  {
    if calls != [] {
      var front, c := calls[..|calls| - 1], calls[|calls| - 1];
      forall i | 0 <= i < |front| ensures front[i].ttlMs > 0 && front[i].now >= 0 {
        assert front[i] == calls[i];
      }
      MarksOutliveSweep(front);
      assert c == calls[|front|] && c.ttlMs > 0;
      assert front != [] ==> front[|front| - 1] == calls[|front| - 1];
      MarkKeepsClean(Run(front).store, c.jti, c.ttlMs, c.now);
    }
  }

  /** So no retained mark is ever a sweep interval or more past its expiry. */
  lemma RetainedMarksAreRecent(calls: seq<Call>, jti: string)
    requires calls != [] && Monotone(calls)
    requires forall i :: 0 <= i < |calls| ==> calls[i].ttlMs > 0 && calls[i].now >= 0
    requires jti in Run(calls).store.used.val
    ensures calls[|calls| - 1].now - Run(calls).store.used.val[jti] < 60_000
  {
    MarksOutliveSweep(calls);
  }
}
