/**
  A JavaScript Map: a finite map that iterates in insertion order. Overwriting a
  key keeps its position; a deleted key that comes back goes to the end.
*/
module InsertionOrderedMaps {
  import opened Sequences

  /** The members of `s` that lie in `keep`, in their order. */
  function Select<K(==, !new)>(s: seq<K>, keep: set<K>): (r: seq<K>)
    ensures forall k :: k in r <==> k in s && k in keep
    ensures |r| <= |s|
  {
    if s == [] then [] else
      var front, last := s[..|s| - 1], s[|s| - 1];
      var rest := Select(front, keep);
      assert s == front + [last];
      if last in keep then rest + [last] else rest
  }

  datatype OrderedMap<K(==, !new), V> = OrderedMap(order: seq<K>, val: map<K, V>) {

    ghost predicate Valid() {
      && NoRepeats(order)
      && forall k :: k in order <==> k in val
    }

    function Size(): nat {
      |order|
    }

    function Put(k: K, v: V): OrderedMap<K, V> {
      OrderedMap(if k in val then order else order + [k], val[k := v])
    }

    /** Deletes every key outside `keep`; the survivors keep their order. */
    function Keep(keep: set<K>): OrderedMap<K, V> {
      OrderedMap(Select(order, keep), map k | k in val && k in keep :: val[k])
    }

    function Delete(k: K): OrderedMap<K, V> {
      Keep(val.Keys - {k})
    }

    /** Deletes the `n` keys inserted first. */
    function DropOldest(n: nat): OrderedMap<K, V>
      requires n <= |order|
    {
      OrderedMap(order[n..], map k | k in val && k in order[n..] :: val[k])
    }
  }

  function Empty<K(==, !new), V>(): OrderedMap<K, V> {
    OrderedMap([], map[])
  }

  lemma {:induction false} SelectDistinct<K(!new)>(s: seq<K>, keep: set<K>)
    requires NoRepeats(s)
    ensures NoRepeats(Select(s, keep))
  {
    if s != [] {
      var front, last := s[..|s| - 1], s[|s| - 1];
      SelectDistinct(front, keep);
      assert last !in front;
    }
  }

  /** The selected elements stand in the order they had. */
  lemma {:induction false} SelectKeepsPlaces<K(!new)>(s: seq<K>, keep: set<K>, i: nat, j: nat) returns (a: nat, b: nat)
    requires i < j < |Select(s, keep)|
    ensures a < b < |s| && s[a] == Select(s, keep)[i] && s[b] == Select(s, keep)[j]
  {
    var front, last := s[..|s| - 1], s[|s| - 1];
    var r := Select(front, keep);
    if j < |r| {
      a, b := SelectKeepsPlaces(front, keep, i, j);
    } else {
      assert r[i] in front;
      a :| 0 <= a < |front| && front[a] == r[i];
      b := |s| - 1;
    }
  }

  lemma {:induction false} SelectTwice<K(!new)>(s: seq<K>, a: set<K>, b: set<K>)
    ensures Select(Select(s, a), b) == Select(s, a * b)
  {
    if s != [] {
      var front, last := s[..|s| - 1], s[|s| - 1];
      SelectTwice(front, a, b);
      if last in a {
        assert Select(s, a)[..|Select(s, a)| - 1] == Select(front, a);
      }
    }
  }

  lemma {:induction false} SelectAll<K(!new)>(s: seq<K>, keep: set<K>)
    requires forall k :: k in s ==> k in keep
    ensures Select(s, keep) == s
  {
    if s != [] {
      assert s == s[..|s| - 1] + [s[|s| - 1]];
      SelectAll(s[..|s| - 1], keep);
    }
  }

  lemma PutValid<K(!new), V>(m: OrderedMap<K, V>, k: K, v: V)
    requires m.Valid()
    ensures m.Put(k, v).Valid()
  {
  }

  lemma KeepValid<K(!new), V>(m: OrderedMap<K, V>, keep: set<K>)
    requires m.Valid()
    ensures m.Keep(keep).Valid()
  {
    SelectDistinct(m.order, keep);
  }

  lemma KeepTwice<K(!new), V>(m: OrderedMap<K, V>, a: set<K>, b: set<K>)
    ensures m.Keep(a).Keep(b) == m.Keep(a * b)
  {
    SelectTwice(m.order, a, b);
  }

  /** Deleting one more key from an already reduced map. */
  lemma DeleteAfterKeep<K(!new), V>(m: OrderedMap<K, V>, keep: set<K>, k: K)
    requires m.Valid() && keep <= m.val.Keys
    ensures m.Keep(keep).Delete(k) == m.Keep(keep - {k})
  {
    assert m.Keep(keep).val.Keys == keep;
    KeepTwice(m, keep, keep - {k});
    assert keep * (keep - {k}) == keep - {k};
  }

  lemma KeepEverything<K(!new), V>(m: OrderedMap<K, V>)
    requires m.Valid()
    ensures m.Keep(m.val.Keys) == m
  {
    SelectAll(m.order, m.val.Keys);
  }

  lemma DropOldestValid<K(!new), V>(m: OrderedMap<K, V>, n: nat)
    requires m.Valid() && n <= m.Size()
    ensures m.DropOldest(n).Valid()
  {
  }

  lemma {:induction false} SelectTail<K(!new)>(s: seq<K>, keep: set<K>)
    requires s != [] && NoRepeats(s) && s[0] !in keep && forall k :: k in s[1..] ==> k in keep
    ensures Select(s, keep) == s[1..]
  {
    if |s| > 1 {
      var front, last := s[..|s| - 1], s[|s| - 1];
      assert front[1..] == s[1..][..|s| - 2];
      SelectTail(front, keep);
      assert s[1..] == front[1..] + [last];
    }
  }

  /** Deleting the key the iterator meets first drops the oldest entry. */
  lemma DeleteOldest<K(!new), V>(m: OrderedMap<K, V>)
    requires m.Valid() && m.order != []
    ensures m.Delete(m.order[0]) == m.DropOldest(1)
  {
    SelectTail(m.order, m.val.Keys - {m.order[0]});
  }

  lemma TailMembers<K(!new)>(s: seq<K>, k: K)
    requires NoRepeats(s) && s != []
    ensures k in s[1..] <==> k in s && k != s[0]
  {
    assert s == [s[0]] + s[1..];
    if k in s[1..] {
      var i :| 0 <= i < |s[1..]| && s[1..][i] == k;
      assert s[i + 1] == k;
    }
  }

  lemma DropFirst<K(!new), V>(m: OrderedMap<K, V>)
    requires m.Valid() && m.order != []
    ensures m.DropOldest(1).val == m.val - {m.order[0]}
  {
    forall k {
      TailMembers(m.order, k);
    }
  }

  lemma DropOldestTwice<K(!new), V>(m: OrderedMap<K, V>, a: nat, b: nat)
    requires m.Valid() && a + b <= m.Size()
    ensures m.DropOldest(a).DropOldest(b) == m.DropOldest(a + b)
  {
    assert m.order[a..][b..] == m.order[a + b..];
  }

  /** One turn of a loop that deletes the oldest key. */
  lemma DropOneMore<K(!new), V>(was: OrderedMap<K, V>, n: nat, m: OrderedMap<K, V>)
    requires was.Valid() && n < was.Size() && m == was.DropOldest(n)
    ensures m.Valid() && m.Size() == was.Size() - n && m.order != []
    ensures m.Delete(m.order[0]) == was.DropOldest(n + 1)
    ensures was.DropOldest(n + 1).Size() == was.Size() - n - 1
  {
    DropOldestValid(was, n);
    DropOldestValid(was, n + 1);
    DeleteOldest(m);
    DropOldestTwice(was, n, 1);
  }

  // ---- a loop over the entries that deletes some of them ----

  /** The keys left when the first `i` entries have been visited. */
  ghost function Unvisited<K(!new), V>(m: OrderedMap<K, V>, gone: V -> bool, i: nat): set<K>
    requires i <= |m.order|
  {
    m.val.Keys - set k | k in m.val && k in m.order[..i] && gone(m.val[k])
  }

  /** One turn: the visited key is still there, and deleting it if it has to go leaves the next stage. */
  lemma UnvisitedNext<K(!new), V>(m: OrderedMap<K, V>, gone: V -> bool, i: nat)
    requires m.Valid() && i < |m.order|
    ensures var k, before := m.order[i], m.Keep(Unvisited(m, gone, i));
            && k in before.val && before.val[k] == m.val[k]
            && (if gone(m.val[k]) then before.Delete(k) else before) == m.Keep(Unvisited(m, gone, i + 1))
  {
    var k := m.order[i];
    assert m.order[..i + 1] == m.order[..i] + [k];
    assert k !in m.order[..i];
    DeleteAfterKeep(m, Unvisited(m, gone, i), k);
    if gone(m.val[k]) {
      assert Unvisited(m, gone, i) - {k} == Unvisited(m, gone, i + 1);
    } else {
      assert Unvisited(m, gone, i) == Unvisited(m, gone, i + 1);
    }
  }

  /** Before the loop and after it. */
  lemma UnvisitedEnds<K(!new), V>(m: OrderedMap<K, V>, gone: V -> bool)
    requires m.Valid()
    ensures m.Keep(Unvisited(m, gone, 0)) == m
    ensures Unvisited(m, gone, |m.order|) == set k | k in m.val && !gone(m.val[k])
  {
    assert Unvisited(m, gone, 0) == m.val.Keys;
    KeepEverything(m);
    assert m.order[..|m.order|] == m.order;
  }
}
