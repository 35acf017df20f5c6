/** The interaction toggle engine. A like and a subscription are both edges
    from an actor to a target, stored with their own `_id`; toggling a pair
    looks the edge up, deletes it when present and creates it when absent, and
    reports whether the pair is connected afterwards. */
module Edges {
  import opened Wrappers
  import opened Collections
  import opened EntityStore

  /** Selects the edges of the pair `k`. */
  function OfPair<T, K(==)>(pair: T -> K, k: K): T -> bool
  {
    e => pair(e) == k
  }

  /** Whether the pair `k` is connected in `s`. */
  ghost predicate HasEdge<T, K>(s: seq<T>, pair: T -> K, k: K)
  {
    exists e :: e in s && pair(e) == k
  }

  /** The pairs `s` connects. */
  ghost function Pairs<T, K>(s: seq<T>, pair: T -> K): set<K>
  {
    set e | e in s :: pair(e)
  }

  /** How many edges connect the pair `k`. */
  function EdgeCount<T(!new), K(==)>(s: seq<T>, pair: T -> K, k: K): nat
  {
    Count(s, OfPair(pair, k))
  }

  /** `findOne({actor, target})`: the first edge of the pair, if any. */
  function FindEdge<T(!new), K(==)>(s: seq<T>, pair: T -> K, k: K): (r: Option<T>)
    ensures r.Some? ==> r.value in s && pair(r.value) == k
    ensures r.None? <==> !HasEdge(s, pair, k)
  {
    var found := Filter(s, OfPair(pair, k));
    assert found != [] ==> found[0] in found;
    First(found)
  }

  /** One step of the two-state machine: the edges afterwards, and whether the
      pair is connected afterwards. `created` is the edge to insert when the
      pair is not connected. */
  function Toggle<T(!new), K(==)>(s: seq<T>, pair: T -> K, ident: T -> Id, k: K, created: T): (r: (seq<T>, bool))
    ensures r.1 <==> !HasEdge(s, pair, k)
  {
    match FindEdge(s, pair, k)
    case Some(e) => (DeleteById(s, ident, ident(e)), false)
    case None => (s + [created], true)
  }

  /** The invariant of an edge collection: unique `_id`s and at most one edge per pair. */
  ghost predicate EdgeSet<T, K>(s: seq<T>, pair: T -> K, ident: T -> Id)
  {
    DistinctBy(s, pair) && DistinctBy(s, ident)
  }

  /** `created` carries an `_id` no stored edge has. */
  ghost predicate FreshEdge<T>(s: seq<T>, ident: T -> Id, created: T)
  {
    forall e :: e in s ==> ident(e) != ident(created)
  }

  /** A collection with at most one edge per pair holds each pair 0 or 1 times. */
  lemma {:induction false} AtMostOneEdge<T(!new), K>(s: seq<T>, pair: T -> K, k: K)
    requires DistinctBy(s, pair)
    ensures EdgeCount(s, pair, k) <= 1
    ensures EdgeCount(s, pair, k) == 1 <==> HasEdge(s, pair, k)
  {
    if s != [] {
      DistinctByTail(s, pair);
      AtMostOneEdge(s[1..], pair, k);
      if pair(s[0]) == k {
        assert Filter(s[1..], OfPair(pair, k)) == [];
      }
    }
  }

  /** Deleting one edge by its `_id` lowers every count that included it by one
      and leaves every other count alone. */
  lemma {:induction false} CountDeleteOne<T(!new)>(s: seq<T>, ident: T -> Id, e: T, q: T -> bool)
    requires DistinctBy(s, ident) && e in s
    ensures Count(DeleteById(s, ident, ident(e)), q) == Count(s, q) - (if q(e) then 1 else 0)
  {
    var h := s[0];
    var head := if ident(h) != ident(e) then [h] else [];
    assert s == [h] + s[1..];
    FilterAppend([h], s[1..], OtherId(ident, ident(e)));
    assert DeleteById(s, ident, ident(e)) == head + DeleteById(s[1..], ident, ident(e));
    FilterAppend(head, DeleteById(s[1..], ident, ident(e)), q);
    FilterAppend([h], s[1..], q);
    DistinctByTail(s, ident);
    if ident(h) == ident(e) {
      SameKeySameElement(s, ident, h, e);
      FilterKeepsAll(s[1..], OtherId(ident, ident(e)));
    } else {
      assert e in s[1..];
      CountDeleteOne(s[1..], ident, e, q);
    }
  }

  /** Toggling a connected pair deletes its one edge and nothing else. */
  lemma ToggleOff<T(!new), K>(s: seq<T>, pair: T -> K, ident: T -> Id, k: K, created: T)
    requires EdgeSet(s, pair, ident) && HasEdge(s, pair, k)
    ensures var r := Toggle(s, pair, ident, k, created);
      && !r.1
      && !HasEdge(r.0, pair, k)
      && (forall e :: pair(e) != k ==> (e in r.0 <==> e in s))
      && |r.0| == |s| - 1
      && EdgeSet(r.0, pair, ident)
  {
    var e := FindEdge(s, pair, k).value;
    var r := DeleteById(s, ident, ident(e));
    forall x | x in s && pair(x) == k ensures x == e {
      SameKeySameElement(s, pair, x, e);
    }
    forall x | x in s && ident(x) == ident(e) ensures x == e {
      SameKeySameElement(s, ident, x, e);
    }
    CountDeleteOne(s, ident, e, _ => true);
    FilterKeepsAll(s, _ => true);
    FilterKeepsAll(r, _ => true);
    DistinctByFilter(s, pair, OtherId(ident, ident(e)));
    DistinctByFilter(s, ident, OtherId(ident, ident(e)));
  }

  /** Toggling an unconnected pair appends exactly the created edge. */
  lemma ToggleOn<T(!new), K>(s: seq<T>, pair: T -> K, ident: T -> Id, k: K, created: T)
    requires EdgeSet(s, pair, ident) && !HasEdge(s, pair, k)
    requires pair(created) == k && FreshEdge(s, ident, created)
    ensures var r := Toggle(s, pair, ident, k, created);
      && r.1
      && r.0 == s + [created]
      && EdgeCount(r.0, pair, k) == 1
      && EdgeSet(r.0, pair, ident)
  {
    DistinctByAppend(s, pair, created);
    DistinctByAppend(s, ident, created);
    AtMostOneEdge(s + [created], pair, k);
    assert created in s + [created];
  }

  /** Toggling twice restores the connected pairs; starting from an unconnected
      pair it restores the very same edges. */
  lemma ToggleTwice<T(!new), K>(s: seq<T>, pair: T -> K, ident: T -> Id, k: K, c1: T, c2: T)
    requires EdgeSet(s, pair, ident)
    requires pair(c1) == k && pair(c2) == k
    requires FreshEdge(s, ident, c1) && FreshEdge(s, ident, c2)
    ensures var r1 := Toggle(s, pair, ident, k, c1);
      var r2 := Toggle(r1.0, pair, ident, k, c2);
      && r2.1 == !r1.1
      && Pairs(r2.0, pair) == Pairs(s, pair)
      && (!HasEdge(s, pair, k) ==> r2.0 == s)
      && EdgeSet(r2.0, pair, ident)
  {
    var r1 := Toggle(s, pair, ident, k, c1);
    if HasEdge(s, pair, k) {
      ToggleOff(s, pair, ident, k, c1);
      assert FreshEdge(r1.0, ident, c2);
      ToggleOn(r1.0, pair, ident, k, c2);
      var r2 := r1.0 + [c2];
      assert Pairs(r2, pair) == Pairs(s, pair) by {
        forall x | x in Pairs(s, pair) ensures x in Pairs(r2, pair) {
          var e :| e in s && pair(e) == x;
          if x == k {
            assert c2 in r2;
          } else {
            assert e in r2;
          }
        }
        forall x | x in Pairs(r2, pair) ensures x in Pairs(s, pair) {
          var e :| e in r2 && pair(e) == x;
          if e == c2 {
            var w :| w in s && pair(w) == k;
          } else {
            assert e in r1.0;
          }
        }
      }
    } else {
      ToggleOn(s, pair, ident, k, c1);
      FilterAppend(s, [c1], OfPair(pair, k));
      assert Filter(s, OfPair(pair, k)) == [];
      assert FindEdge(r1.0, pair, k) == Some(c1);
      FilterAppend(s, [c1], OtherId(ident, ident(c1)));
      FilterKeepsAll(s, OtherId(ident, ident(c1)));
      assert DeleteById(r1.0, ident, ident(c1)) == s;
    }
  }

  /** The toggle as the like controller runs it: `findByIdAndDelete` is called
      without `await` or `exec`, so the delete query is built but never sent,
      while the response still reports the pair as disconnected. */
  function ToggleUnsent<T(!new), K(==)>(s: seq<T>, pair: T -> K, k: K, created: T): (r: (seq<T>, bool))
    ensures r.1 <==> !HasEdge(s, pair, k)
  {
    match FindEdge(s, pair, k)
    case Some(_) => (s, false)
    case None => (s + [created], true)
  }

  /** With the unsent delete, toggling an unconnected pair twice reports "not
      connected" while the created edge stays in the store. */
  lemma UnsentToggleTwiceKeepsEdge<T(!new), K>(s: seq<T>, pair: T -> K, k: K, c1: T, c2: T)
    requires !HasEdge(s, pair, k) && pair(c1) == k
    ensures var r1 := ToggleUnsent(s, pair, k, c1);
      var r2 := ToggleUnsent(r1.0, pair, k, c2);
      && r1.1 && !r2.1
      && r2.0 == s + [c1]
      && HasEdge(r2.0, pair, k)
  {
    assert c1 in s + [c1];
  }
}
