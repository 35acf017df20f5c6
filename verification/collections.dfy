/** The document-store operators the controllers use, as functions on finite
    sequences: `$match`/`$lookup` are filters, `$size` is the length, `$in` is
    membership, `$sum` is a fold, `$first`/`$last` pick an end, `$sort` sorts,
    `findByIdAndUpdate` replaces in place, `$addToSet`/`$pull` are set insert
    and remove. */
module Collections {
  import opened Wrappers

  /** The elements of `s` that satisfy `p`, in their original order. */
  function Filter<T(!new)>(s: seq<T>, p: T -> bool): (r: seq<T>)
    ensures |r| <= |s|
    ensures forall x :: x in r <==> x in s && p(x)
  {
    if s == [] then [] else (if p(s[0]) then [s[0]] else []) + Filter(s[1..], p)
  }

  lemma {:induction false} FilterAppend<T(!new)>(s: seq<T>, t: seq<T>, p: T -> bool)
    ensures Filter(s + t, p) == Filter(s, p) + Filter(t, p)
  {
    if s == [] {
      assert s + t == t;
    } else {
      assert (s + t)[1..] == s[1..] + t;
      FilterAppend(s[1..], t, p);
    }
  }

  /** Filtering by a predicate every element meets changes nothing. */
  lemma {:induction false} FilterKeepsAll<T(!new)>(s: seq<T>, p: T -> bool)
    requires forall x :: x in s ==> p(x)
    ensures Filter(s, p) == s
  {
    if s != [] {
      FilterKeepsAll(s[1..], p);
    }
  }

  /** `$size` of a `$lookup`: how many elements satisfy `p`. */
  function Count<T(!new)>(s: seq<T>, p: T -> bool): (n: nat)
    ensures n <= |s|
    ensures n > 0 <==> exists x :: x in s && p(x)
  {
    var f := Filter(s, p);
    assert f != [] ==> f[0] in f;
    |f|
  }

  lemma CountAppendOne<T(!new)>(s: seq<T>, x: T, p: T -> bool)
    ensures Count(s + [x], p) == Count(s, p) + (if p(x) then 1 else 0)
  {
    FilterAppend(s, [x], p);
  }

  /** Counting by a predicate that holds exactly when one of two exclusive
      predicates does adds up the two counts. */
  lemma {:induction false} CountSplit<T(!new)>(s: seq<T>, p: T -> bool, q: T -> bool, r: T -> bool)
    requires forall x :: x in s ==> (p(x) <==> q(x) || r(x)) && !(q(x) && r(x))
    ensures Count(s, p) == Count(s, q) + Count(s, r)
  {
    if s != [] {
      assert s[0] in s;
      CountSplit(s[1..], p, q, r);
    }
  }

  /** Predicates that agree on `s` count the same. */
  lemma {:induction false} CountSame<T(!new)>(s: seq<T>, p: T -> bool, q: T -> bool)
    requires forall x :: x in s ==> (p(x) <==> q(x))
    ensures Count(s, p) == Count(s, q)
  {
    if s != [] {
      assert s[0] in s;
      CountSame(s[1..], p, q);
    }
  }

  /** A projection `"$arr.field"`: the field of every element, in order. */
  function Project<T, U>(s: seq<T>, f: T -> U): (r: seq<U>)
    ensures |r| == |s|
    ensures forall i :: 0 <= i < |s| ==> r[i] == f(s[i])
  {
    seq(|s|, i requires 0 <= i < |s| => f(s[i]))
  }

  /** An element of a projection is the image of an element. */
  lemma ProjectMembers<T, U>(s: seq<T>, f: T -> U)
    ensures forall y :: y in Project(s, f) <==> exists x :: x in s && y == f(x)
  {
    var r := Project(s, f);
    forall y ensures y in r <==> exists x :: x in s && y == f(x) {
      if y in r {
        var i :| 0 <= i < |r| && r[i] == y;
        assert s[i] in s;
      }
      if exists x :: x in s && y == f(x) {
        var x :| x in s && y == f(x);
        var i :| 0 <= i < |s| && s[i] == x;
        assert r[i] == y;
      }
    }
  }

  /** `$lookup` followed by `$unwind`: each element of `s` becomes one row per
      match `f` finds for it, and an element with no match is dropped. */
  function FlatMap<T(!new), U(!new)>(s: seq<T>, f: T -> seq<U>): (r: seq<U>)
    ensures forall y :: y in r <==> exists x :: x in s && y in f(x)
  {
    if s == [] then []
    else
      var r := f(s[0]) + FlatMap(s[1..], f);
      assert forall x :: x in s <==> x == s[0] || x in s[1..];
      r
  }

  /** A `$lookup` that finds exactly one match per element followed by
      `$unwind` keeps one row per element. */
  lemma {:induction false} FlatMapSingles<T(!new), U(!new)>(s: seq<T>, f: T -> seq<U>)
    requires forall x :: x in s ==> |f(x)| == 1
    ensures |FlatMap(s, f)| == |s|
  {
    if s != [] {
      assert s[0] in s;
      assert forall x :: x in s[1..] ==> x in s;
      FlatMapSingles(s[1..], f);
    }
  }

  lemma SortedAppend<T>(a: seq<T>, b: seq<T>, key: T -> int, ascending: bool)
    requires SortedBy(a, key, ascending) && SortedBy(b, key, ascending)
    requires forall x, y :: x in a && y in b ==> Before(key(x), key(y), ascending)
    ensures SortedBy(a + b, key, ascending)
  {
    var r := a + b;
    forall i, j | 0 <= i < j < |r| ensures Before(key(r[i]), key(r[j]), ascending) {
      if j < |a| {
        assert r[i] == a[i] && r[j] == a[j];
      } else if i >= |a| {
        assert r[i] == b[i - |a|] && r[j] == b[j - |a|];
      } else {
        assert r[i] == a[i] && r[j] == b[j - |a|];
        assert a[i] in a && b[j - |a|] in b;
      }
    }
  }

  /** `$unwind` after a `$lookup` keeps the order of a sorted input: every row
      inherits the sort key of the element it came from. */
  lemma {:induction false} FlatMapSorted<T(!new), U(!new)>(
    s: seq<T>, f: T -> seq<U>, key: T -> int, rowKey: U -> int, ascending: bool)
    requires SortedBy(s, key, ascending)
    requires forall x, y :: x in s && y in f(x) ==> rowKey(y) == key(x)
    ensures SortedBy(FlatMap(s, f), rowKey, ascending)
  {
    if s != [] {
      var head := f(s[0]);
      var tail := s[1..];
      assert s[0] in s;
      assert forall x :: x in tail ==> x in s;
      assert SortedBy(tail, key, ascending) by {
        forall i, j | 0 <= i < j < |tail| ensures Before(key(tail[i]), key(tail[j]), ascending) {
          assert tail[i] == s[i + 1] && tail[j] == s[j + 1];
        }
      }
      FlatMapSorted(tail, f, key, rowKey, ascending);
      forall x, y | x in head && y in FlatMap(tail, f) ensures Before(rowKey(x), rowKey(y), ascending) {
        var z :| z in tail && y in f(z);
        var j :| 0 <= j < |tail| && tail[j] == z;
        assert s[j + 1] == z;
      }
      SortedAppend(head, FlatMap(tail, f), rowKey, ascending);
    }
  }

  /** `$sum` of a numeric field over the elements of `s`. */
  function SumOf<T>(s: seq<T>, f: T -> nat): nat
  {
    if s == [] then 0 else f(s[0]) + SumOf(s[1..], f)
  }

  lemma {:induction false} SumOfAppend<T>(s: seq<T>, t: seq<T>, f: T -> nat)
    ensures SumOf(s + t, f) == SumOf(s, f) + SumOf(t, f)
  {
    if s == [] {
      assert s + t == t;
    } else {
      assert (s + t)[1..] == s[1..] + t;
      SumOfAppend(s[1..], t, f);
    }
  }

  /** Summing over the kept elements is summing over all of them with each
      dropped one counted as zero. */
  lemma {:induction false} SumOfFilter<T(!new)>(s: seq<T>, p: T -> bool, f: T -> nat, g: T -> nat)
    requires forall x :: g(x) == if p(x) then f(x) else 0
    ensures SumOf(Filter(s, p), f) == SumOf(s, g)
  {
    if s != [] {
      SumOfFilter(s[1..], p, f, g);
      SumOfAppend(if p(s[0]) then [s[0]] else [], Filter(s[1..], p), f);
    }
  }

  /** `$first`: absent for an empty array. */
  function First<T>(s: seq<T>): (r: Option<T>)
    ensures r.Some? <==> s != []
    ensures r.Some? ==> r.value == s[0]
  {
    if s == [] then None else Some(s[0])
  }

  /** `$last`: absent for an empty array. */
  function Last<T>(s: seq<T>): (r: Option<T>)
    ensures r.Some? <==> s != []
    ensures r.Some? ==> r.value == s[|s| - 1]
  {
    if s == [] then None else Some(s[|s| - 1])
  }

  /** No two positions of `s` share a key (a unique index on `key`). */
  predicate DistinctBy<T, K(==)>(s: seq<T>, key: T -> K)
  {
    forall i, j :: 0 <= i < j < |s| ==> key(s[i]) != key(s[j])
  }

  /** No value occurs twice in `s`. */
  predicate NoDuplicates<T(==)>(s: seq<T>)
  {
    forall i, j :: 0 <= i < j < |s| ==> s[i] != s[j]
  }

  /** Under a unique index, two stored elements with the same key are one element. */
  lemma SameKeySameElement<T, K>(s: seq<T>, key: T -> K, x: T, y: T)
    requires DistinctBy(s, key) && x in s && y in s && key(x) == key(y)
    ensures x == y
  {
    var i :| 0 <= i < |s| && s[i] == x;
    var j :| 0 <= j < |s| && s[j] == y;
    assert !(i < j) && !(j < i);
  }

  lemma DistinctByTail<T, K>(s: seq<T>, key: T -> K)
    requires DistinctBy(s, key) && s != []
    ensures DistinctBy(s[1..], key)
    ensures forall x :: x in s[1..] ==> key(x) != key(s[0])
  {
    forall i, j | 0 <= i < j < |s[1..]| ensures key(s[1..][i]) != key(s[1..][j]) {
      assert s[1..][i] == s[i + 1] && s[1..][j] == s[j + 1];
    }
    forall x | x in s[1..] ensures key(x) != key(s[0]) {
      var j :| 0 <= j < |s[1..]| && s[1..][j] == x;
      assert s[j + 1] == x;
    }
  }

  lemma {:induction false} DistinctByFilter<T(!new), K>(s: seq<T>, key: T -> K, p: T -> bool)
    requires DistinctBy(s, key)
    ensures DistinctBy(Filter(s, p), key)
  {
    if s != [] {
      var rest := Filter(s[1..], p);
      DistinctByTail(s, key);
      DistinctByFilter(s[1..], key, p);
      if p(s[0]) {
        forall k | 0 <= k < |rest| ensures key(s[0]) != key(rest[k]) {
          assert rest[k] in s[1..];
        }
        var r := [s[0]] + rest;
        forall i, j | 0 <= i < j < |r| ensures key(r[i]) != key(r[j]) {
          assert r[j] == rest[j - 1];
          if i > 0 {
            assert r[i] == rest[i - 1];
          }
        }
      }
    }
  }

  lemma DistinctByAppend<T, K>(s: seq<T>, key: T -> K, x: T)
    requires DistinctBy(s, key)
    requires forall y :: y in s ==> key(y) != key(x)
    ensures DistinctBy(s + [x], key)
  {
    var r := s + [x];
    forall i, j | 0 <= i < j < |r| ensures key(r[i]) != key(r[j]) {
      assert r[i] == s[i];
      if j == |s| {
        assert r[i] in s;
      } else {
        assert r[j] == s[j];
      }
    }
  }

  /** `findByIdAndUpdate`/`updateMany`: every element meeting `p` is replaced by
      `f` of itself, in place; the rest stay where they are. */
  function Replace<T>(s: seq<T>, p: T -> bool, f: T -> T): (r: seq<T>)
    ensures |r| == |s|
    ensures forall i :: 0 <= i < |s| ==> r[i] == if p(s[i]) then f(s[i]) else s[i]
  {
    seq(|s|, i requires 0 <= i < |s| => if p(s[i]) then f(s[i]) else s[i])
  }

  /** Applying an update twice undoes it when the update is its own inverse and
      does not change which elements it selects. */
  lemma ReplaceTwice<T>(s: seq<T>, p: T -> bool, f: T -> T)
    requires forall x :: f(f(x)) == x && p(f(x)) == p(x)
    ensures Replace(Replace(s, p, f), p, f) == s
  {
  }

  lemma DistinctByReplace<T, K>(s: seq<T>, key: T -> K, p: T -> bool, f: T -> T)
    requires DistinctBy(s, key)
    requires forall x :: x in s ==> key(f(x)) == key(x)
    ensures DistinctBy(Replace(s, p, f), key)
  {
    var r := Replace(s, p, f);
    forall i, j | 0 <= i < j < |r| ensures key(r[i]) != key(r[j]) {
      assert s[i] in s && s[j] in s;
    }
  }

  /** The order `$sort` puts two keys in: `1` is ascending, `-1` descending. */
  predicate Before(a: int, b: int, ascending: bool)
  {
    if ascending then a <= b else a >= b
  }

  predicate SortedBy<T>(s: seq<T>, key: T -> int, ascending: bool)
  {
    forall i, j :: 0 <= i < j < |s| ==> Before(key(s[i]), key(s[j]), ascending)
  }

  /** A key that comes before every key of a sorted sequence can head it. */
  lemma SortedCons<T>(h: T, t: seq<T>, key: T -> int, ascending: bool)
    requires SortedBy(t, key, ascending)
    requires forall y :: y in t ==> Before(key(h), key(y), ascending)
    ensures SortedBy([h] + t, key, ascending)
  {
    var r := [h] + t;
    forall i, j | 0 <= i < j < |r| ensures Before(key(r[i]), key(r[j]), ascending) {
      assert r[j] == t[j - 1];
      if i > 0 {
        assert r[i] == t[i - 1];
      } else {
        assert t[j - 1] in t;
      }
    }
  }

  /** An element whose key comes before the head of a sorted sequence can
      head it. */
  lemma InsertAtHead<T>(x: T, s: seq<T>, key: T -> int, ascending: bool)
    requires SortedBy(s, key, ascending)
    requires s == [] || Before(key(x), key(s[0]), ascending)
    ensures SortedBy([x] + s, key, ascending)
  {
    forall y | y in s ensures Before(key(x), key(y), ascending) {
      var j :| 0 <= j < |s| && s[j] == y;
      assert j == 0 || Before(key(s[0]), key(s[j]), ascending);
    }
    SortedCons(x, s, key, ascending);
  }

  /** When `x` goes after the head, the head still leads the sorted rest with
      `x` inserted. */
  lemma InsertAfterHead<T>(x: T, s: seq<T>, rest: seq<T>, key: T -> int, ascending: bool)
    requires SortedBy(s, key, ascending) && s != []
    requires !Before(key(x), key(s[0]), ascending)
    requires SortedBy(rest, key, ascending)
    requires forall y :: y in rest ==> y == x || y in s[1..]
    ensures SortedBy([s[0]] + rest, key, ascending)
  {
    forall y | y in rest ensures Before(key(s[0]), key(y), ascending) {
      if y != x {
        var j :| 0 <= j < |s[1..]| && s[1..][j] == y;
        assert s[j + 1] == y;
      }
    }
    SortedCons(s[0], rest, key, ascending);
  }

  function Insert<T>(x: T, s: seq<T>, key: T -> int, ascending: bool): (r: seq<T>)
    requires SortedBy(s, key, ascending)
    ensures forall y :: y in r ==> y == x || y in s
    ensures SortedBy(r, key, ascending)
    ensures multiset(r) == multiset(s) + multiset{x}
  {
    if s == [] || Before(key(x), key(s[0]), ascending) then
      InsertAtHead(x, s, key, ascending);
      [x] + s
    else
      var rest := Insert(x, s[1..], key, ascending);
      InsertAfterHead(x, s, rest, key, ascending);
      assert s == [s[0]] + s[1..];
      [s[0]] + rest
  }

  /** Sequences that are permutations of each other have the same members. */
  lemma SameElements<T>(a: seq<T>, b: seq<T>)
    requires multiset(a) == multiset(b)
    ensures forall x :: x in a <==> x in b
  {
    forall x ensures x in a <==> x in b {
      assert x in a <==> x in multiset(a);
      assert x in b <==> x in multiset(b);
    }
  }

  /** `$sort` on one numeric key: a permutation of `s` ordered by `key`. */
  function SortBy<T>(s: seq<T>, key: T -> int, ascending: bool): (r: seq<T>)
    ensures SortedBy(r, key, ascending)
    ensures multiset(r) == multiset(s)
  {
    if s == [] then []
    else
      assert s == [s[0]] + s[1..];
      Insert(s[0], SortBy(s[1..], key, ascending), key, ascending)
  }

  /** Equality with `x`, as a selector. */
  function Is<T(==)>(x: T): T -> bool
  {
    (y: T) => y == x
  }

  /** Inequality with `x`, as a selector. */
  function IsNot<T(==)>(x: T): T -> bool
  {
    (y: T) => y != x
  }

  /** `$addToSet`: append `x` unless it is already present. */
  function AddToSet<T(==)>(s: seq<T>, x: T): seq<T>
  {
    if x in s then s else s + [x]
  }

  /** `$pull`: remove every occurrence of `x`. */
  function Pull<T(==,!new)>(s: seq<T>, x: T): seq<T>
  {
    Filter(s, IsNot(x))
  }

  /** The keys of the elements of `s`. */
  ghost function KeySet<T, K>(s: seq<T>, key: T -> K): set<K>
  {
    set x | x in s :: key(x)
  }

  /** A sequence without duplicates has as many elements as its set of keys
      when the keys are distinct. */
  lemma {:induction false} DistinctCard<T, K>(s: seq<T>, key: T -> K)
    requires DistinctBy(s, key)
    ensures |KeySet(s, key)| == |s|
  {
    if s != [] {
      DistinctByTail(s, key);
      DistinctCard(s[1..], key);
      assert KeySet(s, key) == {key(s[0])} + KeySet(s[1..], key) by {
        assert forall x :: x in s <==> x == s[0] || x in s[1..];
      }
    }
  }

  /** A sequence without duplicates has as many elements as its set. */
  lemma {:induction false} NoDuplicatesCard<T>(s: seq<T>)
    requires NoDuplicates(s)
    ensures |set x | x in s| == |s|
  {
    if s != [] {
      assert NoDuplicates(s[1..]) by {
        forall i, j | 0 <= i < j < |s[1..]| ensures s[1..][i] != s[1..][j] {
          assert s[1..][i] == s[i + 1] && s[1..][j] == s[j + 1];
        }
      }
      NoDuplicatesCard(s[1..]);
      assert s[0] !in s[1..] by {
        forall j | 0 <= j < |s[1..]| ensures s[1..][j] != s[0] {
          assert s[1..][j] == s[j + 1];
        }
      }
      assert (set x | x in s) == {s[0]} + (set x | x in s[1..]) by {
        assert forall x :: x in s <==> x == s[0] || x in s[1..];
      }
    }
  }

  lemma NoDuplicatesDistinct<T>(s: seq<T>)
    ensures NoDuplicates(s) <==> DistinctBy(s, (x: T) => x)
  {
  }

  /** Elements with distinct keys are themselves distinct. */
  lemma DistinctByNoDuplicates<T, K>(s: seq<T>, key: T -> K)
    requires DistinctBy(s, key)
    ensures NoDuplicates(s)
  {
  }

  lemma NoDuplicatesTail<T>(s: seq<T>)
    requires NoDuplicates(s) && s != []
    ensures NoDuplicates(s[1..]) && s[0] !in s[1..]
  {
    forall i, j | 0 <= i < j < |s[1..]| ensures s[1..][i] != s[1..][j] {
      assert s[1..][i] == s[i + 1] && s[1..][j] == s[j + 1];
    }
    forall j | 0 <= j < |s[1..]| ensures s[1..][j] != s[0] {
      assert s[1..][j] == s[j + 1];
    }
  }

  /** A `$match` keeps distinct documents distinct. */
  lemma NoDuplicatesFilter<T(!new)>(s: seq<T>, p: T -> bool)
    requires NoDuplicates(s)
    ensures NoDuplicates(Filter(s, p))
  {
    NoDuplicatesDistinct(s);
    DistinctByFilter(s, (x: T) => x, p);
    NoDuplicatesDistinct(Filter(s, p));
  }

  lemma NoDuplicatesAppend<T>(a: seq<T>, b: seq<T>)
    requires NoDuplicates(a) && NoDuplicates(b)
    requires forall x :: x in a ==> x !in b
    ensures NoDuplicates(a + b)
  {
    var s := a + b;
    forall i, j | 0 <= i < j < |s| ensures s[i] != s[j] {
      if j < |a| {
        assert s[i] == a[i] && s[j] == a[j];
      } else if i < |a| {
        assert s[i] == a[i] && s[j] == b[j - |a|];
        assert a[i] in a && b[j - |a|] in b;
      } else {
        assert s[i] == b[i - |a|] && s[j] == b[j - |a|];
      }
    }
  }

  /** `$lookup` then `$unwind` gives distinct rows when the inputs are
      distinct, each input's matches are distinct and no row comes from two
      inputs. */
  lemma {:induction false} NoDuplicatesFlatMap<T(!new), U(!new)>(s: seq<T>, f: T -> seq<U>)
    requires NoDuplicates(s)
    requires forall x :: x in s ==> NoDuplicates(f(x))
    requires forall x, x', y :: x in s && x' in s && y in f(x) && y in f(x') ==> x == x'
    ensures NoDuplicates(FlatMap(s, f))
  {
    if s != [] {
      NoDuplicatesTail(s);
      NoDuplicatesFlatMap(s[1..], f);
      forall y | y in f(s[0]) ensures y !in FlatMap(s[1..], f) {
        forall x | x in s[1..] ensures y !in f(x) {
          assert x != s[0];
        }
      }
      NoDuplicatesAppend(f(s[0]), FlatMap(s[1..], f));
    }
  }

  /** A `$lookup` that finds at most one match for at most one element yields
      at most one row. */
  lemma FlatMapAtMostOne<T(!new), U(!new)>(s: seq<T>, f: T -> seq<U>)
    requires |s| <= 1
    requires forall x :: x in s ==> |f(x)| <= 1
    ensures |FlatMap(s, f)| <= 1
  {
    if s != [] {
      assert s[0] in s;
      assert s[1..] == [];
    }
  }

  /** Without duplicates, every element occurs once. */
  lemma {:induction false} NoDuplicatesOnce<T>(s: seq<T>, x: T)
    requires NoDuplicates(s)
    ensures multiset(s)[x] <= 1
  {
    if s != [] {
      NoDuplicatesTail(s);
      NoDuplicatesOnce(s[1..], x);
      assert s == [s[0]] + s[1..];
    }
  }

  /** A reordering (such as `$sort`) keeps distinct elements distinct. */
  lemma NoDuplicatesPermutation<T>(a: seq<T>, b: seq<T>)
    requires multiset(a) == multiset(b) && NoDuplicates(a)
    ensures NoDuplicates(b)
  {
    forall i, j | 0 <= i < j < |b| ensures b[i] != b[j] {
      NoDuplicatesOnce(a, b[j]);
      assert b == b[..j] + [b[j]] + b[j + 1..];
      assert b[i] in b[..j];
      assert multiset(b)[b[j]] == multiset(b[..j])[b[j]] + 1 + multiset(b[j + 1..])[b[j]];
    }
  }

  /** `$addToSet` keeps the set property and the existing order, and leaves `x`
      present exactly once. */
  lemma {:induction false} AddToSetOnce<T(!new)>(s: seq<T>, x: T)
    requires NoDuplicates(s)
    ensures NoDuplicates(AddToSet(s, x))
    ensures x in AddToSet(s, x)
    ensures Count(AddToSet(s, x), Is(x)) == 1
    ensures forall y :: y in AddToSet(s, x) <==> y in s || y == x
    ensures AddToSet(s, x)[..|s|] == s
  {
    var r := AddToSet(s, x);
    if x !in s {
      forall i, j | 0 <= i < j < |r| ensures r[i] != r[j] {
        if j == |s| {
          assert r[i] in s;
        }
      }
    }
    NoDuplicatesDistinct(r);
    CountOfDistinct(r, x);
  }

  /** In a sequence without duplicates an element occurs once. */
  lemma {:induction false} CountOfDistinct<T(!new)>(s: seq<T>, x: T)
    requires NoDuplicates(s) && x in s
    ensures Count(s, Is(x)) == 1
  {
    assert s == [s[0]] + s[1..];
    FilterAppend([s[0]], s[1..], Is(x));
    assert NoDuplicates(s[1..]) by {
      forall i, j | 0 <= i < j < |s[1..]| ensures s[1..][i] != s[1..][j] {
        assert s[1..][i] == s[i + 1] && s[1..][j] == s[j + 1];
      }
    }
    if s[0] == x {
      forall y | y in s[1..] ensures y != x {
        var j :| 0 <= j < |s[1..]| && s[1..][j] == y;
        assert s[j + 1] == y;
      }
      assert Count(s[1..], Is(x)) == 0;
    } else {
      CountOfDistinct(s[1..], x);
    }
  }

  /** `$pull` keeps the set property and every other element, and removes `x`. */
  lemma PullRemoves<T(!new)>(s: seq<T>, x: T)
    requires NoDuplicates(s)
    ensures NoDuplicates(Pull(s, x))
    ensures x !in Pull(s, x)
    ensures forall y :: y in Pull(s, x) <==> y in s && y != x
  {
    NoDuplicatesDistinct(s);
    DistinctByFilter(s, (y: T) => y, IsNot(x));
    NoDuplicatesDistinct(Pull(s, x));
  }

  /** `$pull` of a present element closes the gap it leaves: the rest keep
      their order. */
  lemma {:induction false} PullClosesGap<T(!new)>(a: seq<T>, x: T, b: seq<T>)
    requires x !in a && x !in b
    ensures Pull(a + [x] + b, x) == a + b
  {
    var keep := IsNot(x);
    FilterAppend(a + [x], b, keep);
    FilterAppend(a, [x], keep);
    assert Filter([x], keep) == [] by {
      assert [x][1..] == [];
    }
    PullAbsent(a, x);
    PullAbsent(b, x);
    assert Filter(a, keep) + Filter([x], keep) == a;
    assert Filter(a + [x], keep) == a;
  }

  /** `$pull` of an absent element changes nothing. */
  lemma {:induction false} PullAbsent<T(!new)>(s: seq<T>, x: T)
    requires x !in s
    ensures Pull(s, x) == s
  {
    FilterKeepsAll(s, IsNot(x));
  }

  /** Removing an element that was just added restores the original order. */
  lemma PullUndoesAddToSet<T(!new)>(s: seq<T>, x: T)
    requires x !in s
    ensures Pull(AddToSet(s, x), x) == s
  {
    FilterAppend(s, [x], IsNot(x));
    FilterKeepsAll(s, IsNot(x));
  }
}
