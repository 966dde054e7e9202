/** The aggregation stages the handlers compose, as functions over a
    collection held in insertion order: `$match` (Filter), `$lookup`
    followed by `$first` (First), `$size` and `$count` (Count), `$sum`
    (Sum), `$skip` with `$limit` (Window), `$sort` (SortBy), and the
    array updates `$addToSet` and `$pull`. */
module Query {
  import opened Base

  /** The predicate "the key of a record is k". */
  function KeyIs<R, K(==)>(key: R -> K, k: K): R -> bool
  {
    r => key(r) == k
  }

  /** The predicate "the key of a record is not k". */
  function KeyIsNot<R, K(==)>(key: R -> K, k: K): R -> bool
  {
    r => key(r) != k
  }

  predicate HasKey<R, K(==)>(s: seq<R>, key: R -> K, k: K)
  {
    exists i :: 0 <= i < |s| && key(s[i]) == k
  }

  /** No two records of the collection share a key. */
  predicate UniqueKeys<R, K(==)>(s: seq<R>, key: R -> K)
  {
    forall i, j :: 0 <= i < j < |s| ==> key(s[i]) != key(s[j])
  }

  /** Every key of the collection is below `bound`. */
  predicate KeysBelow<R>(s: seq<R>, key: R -> nat, bound: nat)
  {
    forall i :: 0 <= i < |s| ==> key(s[i]) < bound
  }

  /** The ids of a collection: distinct, and below the allocator's next id. */
  predicate Identified<R>(s: seq<R>, idOf: R -> nat, nextId: nat)
  {
    UniqueKeys(s, idOf) && KeysBelow(s, idOf, nextId)
  }

  /** `$match`: the records that satisfy `p`, in collection order. */
  function Filter<T>(s: seq<T>, p: T -> bool): (r: seq<T>)
    ensures |r| <= |s|
    ensures forall i :: 0 <= i < |r| ==> r[i] in s && p(r[i])
    ensures forall i :: 0 <= i < |s| && p(s[i]) ==> s[i] in r
  {
    if s == [] then [] else (if p(s[0]) then [s[0]] else []) + Filter(s[1..], p)
  }

  lemma {:induction false} FilterAppend<T>(a: seq<T>, b: seq<T>, p: T -> bool)
    ensures Filter(a + b, p) == Filter(a, p) + Filter(b, p)
  {
    if a != [] {
      assert (a + b)[0] == a[0] && (a + b)[1..] == a[1..] + b;
      FilterAppend(a[1..], b, p);
    } else {
      assert a + b == b;
    }
  }

  /** `$match` on a collection cut around one record. */
  lemma FilterThree<T>(pre: seq<T>, x: T, post: seq<T>, p: T -> bool)
    ensures Filter(pre + [x] + post, p) == Filter(pre, p) + (if p(x) then [x] else []) + Filter(post, p)
  {
    FilterAppend(pre + [x], post, p);
    FilterAppend(pre, [x], p);
    FilterOne(x, p);
  }

  lemma FilterOne<T>(x: T, p: T -> bool)
    ensures Filter([x], p) == if p(x) then [x] else []
  {
    var one := [x];
    assert one[1..] == [];
    assert Filter(one, p) == (if p(x) then [x] else []) + Filter(one[1..], p);
  }

  /** A record the predicate rejects does not show in the filtered result. */
  lemma FilterSkip<T>(pre: seq<T>, x: T, post: seq<T>, p: T -> bool)
    requires !p(x)
    ensures Filter(pre + [x] + post, p) == Filter(pre + post, p)
  {
    FilterAppend(pre + [x], post, p);
    FilterAppend(pre, [x], p);
    FilterAppend(pre, post, p);
    assert [x][1..] == [];
  }

  /** `$size` of a lookup, `$count` of a match: how many records satisfy `p`. */
  function Count<T>(s: seq<T>, p: T -> bool): nat
  {
    |Filter(s, p)|
  }

  lemma CountZeroIffNone<T>(s: seq<T>, p: T -> bool)
    ensures Count(s, p) == 0 <==> forall i :: 0 <= i < |s| ==> !p(s[i])
  {
    if Count(s, p) == 0 {
      forall i | 0 <= i < |s| ensures !p(s[i]) {
        assert s[i] in s;
      }
    } else {
      var x := Filter(s, p)[0];
      assert x in Filter(s, p);
      var i :| 0 <= i < |s| && s[i] == x;
    }
  }

  /** The position of the earliest record satisfying `p`. */
  function FirstIndex<T>(s: seq<T>, p: T -> bool): (r: Option<nat>)
    ensures r.Some? ==> r.value < |s| && p(s[r.value]) && forall j :: 0 <= j < r.value ==> !p(s[j])
    ensures r.None? ==> forall j :: 0 <= j < |s| ==> !p(s[j])
  {
    if s == [] then None
    else if p(s[0]) then Some(0)
    else match FirstIndex(s[1..], p)
      case None => None
      case Some(i) => Some(i + 1)
  }

  /** `findOne`/`findById`: the earliest record satisfying `p`, if any. */
  function First<T>(s: seq<T>, p: T -> bool): (r: Option<T>)
    ensures r.None? <==> forall j :: 0 <= j < |s| ==> !p(s[j])
    ensures r.Some? ==> r.value in s && p(r.value)
  {
    match FirstIndex(s, p)
    case None => None
    case Some(i) => Some(s[i])
  }

  /** A `$lookup` reduced by `$first` is `findOne`: the head of the matched
      array, or nothing when the array is empty. */
  lemma {:induction false} LookupFirstIsFirst<T>(s: seq<T>, p: T -> bool)
    ensures First(s, p) == if Filter(s, p) == [] then None else Some(Filter(s, p)[0])
  {
    if s != [] && !p(s[0]) {
      LookupFirstIsFirst(s[1..], p);
    }
  }

  lemma FirstSome<T>(s: seq<T>, p: T -> bool)
    ensures First(s, p).Some? <==> exists i :: 0 <= i < |s| && p(s[i])
    ensures First(s, p).Some? ==> First(s, p).value in s && p(First(s, p).value)
  {
  }

  /** In a collection whose keys are unique, a lookup by key finds the one
      record with that key (`findById`, `findOne` on a unique field). */
  lemma FirstOfUnique<R, K>(s: seq<R>, key: R -> K, i: nat)
    requires i < |s| && UniqueKeys(s, key)
    ensures FirstIndex(s, KeyIs(key, key(s[i]))) == Some(i)
    ensures First(s, KeyIs(key, key(s[i]))) == Some(s[i])
  {
    var j := FirstIndex(s, KeyIs(key, key(s[i])));
    assert j.Some?;
    assert !(j.value < i) && !(i < j.value);
  }

  /** `$sum` of a numeric field over the records. */
  function Sum<T>(s: seq<T>, f: T -> nat): nat
  {
    if s == [] then 0 else f(s[0]) + Sum(s[1..], f)
  }

  lemma {:induction false} SumAppend<T>(a: seq<T>, b: seq<T>, f: T -> nat)
    ensures Sum(a + b, f) == Sum(a, f) + Sum(b, f)
  {
    if a != [] {
      assert (a + b)[0] == a[0] && (a + b)[1..] == a[1..] + b;
      SumAppend(a[1..], b, f);
    } else {
      assert a + b == b;
    }
  }

  /** Replacing one record by one the predicate treats alike keeps the
      number of matches and moves the sum by the difference of the two. */
  lemma FilterReplace<T>(s: seq<T>, i: nat, x: T, p: T -> bool, f: T -> nat)
    requires i < |s| && p(x) == p(s[i])
    ensures |Filter(s[i := x], p)| == |Filter(s, p)|
    ensures Sum(Filter(s[i := x], p), f) + (if p(s[i]) then f(s[i]) else 0)
         == Sum(Filter(s, p), f) + (if p(x) then f(x) else 0)
  {
    var pre, post := s[..i], s[i + 1..];
    assert s == pre + [s[i]] + post;
    assert s[i := x] == pre + [x] + post;
    FilterThree(pre, s[i], post, p);
    FilterThree(pre, x, post, p);
    var a, b := if p(s[i]) then [s[i]] else [], if p(x) then [x] else [];
    SumAppend(Filter(pre, p) + a, Filter(post, p), f);
    SumAppend(Filter(pre, p), a, f);
    SumAppend(Filter(pre, p) + b, Filter(post, p), f);
    SumAppend(Filter(pre, p), b, f);
  }

  /** Appending a record adds it to the matches when the predicate holds. */
  lemma FilterSnoc<T>(s: seq<T>, x: T, p: T -> bool, f: T -> nat)
    ensures |Filter(s + [x], p)| == |Filter(s, p)| + (if p(x) then 1 else 0)
    ensures Sum(Filter(s + [x], p), f) == Sum(Filter(s, p), f) + (if p(x) then f(x) else 0)
  {
    FilterAppend(s, [x], p);
    assert [x][1..] == [];
    SumAppend(Filter(s, p), Filter([x], p), f);
  }

  /** `$skip: skip` followed by `$limit: take`. */
  function Window<T>(s: seq<T>, skip: nat, take: nat): (r: seq<T>)
    ensures |r| == if skip >= |s| then 0 else if take < |s| - skip then take else |s| - skip
    ensures forall i :: 0 <= i < |r| ==> r[i] == s[skip + i]
  {
    if skip >= |s| then [] else if take < |s| - skip then s[skip..skip + take] else s[skip..]
  }

  /** Each record is on the page of its position: record k is in the
      window that starts at the multiple of `take` at or below k. */
  lemma WindowHolds<T>(s: seq<T>, k: nat, take: nat)
    requires k < |s| && take > 0
    ensures s[k] in Window(s, (k / take) * take, take)
  {
    var skip := (k / take) * take;
    assert skip + k % take == k;
    assert k % take < take;
    assert Window(s, skip, take)[k % take] == s[k];
  }

  /** Windows of consecutive pages tile the collection: page n + 1 starts
      where page n stops. */
  lemma WindowsTile<T>(s: seq<T>, skip: nat, take: nat)
    requires skip + take <= |s|
    ensures Window(s, skip, take) + Window(s, skip + take, |s|) == s[skip..]
  {
  }

  /** The direction of a sort key: descending or ascending. */
  predicate Ordered<T>(a: T, b: T, key: T -> int, descending: bool)
  {
    if descending then key(a) >= key(b) else key(a) <= key(b)
  }

  predicate SortedBy<T>(s: seq<T>, key: T -> int, descending: bool)
  {
    forall i, j :: 0 <= i < j < |s| ==> Ordered(s[i], s[j], key, descending)
  }

  function Insert<T>(x: T, s: seq<T>, key: T -> int, descending: bool): (r: seq<T>)
    requires SortedBy(s, key, descending)
    ensures multiset(r) == multiset(s) + multiset{x}
    ensures forall i :: 0 <= i < |r| ==> r[i] == x || r[i] in s
    ensures SortedBy(r, key, descending)
  {
    if s == [] then [x]
    else if Ordered(x, s[0], key, descending) then
      InsertFront(x, s, key, descending);
      [x] + s
    else
      var t := Insert(x, s[1..], key, descending);
      InsertBehind(x, s, t, key, descending);
      [s[0]] + t
  }

  lemma InsertFront<T>(x: T, s: seq<T>, key: T -> int, descending: bool)
    requires s != [] && SortedBy(s, key, descending) && Ordered(x, s[0], key, descending)
    ensures SortedBy([x] + s, key, descending)
  {
    var r := [x] + s;
    forall i, j | 0 <= i < j < |r| ensures Ordered(r[i], r[j], key, descending) {
      if i > 0 {
        assert r[i] == s[i - 1] && r[j] == s[j - 1];
      } else if j > 1 {
        assert Ordered(s[0], s[j - 1], key, descending);
      }
    }
  }

  lemma InsertBehind<T>(x: T, s: seq<T>, t: seq<T>, key: T -> int, descending: bool)
    requires s != [] && SortedBy(s, key, descending) && !Ordered(x, s[0], key, descending)
    requires SortedBy(t, key, descending)
    requires multiset(t) == multiset(s[1..]) + multiset{x}
    requires forall i :: 0 <= i < |t| ==> t[i] == x || t[i] in s[1..]
    ensures multiset([s[0]] + t) == multiset(s) + multiset{x}
    ensures SortedBy([s[0]] + t, key, descending)
  {
    assert s == [s[0]] + s[1..];
    var r := [s[0]] + t;
    forall i, j | 0 <= i < j < |r| ensures Ordered(r[i], r[j], key, descending) {
      if i > 0 {
        assert r[i] == t[i - 1] && r[j] == t[j - 1];
      } else {
        assert r[j] == t[j - 1];
        if t[j - 1] != x {
          var k :| 0 <= k < |s[1..]| && s[1..][k] == t[j - 1];
          assert s[k + 1] == t[j - 1];
        }
      }
    }
  }

  /** `$sort` on one key: a permutation of the input ordered by the key in
      the given direction. Nothing is promised about the relative order of
      records with equal keys. */
  function SortBy<T>(s: seq<T>, key: T -> int, descending: bool): (r: seq<T>)
    ensures multiset(r) == multiset(s)
    ensures SortedBy(r, key, descending)
  {
    if s == [] then []
    else
      assert s == [s[0]] + s[1..];
      Insert(s[0], SortBy(s[1..], key, descending), key, descending)
  }

  /** `$addToSet`. */
  function AddToSet<T(==)>(s: seq<T>, x: T): seq<T>
  {
    if x in s then s else s + [x]
  }

  predicate NoDuplicates<T(==)>(s: seq<T>)
  {
    forall i, j :: 0 <= i < j < |s| ==> s[i] != s[j]
  }

  /** After `$addToSet` the element is present, a second `$addToSet` of it
      changes nothing, a list without duplicates stays so, and nothing else
      is added or removed. */
  lemma AddToSetProperties<T>(s: seq<T>, x: T)
    ensures x in AddToSet(s, x)
    ensures AddToSet(AddToSet(s, x), x) == AddToSet(s, x)
    ensures NoDuplicates(s) ==> NoDuplicates(AddToSet(s, x))
    ensures forall i :: 0 <= i < |AddToSet(s, x)| ==> AddToSet(s, x)[i] in s || AddToSet(s, x)[i] == x
  {
  }

  /** Occurrences of `x` in `s`. */
  function Occurrences<T(==)>(s: seq<T>, x: T): nat
  {
    multiset(s)[x]
  }

  /** Fetching twice leaves exactly one copy when there was at most one. */
  lemma AddToSetOneCopy<T>(s: seq<T>, x: T)
    requires Occurrences(s, x) <= 1
    ensures Occurrences(AddToSet(s, x), x) == 1
  {
    if x !in s {
      assert multiset(s)[x] == 0;
    }
  }

  /** `$pull`: every occurrence of `x` removed, the rest in order. */
  function RemoveAll<T(==)>(s: seq<T>, x: T): (r: seq<T>)
    ensures x !in r
    ensures forall i :: 0 <= i < |r| ==> r[i] in s
    ensures forall i :: 0 <= i < |s| && s[i] != x ==> s[i] in r
    ensures |r| <= |s|
  {
    if s == [] then [] else (if s[0] == x then [] else [s[0]]) + RemoveAll(s[1..], x)
  }

  lemma {:induction false} RemoveAllAppend<T>(a: seq<T>, b: seq<T>, x: T)
    ensures RemoveAll(a + b, x) == RemoveAll(a, x) + RemoveAll(b, x)
  {
    if a != [] {
      assert (a + b)[0] == a[0] && (a + b)[1..] == a[1..] + b;
      RemoveAllAppend(a[1..], b, x);
    } else {
      assert a + b == b;
    }
  }

  lemma {:induction false} RemoveAllAbsent<T>(s: seq<T>, x: T)
    requires x !in s
    ensures RemoveAll(s, x) == s
  {
    if s != [] {
      RemoveAllAbsent(s[1..], x);
    }
  }

  lemma {:induction false} RemoveAllNoDuplicates<T>(s: seq<T>, x: T)
    requires NoDuplicates(s)
    ensures NoDuplicates(RemoveAll(s, x))
  {
    if s != [] {
      RemoveAllNoDuplicates(s[1..], x);
      var t := RemoveAll(s[1..], x);
      assert s[0] !in t by {
        assert s[0] !in s[1..];
      }
    }
  }

  /** A record appended under a key equal to the old bound keeps the keys
      unique, and the bound moves up by one. */
  lemma AppendFresh<R>(s: seq<R>, key: R -> nat, x: R, bound: nat)
    requires UniqueKeys(s, key) && KeysBelow(s, key, bound) && key(x) == bound
    ensures UniqueKeys(s + [x], key) && KeysBelow(s + [x], key, bound + 1)
  {
  }

  /** A record whose key no stored record has keeps the keys unique. */
  lemma AppendNewKey<R, K>(s: seq<R>, key: R -> K, x: R)
    requires UniqueKeys(s, key) && forall i :: 0 <= i < |s| ==> key(s[i]) != key(x)
    ensures UniqueKeys(s + [x], key)
  {
  }

  /** When no stored record satisfies `p`, a record appended that does is
      the one `findOne` returns. */
  lemma {:induction false} FirstAfterMisses<T>(s: seq<T>, x: T, p: T -> bool)
    requires (forall i :: 0 <= i < |s| ==> !p(s[i])) && p(x)
    ensures FirstIndex(s + [x], p) == Some(|s|)
    ensures First(s + [x], p) == Some(x)
  {
    if s != [] {
      assert (s + [x])[1..] == s[1..] + [x];
      FirstAfterMisses(s[1..], x, p);
    }
  }

  /** Deleting one record keeps the keys unique and below the bound. */
  lemma RemoveAtKeeps<R, K>(s: seq<R>, key: R -> K, i: nat)
    requires i < |s| && UniqueKeys(s, key)
    ensures UniqueKeys(s[..i] + s[i + 1..], key)
    ensures multiset(s[..i] + s[i + 1..]) + multiset{s[i]} == multiset(s)
  {
    var t := s[..i] + s[i + 1..];
    assert s == s[..i] + [s[i]] + s[i + 1..];
    forall a, b | 0 <= a < b < |t| ensures key(t[a]) != key(t[b]) {
      var a', b' := if a < i then a else a + 1, if b < i then b else b + 1;
      assert t[a] == s[a'] && t[b] == s[b'];
    }
  }

  lemma RemoveAtBelow<R>(s: seq<R>, key: R -> nat, i: nat, bound: nat)
    requires i < |s| && KeysBelow(s, key, bound)
    ensures KeysBelow(s[..i] + s[i + 1..], key, bound)
  {
    var t := s[..i] + s[i + 1..];
    forall a | 0 <= a < |t| ensures key(t[a]) < bound {
      assert t[a] == s[if a < i then a else a + 1];
    }
  }

  /** Replacing one record by one with the same key keeps the keys unique
      and below the bound. */
  lemma ReplaceKeeps<R, K>(s: seq<R>, key: R -> K, i: nat, x: R)
    requires i < |s| && UniqueKeys(s, key) && key(x) == key(s[i])
    ensures UniqueKeys(s[i := x], key)
  {
  }

  lemma ReplaceBelow<R>(s: seq<R>, key: R -> nat, i: nat, x: R, bound: nat)
    requires i < |s| && KeysBelow(s, key, bound) && key(x) == key(s[i])
    ensures KeysBelow(s[i := x], key, bound)
  {
  }

  /** `findByIdAndUpdate`, or `findById` followed by `save`: the earliest
      record satisfying `p` is replaced by `f` of it; nothing else moves. */
  function UpdateFirst<T>(s: seq<T>, p: T -> bool, f: T -> T): (r: seq<T>)
    ensures |r| == |s|
    ensures FirstIndex(s, p).None? ==> r == s
    ensures FirstIndex(s, p).Some? ==>
              var i := FirstIndex(s, p).value;
              r[i] == f(s[i]) && forall j :: 0 <= j < |s| && j != i ==> r[j] == s[j]
  {
    match FirstIndex(s, p)
    case None => s
    case Some(i) => s[i := f(s[i])]
  }

  /** When `f` keeps a record selected, a second update finds the record
      the first one changed. */
  lemma UpdateFirstSameIndex<T>(s: seq<T>, p: T -> bool, f: T -> T)
    requires forall x :: p(f(x)) == p(x)
    ensures FirstIndex(UpdateFirst(s, p, f), p) == FirstIndex(s, p)
  {
    var t := UpdateFirst(s, p, f);
    var fi := FirstIndex(s, p);
    if fi.Some? {
      var i := fi.value;
      assert p(t[i]);
      var ti := FirstIndex(t, p);
      assert ti.Some?;
      assert ti.value == i;
    } else {
      assert FirstIndex(t, p).None?;
    }
  }

  /** An update by an idempotent `f` that keeps the record selected is
      itself idempotent. */
  lemma UpdateFirstIdempotent<T>(s: seq<T>, p: T -> bool, f: T -> T)
    requires forall x :: p(f(x)) == p(x)
    requires forall x :: f(f(x)) == f(x)
    ensures UpdateFirst(UpdateFirst(s, p, f), p, f) == UpdateFirst(s, p, f)
  {
    UpdateFirstSameIndex(s, p, f);
  }

  /** An update by an involution that keeps the record selected, done
      twice, restores the collection. */
  lemma UpdateFirstInvolution<T>(s: seq<T>, p: T -> bool, f: T -> T)
    requires forall x :: p(f(x)) == p(x)
    requires forall x :: f(f(x)) == x
    ensures UpdateFirst(UpdateFirst(s, p, f), p, f) == s
  {
    UpdateFirstSameIndex(s, p, f);
  }

  /** An update that keeps a record's key keeps the keys unique. */
  lemma UpdateFirstKeepsUnique<R, K>(s: seq<R>, p: R -> bool, f: R -> R, key: R -> K)
    requires UniqueKeys(s, key)
    requires forall x :: key(f(x)) == key(x)
    ensures UniqueKeys(UpdateFirst(s, p, f), key)
  {
    var r := UpdateFirst(s, p, f);
    forall a, b | 0 <= a < b < |r| ensures key(r[a]) != key(r[b]) {
      assert key(r[a]) == key(s[a]) && key(r[b]) == key(s[b]);
    }
  }

  /** An update that keeps a record's key keeps the keys unique and below
      their bound. */
  lemma UpdateFirstKeepsKeys<R>(s: seq<R>, p: R -> bool, f: R -> R, key: R -> nat, bound: nat)
    requires Identified(s, key, bound)
    requires forall x :: key(f(x)) == key(x)
    ensures Identified(UpdateFirst(s, p, f), key, bound)
  {
    var r := UpdateFirst(s, p, f);
    UpdateFirstKeepsUnique(s, p, f, key);
    forall a | 0 <= a < |r| ensures key(r[a]) < bound {
      assert key(r[a]) == key(s[a]);
    }
  }

  /** `findOneAndDelete`, `findByIdAndDelete`, `deleteOne`: the earliest
      record satisfying `p` is removed; the rest keep their order. */
  function DeleteFirst<T>(s: seq<T>, p: T -> bool): (r: seq<T>)
    ensures FirstIndex(s, p).None? ==> r == s
    ensures FirstIndex(s, p).Some? ==>
              var i := FirstIndex(s, p).value;
              r == s[..i] + s[i + 1..] && multiset(r) + multiset{s[i]} == multiset(s)
  {
    match FirstIndex(s, p)
    case None => s
    case Some(i) =>
      assert s == s[..i] + [s[i]] + s[i + 1..];
      s[..i] + s[i + 1..]
  }

  /** In a collection with unique keys, deleting by key removes exactly the
      record with that key: none is left, and every other record stays, in
      order. */
  lemma DeleteFirstByKey<R, K>(s: seq<R>, key: R -> K, k: K)
    requires UniqueKeys(s, key)
    ensures !HasKey(DeleteFirst(s, KeyIs(key, k)), key, k)
    ensures Filter(DeleteFirst(s, KeyIs(key, k)), KeyIsNot(key, k)) == Filter(s, KeyIsNot(key, k))
    ensures UniqueKeys(DeleteFirst(s, KeyIs(key, k)), key)
  {
    var fi := FirstIndex(s, KeyIs(key, k));
    if fi.Some? {
      var i := fi.value;
      var pre, x, post := s[..i], s[i], s[i + 1..];
      assert DeleteFirst(s, KeyIs(key, k)) == pre + post;
      RemoveAtKeeps(s, key, i);
      assert s == pre + [x] + post;
      assert !KeyIsNot(key, k)(x);
      FilterSkip(pre, x, post, KeyIsNot(key, k));
      forall j | 0 <= j < |pre| ensures key(pre[j]) != k {
        assert pre[j] == s[j];
      }
      forall j | 0 <= j < |post| ensures key(post[j]) != k {
        assert post[j] == s[i + 1 + j];
      }
    } else {
      forall j | 0 <= j < |s| ensures key(s[j]) != k {
        assert !KeyIs(key, k)(s[j]);
      }
      FilterAllPass(s, KeyIsNot(key, k));
    }
  }

  lemma {:induction false} FilterAllPass<T>(s: seq<T>, p: T -> bool)
    requires forall i :: 0 <= i < |s| ==> p(s[i])
    ensures Filter(s, p) == s
  {
    if s != [] {
      FilterAllPass(s[1..], p);
    }
  }

  lemma DeleteFirstBelow<R>(s: seq<R>, p: R -> bool, key: R -> nat, bound: nat)
    requires Identified(s, key, bound)
    ensures Identified(DeleteFirst(s, p), key, bound)
  {
    var fi := FirstIndex(s, p);
    if fi.Some? {
      RemoveAtKeeps(s, key, fi.value);
      RemoveAtBelow(s, key, fi.value, bound);
    }
  }
}
