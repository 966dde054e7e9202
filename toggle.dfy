/** The find-then-create-or-delete pattern shared by the like toggles and
    the subscription toggle. A collection holds relation records; `key`
    gives the (subject, object) pair of a record. A toggle looks for the
    earliest record with pair `k`: when there is none it appends `created`
    (a new record for that pair), otherwise it deletes that record. */
module ToggleRelation {
  import opened Base
  import opened Query

  function Toggle<R, K(==)>(s: seq<R>, key: R -> K, k: K, created: R): seq<R>
  {
    match FirstIndex(s, KeyIs(key, k))
    case None => s + [created]
    case Some(i) => s[..i] + s[i + 1..]
  }

  /** The records whose pair is not `k`. */
  function Others<R, K(==)>(s: seq<R>, key: R -> K, k: K): seq<R>
  {
    Filter(s, KeyIsNot(key, k))
  }

  /** How many records have pair `k`. */
  function Copies<R, K(==)>(s: seq<R>, key: R -> K, k: K): nat
  {
    Count(s, KeyIs(key, k))
  }

  lemma CopiesOfFresh<R, K>(key: R -> K, k: K, created: R)
    requires key(created) == k
    ensures Filter([created], KeyIs(key, k)) == [created]
    ensures Filter([created], KeyIsNot(key, k)) == []
  {
    assert [created][1..] == [];
  }

  lemma CopiesOfOther<R, K>(key: R -> K, k: K, x: R)
    requires key(x) != k
    ensures Filter([x], KeyIs(key, k)) == []
    ensures Filter([x], KeyIsNot(key, k)) == [x]
  {
    assert [x][1..] == [];
  }

  /** A toggle leaves every record of another pair where it was, and moves
      the number of copies of pair `k` from zero to one, or down by one. */
  lemma ToggleEffect<R, K>(s: seq<R>, key: R -> K, k: K, created: R)
    requires key(created) == k
    ensures Others(Toggle(s, key, k, created), key, k) == Others(s, key, k)
    ensures Copies(Toggle(s, key, k, created), key, k)
         == if Copies(s, key, k) == 0 then 1 else Copies(s, key, k) - 1
  {
    var isK, notK := KeyIs(key, k), KeyIsNot(key, k);
    match FirstIndex(s, isK)
    case None =>
      FilterAppend(s, [created], isK);
      FilterAppend(s, [created], notK);
      CopiesOfFresh(key, k, created);
      CountZeroIffNone(s, isK);
    case Some(i) =>
      var pre, post := s[..i], s[i + 1..];
      assert s == pre + [s[i]] + post;
      assert Toggle(s, key, k, created) == pre + post;
      FilterThree(pre, s[i], post, isK);
      FilterThree(pre, s[i], post, notK);
      FilterAppend(pre, post, isK);
      FilterAppend(pre, post, notK);
      assert isK(s[i]) && !notK(s[i]);
  }

  /** A toggle of pair `k` leaves the records of every other pair exactly as
      they were, in the same order. */
  lemma ToggleIsolated<R, K>(s: seq<R>, key: R -> K, k: K, created: R, other: K)
    requires key(created) == k && other != k
    ensures Filter(Toggle(s, key, k, created), KeyIs(key, other)) == Filter(s, KeyIs(key, other))
  {
    var isO := KeyIs(key, other);
    var f := FirstIndex(s, KeyIs(key, k));
    if f.None? {
      assert Toggle(s, key, k, created) == s + [created] + [];
      FilterSkip(s, created, [], isO);
      assert s + [] == s;
    } else {
      var i := f.value;
      assert s == s[..i] + [s[i]] + s[i + 1..];
      FilterSkip(s[..i], s[i], s[i + 1..], isO);
    }
  }

  /** With at most one copy of pair `k` before, the toggle flips whether
      pair `k` is present. */
  lemma ToggleFlips<R, K>(s: seq<R>, key: R -> K, k: K, created: R)
    requires key(created) == k && Copies(s, key, k) <= 1
    ensures HasKey(Toggle(s, key, k, created), key, k) <==> !HasKey(s, key, k)
  {
    ToggleEffect(s, key, k, created);
    HasKeyIffCopies(s, key, k);
    HasKeyIffCopies(Toggle(s, key, k, created), key, k);
  }

  lemma HasKeyIffCopies<R, K>(s: seq<R>, key: R -> K, k: K)
    ensures HasKey(s, key, k) <==> Copies(s, key, k) > 0
  {
    CountZeroIffNone(s, KeyIs(key, k));
  }

  /** Block of two toggles on a pair that was absent: the collection is
      exactly as before. */
  lemma ToggleTwiceFromAbsent<R, K>(s: seq<R>, key: R -> K, k: K, f1: R, f2: R)
    requires key(f1) == k && !HasKey(s, key, k)
    ensures Toggle(Toggle(s, key, k, f1), key, k, f2) == s
  {
    assert FirstIndex(s, KeyIs(key, k)).None?;
    var t := s + [f1];
    assert KeyIs(key, k)(t[|s|]);
    var i := FirstIndex(t, KeyIs(key, k));
    assert i.Some?;
    assert i.value == |s|;
    assert t[..|s|] == s;
  }

  /** Two toggles of one pair with at most one copy of it: every other
      record is unchanged and so is the number of copies of the pair; only
      the identity of a deleted-then-recreated record differs. */
  lemma ToggleTwice<R, K>(s: seq<R>, key: R -> K, k: K, f1: R, f2: R)
    requires key(f1) == k && key(f2) == k && Copies(s, key, k) <= 1
    ensures Others(Toggle(Toggle(s, key, k, f1), key, k, f2), key, k) == Others(s, key, k)
    ensures Copies(Toggle(Toggle(s, key, k, f1), key, k, f2), key, k) == Copies(s, key, k)
  {
    ToggleEffect(s, key, k, f1);
    ToggleEffect(Toggle(s, key, k, f1), key, k, f2);
  }

  /** Three toggles have the effect of one; when the pair was present the
      collections are equal outright. */
  lemma ToggleThrice<R, K>(s: seq<R>, key: R -> K, k: K, f1: R, f2: R, f3: R)
    requires key(f1) == k && key(f2) == k && key(f3) == k && Copies(s, key, k) <= 1
    ensures var once := Toggle(s, key, k, f1);
            var thrice := Toggle(Toggle(once, key, k, f2), key, k, f3);
            && Others(thrice, key, k) == Others(once, key, k)
            && Copies(thrice, key, k) == Copies(once, key, k)
            && (HasKey(s, key, k) ==> thrice == once)
  {
    var once := Toggle(s, key, k, f1);
    ToggleEffect(s, key, k, f1);
    ToggleTwice(once, key, k, f2, f3);
    if HasKey(s, key, k) {
      HasKeyIffCopies(s, key, k);
      HasKeyIffCopies(once, key, k);
      ToggleTwiceFromAbsent(once, key, k, f2, f3);
    }
  }

  /** A toggle keeps "at most one record per pair" for every pair. */
  lemma ToggleKeepsUnique<R, K>(s: seq<R>, key: R -> K, k: K, created: R)
    requires key(created) == k && UniqueKeys(s, key)
    ensures UniqueKeys(Toggle(s, key, k, created), key)
  {
    match FirstIndex(s, KeyIs(key, k))
    case None =>
      forall i | 0 <= i < |s| ensures key(s[i]) != key(created) {
        assert !KeyIs(key, k)(s[i]);
      }
    case Some(i) =>
      RemoveAtKeeps(s, key, i);
  }

  /** When every pair occurs at most once, a pair occurs at most once. */
  lemma UniqueHasOneCopy<R, K>(s: seq<R>, key: R -> K, k: K)
    requires UniqueKeys(s, key)
    ensures Copies(s, key, k) <= 1
  {
    var m := Filter(s, KeyIs(key, k));
    if |m| > 1 {
      assert m[0] in s && m[1] in s;
      var i :| 0 <= i < |s| && s[i] == m[0];
      var j :| 0 <= j < |s| && s[j] == m[1];
      assert key(s[i]) == k && key(s[j]) == k;
      FilterDistinct(s, KeyIs(key, k), key);
      assert false;
    }
  }

  /** Filtering a collection with unique keys gives distinct records. */
  lemma {:induction false} FilterDistinct<R, K>(s: seq<R>, p: R -> bool, key: R -> K)
    requires UniqueKeys(s, key)
    ensures UniqueKeys(Filter(s, p), key)
  {
    if s != [] {
      assert UniqueKeys(s[1..], key) by {
        forall a, b | 0 <= a < b < |s[1..]| ensures key(s[1..][a]) != key(s[1..][b]) {
          assert s[1..][a] == s[a + 1] && s[1..][b] == s[b + 1];
        }
      }
      FilterDistinct(s[1..], p, key);
      var t := Filter(s[1..], p);
      forall i | 0 <= i < |t| ensures key(t[i]) != key(s[0]) {
        assert t[i] in s[1..];
        var j :| 0 <= j < |s[1..]| && s[1..][j] == t[i];
        assert s[j + 1] == t[i];
      }
    }
  }
}
