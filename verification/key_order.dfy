/**
 * Ordering query pairs by key, as `ksort` does on the array `parse_str`
 * returns. Keys are compared character by character (see README for the
 * numeric-string comparison PHP applies and this model does not).
 */
module KeyOrder {
  import opened Urls

  /** Strict lexicographic order on strings. */
  predicate Less(a: string, b: string)
    decreases |a|
  {
    if |a| == 0 then |b| > 0
    else if |b| == 0 then false
    else if a[0] != b[0] then a[0] < b[0]
    else Less(a[1..], b[1..])
  }

  lemma {:induction false} LessIrreflexive(a: string)
    ensures !Less(a, a)
    decreases |a|
  {
    if |a| > 0 {
      LessIrreflexive(a[1..]);
    }
  }

  lemma {:induction false} LessTransitive(a: string, b: string, c: string)
    requires Less(a, b) && Less(b, c)
    ensures Less(a, c)
    decreases |a|
  {
    if |a| > 0 && |b| > 0 && |c| > 0 && a[0] == b[0] && b[0] == c[0] {
      LessTransitive(a[1..], b[1..], c[1..]);
    }
  }

  lemma {:induction false} LessTotal(a: string, b: string)
    ensures a == b || Less(a, b) || Less(b, a)
    decreases |a|
  {
    if |a| > 0 && |b| > 0 && a[0] == b[0] {
      LessTotal(a[1..], b[1..]);
      if a[1..] == b[1..] {
        assert a == [a[0]] + a[1..] && b == [b[0]] + b[1..];
      }
    }
  }

  lemma LessAsymmetric(a: string, b: string)
    requires Less(a, b)
    ensures !Less(b, a)
  {
    if Less(b, a) {
      LessTransitive(a, b, a);
      LessIrreflexive(a);
    }
  }

  /** Strictly increasing keys. */
  predicate Sorted(ps: seq<Param>) {
    forall i, j :: 0 <= i < j < |ps| ==> Less(ps[i].key, ps[j].key)
  }

  lemma SortedUnique(ps: seq<Param>)
    requires Sorted(ps)
    ensures UniqueKeys(ps)
  {
    forall i, j | 0 <= i < j < |ps| ensures ps[i].key != ps[j].key {
      LessIrreflexive(ps[i].key);
    }
  }

  /** Sequences holding the same pairs have the same keys. */
  lemma SameMultisetSameKeys(a: seq<Param>, b: seq<Param>, k: string)
    requires multiset(a) == multiset(b)
    ensures HasKey(a, k) <==> HasKey(b, k)
  {
    if HasKey(a, k) {
      var i :| 0 <= i < |a| && Keys(a)[i] == k;
      assert a[i] in multiset(b);
      var j :| 0 <= j < |b| && b[j] == a[i];
      assert Keys(b)[j] == k;
    }
    if HasKey(b, k) {
      var i :| 0 <= i < |b| && Keys(b)[i] == k;
      assert b[i] in multiset(a);
      var j :| 0 <= j < |a| && a[j] == b[i];
      assert Keys(a)[j] == k;
    }
  }

  /** Put `p` in front of the first pair whose key is greater. */
  function Insert(p: Param, s: seq<Param>): (r: seq<Param>)
    ensures multiset(r) == multiset(s) + multiset{p}
    ensures |r| == |s| + 1
    decreases |s|
  {
    if |s| == 0 then [p]
    else if Less(p.key, s[0].key) then [p] + s
    else
      var r := [s[0]] + Insert(p, s[1..]);
      assert s == [s[0]] + s[1..];
      r
  }

  lemma {:induction false} InsertSorted(p: Param, s: seq<Param>)
    requires Sorted(s) && !HasKey(s, p.key)
    ensures Sorted(Insert(p, s))
    decreases |s|
  {
    if |s| > 0 && !Less(p.key, s[0].key) {
      assert Keys(s)[0] == s[0].key;
      LessTotal(p.key, s[0].key);
      var tail := s[1..];
      assert !HasKey(tail, p.key) by {
        forall i | 0 <= i < |tail| ensures Keys(tail)[i] != p.key {
          assert Keys(s)[i + 1] == tail[i].key;
        }
      }
      InsertSorted(p, tail);
      InsertAfterHead(p, s);
    } else if |s| > 0 {
      InsertBeforeHead(p, s);
    }
  }

  /** A key below the first one goes in front and keeps the order. */
  lemma InsertBeforeHead(p: Param, s: seq<Param>)
    requires Sorted(s) && |s| > 0 && Less(p.key, s[0].key)
    ensures Sorted([p] + s)
  {
    var r := [p] + s;
    forall i, j | 0 <= i < j < |r| ensures Less(r[i].key, r[j].key) {
      if i == 0 {
        if j > 1 {
          LessTransitive(p.key, s[0].key, s[j - 1].key);
        }
      } else {
        assert r[i] == s[i - 1] && r[j] == s[j - 1];
      }
    }
  }

  /** A key below `p` and below every key of `s` stays below every key after inserting `p`. */
  lemma InsertKeepsLowerBound(h: string, p: Param, s: seq<Param>)
    requires Less(h, p.key)
    requires forall m :: 0 <= m < |s| ==> Less(h, s[m].key)
    ensures forall k :: 0 <= k < |Insert(p, s)| ==> Less(h, Insert(p, s)[k].key)
  {
    var t := Insert(p, s);
    forall k | 0 <= k < |t| ensures Less(h, t[k].key) {
      var x := t[k];
      assert x in multiset(t);
      assert x in multiset(s) || x == p;
      if x != p {
        var m :| 0 <= m < |s| && s[m] == x;
      }
    }
  }

  /** A key above the first one leaves the head in place; a sorted insertion into the tail keeps the whole sorted. */
  lemma InsertAfterHead(p: Param, s: seq<Param>)
    requires Sorted(s) && |s| > 0 && Less(s[0].key, p.key)
    requires Sorted(Insert(p, s[1..]))
    ensures Sorted([s[0]] + Insert(p, s[1..]))
  {
    var tail := s[1..];
    forall m | 0 <= m < |tail| ensures Less(s[0].key, tail[m].key) {
      assert tail[m] == s[m + 1];
    }
    InsertKeepsLowerBound(s[0].key, p, tail);
    SortedCons(s[0], Insert(p, tail));
  }

  /** A pair below every key of a sorted sequence can go in front of it. */
  lemma SortedCons(h: Param, t: seq<Param>)
    requires Sorted(t)
    requires forall k :: 0 <= k < |t| ==> Less(h.key, t[k].key)
    ensures Sorted([h] + t)
  {
    var r := [h] + t;
    forall i, j | 0 <= i < j < |r| ensures Less(r[i].key, r[j].key) {
      assert r[j] == t[j - 1];
      if i > 0 {
        assert r[i] == t[i - 1];
      }
    }
  }

  /** `ksort`: the same pairs, in increasing key order. */
  function SortByKey(s: seq<Param>): (r: seq<Param>)
    ensures multiset(r) == multiset(s)
    ensures |r| == |s|
    decreases |s|
  {
    if |s| == 0 then []
    else
      assert s == [s[0]] + s[1..];
      Insert(s[0], SortByKey(s[1..]))
  }

  /** Sorting pairs with distinct keys yields strictly increasing keys. */
  lemma {:induction false} SortByKeySorted(s: seq<Param>)
    requires UniqueKeys(s)
    ensures Sorted(SortByKey(s))
    decreases |s|
  {
    if |s| > 0 {
      assert s == [s[0]] + s[1..];
      UniqueCons(s[0], s[1..]);
      SortByKeySorted(s[1..]);
      SameMultisetSameKeys(SortByKey(s[1..]), s[1..], s[0].key);
      InsertSorted(s[0], SortByKey(s[1..]));
    }
  }

  lemma SortedTail(a: seq<Param>)
    requires Sorted(a) && |a| > 0
    ensures Sorted(a[1..])
  {
    forall x, y | 0 <= x < y < |a[1..]| ensures Less(a[1..][x].key, a[1..][y].key) {
      assert a[1..][x] == a[x + 1] && a[1..][y] == a[y + 1];
    }
  }

  /** The least pair of two sorted sequences with the same pairs is the same. */
  lemma SortedSameHead(a: seq<Param>, b: seq<Param>)
    requires Sorted(a) && Sorted(b) && multiset(a) == multiset(b) && |a| > 0
    ensures |b| > 0 && a[0] == b[0]
  {
    assert a[0] in multiset(b);
    var j :| 0 <= j < |b| && b[j] == a[0];
    assert b[0] in multiset(a);
    var i :| 0 <= i < |a| && a[i] == b[0];
    if j != 0 {
      assert Less(b[0].key, a[0].key);
      if i == 0 {
        LessIrreflexive(a[0].key);
      } else {
        LessAsymmetric(a[0].key, b[0].key);
      }
    }
  }

  lemma MultisetTails(a: seq<Param>, b: seq<Param>)
    requires |a| > 0 && |b| > 0 && a[0] == b[0] && multiset(a) == multiset(b)
    ensures multiset(a[1..]) == multiset(b[1..])
  {
    assert a == [a[0]] + a[1..] && b == [b[0]] + b[1..];
    assert multiset(a[1..]) == multiset(a) - multiset{a[0]};
    assert multiset(b[1..]) == multiset(b) - multiset{b[0]};
  }

  /** Two sorted sequences holding the same pairs are equal. */
  lemma {:induction false} SortedMultisetEqual(a: seq<Param>, b: seq<Param>)
    requires Sorted(a) && Sorted(b) && multiset(a) == multiset(b)
    ensures a == b
    decreases |a|
  {
    assert |a| == |multiset(a)| == |b|;
    if |a| > 0 {
      SortedSameHead(a, b);
      MultisetTails(a, b);
      SortedTail(a);
      SortedTail(b);
      SortedMultisetEqual(a[1..], b[1..]);
      assert a == [a[0]] + a[1..] && b == [b[0]] + b[1..];
    }
  }

  /** Sorting an already sorted sequence leaves it unchanged. */
  lemma SortSorted(s: seq<Param>)
    requires Sorted(s)
    ensures SortByKey(s) == s
  {
    SortedUnique(s);
    SortByKeySorted(s);
    SortedMultisetEqual(SortByKey(s), s);
  }

  /** The result of sorting depends only on which pairs there are, not on their order. */
  lemma SortPermutation(a: seq<Param>, b: seq<Param>)
    requires UniqueKeys(a) && UniqueKeys(b) && multiset(a) == multiset(b)
    ensures SortByKey(a) == SortByKey(b)
  {
    SortByKeySorted(a);
    SortByKeySorted(b);
    SortedMultisetEqual(SortByKey(a), SortByKey(b));
  }
}
