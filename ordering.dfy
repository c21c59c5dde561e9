/**
  The ordering query of `ConsumerThread`:
  `from dp in OutputQueue orderby dp.DateTime, dp.Timestamp select dp`.
  LINQ's `OrderBy(...).ThenBy(...)` is a stable sort on the lexicographic
  key (DateTime, Timestamp); it is modelled as a stable insertion sort.
 */
module Ordering {
  import opened Lines

  /** Lexicographic order on (DateTime, Timestamp). */
  predicate KeyLe(a: Key, b: Key)
  {
    a.date < b.date || (a.date == b.date && a.timestamp <= b.timestamp)
  }

  /** Ascending by key. */
  predicate Sorted(s: seq<Record>)
  {
    forall i, j :: 0 <= i < j < |s| ==> KeyLe(s[i].key, s[j].key)
  }

  /** The records of `s` whose key is `k`, in the order of `s`. */
  function WithKey(s: seq<Record>, k: Key): seq<Record>
  {
    if s == [] then []
    else (if s[0].key == k then [s[0]] else []) + WithKey(s[1..], k)
  }

  /** Puts `x` in front of the first record whose key is not below `x`'s. */
  function Insert(x: Record, s: seq<Record>): seq<Record>
  {
    if s == [] then [x]
    else if KeyLe(x.key, s[0].key) then [x] + s
    else [s[0]] + Insert(x, s[1..])
  }

  /** The sequence the ordering query enumerates. */
  function OrderByKey(s: seq<Record>): seq<Record>
  {
    if s == [] then [] else Insert(s[0], OrderByKey(s[1..]))
  }

  lemma {:induction false} InsertPermutes(x: Record, s: seq<Record>)
    ensures multiset(Insert(x, s)) == multiset(s) + multiset{x}
  {
    if s != [] && !KeyLe(x.key, s[0].key) {
      InsertPermutes(x, s[1..]);
      assert s == [s[0]] + s[1..];
    }
  }

  lemma {:induction false} InsertSorted(x: Record, s: seq<Record>)
    requires Sorted(s)
    ensures Sorted(Insert(x, s))
  {
    if s == [] {
    } else if KeyLe(x.key, s[0].key) {
      var r := [x] + s;
      forall i, j | 0 <= i < j < |r|
        ensures KeyLe(r[i].key, r[j].key)
      {
        if i == 0 && j > 1 {
          assert KeyLe(s[0].key, s[j - 1].key);
        }
      }
    } else {
      var t := Insert(x, s[1..]);
      InsertSorted(x, s[1..]);
      InsertPermutes(x, s[1..]);
      var r := [s[0]] + t;
      forall i, j | 0 <= i < j < |r|
        ensures KeyLe(r[i].key, r[j].key)
      {
        if i == 0 {
          var y := t[j - 1];
          assert y in multiset(t);
          assert y == x || y in multiset(s[1..]);
          if y != x {
            var m :| 0 <= m < |s[1..]| && s[1..][m] == y;
            assert KeyLe(s[0].key, s[m + 1].key);
          }
        }
      }
    }
  }

  lemma {:induction false} InsertWithKey(x: Record, s: seq<Record>, k: Key)
    ensures WithKey(Insert(x, s), k) == (if x.key == k then [x] else []) + WithKey(s, k)
  {
    if s == [] {
    } else if KeyLe(x.key, s[0].key) {
      assert ([x] + s)[1..] == s;
    } else {
      InsertWithKey(x, s[1..], k);
      assert ([s[0]] + Insert(x, s[1..]))[1..] == Insert(x, s[1..]);
    }
  }

  /** The records come out in ascending (DateTime, Timestamp) order. */
  lemma {:induction false} OrderByKeySorted(s: seq<Record>)
    ensures Sorted(OrderByKey(s))
  {
    if s != [] {
      OrderByKeySorted(s[1..]);
      InsertSorted(s[0], OrderByKey(s[1..]));
    }
  }

  /** Every record comes out exactly as often as it went in. */
  lemma {:induction false} OrderByKeyPermutes(s: seq<Record>)
    ensures multiset(OrderByKey(s)) == multiset(s)
  {
    if s != [] {
      OrderByKeyPermutes(s[1..]);
      InsertPermutes(s[0], OrderByKey(s[1..]));
      assert s == [s[0]] + s[1..];
    }
  }

  /** Stability: records with equal keys keep their relative order. */
  lemma {:induction false} OrderByKeyStable(s: seq<Record>, k: Key)
    ensures WithKey(OrderByKey(s), k) == WithKey(s, k)
  {
    if s != [] {
      OrderByKeyStable(s[1..], k);
      InsertWithKey(s[0], OrderByKey(s[1..]), k);
    }
  }

  /** An already ordered sequence is enumerated as it is. */
  lemma {:induction false} OrderByKeyOfSorted(s: seq<Record>)
    requires Sorted(s)
    ensures OrderByKey(s) == s
  {
    if s != [] {
      assert Sorted(s[1..]) by {
        forall i, j | 0 <= i < j < |s[1..]|
          ensures KeyLe(s[1..][i].key, s[1..][j].key)
        {
          assert s[1..][i] == s[i + 1] && s[1..][j] == s[j + 1];
        }
      }
      OrderByKeyOfSorted(s[1..]);
      if |s| > 1 {
        assert KeyLe(s[0].key, s[1].key);
      }
    }
  }
}
