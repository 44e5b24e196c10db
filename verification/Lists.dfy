/** Lists of records looked up by name or kept in the order of a numeric key. */
module Lists {

  // ---------------------------------------------------------------- by name

  /** The first position whose name matches, or the length. */
  function Find<T>(s: seq<T>, name: T -> string, wanted: string): (i: nat)
    ensures i <= |s|
    ensures i < |s| ==> name(s[i]) == wanted
    ensures forall k :: 0 <= k < i ==> name(s[k]) != wanted
  {
    FindFrom(s, name, wanted, 0)
  }

  function FindFrom<T>(s: seq<T>, name: T -> string, wanted: string, from: nat): (i: nat)
    requires from <= |s|
    ensures from <= i <= |s|
    ensures i < |s| ==> name(s[i]) == wanted
    ensures forall k :: from <= k < i ==> name(s[k]) != wanted
    decreases |s| - from
  {
    if from == |s| || name(s[from]) == wanted then from else FindFrom(s, name, wanted, from + 1)
  }

  lemma {:induction false} FindSameNames<T>(s: seq<T>, t: seq<T>, name: T -> string, wanted: string)
    requires |s| == |t| && forall k :: 0 <= k < |s| ==> name(s[k]) == name(t[k])
    ensures Find(s, name, wanted) == Find(t, name, wanted)
  {
    var i, j := Find(s, name, wanted), Find(t, name, wanted);
    assert forall k :: 0 <= k < i ==> name(t[k]) != wanted;
    assert forall k :: 0 <= k < j ==> name(s[k]) != wanted;
  }

  predicate Unique<T>(s: seq<T>, name: T -> string) {
    forall i, j :: 0 <= i < j < |s| ==> name(s[i]) != name(s[j])
  }

  function Without<T>(s: seq<T>, i: nat): seq<T>
    requires i < |s|
  {
    s[..i] + s[i + 1..]
  }

  /** Replaces the record of that name, or adds it at the end. */
  function Put<T>(s: seq<T>, name: T -> string, x: T): seq<T> {
    var i := Find(s, name, name(x));
    if i < |s| then s[i := x] else s + [x]
  }

  lemma {:induction false} PutKeepsUnique<T>(s: seq<T>, name: T -> string, x: T)
    requires Unique(s, name)
    ensures Unique(Put(s, name, x), name)
  {
  }

  function Filter<T(!new)>(s: seq<T>, keep: T -> bool): (r: seq<T>)
    ensures forall x :: x in r <==> x in s && keep(x)
    ensures |r| <= |s|
  {
    if s == [] then []
    else
      assert s == s[..|s| - 1] + [s[|s| - 1]];
      Filter(s[..|s| - 1], keep) + if keep(s[|s| - 1]) then [s[|s| - 1]] else []
  }

  // ---------------------------------------------------------------- by key

  predicate Ascending<T>(s: seq<T>, key: T -> nat) {
    forall i, j :: 0 <= i < j < |s| ==> key(s[i]) < key(s[j])
  }

  predicate HasKey<T>(s: seq<T>, key: T -> nat, k: nat) {
    exists i :: 0 <= i < |s| && key(s[i]) == k
  }

  lemma {:induction false} HasKeyOf<T(!new)>(s: seq<T>, key: T -> nat, x: T)
    requires x in s
    ensures HasKey(s, key, key(x))
  {
    var i :| 0 <= i < |s| && s[i] == x;
    assert key(s[i]) == key(x);
  }

  /** Puts a record before the trailing records with larger keys. */
  function Insert<T>(s: seq<T>, key: T -> nat, x: T): (r: seq<T>)
    ensures |r| == |s| + 1
    ensures multiset(r) == multiset(s) + multiset{x}
  {
    if s == [] || key(s[|s| - 1]) <= key(x) then s + [x]
    else
      assert s == s[..|s| - 1] + [s[|s| - 1]];
      Insert(s[..|s| - 1], key, x) + [s[|s| - 1]]
  }

  /** Sorting by key. */
  function Sort<T>(s: seq<T>, key: T -> nat): (r: seq<T>)
    ensures |r| == |s|
    ensures multiset(r) == multiset(s)
  {
    if s == [] then []
    else
      assert s == s[..|s| - 1] + [s[|s| - 1]];
      Insert(Sort(s[..|s| - 1], key), key, s[|s| - 1])
  }

  lemma {:induction false} SameElements<T(!new)>(a: seq<T>, b: seq<T>)
    requires multiset(a) == multiset(b)
    ensures forall x :: x in a <==> x in b
  {
    assert forall x :: x in a <==> x in multiset(a);
    assert forall x :: x in b <==> x in multiset(b);
  }

  lemma {:induction false} InsertElements<T(!new)>(s: seq<T>, key: T -> nat, x: T)
    ensures forall y :: y in Insert(s, key, x) <==> y in s || y == x
  {
    assert forall y :: y in Insert(s, key, x) <==> y in multiset(Insert(s, key, x));
    assert forall y :: y in s <==> y in multiset(s);
  }

  lemma {:induction false} InsertAscending<T(!new)>(s: seq<T>, key: T -> nat, x: T)
    requires Ascending(s, key) && !HasKey(s, key, key(x))
    ensures Ascending(Insert(s, key, x), key)
    decreases |s|
  {
    if s != [] && key(s[|s| - 1]) > key(x) {
      var front, last := s[..|s| - 1], s[|s| - 1];
      InsertAscending(front, key, x);
      InsertElements(front, key, x);
      var r := Insert(front, key, x);
      forall i | 0 <= i < |r| ensures key(r[i]) < key(last) {
        assert r[i] in r;
        if r[i] != x {
          var j :| 0 <= j < |front| && front[j] == r[i];
          assert s[j] == front[j];
        }
      }
    } else if s != [] {
      assert key(s[|s| - 1]) != key(x);
    }
  }

  lemma {:induction false} SortOfAscending<T>(s: seq<T>, key: T -> nat)
    requires Ascending(s, key)
    ensures Sort(s, key) == s
    decreases |s|
  {
    if s != [] {
      SortOfAscending(s[..|s| - 1], key);
      InsertLast(s[..|s| - 1], key, s[|s| - 1]);
      SortStep(s, key);
    }
  }

  lemma {:induction false} SortStep<T>(s: seq<T>, key: T -> nat)
    requires s != []
    ensures Sort(s, key) == Insert(Sort(s[..|s| - 1], key), key, s[|s| - 1])
    ensures s[..|s| - 1] + [s[|s| - 1]] == s
  {
  }

  lemma {:induction false} InsertLast<T>(s: seq<T>, key: T -> nat, x: T)
    requires s == [] || key(s[|s| - 1]) <= key(x)
    ensures Insert(s, key, x) == s + [x]
  {
  }

  /** Appending a record with a new key to an ascending list and sorting. */
  lemma {:induction false} SortAppend<T(!new)>(s: seq<T>, key: T -> nat, x: T)
    requires Ascending(s, key) && !HasKey(s, key, key(x))
    ensures Sort(s + [x], key) == Insert(s, key, x)
    ensures Ascending(Sort(s + [x], key), key)
    ensures forall y :: y in Sort(s + [x], key) <==> y in s || y == x
  {
    assert (s + [x])[..|s|] == s;
    SortOfAscending(s, key);
    InsertAscending(s, key, x);
    InsertElements(s, key, x);
  }

  predicate InOrder<T>(s: seq<T>, key: T -> nat) {
    forall i, j :: 0 <= i < j < |s| ==> key(s[i]) <= key(s[j])
  }

  lemma {:induction false} InsertInOrder<T(!new)>(s: seq<T>, key: T -> nat, x: T)
    requires InOrder(s, key)
    ensures InOrder(Insert(s, key, x), key)
    decreases |s|
  {
    if s != [] && key(s[|s| - 1]) > key(x) {
      var front, last := s[..|s| - 1], s[|s| - 1];
      InsertInOrder(front, key, x);
      InsertElements(front, key, x);
      var r := Insert(front, key, x);
      forall i | 0 <= i < |r| ensures key(r[i]) <= key(last) {
        assert r[i] in r;
        if r[i] != x {
          var j :| 0 <= j < |front| && front[j] == r[i];
          assert s[j] == front[j];
        }
      }
    }
  }

  /** Sorting puts any records in order. */
  lemma {:induction false} SortOrders<T(!new)>(s: seq<T>, key: T -> nat)
    ensures InOrder(Sort(s, key), key)
    decreases |s|
  {
    if s != [] {
      SortOrders(s[..|s| - 1], key);
      InsertInOrder(Sort(s[..|s| - 1], key), key, s[|s| - 1]);
    }
  }

  predicate DistinctKeys<T>(s: seq<T>, key: T -> nat) {
    forall i, j :: 0 <= i < j < |s| ==> key(s[i]) != key(s[j])
  }

  /** Sorting records with distinct keys puts them in strictly ascending order. */
  lemma {:induction false} SortOfDistinct<T(!new)>(s: seq<T>, key: T -> nat)
    requires DistinctKeys(s, key)
    ensures Ascending(Sort(s, key), key)
    decreases |s|
  {
    if s != [] {
      var front, last := s[..|s| - 1], s[|s| - 1];
      SortOfDistinct(front, key);
      var sorted := Sort(front, key);
      SameElements(sorted, front);
      forall i | 0 <= i < |sorted| ensures key(sorted[i]) != key(last) {
        assert sorted[i] in front;
      }
      InsertAscending(sorted, key, last);
    }
  }

  lemma {:induction false} FilterDistinctKeys<T(!new)>(s: seq<T>, key: T -> nat, keep: T -> bool)
    requires DistinctKeys(s, key)
    ensures DistinctKeys(Filter(s, keep), key)
    decreases |s|
  {
    if s != [] {
      var front, last := s[..|s| - 1], s[|s| - 1];
      FilterDistinctKeys(front, key, keep);
      var r := Filter(front, keep);
      forall i | 0 <= i < |r| ensures key(r[i]) != key(last) {
        assert r[i] in r && r[i] in front;
      }
    }
  }

  lemma {:induction false} FilterAscending<T(!new)>(s: seq<T>, key: T -> nat, keep: T -> bool)
    requires Ascending(s, key)
    ensures Ascending(Filter(s, keep), key)
    decreases |s|
  {
    if s != [] {
      var front, last := s[..|s| - 1], s[|s| - 1];
      FilterAscending(front, key, keep);
      var r := Filter(front, keep);
      forall i | 0 <= i < |r| ensures key(r[i]) < key(last) {
        assert r[i] in r && r[i] in front;
      }
    }
  }

  lemma {:induction false} WithoutElements<T(!new)>(s: seq<T>, i: nat)
    requires i < |s|
    ensures forall x :: x in Without(s, i) ==> x in s
    ensures forall x :: x in s && x != s[i] ==> x in Without(s, i)
  {
    assert s == s[..i] + [s[i]] + s[i + 1..];
  }

  lemma {:induction false} WithoutAscending<T(!new)>(s: seq<T>, key: T -> nat, i: nat)
    requires Ascending(s, key) && i < |s|
    ensures Ascending(Without(s, i), key)
    ensures forall x :: x in Without(s, i) <==> x in s && key(x) != key(s[i])
  {
    WithoutElements(s, i);
    var r := Without(s, i);
    forall k | 0 <= k < |r| ensures key(r[k]) != key(s[i]) {
      assert r[k] == s[if k < i then k else k + 1];
    }
  }

  lemma {:induction false} ReplaceAscending<T(!new)>(s: seq<T>, key: T -> nat, i: nat, x: T)
    requires Ascending(s, key) && i < |s| && key(s[i]) == key(x)
    ensures Ascending(s[i := x], key)
    ensures forall y :: y in s[i := x] <==> y == x || (y in s && key(y) != key(x))
  {
    WithoutAscending(s, key, i);
    assert s[i := x] == s[..i] + [x] + s[i + 1..];
  }

  function Keys<T>(s: seq<T>, key: T -> nat): set<nat> {
    set i | 0 <= i < |s| :: key(s[i])
  }

  lemma {:induction false} KeysSize<T>(s: seq<T>, key: T -> nat)
    requires Ascending(s, key)
    ensures |Keys(s, key)| == |s|
    decreases |s|
  {
    if s != [] {
      var front, last := s[..|s| - 1], s[|s| - 1];
      KeysSize(front, key);
      assert Keys(s, key) == Keys(front, key) + {key(last)};
      assert key(last) !in Keys(front, key);
    }
  }

  // ---------------------------------------------------------------- binary search

  /** The standard library's binary search for the first key at or above `k` between `i` and `j`. */
  function SearchBetween<T>(s: seq<T>, key: T -> nat, k: nat, i: nat, j: nat): (r: nat)
    requires i <= j <= |s|
    ensures i <= r <= j
    decreases j - i
  {
    if i == j then i
    else
      var h := (i + j) / 2;
      if key(s[h]) < k then SearchBetween(s, key, k, h + 1, j) else SearchBetween(s, key, k, i, h)
  }

  function Search<T>(s: seq<T>, key: T -> nat, k: nat): (r: nat)
    ensures r <= |s|
  {
    SearchBetween(s, key, k, 0, |s|)
  }

  method BinarySearch<T>(s: seq<T>, key: T -> nat, k: nat) returns (r: nat)
    ensures r == Search(s, key, k)
  {
    var i, j := 0, |s|;
    while i < j
      invariant i <= j <= |s|
      invariant Search(s, key, k) == SearchBetween(s, key, k, i, j)
    {
      var h := (i + j) / 2;
      if key(s[h]) < k {
        i := h + 1;
      } else {
        j := h;
      }
    }
    r := i;
  }

  lemma {:induction false} SearchBetweenSplits<T>(s: seq<T>, key: T -> nat, k: nat, i: nat, j: nat)
    requires Ascending(s, key) && i <= j <= |s|
    requires forall x :: 0 <= x < i ==> key(s[x]) < k
    requires forall x :: j <= x < |s| ==> key(s[x]) >= k
    ensures var r := SearchBetween(s, key, k, i, j);
            (forall x :: 0 <= x < r ==> key(s[x]) < k) && (forall x :: r <= x < |s| ==> key(s[x]) >= k)
    decreases j - i
  {
    if i < j {
      var h := (i + j) / 2;
      if key(s[h]) < k {
        SearchBetweenSplits(s, key, k, h + 1, j);
      } else {
        SearchBetweenSplits(s, key, k, i, h);
      }
    }
  }

  /** On an ascending list, binary search finds a key exactly when it is there, and where it is. */
  lemma {:induction false} SearchFinds<T>(s: seq<T>, key: T -> nat, k: nat)
    requires Ascending(s, key)
    ensures var r := Search(s, key, k);
            && (r < |s| && key(s[r]) == k <==> HasKey(s, key, k))
            && (forall x :: 0 <= x < |s| && key(s[x]) == k ==> x == r)
  {
    SearchBetweenSplits(s, key, k, 0, |s|);
  }
}
