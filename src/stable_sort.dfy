/** `Array.prototype.sort` with a numeric comparator `(a, b) => key(a) - key(b)`.
    The sort the language guarantees is stable, so it is modelled by insertion
    sort: each element goes after every element already placed whose key is not
    greater than its own. */
module StableSort {

  ghost predicate SortedBy<T>(s: seq<T>, key: T -> int) {
    forall i, j :: 0 <= i < j < |s| ==> key(s[i]) <= key(s[j])
  }

  /** Places `x` after the leading elements whose key is at most `x`'s. */
  function Insert<T>(s: seq<T>, x: T, key: T -> int): seq<T> {
    if s == [] then [x]
    else if key(s[0]) <= key(x) then [s[0]] + Insert(s[1..], x, key)
    else [x] + s
  }

  /** The number of leading elements of `s` that `Insert` puts `x` after. */
  function InsertIndex<T>(s: seq<T>, x: T, key: T -> int): (k: nat)
    ensures k <= |s|
    ensures forall i :: 0 <= i < k ==> key(s[i]) <= key(x)
    ensures k < |s| ==> key(x) < key(s[k])
  {
    if s == [] || key(x) < key(s[0]) then 0
    else 1 + InsertIndex(s[1..], x, key)
  }

  /** `Insert` puts `x` exactly at `InsertIndex`. */
  lemma {:induction false} InsertSplit<T>(s: seq<T>, x: T, key: T -> int)
    ensures Insert(s, x, key) == s[..InsertIndex(s, x, key)] + [x] + s[InsertIndex(s, x, key)..]
  {
    if s != [] && key(s[0]) <= key(x) {
      var tail := s[1..];
      var k := InsertIndex(tail, x, key);
      InsertSplit(tail, x, key);
      ConsSplit(s, x, k);
    }
  }

  lemma ConsSplit<T>(s: seq<T>, x: T, k: nat)
    requires k < |s|
    ensures [s[0]] + (s[1..][..k] + [x] + s[1..][k..]) == s[..k + 1] + [x] + s[k + 1..]
  {
    assert s[..k + 1] == [s[0]] + s[1..][..k];
    assert s[k + 1..] == s[1..][k..];
  }

  /** In a sorted sequence every element after the insertion point has a
      greater key than the inserted one. */
  lemma InsertIndexSorted<T>(s: seq<T>, x: T, key: T -> int)
    requires SortedBy(s, key)
    ensures forall i :: InsertIndex(s, x, key) <= i < |s| ==> key(x) < key(s[i])
  {
  }

  /** In a sorted sequence, a position `j` with no greater key before it and
      only greater keys from it on is where `Insert` puts `x`. */
  lemma InsertAt<T>(s: seq<T>, x: T, j: nat, key: T -> int)
    requires SortedBy(s, key) && j <= |s|
    requires j == 0 || key(s[j - 1]) <= key(x)
    requires forall t :: j <= t < |s| ==> key(x) < key(s[t])
    ensures Insert(s, x, key) == s[..j] + [x] + s[j..]
  {
    var k := InsertIndex(s, x, key);
    InsertSplit(s, x, key);
    if k < j {
      assert false;
    } else if k > j {
      assert false;
    }
  }

  /** The stable sort of `s` by ascending `key`. */
  function Sort<T>(s: seq<T>, key: T -> int): seq<T> {
    if s == [] then [] else Insert(Sort(s[..|s| - 1], key), s[|s| - 1], key)
  }

  /** The elements of `s` whose key is `k`, in their order in `s`. */
  function WithKey<T>(s: seq<T>, key: T -> int, k: int): seq<T> {
    if s == [] then []
    else (if key(s[0]) == k then [s[0]] else []) + WithKey(s[1..], key, k)
  }

  lemma {:induction false} InsertPermutes<T>(s: seq<T>, x: T, key: T -> int)
    ensures multiset(Insert(s, x, key)) == multiset(s) + multiset{x}
  {
    if s != [] && key(s[0]) <= key(x) {
      InsertPermutes(s[1..], x, key);
      assert s == [s[0]] + s[1..];
    }
  }

  /** The elements of `s` with `x` placed at `k`. */
  lemma PlacedElement<T>(s: seq<T>, x: T, k: nat, i: nat)
    requires k <= |s| && i <= |s|
    ensures (s[..k] + [x] + s[k..])[i] == if i < k then s[i] else if i == k then x else s[i - 1]
  {
  }

  lemma InsertKeepsSorted<T>(s: seq<T>, x: T, key: T -> int)
    requires SortedBy(s, key)
    ensures SortedBy(Insert(s, x, key), key)
  {
    var k := InsertIndex(s, x, key);
    InsertSplit(s, x, key);
    InsertIndexSorted(s, x, key);
    var r := s[..k] + [x] + s[k..];
    forall i, j | 0 <= i < j < |r| ensures key(r[i]) <= key(r[j]) {
      PlacedElement(s, x, k, i);
      PlacedElement(s, x, k, j);
    }
  }

  /** `sort` orders the elements by ascending key and only rearranges them. */
  lemma {:induction false} SortIsSortedPermutation<T>(s: seq<T>, key: T -> int)
    ensures SortedBy(Sort(s, key), key)
    ensures multiset(Sort(s, key)) == multiset(s)
    ensures |Sort(s, key)| == |s|
  {
    if s != [] {
      var init := s[..|s| - 1];
      SortIsSortedPermutation(init, key);
      InsertKeepsSorted(Sort(init, key), s[|s| - 1], key);
      InsertPermutes(Sort(init, key), s[|s| - 1], key);
      assert s == init + [s[|s| - 1]];
      assert multiset(s) == multiset(init) + multiset{s[|s| - 1]};
    }
    assert |Sort(s, key)| == |multiset(Sort(s, key))|;
  }

  lemma {:induction false} InsertAtEnd<T>(s: seq<T>, x: T, key: T -> int)
    requires forall i :: 0 <= i < |s| ==> key(s[i]) <= key(x)
    ensures Insert(s, x, key) == s + [x]
  {
    if s != [] {
      InsertAtEnd(s[1..], x, key);
      assert s == [s[0]] + s[1..];
    }
  }

  /** Sorting an already sorted sequence changes nothing. */
  lemma {:induction false} SortOfSorted<T>(s: seq<T>, key: T -> int)
    requires SortedBy(s, key)
    ensures Sort(s, key) == s
  {
    if s != [] {
      var init := s[..|s| - 1];
      SortOfSorted(init, key);
      InsertAtEnd(init, s[|s| - 1], key);
      assert init + [s[|s| - 1]] == s;
    }
  }

  /** Adding one element to a sorted sequence and sorting again inserts it
      after every element whose key is not greater than its own. */
  lemma SortAppend<T>(s: seq<T>, x: T, key: T -> int)
    requires SortedBy(s, key)
    ensures Sort(s + [x], key) == Insert(s, x, key)
  {
    assert (s + [x])[..|s|] == s;
    SortOfSorted(s, key);
  }

  lemma {:induction false} WithKeyAppend<T>(a: seq<T>, b: seq<T>, key: T -> int, k: int)
    ensures WithKey(a + b, key, k) == WithKey(a, key, k) + WithKey(b, key, k)
  {
    if a == [] {
      assert a + b == b;
    } else {
      WithKeyAppend(a[1..], b, key, k);
      WithKeyAppendStep(a, b, key, k);
    }
  }

  lemma WithKeyAppendStep<T>(a: seq<T>, b: seq<T>, key: T -> int, k: int)
    requires a != []
    requires WithKey(a[1..] + b, key, k) == WithKey(a[1..], key, k) + WithKey(b, key, k)
    ensures WithKey(a + b, key, k) == WithKey(a, key, k) + WithKey(b, key, k)
  {
    var head := if key(a[0]) == k then [a[0]] else [];
    calc {
      WithKey(a + b, key, k);
      { assert (a + b)[0] == a[0] && (a + b)[1..] == a[1..] + b; }
      head + WithKey(a[1..] + b, key, k);
      head + (WithKey(a[1..], key, k) + WithKey(b, key, k));
      head + WithKey(a[1..], key, k) + WithKey(b, key, k);
    }
  }

  lemma WithKeyOne<T>(x: T, key: T -> int, k: int)
    ensures WithKey([x], key, k) == if key(x) == k then [x] else []
  {
    assert [x][1..] == [];
  }

  lemma {:induction false} WithKeyAllGreater<T>(s: seq<T>, key: T -> int, k: int)
    requires forall i :: 0 <= i < |s| ==> key(s[i]) > k
    ensures WithKey(s, key, k) == []
  {
    if s != [] {
      assert forall i :: 0 <= i < |s[1..]| ==> key(s[1..][i]) > k by {
        forall i | 0 <= i < |s[1..]| ensures key(s[1..][i]) > k {
          assert s[1..][i] == s[i + 1];
        }
      }
      WithKeyAllGreater(s[1..], key, k);
    }
  }

  lemma SortedTail<T>(s: seq<T>, key: T -> int)
    requires s != [] && SortedBy(s, key)
    ensures SortedBy(s[1..], key)
    ensures forall i :: 0 <= i < |s| ==> key(s[0]) <= key(s[i])
  {
    var tail := s[1..];
    forall i, j | 0 <= i < j < |tail| ensures key(tail[i]) <= key(tail[j]) {
      assert tail[i] == s[i + 1] && tail[j] == s[j + 1];
    }
  }

  lemma WithKeyInsertFront<T>(s: seq<T>, x: T, key: T -> int, k: int)
    requires s != [] && SortedBy(s, key) && key(x) < key(s[0])
    ensures WithKey([x] + s, key, k) == WithKey(s, key, k) + (if key(x) == k then [x] else [])
  {
    WithKeyAppend([x], s, key, k);
    if key(x) == k {
      SortedTail(s, key);
      WithKeyAllGreater(s, key, k);
    }
  }

  lemma {:induction false} WithKeyInsert<T>(s: seq<T>, x: T, key: T -> int, k: int)
    requires SortedBy(s, key)
    ensures WithKey(Insert(s, x, key), key, k)
         == WithKey(s, key, k) + (if key(x) == k then [x] else [])
  {
    if s == [] {
    } else if key(s[0]) <= key(x) {
      SortedTail(s, key);
      WithKeyInsert(s[1..], x, key, k);
      WithKeyInsertStep(s, x, key, k);
    } else {
      assert Insert(s, x, key) == [x] + s;
      WithKeyInsertFront(s, x, key, k);
    }
  }

  lemma WithKeyInsertStep<T>(s: seq<T>, x: T, key: T -> int, k: int)
    requires s != [] && key(s[0]) <= key(x)
    requires WithKey(Insert(s[1..], x, key), key, k)
          == WithKey(s[1..], key, k) + (if key(x) == k then [x] else [])
    ensures WithKey(Insert(s, x, key), key, k)
         == WithKey(s, key, k) + (if key(x) == k then [x] else [])
  {
    var tail := s[1..];
    var rest := Insert(tail, x, key);
    assert Insert(s, x, key) == [s[0]] + rest;
    WithKeyAppend([s[0]], rest, key, k);
    assert s == [s[0]] + tail;
    WithKeyAppend([s[0]], tail, key, k);
  }

  /** Stability: among elements with equal keys, `sort` keeps the order they
      had in its input. */
  lemma {:induction false} SortIsStable<T>(s: seq<T>, key: T -> int, k: int)
    ensures WithKey(Sort(s, key), key, k) == WithKey(s, key, k)
  {
    if s != [] {
      var init := s[..|s| - 1];
      var x := s[|s| - 1];
      var sorted := Sort(init, key);
      var last := if key(x) == k then [x] else [];
      assert SortedBy(sorted, key) by {
        SortIsSortedPermutation(init, key);
      }
      calc {
        WithKey(Sort(s, key), key, k);
        WithKey(Insert(sorted, x, key), key, k);
        { WithKeyInsert(sorted, x, key, k); }
        WithKey(sorted, key, k) + last;
        { SortIsStable(init, key, k); }
        WithKey(init, key, k) + last;
        { WithKeyOne(x, key, k); WithKeyAppend(init, [x], key, k); }
        WithKey(init + [x], key, k);
        { assert init + [x] == s; }
        WithKey(s, key, k);
      }
    }
  }
}
