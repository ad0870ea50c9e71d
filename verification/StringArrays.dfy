/** String arrays of the script language: qsort and bsearch with the comparison
    qs_arrcmp. The comparison itself (es_strcmp) belongs to another library; it is a
    parameter, and all that is used of it is that it is a total order. */
module StringArrays {

  type Cmp = (string, string) -> int

  // These two only serve to instantiate the quantifiers below where a proof asks for it.
  ghost predicate Chain(a: string, b: string, c: string) { true }
  ghost predicate Pair(i: int, j: int) { true }

  ghost predicate TotalOrder(cmp: Cmp) {
    && (forall a, b :: cmp(a, b) == 0 <==> a == b)
    && (forall a, b {:trigger cmp(a, b)} :: cmp(a, b) < 0 <==> cmp(b, a) > 0)
    && (forall a, b, c {:trigger Chain(a, b, c)} ::
          Chain(a, b, c) && cmp(a, b) <= 0 && cmp(b, c) <= 0 ==> cmp(a, c) <= 0)
  }

  ghost predicate Ordered(cmp: Cmp, a: seq<string>) {
    forall i, j {:trigger Pair(i, j)} :: Pair(i, j) && 0 <= i < j < |a| ==> cmp(a[i], a[j]) <= 0
  }

  function Insert(cmp: Cmp, x: string, a: seq<string>): (r: seq<string>)
    ensures multiset(r) == multiset(a) + multiset{x}
  {
    if a == [] then [x]
    else if cmp(x, a[0]) <= 0 then [x] + a
    else
      assert a == [a[0]] + a[1..];
      [a[0]] + Insert(cmp, x, a[1..])
  }

  /** What qsort leaves in the array. */
  function Sorted(cmp: Cmp, a: seq<string>): (r: seq<string>)
    ensures multiset(r) == multiset(a)
  {
    if a == [] then []
    else
      assert a == [a[0]] + a[1..];
      Insert(cmp, a[0], Sorted(cmp, a[1..]))
  }

  lemma OrderedTail(cmp: Cmp, a: seq<string>, k: nat)
    requires Ordered(cmp, a) && k <= |a|
    ensures Ordered(cmp, a[k..])
  {
    forall i, j | Pair(i, j) && 0 <= i < j < |a[k..]| ensures cmp(a[k..][i], a[k..][j]) <= 0 {
      assert Pair(i + k, j + k);
    }
  }

  lemma OrderedCons(cmp: Cmp, x: string, a: seq<string>)
    requires TotalOrder(cmp) && Ordered(cmp, a)
    requires forall k :: 0 <= k < |a| ==> cmp(x, a[k]) <= 0
    ensures Ordered(cmp, [x] + a)
  {
    forall i, j | Pair(i, j) && 0 <= i < j < |[x] + a| ensures cmp(([x] + a)[i], ([x] + a)[j]) <= 0 {
      if i > 0 { assert Pair(i - 1, j - 1); }
    }
  }

  lemma HeadIsLeast(cmp: Cmp, a: seq<string>, x: string)
    requires TotalOrder(cmp) && Ordered(cmp, a) && x in a
    ensures cmp(a[0], x) <= 0
  {
    var i :| 0 <= i < |a| && a[i] == x;
    assert Pair(0, i);
  }

  lemma {:induction false} InsertKeepsOrder(cmp: Cmp, x: string, a: seq<string>)
    requires TotalOrder(cmp) && Ordered(cmp, a)
    ensures Ordered(cmp, Insert(cmp, x, a))
  {
    if a == [] {
    } else if cmp(x, a[0]) <= 0 {
      forall k | 0 <= k < |a| ensures cmp(x, a[k]) <= 0 {
        HeadIsLeast(cmp, a, a[k]);
        assert Chain(x, a[0], a[k]);
      }
      OrderedCons(cmp, x, a);
    } else {
      var tail := Insert(cmp, x, a[1..]);
      OrderedTail(cmp, a, 1);
      InsertKeepsOrder(cmp, x, a[1..]);
      forall j | 0 <= j < |tail| ensures cmp(a[0], tail[j]) <= 0 {
        assert tail[j] in multiset(tail);
        if tail[j] != x {
          assert tail[j] in multiset(a[1..]);
          HeadIsLeast(cmp, a, tail[j]);
        }
      }
      OrderedCons(cmp, a[0], tail);
    }
  }

  lemma {:induction false} SortedIsOrdered(cmp: Cmp, a: seq<string>)
    requires TotalOrder(cmp)
    ensures Ordered(cmp, Sorted(cmp, a))
  {
    if a != [] {
      SortedIsOrdered(cmp, a[1..]);
      InsertKeepsOrder(cmp, a[0], Sorted(cmp, a[1..]));
    }
  }

  lemma MultisetTail(a: seq<string>)
    requires a != []
    ensures multiset(a[1..]) == multiset(a) - multiset{a[0]}
  {
    assert a == [a[0]] + a[1..];
  }

  lemma SameHead(cmp: Cmp, a: seq<string>, b: seq<string>)
    requires TotalOrder(cmp) && Ordered(cmp, a) && Ordered(cmp, b)
    requires multiset(a) == multiset(b) && a != [] && b != []
    ensures a[0] == b[0]
  {
    assert a[0] in multiset(b) && b[0] in multiset(a);
    HeadIsLeast(cmp, b, a[0]);
    HeadIsLeast(cmp, a, b[0]);
  }

  /** Any sort of the array has the same outcome, so nothing rests on how qsort works. */
  lemma {:induction false} OrderedIsUnique(cmp: Cmp, a: seq<string>, b: seq<string>)
    requires TotalOrder(cmp) && Ordered(cmp, a) && Ordered(cmp, b)
    requires multiset(a) == multiset(b)
    ensures a == b
  {
    assert |a| == |multiset(a)| == |multiset(b)| == |b|;
    if a != [] {
      SameHead(cmp, a, b);
      MultisetTail(a);
      MultisetTail(b);
      OrderedTail(cmp, a, 1);
      OrderedTail(cmp, b, 1);
      OrderedIsUnique(cmp, a[1..], b[1..]);
      assert a == [a[0]] + a[1..] && b == [b[0]] + b[1..];
    }
  }

  lemma SortingSorted(cmp: Cmp, a: seq<string>)
    requires TotalOrder(cmp)
    ensures Sorted(cmp, Sorted(cmp, a)) == Sorted(cmp, a)
  {
    SortedIsOrdered(cmp, a);
    SortedIsOrdered(cmp, Sorted(cmp, a));
    OrderedIsUnique(cmp, Sorted(cmp, Sorted(cmp, a)), Sorted(cmp, a));
  }

  lemma SortedHasSameMembers(cmp: Cmp, a: seq<string>, x: string)
    ensures x in Sorted(cmp, a) <==> x in a
  {
    assert x in multiset(Sorted(cmp, a)) <==> x in multiset(a);
  }

  /** Binary search between two bounds. */
  predicate Search(cmp: Cmp, key: string, a: seq<string>, lo: nat, hi: nat)
    requires lo <= hi <= |a|
    decreases hi - lo
  {
    if lo == hi then false
    else
      var mid := (lo + hi) / 2;
      var c := cmp(key, a[mid]);
      if c < 0 then Search(cmp, key, a, lo, mid)
      else if c > 0 then Search(cmp, key, a, mid + 1, hi)
      else true
  }

  predicate BinarySearch(cmp: Cmp, key: string, a: seq<string>) {
    Search(cmp, key, a, 0, |a|)
  }

  method Bsearch(cmp: Cmp, key: string, a: seq<string>) returns (found: bool)
    ensures found == BinarySearch(cmp, key, a)
  {
    var lo, hi := 0, |a|;
    while lo < hi
      invariant 0 <= lo <= hi <= |a|
      invariant BinarySearch(cmp, key, a) == Search(cmp, key, a, lo, hi)
    {
      var mid := (lo + hi) / 2;
      var c := cmp(key, a[mid]);
      if c < 0 {
        hi := mid;
      } else if c > 0 {
        lo := mid + 1;
      } else {
        return true;
      }
    }
    found := false;
  }

  lemma {:induction false} SearchFinds(cmp: Cmp, key: string, a: seq<string>, lo: nat, hi: nat)
    requires lo <= hi <= |a| && TotalOrder(cmp) && Ordered(cmp, a)
    ensures Search(cmp, key, a, lo, hi) <==> key in a[lo..hi]
    decreases hi - lo
  {
    if lo < hi {
      var mid := (lo + hi) / 2;
      var c := cmp(key, a[mid]);
      if c < 0 {
        SearchFinds(cmp, key, a, lo, mid);
        forall k | mid <= k < hi ensures a[k] != key {
          assert Pair(mid, k);
        }
        assert a[lo..hi] == a[lo..mid] + a[mid..hi];
      } else if c > 0 {
        SearchFinds(cmp, key, a, mid + 1, hi);
        forall k | lo <= k <= mid ensures a[k] != key {
          assert Pair(k, mid);
        }
        assert a[lo..hi] == a[lo..mid + 1] + a[mid + 1..hi];
      } else {
        assert a[lo..hi][mid - lo] == key;
      }
    }
  }

  /** After sorting, binary search finds exactly the members of the original array. */
  lemma SearchAfterSort(cmp: Cmp, key: string, a: seq<string>)
    requires TotalOrder(cmp)
    ensures BinarySearch(cmp, key, Sorted(cmp, a)) <==> key in a
  {
    var s := Sorted(cmp, a);
    SortedIsOrdered(cmp, a);
    SearchFinds(cmp, key, s, 0, |s|);
    assert s[0..|s|] == s;
    SortedHasSameMembers(cmp, a, key);
  }
}
