/** `Array.prototype.sort` with a comparator that orders elements by a
    string key (`a.key.localeCompare(b.key)`), used on serialised hex. The
    sort is stable: elements with equal keys keep their order. */
module KeyedSort {
  import opened Text

  /** An element together with the string it is sorted by. */
  datatype Keyed<T> = Keyed(item: T, key: string)

  predicate SortedByKey<T>(xs: seq<Keyed<T>>)
  {
    forall i, j :: 0 <= i < j < |xs| ==> !LexLess(xs[j].key, xs[i].key)
  }

  /** Inserts `x` into sorted `s`, after every element whose key is not
      greater than its own. */
  function Insert<T>(s: seq<Keyed<T>>, x: Keyed<T>): (r: seq<Keyed<T>>)
    ensures |r| == |s| + 1
  {
    if |s| == 0 then [x]
    else if LexLess(x.key, s[0].key) then [x] + s
    else [s[0]] + Insert(s[1..], x)
  }

  /** The sorted array: each element inserted in turn. */
  function SortByKey<T>(xs: seq<Keyed<T>>): (r: seq<Keyed<T>>)
    ensures |r| == |xs|
  {
    if |xs| == 0 then [] else Insert(SortByKey(xs[..|xs| - 1]), xs[|xs| - 1])
  }

  /** The elements, without their keys (`sorted.map((e) => e.item)`). */
  function Items<T>(xs: seq<Keyed<T>>): (r: seq<T>)
    ensures |r| == |xs|
  {
    if |xs| == 0 then [] else [xs[0].item] + Items(xs[1..])
  }

  lemma {:induction false} LexIrreflexive(a: string)
    ensures !LexLess(a, a)
    decreases |a|
  {
    if |a| > 0 {
      LexIrreflexive(a[1..]);
    }
  }

  lemma {:induction false} LexAsymmetric(a: string, b: string)
    requires LexLess(a, b)
    ensures !LexLess(b, a)
    decreases |a|
  {
    if |a| > 0 && |b| > 0 && a[0] == b[0] {
      LexAsymmetric(a[1..], b[1..]);
    }
  }

  lemma {:induction false} LexTotal(a: string, b: string)
    ensures LexLess(a, b) || LexLess(b, a) || a == b
    decreases |a|
  {
    if |a| > 0 && |b| > 0 && a[0] == b[0] {
      LexTotal(a[1..], b[1..]);
      if a[1..] == b[1..] {
        assert a == [a[0]] + a[1..] && b == [b[0]] + b[1..];
      }
    }
  }

  lemma {:induction false} LexTransitive(a: string, b: string, c: string)
    requires LexLess(a, b) && LexLess(b, c)
    ensures LexLess(a, c)
    decreases |a|
  {
    if |a| > 0 && a[0] == b[0] && b[0] == c[0] {
      LexTransitive(a[1..], b[1..], c[1..]);
    }
  }

  /** Not greater, then not greater again, is not greater. */
  lemma LexNotGreaterTransitive(a: string, b: string, c: string)
    requires !LexLess(b, a) && !LexLess(c, b)
    ensures !LexLess(c, a)
  {
    LexTotal(a, b);
    LexTotal(b, c);
    if LexLess(c, a) {
      if a == b {
        LexAsymmetric(c, a);
      } else if b == c {
        LexAsymmetric(c, a);
      } else {
        LexTransitive(a, b, c);
        LexAsymmetric(a, c);
      }
    }
  }

  /** Every key of a sorted sequence is at least its first one. */
  lemma LowerBound<T>(s: seq<Keyed<T>>, k: string)
    requires SortedByKey(s) && |s| > 0 && !LexLess(s[0].key, k)
    ensures forall j :: 0 <= j < |s| ==> !LexLess(s[j].key, k)
  {
    forall j | 0 <= j < |s|
      ensures !LexLess(s[j].key, k)
    {
      if j > 0 {
        LexNotGreaterTransitive(k, s[0].key, s[j].key);
      }
    }
  }

  /** A sorted sequence stays sorted behind a key not greater than any
      of its keys. */
  lemma SortedCons<T>(x: Keyed<T>, s: seq<Keyed<T>>)
    requires SortedByKey(s)
    requires forall j :: 0 <= j < |s| ==> !LexLess(s[j].key, x.key)
    ensures SortedByKey([x] + s)
  {
    var r := [x] + s;
    forall i, j | 0 <= i < j < |r|
      ensures !LexLess(r[j].key, r[i].key)
    {
      assert r[j] == s[j - 1];
      if i > 0 {
        assert r[i] == s[i - 1];
      }
    }
  }

  /** The tail of a sorted sequence is sorted. */
  lemma SortedTail<T>(s: seq<Keyed<T>>)
    requires SortedByKey(s) && |s| > 0
    ensures SortedByKey(s[1..])
  {
    forall i, j | 0 <= i < j < |s[1..]|
      ensures !LexLess(s[1..][j].key, s[1..][i].key)
    {
      assert s[1..][j] == s[j + 1] && s[1..][i] == s[i + 1];
    }
  }

  /** Inserting keys no smaller than `k` gives keys no smaller than `k`. */
  lemma {:induction false} InsertBound<T>(s: seq<Keyed<T>>, x: Keyed<T>, k: string)
    requires forall j :: 0 <= j < |s| ==> !LexLess(s[j].key, k)
    requires !LexLess(x.key, k)
    ensures forall j :: 0 <= j < |Insert(s, x)| ==> !LexLess(Insert(s, x)[j].key, k)
    decreases |s|
  {
    if |s| > 0 && !LexLess(x.key, s[0].key) {
      InsertBound(s[1..], x, k);
      var r := Insert(s, x);
      assert r == [s[0]] + Insert(s[1..], x);
      forall j | 0 <= j < |r|
        ensures !LexLess(r[j].key, k)
      {
        if j > 0 {
          assert r[j] == Insert(s[1..], x)[j - 1];
        }
      }
    }
  }

  /** Inserting into a sorted sequence keeps it sorted. */
  lemma {:induction false} InsertSorted<T>(s: seq<Keyed<T>>, x: Keyed<T>)
    requires SortedByKey(s)
    ensures SortedByKey(Insert(s, x))
    decreases |s|
  {
    if |s| == 0 {
    } else if LexLess(x.key, s[0].key) {
      LexAsymmetric(x.key, s[0].key);
      LowerBound(s, x.key);
      SortedCons(x, s);
    } else {
      SortedTail(s);
      InsertSorted(s[1..], x);
      LexIrreflexive(s[0].key);
      LowerBound(s, s[0].key);
      assert forall j :: 0 <= j < |s[1..]| ==> s[1..][j] == s[j + 1];
      InsertBound(s[1..], x, s[0].key);
      SortedCons(s[0], Insert(s[1..], x));
    }
  }

  /** Every element is keyed by `f` of its item. */
  predicate KeyedBy<T>(xs: seq<Keyed<T>>, f: T -> string)
  {
    forall i :: 0 <= i < |xs| ==> xs[i].key == f(xs[i].item)
  }

  lemma {:induction false} InsertKeyedBy<T>(s: seq<Keyed<T>>, x: Keyed<T>, f: T -> string)
    requires KeyedBy(s, f) && x.key == f(x.item)
    ensures KeyedBy(Insert(s, x), f)
    decreases |s|
  {
    if |s| > 0 && !LexLess(x.key, s[0].key) {
      InsertKeyedBy(s[1..], x, f);
      var r := Insert(s, x);
      forall i | 0 <= i < |r|
        ensures r[i].key == f(r[i].item)
      {
        if i > 0 {
          assert r[i] == Insert(s[1..], x)[i - 1];
        }
      }
    }
  }

  /** Sorting keeps every element keyed as it was. */
  lemma {:induction false} SortKeyedBy<T>(xs: seq<Keyed<T>>, f: T -> string)
    requires KeyedBy(xs, f)
    ensures KeyedBy(SortByKey(xs), f)
    decreases |xs|
  {
    if |xs| > 0 {
      SortKeyedBy(xs[..|xs| - 1], f);
      InsertKeyedBy(SortByKey(xs[..|xs| - 1]), xs[|xs| - 1], f);
    }
  }

  /** The items of a sorted sequence keyed by `f`, in order of `f`. */
  lemma ItemsOrdered<T>(xs: seq<Keyed<T>>, f: T -> string)
    requires SortedByKey(xs) && KeyedBy(xs, f)
    ensures var items := Items(xs);
      forall i, j :: 0 <= i < j < |items| ==> !LexLess(f(items[j]), f(items[i]))
  {
    var items := Items(xs);
    forall i, j | 0 <= i < j < |items|
      ensures !LexLess(f(items[j]), f(items[i]))
    {
      ItemsAt(xs, i);
      ItemsAt(xs, j);
    }
  }

  /** Inserting adds exactly the inserted element. */
  lemma {:induction false} InsertItems<T>(s: seq<Keyed<T>>, x: Keyed<T>)
    ensures multiset(Items(Insert(s, x))) == multiset(Items(s)) + multiset{x.item}
    decreases |s|
  {
    if |s| > 0 {
      assert Items(s) == [s[0].item] + Items(s[1..]);
      if LexLess(x.key, s[0].key) {
        assert Items([x] + s) == [x.item] + Items(s);
      } else {
        InsertItems(s[1..], x);
        assert Items([s[0]] + Insert(s[1..], x)) == [s[0].item] + Items(Insert(s[1..], x));
      }
    }
  }

  /** The sort gives a sorted sequence. */
  lemma {:induction false} SortSorted<T>(xs: seq<Keyed<T>>)
    ensures SortedByKey(SortByKey(xs))
    decreases |xs|
  {
    if |xs| > 0 {
      SortSorted(xs[..|xs| - 1]);
      InsertSorted(SortByKey(xs[..|xs| - 1]), xs[|xs| - 1]);
    }
  }

  /** The sorted items are a permutation of the items it was given. */
  lemma {:induction false} SortPermutes<T>(xs: seq<Keyed<T>>)
    ensures multiset(Items(SortByKey(xs))) == multiset(Items(xs))
    decreases |xs|
  {
    if |xs| > 0 {
      var init, last := xs[..|xs| - 1], xs[|xs| - 1];
      assert multiset(Items(SortByKey(init))) == multiset(Items(init)) by {
        SortPermutes(init);
      }
      assert multiset(Items(SortByKey(xs))) == multiset(Items(SortByKey(init))) + multiset{last.item} by {
        assert SortByKey(xs) == Insert(SortByKey(init), last);
        InsertItems(SortByKey(init), last);
      }
      assert Items(xs) == Items(init) + [last.item] by {
        assert xs == init + [last];
        ItemsAppend(init, [last]);
      }
    }
  }

  lemma {:induction false} ItemsAppend<T>(a: seq<Keyed<T>>, b: seq<Keyed<T>>)
    ensures Items(a + b) == Items(a) + Items(b)
    decreases |a|
  {
    if |a| > 0 {
      assert (a + b)[1..] == a[1..] + b;
      ItemsAppend(a[1..], b);
    } else {
      assert a + b == b;
    }
  }

  /** The elements keyed `k`, in their order. */
  function WithKey<T>(xs: seq<Keyed<T>>, k: string): (r: seq<Keyed<T>>)
    ensures |r| <= |xs|
    ensures forall i :: 0 <= i < |r| ==> r[i].key == k
  {
    if |xs| == 0 then []
    else (if xs[0].key == k then [xs[0]] else []) + WithKey(xs[1..], k)
  }

  lemma {:induction false} WithKeyAppend<T>(a: seq<Keyed<T>>, b: seq<Keyed<T>>, k: string)
    ensures WithKey(a + b, k) == WithKey(a, k) + WithKey(b, k)
    decreases |a|
  {
    if |a| > 0 {
      assert (a + b)[1..] == a[1..] + b;
      WithKeyAppend(a[1..], b, k);
    } else {
      assert a + b == b;
    }
  }

  lemma {:induction false} WithKeyAbsent<T>(s: seq<Keyed<T>>, k: string)
    requires forall j :: 0 <= j < |s| ==> s[j].key != k
    ensures WithKey(s, k) == []
    decreases |s|
  {
    if |s| > 0 {
      assert forall j :: 0 <= j < |s[1..]| ==> s[1..][j] == s[j + 1];
      WithKeyAbsent(s[1..], k);
    }
  }

  lemma WithKeyCons<T>(x: Keyed<T>, s: seq<Keyed<T>>, k: string)
    ensures WithKey([x] + s, k) == (if x.key == k then [x] else []) + WithKey(s, k)
  {
    assert ([x] + s)[1..] == s;
  }

  /** Inserting into a sorted sequence puts the new element after every
      element with the same key. */
  lemma {:induction false} InsertWithKey<T>(s: seq<Keyed<T>>, x: Keyed<T>, k: string)
    requires SortedByKey(s)
    ensures WithKey(Insert(s, x), k) == WithKey(s, k) + (if x.key == k then [x] else [])
    decreases |s|
  {
    if |s| == 0 {
      WithKeyCons(x, [], k);
    } else if LexLess(x.key, s[0].key) {
      WithKeyCons(x, s, k);
      if x.key == k {
        KeysAfterSmallerAbsent(s, x.key);
      }
    } else {
      SortedTail(s);
      InsertWithKey(s[1..], x, k);
      InsertAfterHead(s, x, k);
    }
  }

  /** Inserting behind the first element, when inserting into the rest puts
      the new element after the rest's elements with key `k`. */
  lemma InsertAfterHead<T>(s: seq<Keyed<T>>, x: Keyed<T>, k: string)
    requires |s| > 0 && !LexLess(x.key, s[0].key)
    requires WithKey(Insert(s[1..], x), k) == WithKey(s[1..], k) + (if x.key == k then [x] else [])
    ensures WithKey(Insert(s, x), k) == WithKey(s, k) + (if x.key == k then [x] else [])
  {
    var tail, rest := Insert(s[1..], x), s[1..];
    var h: seq<Keyed<T>> := if s[0].key == k then [s[0]] else [];
    var e: seq<Keyed<T>> := if x.key == k then [x] else [];
    assert WithKey(Insert(s, x), k) == h + WithKey(tail, k) by {
      assert Insert(s, x) == [s[0]] + tail;
      WithKeyCons(s[0], tail, k);
    }
    assert WithKey(s, k) == h + WithKey(rest, k) by {
      assert [s[0]] + rest == s;
      WithKeyCons(s[0], rest, k);
    }
    assert h + (WithKey(rest, k) + e) == (h + WithKey(rest, k)) + e;
  }

  /** No key of a sorted sequence is smaller than its first one. */
  lemma KeysAfterSmallerAbsent<T>(s: seq<Keyed<T>>, k: string)
    requires SortedByKey(s) && |s| > 0 && LexLess(k, s[0].key)
    ensures WithKey(s, k) == []
  {
    LexIrreflexive(s[0].key);
    LowerBound(s, s[0].key);
    assert forall j :: 0 <= j < |s| ==> s[j].key != k;
    WithKeyAbsent(s, k);
  }

  /** The sort is stable: the elements with any one key come out in the
      order they went in. */
  lemma {:induction false} SortStable<T>(xs: seq<Keyed<T>>, k: string)
    ensures WithKey(SortByKey(xs), k) == WithKey(xs, k)
    decreases |xs|
  {
    if |xs| > 0 {
      var init, last := xs[..|xs| - 1], xs[|xs| - 1];
      SortStable(init, k);
      SortSorted(init);
      InsertWithKey(SortByKey(init), last, k);
      assert xs == init + [last];
      WithKeyAppend(init, [last], k);
      WithKeyCons(last, [], k);
      assert [last] + [] == [last];
    }
  }

  /** Item `i` of the items is the item of element `i`. */
  lemma {:induction false} ItemsAt<T>(xs: seq<Keyed<T>>, i: nat)
    requires i < |xs|
    ensures Items(xs)[i] == xs[i].item
    decreases i
  {
    if i > 0 {
      ItemsAt(xs[1..], i - 1);
    }
  }
}
