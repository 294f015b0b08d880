/** Sorting by a strict order, and what a sorted sequence is determined by. */
module Sorting {
  ghost predicate Order<T(!new)>(less: (T, T) -> bool) {
    && (forall a :: !less(a, a))
    && (forall a, b, c :: less(a, b) && less(b, c) ==> less(a, c))
  }

  // Any two different elements are ordered.
  ghost predicate TotalOn<T(!new)>(s: seq<T>, less: (T, T) -> bool) {
    forall a, b | a in s && b in s :: a != b ==> less(a, b) || less(b, a)
  }

  predicate Distinct<T(==)>(s: seq<T>) {
    forall i, j :: 0 <= i < j < |s| ==> s[i] != s[j]
  }

  ghost predicate Sorted<T(!new)>(s: seq<T>, less: (T, T) -> bool) {
    forall i, j :: 0 <= i < j < |s| ==> less(s[i], s[j])
  }

  function Insert<T>(s: seq<T>, x: T, less: (T, T) -> bool): seq<T> {
    if s == [] then [x]
    else if less(x, s[0]) then [x] + s
    else [s[0]] + Insert(s[1..], x, less)
  }

  function Sort<T>(s: seq<T>, less: (T, T) -> bool): seq<T> {
    if s == [] then [] else Insert(Sort(s[1..], less), s[0], less)
  }

  lemma {:induction false} InsertSorts<T(!new)>(s: seq<T>, x: T, less: (T, T) -> bool)
    requires Order(less) && Sorted(s, less) && x !in s && TotalOn([x] + s, less)
    ensures Sorted(Insert(s, x, less), less)
    ensures forall a :: a in Insert(s, x, less) <==> a == x || a in s
    ensures |Insert(s, x, less)| == |s| + 1
  {
    if s != [] && !less(x, s[0]) {
      assert s[0] in [x] + s && x in [x] + s;
      assert forall a :: a in s[1..] ==> a in s;
      InsertSorts(s[1..], x, less);
      var rest := Insert(s[1..], x, less);
      forall i | 0 <= i < |rest| ensures less(s[0], rest[i]) {
        assert rest[i] in rest;
        if rest[i] != x {
          var j :| 0 <= j < |s[1..]| && s[1..][j] == rest[i];
          assert less(s[0], s[j + 1]);
        }
      }
    } else if s != [] {
      forall i | 0 <= i < |s| ensures less(x, s[i]) {
        if i > 0 {
          assert less(s[0], s[i]);
        }
      }
    }
  }

  lemma {:induction false} SortSorts<T(!new)>(s: seq<T>, less: (T, T) -> bool)
    requires Order(less) && Distinct(s) && TotalOn(s, less)
    ensures Sorted(Sort(s, less), less) && |Sort(s, less)| == |s|
    ensures forall a :: a in Sort(s, less) <==> a in s
  {
    if s != [] {
      assert Distinct(s[1..]) && forall a :: a in s[1..] ==> a in s;
      SortSorts(s[1..], less);
      assert s[0] !in s[1..];
      InsertSorts(Sort(s[1..], less), s[0], less);
      assert s == [s[0]] + s[1..];
    }
  }

  // Sorting neither adds nor drops.
  lemma {:induction false} InsertKeeps<T>(s: seq<T>, x: T, less: (T, T) -> bool)
    ensures multiset(Insert(s, x, less)) == multiset(s) + multiset{x}
  {
    if s != [] && !less(x, s[0]) {
      InsertKeeps(s[1..], x, less);
      assert s == [s[0]] + s[1..];
    }
  }

  lemma {:induction false} SortKeeps<T>(s: seq<T>, less: (T, T) -> bool)
    ensures multiset(Sort(s, less)) == multiset(s)
    ensures forall a :: a in Sort(s, less) <==> a in s
  {
    if s != [] {
      SortKeeps(s[1..], less);
      InsertKeeps(Sort(s[1..], less), s[0], less);
      assert s == [s[0]] + s[1..];
    }
    assert forall a :: a in Sort(s, less) <==> a in multiset(Sort(s, less));
    assert forall a :: a in s <==> a in multiset(s);
  }

  // With repeated or unordered elements: nothing comes before what it is greater than.
  ghost predicate Ordered<T(!new)>(s: seq<T>, less: (T, T) -> bool) {
    forall i, j :: 0 <= i < j < |s| ==> !less(s[j], s[i])
  }

  lemma {:induction false} InsertOrders<T(!new)>(s: seq<T>, x: T, less: (T, T) -> bool)
    requires Order(less) && Ordered(s, less)
    ensures Ordered(Insert(s, x, less), less)
  {
    if s != [] && !less(x, s[0]) {
      InsertOrders(s[1..], x, less);
      InsertKeeps(s[1..], x, less);
      var rest := Insert(s[1..], x, less);
      forall i | 0 <= i < |rest| ensures !less(rest[i], s[0]) {
        assert rest[i] in multiset(rest);
        assert rest[i] == x || rest[i] in s[1..];
      }
    }
  }

  lemma {:induction false} SortOrders<T(!new)>(s: seq<T>, less: (T, T) -> bool)
    requires Order(less)
    ensures Ordered(Sort(s, less), less)
  {
    if s != [] {
      SortOrders(s[1..], less);
      InsertOrders(Sort(s[1..], less), s[0], less);
    }
  }

  // A sorted sequence is determined by its elements.
  lemma {:induction false} SortedIsUnique<T(!new)>(a: seq<T>, b: seq<T>, less: (T, T) -> bool)
    requires Order(less) && Sorted(a, less) && Sorted(b, less) && forall x :: x in a <==> x in b
    ensures a == b
  {
    if a == [] {
      assert forall i :: 0 <= i < |b| ==> b[i] in b;
    } else {
      assert a[0] in a;
      var i :| 0 <= i < |b| && b[i] == a[0];
      assert b[0] in b;
      var j :| 0 <= j < |a| && a[j] == b[0];
      var x, y := a[0], b[0];
      assert i == 0 || less(y, x);
      assert j == 0 || less(x, y);
      RestAgrees(a, b, less);
      SortedIsUnique(a[1..], b[1..], less);
      assert a == [a[0]] + a[1..] && b == [b[0]] + b[1..];
    }
  }

  lemma RestAgrees<T(!new)>(a: seq<T>, b: seq<T>, less: (T, T) -> bool)
    requires Order(less) && Sorted(a, less) && Sorted(b, less) && (forall x :: x in a <==> x in b)
    requires a != [] && b != [] && a[0] == b[0]
    ensures forall x :: x in a[1..] <==> x in b[1..]
  {
    HeadIsNotInRest(a, less);
    HeadIsNotInRest(b, less);
    forall x ensures x in a[1..] <==> x in b[1..] {
      assert x in a <==> x == a[0] || x in a[1..];
      assert x in b <==> x == b[0] || x in b[1..];
    }
  }

  lemma HeadIsNotInRest<T(!new)>(s: seq<T>, less: (T, T) -> bool)
    requires Order(less) && Sorted(s, less) && s != []
    ensures s[0] !in s[1..]
  {
    forall i | 0 < i < |s| ensures s[i] != s[0] {
      assert less(s[0], s[i]);
    }
  }

  /** The same elements sort to the same sequence, whatever their order. */
  lemma SortIgnoresOrder<T(!new)>(s: seq<T>, t: seq<T>, less: (T, T) -> bool)
    requires Order(less) && Distinct(s) && Distinct(t) && TotalOn(s, less) && forall x :: x in s <==> x in t
    ensures Sort(s, less) == Sort(t, less)
  {
    SortSorts(s, less);
    SortSorts(t, less);
    SortedIsUnique(Sort(s, less), Sort(t, less), less);
  }

  // Code point order, as byte order of UTF-8.
  predicate Before(a: string, b: string) {
    if b == "" then false
    else if a == "" then true
    else if a[0] != b[0] then a[0] < b[0]
    else Before(a[1..], b[1..])
  }

  lemma {:induction false} BeforeOrders(a: string, b: string, c: string)
    ensures !Before(a, a)
    ensures Before(a, b) && Before(b, c) ==> Before(a, c)
    ensures a != b ==> Before(a, b) || Before(b, a)
    decreases |a|
  {
    if a != "" {
      BeforeOrders(a[1..], if b == "" then "" else b[1..], if c == "" then "" else c[1..]);
      if b != "" && a[0] == b[0] && a[1..] == b[1..] {
        assert a == [a[0]] + a[1..] && b == [b[0]] + b[1..];
      }
    }
  }

  lemma BeforeIsOrder()
    ensures Order(Before)
  {
    forall a: string ensures !Before(a, a) {
      BeforeOrders(a, a, a);
    }
    forall a: string, b: string, c: string | Before(a, b) && Before(b, c) ensures Before(a, c) {
      BeforeOrders(a, b, c);
    }
  }

  lemma BeforeIsTotal(s: seq<string>)
    ensures TotalOn(s, Before)
  {
    forall a, b | a in s && b in s && a != b ensures Before(a, b) || Before(b, a) {
      BeforeOrders(a, b, a);
    }
  }
}
