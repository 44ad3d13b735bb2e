/**
 The order of strings, and sorted lists without repeats: insertion into an ascending list keeps
 it ascending and adds nothing else, sorting twice is sorting once, and two ascending lists of
 the same elements are equal. Canonical forms and cursors rest on such an order, given here
 once for whatever is compared by a string key.
 */
module Sorting {
  predicate TextLess(a: string, b: string) {
    b != "" && (a == "" || a[0] < b[0] || (a[0] == b[0] && TextLess(a[1..], b[1..])))
  }

  lemma {:induction false} TextTotal(a: string, b: string)
    ensures TextLess(a, b) || TextLess(b, a) || a == b
    ensures !(TextLess(a, b) && TextLess(b, a)) && !TextLess(a, a)
  {
    if a != "" && b != "" {
      TextTotal(a[1..], b[1..]);
      assert a == [a[0]] + a[1..] && b == [b[0]] + b[1..];
    }
    if a != "" { TextTotal(a[1..], a[1..]); }
  }

  lemma {:induction false} TextTransitive(a: string, b: string, c: string)
    requires TextLess(a, b) && TextLess(b, c)
    ensures TextLess(a, c)
  {
    if a != "" && a[0] == b[0] == c[0] { TextTransitive(a[1..], b[1..], c[1..]); }
  }

  // The first position at which b goes on differently has it higher, or a ends there.
  predicate FirstLower(a: string, b: string, k: nat) {
    k <= |a| && k < |b| && a[..k] == b[..k] && (k == |a| || a[k] < b[k])
  }

  lemma {:induction false} TextLessAt(a: string, b: string)
    ensures TextLess(a, b) <==> exists k: nat :: FirstLower(a, b, k)
  {
    if a == "" {
      if b != "" { assert FirstLower(a, b, 0); }
    } else if b != "" {
      TextLessAt(a[1..], b[1..]);
      if k: nat :| FirstLower(a, b, k) {
        if k > 0 {
          assert a[0] == a[..k][0] && b[0] == b[..k][0];
          assert a[1..][..k - 1] == a[..k][1..] && b[1..][..k - 1] == b[..k][1..];
          assert FirstLower(a[1..], b[1..], k - 1);
        }
      }
      if a[0] < b[0] {
        assert FirstLower(a, b, 0);
      } else if k: nat :| a[0] == b[0] && FirstLower(a[1..], b[1..], k) {
        assert a[..k + 1] == [a[0]] + a[1..][..k] && b[..k + 1] == [b[0]] + b[1..][..k];
        assert FirstLower(a, b, k + 1);
      }
    }
  }

  ghost predicate StrictOrder<T(!new)>(less: (T, T) -> bool) {
    && (forall a :: !less(a, a))
    && (forall a, b :: less(a, b) || less(b, a) || a == b)
    && (forall a, b, c :: less(a, b) && less(b, c) ==> less(a, c))
  }

  lemma TextOrder()
    ensures StrictOrder(TextLess)
  {
    forall a, b ensures (TextLess(a, b) || TextLess(b, a) || a == b) && !TextLess(a, a) { TextTotal(a, b); }
    forall a, b, c | TextLess(a, b) && TextLess(b, c) ensures TextLess(a, c) { TextTransitive(a, b, c); }
  }

  function Insert<T(==)>(less: (T, T) -> bool, x: T, s: seq<T>): seq<T> {
    if s == [] then [x]
    else if x == s[0] then s
    else if less(x, s[0]) then [x] + s
    else [s[0]] + Insert(less, x, s[1..])
  }

  // Sorted, every element once.
  function SortDedup<T(==)>(less: (T, T) -> bool, s: seq<T>): seq<T> {
    if s == [] then [] else Insert(less, s[0], SortDedup(less, s[1..]))
  }

  ghost predicate Ascending<T(!new)>(less: (T, T) -> bool, s: seq<T>) {
    forall i, j :: 0 <= i < j < |s| ==> less(s[i], s[j])
  }

  lemma {:induction false} InsertAscends<T(!new)>(less: (T, T) -> bool, x: T, s: seq<T>)
    requires StrictOrder(less) && Ascending(less, s)
    ensures Ascending(less, Insert(less, x, s))
    ensures forall y :: y in Insert(less, x, s) <==> y == x || y in s
  {
    if s != [] && x != s[0] && !less(x, s[0]) {
      assert Ascending(less, s[1..]);
      InsertAscends(less, x, s[1..]);
      var r := Insert(less, x, s[1..]);
      assert s == [s[0]] + s[1..];
      forall j | 0 <= j < |r| ensures less(s[0], r[j]) {
        assert r[j] in r;
        if r[j] != x {
          var k :| 0 <= k < |s[1..]| && s[1..][k] == r[j];
          assert less(s[0], s[k + 1]);
        }
      }
    }
  }

  lemma {:induction false} SortAscends<T(!new)>(less: (T, T) -> bool, s: seq<T>)
    requires StrictOrder(less)
    ensures Ascending(less, SortDedup(less, s))
    ensures forall y :: y in SortDedup(less, s) <==> y in s
    ensures s != [] ==> SortDedup(less, s) != []
  {
    if s != [] {
      SortAscends(less, s[1..]);
      InsertAscends(less, s[0], SortDedup(less, s[1..]));
      assert s == [s[0]] + s[1..];
    }
  }

  lemma Least<T(!new)>(less: (T, T) -> bool, s: seq<T>, y: T)
    requires Ascending(less, s) && y in s
    ensures y == s[0] || less(s[0], y)
  {
    var k :| 0 <= k < |s| && s[k] == y;
    assert k > 0 ==> less(s[0], s[k]);
  }

  lemma {:induction false} AscendingUnique<T(!new)>(less: (T, T) -> bool, a: seq<T>, b: seq<T>)
    requires StrictOrder(less) && Ascending(less, a) && Ascending(less, b)
    requires forall y :: y in a <==> y in b
    ensures a == b
    decreases |a|
  {
    assert a == [] <==> b == [] by {
      assert a != [] ==> a[0] in a;
      assert b != [] ==> b[0] in b;
    }
    if a != [] {
      assert a[0] in a && b[0] in b;
      Least(less, a, b[0]);
      Least(less, b, a[0]);
      TailOf(less, a);
      TailOf(less, b);
      AscendingUnique(less, a[1..], b[1..]);
      assert a == [a[0]] + a[1..] && b == [b[0]] + b[1..];
    }
  }

  lemma TailOf<T(!new)>(less: (T, T) -> bool, s: seq<T>)
    requires StrictOrder(less) && Ascending(less, s) && s != []
    ensures Ascending(less, s[1..]) && forall y :: y in s[1..] <==> y in s && y != s[0]
  {
    assert s == [s[0]] + s[1..];
    forall y | y in s[1..] ensures y != s[0] {
      var k :| 0 <= k < |s[1..]| && s[1..][k] == y;
      assert less(s[0], s[k + 1]);
    }
  }

  // Sorting looks only at which elements there are.
  lemma SortSame<T(!new)>(less: (T, T) -> bool, a: seq<T>, b: seq<T>)
    requires StrictOrder(less) && forall y :: y in a <==> y in b
    ensures SortDedup(less, a) == SortDedup(less, b)
  {
    SortAscends(less, a);
    SortAscends(less, b);
    AscendingUnique(less, SortDedup(less, a), SortDedup(less, b));
  }

  lemma SortedStays<T(!new)>(less: (T, T) -> bool, s: seq<T>)
    requires StrictOrder(less) && Ascending(less, s)
    ensures SortDedup(less, s) == s
  {
    SortAscends(less, s);
    AscendingUnique(less, SortDedup(less, s), s);
  }
}
