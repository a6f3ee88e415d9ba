// Go's sort.Sort and sort.Slice promise a sorted permutation and nothing about the order of equal
// elements; callers here know exactly that much. Also the byte order of Go strings.
module Sorting {
  import opened Common

  // A Less function that sort accepts: a strict weak order.
  ghost predicate StrictWeakOrder<T(!new)>(less: (T, T) -> bool) {
    && (forall a, b :: less(a, b) ==> !less(b, a))
    && (forall a, b, c :: !less(b, a) && !less(c, b) ==> !less(c, a))
  }

  ghost predicate Sorted<T>(s: seq<T>, less: (T, T) -> bool) {
    forall i, j :: 0 <= i < j < |s| ==> !less(s[j], s[i])
  }

  ghost predicate StrictlySorted<T>(s: seq<T>, less: (T, T) -> bool) {
    forall i, j :: 0 <= i < j < |s| ==> less(s[i], s[j])
  }

  function Insert<T>(x: T, s: seq<T>, less: (T, T) -> bool): seq<T> {
    if s == [] || !less(s[0], x) then [x] + s else [s[0]] + Insert(x, s[1..], less)
  }

  lemma {:induction false} InsertSorted<T(!new)>(x: T, s: seq<T>, less: (T, T) -> bool)
    requires StrictWeakOrder(less) && Sorted(s, less)
    ensures multiset(Insert(x, s, less)) == multiset(s) + multiset{x}
    ensures Sorted(Insert(x, s, less), less)
    decreases |s|
  {
    if s == [] || !less(s[0], x) {
      forall j | 0 <= j < |s| ensures !less(s[j], x) {
        assert j > 0 ==> !less(s[j], s[0]);
      }
      PrependSorted(x, s, less);
    } else {
      assert s == [s[0]] + s[1..];
      InsertSorted(x, s[1..], less);
      var tail := Insert(x, s[1..], less);
      forall j | 0 <= j < |tail| ensures !less(tail[j], s[0]) {
        assert tail[j] in multiset(tail);
        assert tail[j] == x || tail[j] in s[1..];
      }
      PrependSorted(s[0], tail, less);
    }
  }

  lemma PrependSorted<T>(x: T, s: seq<T>, less: (T, T) -> bool)
    requires Sorted(s, less) && forall j :: 0 <= j < |s| ==> !less(s[j], x)
    ensures Sorted([x] + s, less)
  {
  }

  // sort.Sort, sort.Slice.
  method Sort<T(!new)>(s: seq<T>, less: (T, T) -> bool) returns (r: seq<T>)
    requires StrictWeakOrder(less)
    ensures multiset(r) == multiset(s) && Sorted(r, less)
    ensures |r| == |s| && forall x :: x in r <==> x in s
  {
    r := [];
    for i := 0 to |s|
      invariant multiset(r) == multiset(s[..i]) && Sorted(r, less)
    {
      InsertSorted(s[i], r, less);
      r := Insert(s[i], r, less);
      assert s[..i + 1] == s[..i] + [s[i]];
    }
    assert s[..|s|] == s;
    SameElements(r, s);
  }

  lemma SameElements<T>(r: seq<T>, s: seq<T>)
    requires multiset(r) == multiset(s)
    ensures |r| == |s| && forall x :: x in r <==> x in s
  {
    assert |multiset(r)| == |r| && |multiset(s)| == |s|;
    assert forall x :: x in r <==> x in multiset(r);
    assert forall x :: x in s <==> x in multiset(s);
  }

  // sort.IsSorted
  method IsSorted<T(!new)>(s: seq<T>, less: (T, T) -> bool) returns (sorted: bool)
    requires StrictWeakOrder(less)
    ensures sorted <==> Sorted(s, less)
  {
    var i := |s| - 1;
    while i > 0
      invariant -1 <= i < |s| && (s != [] ==> 0 <= i)
      invariant forall j :: 0 <= i < j < |s| ==> !less(s[j], s[j - 1])
    {
      if less(s[i], s[i - 1]) {
        return false;
      }
      i := i - 1;
    }
    AdjacentSorted(s, less, |s|);
    return true;
  }

  lemma {:induction false} AdjacentSorted<T(!new)>(s: seq<T>, less: (T, T) -> bool, n: nat)
    requires StrictWeakOrder(less) && n <= |s|
    requires forall j :: 1 <= j < |s| ==> !less(s[j], s[j - 1])
    ensures Sorted(s[..n], less)
    ensures n == |s| ==> Sorted(s, less)
    decreases n
  {
    assert s[..|s|] == s;
    if n > 1 {
      AdjacentSorted(s, less, n - 1);
      forall i | 0 <= i < n - 1 ensures !less(s[n - 1], s[i]) {
        assert !less(s[n - 1], s[n - 2]);
        assert i < n - 2 ==> !less(s[..n - 1][n - 2], s[..n - 1][i]);
      }
      forall i, j | 0 <= i < j < n ensures !less(s[j], s[i]) {
        assert j < n - 1 ==> !less(s[..n - 1][j], s[..n - 1][i]);
      }
    }
  }

  // A permutation of a list without duplicate keys has none either.
  lemma DistinctAfterSort<T(!new), K>(s: seq<T>, r: seq<T>, id: T -> K, i: nat, j: nat)
    requires forall i, j :: 0 <= i < j < |s| ==> id(s[i]) != id(s[j])
    requires multiset(r) == multiset(s) && i < j < |r|
    ensures id(r[i]) != id(r[j])
  {
    var x, y := r[i], r[j];
    if id(x) == id(y) {
      assert x in multiset(r) && y in multiset(r);
      var k :| 0 <= k < |s| && s[k] == x;
      var l :| 0 <= l < |s| && s[l] == y;
      assert k == l;
      CountTwice(r, i, j);
      CountOnce(s, k);
    }
  }

  lemma CountTwice<T>(r: seq<T>, i: nat, j: nat)
    requires i < j < |r| && r[i] == r[j]
    ensures multiset(r)[r[i]] >= 2
  {
    assert r == r[..j] + r[j..];
    assert r[i] in r[..j] && r[j] in r[j..];
  }

  lemma CountOnce<T>(s: seq<T>, k: nat)
    requires k < |s| && forall l :: 0 <= l < |s| && l != k ==> s[l] != s[k]
    ensures multiset(s)[s[k]] == 1
  {
    assert s == s[..k] + [s[k]] + s[k + 1..];
    assert s[k] !in s[..k] && s[k] !in s[k + 1..];
  }

  // Two strictly sorted lists of the same elements are the same list.
  lemma {:induction false} StrictlySortedUnique<T(!new)>(s: seq<T>, t: seq<T>, less: (T, T) -> bool)
    requires StrictWeakOrder(less)
    requires StrictlySorted(s, less) && StrictlySorted(t, less)
    requires forall x :: x in s <==> x in t
    ensures s == t
    decreases |s|
  {
    assert s == [] <==> t == [] by {
      assert s != [] ==> s[0] in t;
      assert t != [] ==> t[0] in s;
    }
    if s != [] {
      assert s[0] in t && t[0] in s;
      assert s[0] == t[0];
      forall x ensures x in s[1..] <==> x in t[1..] {
        TailElements(s, less, x);
        TailElements(t, less, x);
      }
      StrictlySortedUnique(s[1..], t[1..], less);
      assert s == [s[0]] + s[1..] && t == [t[0]] + t[1..];
    }
  }

  lemma TailElements<T(!new)>(s: seq<T>, less: (T, T) -> bool, x: T)
    requires StrictWeakOrder(less) && StrictlySorted(s, less) && s != []
    ensures x in s[1..] <==> x in s && x != s[0]
  {
    assert s == [s[0]] + s[1..];
  }

  // Go's < on strings.
  predicate StringLess(a: seq<byte>, b: seq<byte>)
    decreases |a|
  {
    b != [] && (a == [] || a[0] < b[0] || (a[0] == b[0] && StringLess(a[1..], b[1..])))
  }

  // a comes before b if it is a proper prefix of b or smaller where they first differ.
  ghost predicate DiffersAt(a: seq<byte>, b: seq<byte>, k: nat) {
    k <= |a| && k < |b| && a[..k] == b[..k] && (k == |a| || a[k] < b[k])
  }

  lemma {:induction false} StringLessIff(a: seq<byte>, b: seq<byte>)
    ensures StringLess(a, b) <==> exists k: nat :: DiffersAt(a, b, k)
    decreases |a|
  {
    if a != [] && b != [] && a[0] == b[0] {
      StringLessIff(a[1..], b[1..]);
      forall k: nat ensures DiffersAt(a, b, k + 1) <==> DiffersAt(a[1..], b[1..], k) {
        DiffersLater(a, b, k);
      }
      if k: nat :| DiffersAt(a[1..], b[1..], k) {
        assert DiffersAt(a, b, k + 1);
      }
      if k: nat :| DiffersAt(a, b, k) {
        assert k > 0;
        DiffersLater(a, b, k - 1);
      }
    } else {
      if StringLess(a, b) {
        assert DiffersAt(a, b, 0);
      }
      if k: nat :| DiffersAt(a, b, k) {
        assert k > 0 ==> a[..k][0] == b[..k][0];
      }
    }
  }

  lemma DiffersLater(a: seq<byte>, b: seq<byte>, k: nat)
    requires a != [] && b != [] && a[0] == b[0]
    ensures DiffersAt(a, b, k + 1) <==> DiffersAt(a[1..], b[1..], k)
  {
    if k + 1 <= |a| && k + 1 < |b| {
      assert a[..k + 1] == [a[0]] + a[1..][..k] && b[..k + 1] == [b[0]] + b[1..][..k];
      if a[..k + 1] == b[..k + 1] {
        assert a[1..][..k] == a[..k + 1][1..] && b[1..][..k] == b[..k + 1][1..];
      }
    }
  }

  lemma {:induction false} StringLessAsymmetric(a: seq<byte>, b: seq<byte>)
    ensures !(StringLess(a, b) && StringLess(b, a))
    decreases |a|
  {
    if a != [] && b != [] {
      StringLessAsymmetric(a[1..], b[1..]);
    }
  }

  lemma {:induction false} StringLessTransitive(a: seq<byte>, b: seq<byte>, c: seq<byte>)
    ensures !StringLess(b, a) && !StringLess(c, b) ==> !StringLess(c, a)
    decreases |a|
  {
    if a != [] && b != [] && c != [] {
      StringLessTransitive(a[1..], b[1..], c[1..]);
    }
  }

  lemma {:induction false} StringLessTotal(a: seq<byte>, b: seq<byte>)
    ensures a != b ==> StringLess(a, b) || StringLess(b, a)
    decreases |a|
  {
    if a != [] && b != [] {
      StringLessTotal(a[1..], b[1..]);
      assert a == [a[0]] + a[1..] && b == [b[0]] + b[1..];
    }
  }

  lemma StringLessStrict(a: seq<byte>, b: seq<byte>, c: seq<byte>)
    requires StringLess(a, b) && StringLess(b, c)
    ensures StringLess(a, c)
  {
    StringLessAsymmetric(a, b);
    StringLessAsymmetric(b, c);
    StringLessTransitive(a, b, c);
    StringLessTotal(a, c);
  }
}
