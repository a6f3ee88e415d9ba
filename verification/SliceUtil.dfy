// lib/sliceutil and the loop that callers build on it.
module SliceUtil {

  // RemoveAndZero: copy(s[i:], s[i+1:]) and drop the last element. Order is preserved.
  function RemoveAndZero<T>(s: seq<T>, i: nat): (r: seq<T>)
    requires i < |s|
    ensures |r| == |s| - 1
  {
    s[..i] + s[i + 1..]
  }

  function Filter<T(!new)>(s: seq<T>, keep: T -> bool): (r: seq<T>)
    ensures forall x :: x in r <==> x in s && keep(x)
  {
    if s == [] then []
    else if keep(s[0]) then [s[0]] + Filter(s[1..], keep)
    else Filter(s[1..], keep)
  }

  lemma {:induction false} FilterAppend<T(!new)>(a: seq<T>, b: seq<T>, keep: T -> bool)
    ensures Filter(a + b, keep) == Filter(a, keep) + Filter(b, keep)
    decreases |a|
  {
    if a == [] {
      assert a + b == b;
    } else {
      assert (a + b)[1..] == a[1..] + b;
      FilterAppend(a[1..], b, keep);
    }
  }

  lemma {:induction false} FilterAll<T(!new)>(s: seq<T>, keep: T -> bool)
    requires forall x :: x in s ==> keep(x)
    ensures Filter(s, keep) == s
    decreases |s|
  {
    if s != [] {
      FilterAll(s[1..], keep);
    }
  }

  lemma {:induction false} FilterNone<T(!new)>(s: seq<T>, keep: T -> bool)
    requires forall x :: x in s ==> !keep(x)
    ensures Filter(s, keep) == []
    decreases |s|
  {
    if s != [] {
      FilterNone(s[1..], keep);
    }
  }

  // for i := 0; i < len(s); i++ { if !keep(s[i]) { s = RemoveAndZero(s, i); i-- } }
  // Removing one element at a time, in place, is filtering.
  method RemoveInPlace<T(!new)>(s: seq<T>, keep: T -> bool) returns (r: seq<T>)
    ensures r == Filter(s, keep)
  {
    hide RemoveAndZero, Filter;
    r := s;
    var i := 0;
    while i < |r|
      invariant 0 <= i <= |r|
      invariant forall x :: x in r[..i] ==> keep(x)
      invariant Filter(r, keep) == Filter(s, keep)
      decreases |r| - i
    {
      if !keep(r[i]) {
        RemoveUnwanted(r, i, keep);
        r := RemoveAndZero(r, i);
        continue;
      }
      assert r[..i + 1] == r[..i] + [r[i]];
      i := i + 1;
    }
    assert r[..|r|] == r;
    FilterAll(r, keep);
  }

  lemma RemoveUnwanted<T(!new)>(s: seq<T>, i: nat, keep: T -> bool)
    requires i < |s| && !keep(s[i])
    ensures Filter(RemoveAndZero(s, i), keep) == Filter(s, keep)
    ensures RemoveAndZero(s, i)[..i] == s[..i]
  {
    SplitAt(s, i);
    FilterWithout(s[..i], s[i], s[i + 1..], keep);
  }

  lemma SplitAt<T>(s: seq<T>, i: nat)
    requires i < |s|
    ensures s == s[..i] + ([s[i]] + s[i + 1..])
  {
  }

  lemma FilterWithout<T(!new)>(before: seq<T>, x: T, after: seq<T>, keep: T -> bool)
    requires !keep(x)
    ensures Filter(before + after, keep) == Filter(before + ([x] + after), keep)
  {
    FilterAppend(before, [x] + after, keep);
    FilterAppend(before, after, keep);
    assert ([x] + after)[1..] == after;
  }

  // s[i] = s[count-1]; count--, where count is the number of elements left.
  function SwapDrop<T>(s: seq<T>, i: nat): (r: seq<T>)
    requires i < |s|
    ensures |r| == |s| - 1
  {
    s[i := s[|s| - 1]][..|s| - 1]
  }

  // Exactly one occurrence of the element at i is removed, and the elements before it stay.
  lemma SwapDropElements<T>(s: seq<T>, i: nat)
    requires i < |s|
    ensures multiset(SwapDrop(s, i)) == multiset(s) - multiset{s[i]}
    ensures SwapDrop(s, i)[..i] == s[..i]
  {
    var n := |s| - 1;
    if i < n {
      SwapDropParts(s, i);
      Exchange(s[..i], s[i], s[i + 1..n], s[n]);
    } else {
      assert SwapDrop(s, i) == s[..n];
      assert s == s[..n] + [s[n]];
    }
  }

  lemma SwapDropParts<T>(s: seq<T>, i: nat)
    requires i < |s| - 1
    ensures s == s[..i] + [s[i]] + s[i + 1..|s| - 1] + [s[|s| - 1]]
    ensures SwapDrop(s, i) == s[..i] + [s[|s| - 1]] + s[i + 1..|s| - 1]
    ensures SwapDrop(s, i)[..i] == s[..i]
  {
  }

  lemma Exchange<T>(a: seq<T>, x: T, b: seq<T>, y: T)
    ensures multiset(a + [y] + b) == multiset(a + [x] + b + [y]) - multiset{x}
  {
  }

  // The swap-remove loops of lib/config that drop every element not to be kept. Order is lost,
  // nothing else is.
  method RetainBySwapping<T(!new)>(s: seq<T>, keep: T -> bool) returns (r: seq<T>)
    ensures multiset(r) == multiset(Filter(s, keep))
  {
    hide SwapDrop, Filter;
    r := s;
    var i := 0;
    while i < |r|
      invariant 0 <= i <= |r|
      invariant forall x :: x in r[..i] ==> keep(x)
      invariant multiset(Filter(r, keep)) == multiset(Filter(s, keep))
      decreases |r| - i
    {
      if !keep(r[i]) {
        SwapDropElements(r, i);
        FilterLess(r, SwapDrop(r, i), r[i], keep);
        r := SwapDrop(r, i);
        continue;
      }
      assert r[..i + 1] == r[..i] + [r[i]];
      i := i + 1;
    }
    assert r[..|r|] == r;
    FilterAll(r, keep);
  }

  // Multiplicities in a filtered list.
  lemma {:induction false} FilterCount<T(!new)>(s: seq<T>, keep: T -> bool, x: T)
    ensures multiset(Filter(s, keep))[x] == if keep(x) then multiset(s)[x] else 0
    decreases |s|
  {
    if s != [] {
      FilterCount(s[1..], keep, x);
      assert s == [s[0]] + s[1..];
    }
  }

  lemma FilterLess<T(!new)>(s: seq<T>, t: seq<T>, x: T, keep: T -> bool)
    requires !keep(x) && multiset(t) == multiset(s) - multiset{x}
    ensures multiset(Filter(t, keep)) == multiset(Filter(s, keep))
  {
    forall y ensures multiset(Filter(t, keep))[y] == multiset(Filter(s, keep))[y] {
      FilterCount(s, keep, y);
      FilterCount(t, keep, y);
    }
  }

  // The loops of lib/config that drop every element whose ID was seen before, or is the empty ID
  // where that is not allowed. Which of several elements with one ID survives is not always the
  // first, since the last element of the list takes the place of a dropped one.
  method RemoveDuplicates<T(!new)>(s: seq<T>, id: T -> nat, dropEmpty: bool) returns (r: seq<T>)
    ensures multiset(r) <= multiset(s)
    ensures DistinctIds(r, id, dropEmpty)
    ensures forall d :: HasId(r, id, d) <==> HasId(s, id, d) && !(dropEmpty && d == 0)
  {
    hide SwapDrop;
    r := s;
    var i, seenDevices := 0, {};
    while i < |r|
      invariant 0 <= i <= |r|
      invariant forall d :: d in seenDevices <==> HasId(r[..i], id, d)
      invariant DistinctIds(r[..i], id, dropEmpty)
      invariant multiset(r) <= multiset(s)
      invariant forall d :: HasId(s, id, d) && !(dropEmpty && d == 0) ==> HasId(r, id, d)
      decreases |r| - i
    {
      var d := id(r[i]);
      if d in seenDevices || (dropEmpty && d == 0) {
        SwapDropElements(r, i);
        StillThere(r, SwapDrop(r, i), i, id, dropEmpty);
        r := SwapDrop(r, i);
        continue;
      }
      OneMore(r[..i], r[i], id, dropEmpty);
      assert r[..i + 1] == r[..i] + [r[i]];
      seenDevices := seenDevices + {d};
      i := i + 1;
    }
    assert r[..|r|] == r;
    Subset(r, s, id, dropEmpty);
  }

  ghost predicate HasId<T(!new)>(s: seq<T>, id: T -> nat, d: nat) {
    exists y :: y in s && id(y) == d
  }

  ghost predicate DistinctIds<T>(s: seq<T>, id: T -> nat, dropEmpty: bool) {
    && (forall i, j :: 0 <= i < j < |s| ==> id(s[i]) != id(s[j]))
    && (forall i :: 0 <= i < |s| ==> !(dropEmpty && id(s[i]) == 0))
  }

  lemma OneMore<T(!new)>(s: seq<T>, x: T, id: T -> nat, dropEmpty: bool)
    requires DistinctIds(s, id, dropEmpty) && !HasId(s, id, id(x)) && !(dropEmpty && id(x) == 0)
    ensures DistinctIds(s + [x], id, dropEmpty)
    ensures forall d :: HasId(s + [x], id, d) <==> HasId(s, id, d) || d == id(x)
  {
    forall d ensures HasId(s + [x], id, d) <==> HasId(s, id, d) || d == id(x) {
      assert x in s + [x];
      if HasId(s, id, d) {
        var y :| y in s && id(y) == d;
        assert y in s + [x];
      }
    }
    forall k | 0 <= k < |s| ensures id(s[k]) != id(x) {
      assert s[k] in s;
    }
  }

  // Dropping the element at i loses no ID but an unwanted one, since an earlier element has its ID.
  lemma StillThere<T(!new)>(s: seq<T>, t: seq<T>, i: nat, id: T -> nat, dropEmpty: bool)
    requires i < |s| && i <= |t| && multiset(t) == multiset(s) - multiset{s[i]} && t[..i] == s[..i]
    requires (dropEmpty && id(s[i]) == 0) || HasId(s[..i], id, id(s[i]))
    ensures forall d :: HasId(s, id, d) && !(dropEmpty && d == 0) ==> HasId(t, id, d)
  {
    forall d | HasId(s, id, d) && !(dropEmpty && d == 0) ensures HasId(t, id, d) {
      var y :| y in s && id(y) == d;
      if y == s[i] {
        var z :| z in s[..i] && id(z) == d;
        assert z in t[..i];
      } else {
        assert y in multiset(s) && y in multiset(t);
      }
    }
  }

  lemma Subset<T(!new)>(r: seq<T>, s: seq<T>, id: T -> nat, dropEmpty: bool)
    requires multiset(r) <= multiset(s) && DistinctIds(r, id, dropEmpty)
    ensures forall d :: HasId(r, id, d) ==> HasId(s, id, d) && !(dropEmpty && d == 0)
  {
    forall d | HasId(r, id, d) ensures HasId(s, id, d) && !(dropEmpty && d == 0) {
      var y :| y in r && id(y) == d;
      assert y in multiset(r) && y in multiset(s);
    }
  }

  // ---------- swap-removal of one element by a range loop ----------

  predicate NoDuplicates<T(==)>(s: seq<T>) {
    forall i, j :: 0 <= i < j < |s| ==> s[i] != s[j]
  }

  // The first occurrence of x is overwritten by the last element, which is dropped.
  function SwapRemove<T(==)>(s: seq<T>, x: T): (r: seq<T>)
    ensures x !in s ==> r == s
  {
    if s == [] then []
    else if s[0] == x then
      if |s| == 1 then [] else [s[|s| - 1]] + s[1..|s| - 1]
    else [s[0]] + SwapRemove(s[1..], x)
  }

  lemma {:induction false} SwapRemoveElements<T(!new)>(s: seq<T>, x: T)
    requires NoDuplicates(s)
    ensures forall y :: y in SwapRemove(s, x) <==> y in s && y != x
    ensures NoDuplicates(SwapRemove(s, x))
    decreases |s|
  {
    if s != [] {
      var n := |s|;
      if s[0] == x {
        if n > 1 {
          assert s == [x] + s[1..n - 1] + [s[n - 1]];
        }
      } else {
        assert s == [s[0]] + s[1..];
        SwapRemoveElements(s[1..], x);
        var tail := SwapRemove(s[1..], x);
        assert forall j :: 0 <= j < |tail| ==> tail[j] in tail;
      }
    }
  }

  lemma {:induction false} SwapRemoveAt<T>(s: seq<T>, x: T, p: nat)
    requires p < |s| && s[p] == x && x !in s[..p]
    ensures var n, r := |s| - 1, SwapRemove(s, x);
      |r| == n && forall k :: 0 <= k < n ==> r[k] == if k == p then s[n] else s[k]
    decreases p
  {
    if p > 0 {
      assert s[0] in s[..p];
      var tail := s[1..];
      assert tail[..p - 1] == s[..p][1..];
      SwapRemoveAt(tail, x, p - 1);
      var r, r' := SwapRemove(s, x), SwapRemove(tail, x);
      assert r == [s[0]] + r';
      assert forall k :: 1 <= k < |r| ==> r[k] == r'[k - 1];
    }
  }
}
