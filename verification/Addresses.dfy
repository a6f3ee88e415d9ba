// database.go: the two-pointer merge of address lists and in-place expiry. The meaning of an
// address list is the map from each address to its latest expiry; on that level merge is the
// pointwise maximum, whether or not its inputs are sorted or free of duplicates.
module Addresses {
  import opened Common
  import opened Sorting
  import opened SliceUtil
  import opened Messages

  type Expiries = map<seq<byte>, int64>

  function Max(a: int64, b: int64): int64 {
    if a > b then a else b
  }

  // Pointwise maximum.
  function Join(a: Expiries, b: Expiries): Expiries {
    map k | k in a.Keys + b.Keys :: if k in a && k in b then Max(a[k], b[k]) else if k in a then a[k] else b[k]
  }

  // Address to latest expiry.
  function Latest(s: seq<DatabaseAddress>): Expiries {
    if s == [] then map[] else Join(map[s[0].address := s[0].expires], Latest(s[1..]))
  }

  function Live(m: Expiries, now: int64): Expiries {
    map k | k in m && m[k] >= now :: m[k]
  }

  // ---------- the algebra of Join ----------

  lemma JoinCommutes(a: Expiries, b: Expiries)
    ensures Join(a, b) == Join(b, a)
  {
  }

  lemma JoinIdempotent(a: Expiries)
    ensures Join(a, a) == a && Join(map[], a) == a
  {
  }

  lemma JoinAssociates(a: Expiries, b: Expiries, c: Expiries)
    ensures Join(a, Join(b, c)) == Join(Join(a, b), c)
  {
    var l, r := Join(a, Join(b, c)), Join(Join(a, b), c);
    assert l.Keys == r.Keys == a.Keys + b.Keys + c.Keys;
    forall k | k in l ensures l[k] == r[k] {
      JoinAt(a, Join(b, c), k);
      JoinAt(b, c, k);
      JoinAt(Join(a, b), c, k);
      JoinAt(a, b, k);
    }
  }

  lemma JoinAt(a: Expiries, b: Expiries, k: seq<byte>)
    ensures k in Join(a, b) <==> k in a || k in b
    ensures k in a ==> a[k] <= Join(a, b)[k]
    ensures k in b ==> b[k] <= Join(a, b)[k]
    ensures k in Join(a, b) ==> (k in a && Join(a, b)[k] == a[k]) || (k in b && Join(a, b)[k] == b[k])
  {
  }

  lemma LiveJoin(a: Expiries, b: Expiries, now: int64)
    ensures Live(Join(a, b), now) == Join(Live(a, now), Live(b, now))
  {
  }

  // What Latest means: it holds the greatest expiry listed for each listed address.
  ghost predicate IsLatest(s: seq<DatabaseAddress>, m: Expiries) {
    && (forall e :: e in s ==> e.address in m && e.expires <= m[e.address])
    && (forall k :: k in m ==> DatabaseAddress(k, m[k]) in s)
  }

  lemma {:induction false} LatestIsLatest(s: seq<DatabaseAddress>)
    ensures IsLatest(s, Latest(s))
    decreases |s|
  {
    hide Join;
    if s != [] {
      LatestIsLatest(s[1..]);
      assert s == [s[0]] + s[1..];
      LatestWithOneMore(s[0], s[1..], Latest(s[1..]));
    }
  }

  lemma LatestWithOneMore(e: DatabaseAddress, s: seq<DatabaseAddress>, rest: Expiries)
    requires IsLatest(s, rest)
    ensures IsLatest([e] + s, Join(map[e.address := e.expires], rest))
  {
    hide Join;
    var first := map[e.address := e.expires];
    var all, t := Join(first, rest), [e] + s;
    forall k ensures k in all <==> k in first || k in rest {
      JoinAt(first, rest, k);
    }
    forall x | x in t ensures x.address in all && x.expires <= all[x.address] {
      JoinAt(first, rest, x.address);
    }
    forall k | k in all ensures DatabaseAddress(k, all[k]) in t {
      JoinAt(first, rest, k);
    }
  }

  lemma LatestUnique(s: seq<DatabaseAddress>, m: Expiries)
    requires IsLatest(s, m)
    ensures m == Latest(s)
  {
    LatestIsLatest(s);
    var l := Latest(s);
    forall k | k in m ensures k in l && l[k] == m[k] {
      assert DatabaseAddress(k, m[k]) in s;
      assert DatabaseAddress(k, l[k]) in s;
    }
    forall k | k in l ensures k in m {
      assert DatabaseAddress(k, l[k]) in s;
    }
  }

  // Order and repetition are irrelevant.
  lemma LatestOfSameElements(s: seq<DatabaseAddress>, t: seq<DatabaseAddress>)
    requires forall e :: e in s <==> e in t
    ensures Latest(s) == Latest(t)
  {
    LatestIsLatest(s);
    LatestUnique(t, Latest(s));
  }

  // ---------- merge ----------

  predicate AddressLess(a: DatabaseAddress, b: DatabaseAddress) {
    StringLess(a.address, b.address)
  }

  lemma AddressOrder()
    ensures StrictWeakOrder(AddressLess)
  {
    forall a, b ensures AddressLess(a, b) ==> !AddressLess(b, a) {
      StringLessAsymmetric(a.address, b.address);
    }
    forall a, b, c ensures !AddressLess(b, a) && !AddressLess(c, b) ==> !AddressLess(c, a) {
      StringLessTransitive(a.address, b.address, c.address);
    }
  }

  // The two-pointer walk.
  function MergeLists(a: seq<DatabaseAddress>, b: seq<DatabaseAddress>): seq<DatabaseAddress>
    decreases |a| + |b|
  {
    if a == [] then b
    else if b == [] then a
    else if a[0].address == b[0].address then
      [if a[0].expires > b[0].expires then a[0] else b[0]] + MergeLists(a[1..], b[1..])
    else if AddressLess(a[0], b[0]) then [a[0]] + MergeLists(a[1..], b)
    else [b[0]] + MergeLists(a, b[1..])
  }

  ghost predicate Dominated(e: DatabaseAddress, r: seq<DatabaseAddress>) {
    exists x :: x in r && x.address == e.address && x.expires >= e.expires
  }

  lemma {:induction false} MergeDominates(a: seq<DatabaseAddress>, b: seq<DatabaseAddress>)
    ensures forall x :: x in MergeLists(a, b) ==> x in a || x in b
    ensures forall e :: e in a || e in b ==> Dominated(e, MergeLists(a, b))
    decreases |a| + |b|
  {
    var r := MergeLists(a, b);
    if a != [] && b != [] {
      var a', b' := if a[0].address == b[0].address || AddressLess(a[0], b[0]) then a[1..] else a,
                    if a[0].address == b[0].address || !AddressLess(a[0], b[0]) then b[1..] else b;
      var r' := MergeLists(a', b');
      MergeDominates(a', b');
      assert a == [a[0]] + a[1..] && b == [b[0]] + b[1..] && r == [r[0]] + r';
      assert r[0] in r;
      forall e | e in a || e in b ensures Dominated(e, r) {
        if e in a' || e in b' {
          assert Dominated(e, r');
        } else {
          assert r[0].address == e.address && r[0].expires >= e.expires;
        }
      }
    } else {
      assert forall e :: e in a || e in b ==> e in r;
    }
  }

  // No entry is invented or repeated.
  lemma {:induction false} MergeWithin(a: seq<DatabaseAddress>, b: seq<DatabaseAddress>)
    ensures multiset(MergeLists(a, b)) <= multiset(a) + multiset(b)
    decreases |a| + |b|
  {
    if a != [] && b != [] {
      var r := MergeLists(a, b);
      var a', b' := if a[0].address == b[0].address || AddressLess(a[0], b[0]) then a[1..] else a,
                    if a[0].address == b[0].address || !AddressLess(a[0], b[0]) then b[1..] else b;
      MergeWithin(a', b');
      assert r == [r[0]] + MergeLists(a', b');
      hide MergeLists, AddressLess;
      Head(a);
      Head(b);
      Head(r);
    }
  }

  lemma Head<T>(s: seq<T>)
    requires s != []
    ensures multiset(s) == multiset{s[0]} + multiset(s[1..])
  {
    assert s == [s[0]] + s[1..];
  }

  // merge is the join, for all lists.
  lemma MergeIsJoin(a: seq<DatabaseAddress>, b: seq<DatabaseAddress>)
    ensures Latest(MergeLists(a, b)) == Join(Latest(a), Latest(b))
  {
    hide MergeLists, Latest, Join, Dominated;
    var r, m := MergeLists(a, b), Join(Latest(a), Latest(b));
    MergeDominates(a, b);
    LatestIsLatest(a);
    LatestIsLatest(b);
    forall e | e in r ensures e.address in m && e.expires <= m[e.address] {
      JoinAt(Latest(a), Latest(b), e.address);
    }
    forall k | k in m ensures DatabaseAddress(k, m[k]) in r {
      JoinAt(Latest(a), Latest(b), k);
      assert Dominated(DatabaseAddress(k, m[k]), r);
      DominatedIsMember(k, r, m);
    }
    LatestUnique(r, m);
  }

  lemma DominatedIsMember(k: seq<byte>, r: seq<DatabaseAddress>, m: Expiries)
    requires k in m && Dominated(DatabaseAddress(k, m[k]), r)
    requires forall e :: e in r ==> e.address in m && e.expires <= m[e.address]
    ensures DatabaseAddress(k, m[k]) in r
  {
    var x :| x in r && x.address == k && x.expires >= m[k];
    assert x == DatabaseAddress(k, m[k]);
  }

  lemma {:induction false} MergeSorted(a: seq<DatabaseAddress>, b: seq<DatabaseAddress>)
    requires Sorted(a, AddressLess) && Sorted(b, AddressLess)
    ensures Sorted(MergeLists(a, b), AddressLess)
    decreases |a| + |b|
  {
    AddressOrder();
    if a != [] && b != [] {
      var r := MergeLists(a, b);
      var a', b' := if a[0].address == b[0].address || AddressLess(a[0], b[0]) then a[1..] else a,
                    if a[0].address == b[0].address || !AddressLess(a[0], b[0]) then b[1..] else b;
      var r' := MergeLists(a', b');
      MergeSorted(a', b');
      MergeDominates(a', b');
      StringLessTotal(a[0].address, b[0].address);
      assert !AddressLess(a[0], r[0]) && !AddressLess(b[0], r[0]);
      forall j | 0 <= j < |r'| ensures !AddressLess(r'[j], r[0]) {
        assert r'[j] in r';
        if r'[j] in a {
          NotBelowHead(a, r'[j]);
        } else {
          NotBelowHead(b, r'[j]);
        }
      }
      PrependSorted(r[0], r', AddressLess);
      assert r == [r[0]] + r';
    }
  }

  lemma NotBelowHead(s: seq<DatabaseAddress>, x: DatabaseAddress)
    requires Sorted(s, AddressLess) && x in s
    ensures !AddressLess(x, s[0])
  {
    AddressOrder();
    var j :| 0 <= j < |s| && s[j] == x;
  }

  method SortedCopy(addrs: seq<DatabaseAddress>) returns (sorted: seq<DatabaseAddress>)
    ensures multiset(sorted) == multiset(addrs) && Sorted(sorted, AddressLess)
    ensures Latest(sorted) == Latest(addrs)
  {
    AddressOrder();
    sorted := Sort(addrs, AddressLess);
    LatestOfSameElements(sorted, addrs);
  }

  // merge: the two lists are sorted first if they are not; the newer seen wins, and the result
  // carries no misses.
  method Merge(a: DatabaseRecord, b: DatabaseRecord) returns (res: DatabaseRecord)
    ensures Latest(res.addresses) == Join(Latest(a.addresses), Latest(b.addresses))
    ensures Sorted(res.addresses, AddressLess)
    ensures multiset(res.addresses) <= multiset(a.addresses) + multiset(b.addresses)
    ensures res.seen == Max(a.seen, b.seen) && res.misses == 0 && res.missed == 0
  {
    AddressOrder();
    var aAddrs, bAddrs := a.addresses, b.addresses;
    var sorted := IsSorted(aAddrs, AddressLess);
    if !sorted {
      aAddrs := SortedCopy(aAddrs);
    }
    sorted := IsSorted(bAddrs, AddressLess);
    if !sorted {
      bAddrs := SortedCopy(bAddrs);
    }
    var list := MergeLoop(aAddrs, bAddrs);
    res := DatabaseRecord(list, 0, if b.seen > a.seen then b.seen else a.seen, 0);
    MergeIsJoin(aAddrs, bAddrs);
    MergeSorted(aAddrs, bAddrs);
    MergeWithin(aAddrs, bAddrs);
  }

  method MergeLoop(aAddrs: seq<DatabaseAddress>, bAddrs: seq<DatabaseAddress>) returns (res: seq<DatabaseAddress>)
    ensures res == MergeLists(aAddrs, bAddrs)
  {
    hide MergeLists, AddressLess;
    res := [];
    var aIdx, bIdx := 0, 0;
    assert aAddrs[0..] == aAddrs && bAddrs[0..] == bAddrs;
    while true
      invariant 0 <= aIdx <= |aAddrs| && 0 <= bIdx <= |bAddrs|
      invariant MergeLists(aAddrs, bAddrs) == res + MergeLists(aAddrs[aIdx..], bAddrs[bIdx..])
      decreases |aAddrs| - aIdx + |bAddrs| - bIdx
    {
      MergeStep(aAddrs, bAddrs, aIdx, bIdx);
      var next: DatabaseAddress;
      if aIdx == |aAddrs| && bIdx == |bAddrs| {
        // both lists are exhausted
        return;
      } else if aIdx == |aAddrs| {
        next, bIdx := bAddrs[bIdx], bIdx + 1;
      } else if bIdx == |bAddrs| {
        next, aIdx := aAddrs[aIdx], aIdx + 1;
      } else if aAddrs[aIdx].address == bAddrs[bIdx].address {
        // the same address on both sides: the newer expiry stays
        next := if aAddrs[aIdx].expires > bAddrs[bIdx].expires then aAddrs[aIdx] else bAddrs[bIdx];
        aIdx, bIdx := aIdx + 1, bIdx + 1;
      } else if AddressLess(aAddrs[aIdx], bAddrs[bIdx]) {
        next, aIdx := aAddrs[aIdx], aIdx + 1;
      } else {
        next, bIdx := bAddrs[bIdx], bIdx + 1;
      }
      Snoc(res, next, MergeLists(aAddrs[aIdx..], bAddrs[bIdx..]));
      res := res + [next];
    }
  }

  lemma Snoc(s: seq<DatabaseAddress>, x: DatabaseAddress, t: seq<DatabaseAddress>)
    ensures s + ([x] + t) == s + [x] + t
  {
  }

  // MergeLists one step on, in terms of the two indices.
  lemma MergeStep(a: seq<DatabaseAddress>, b: seq<DatabaseAddress>, i: nat, j: nat)
    requires i <= |a| && j <= |b|
    ensures MergeLists(a[i..], b[j..]) ==
      if i == |a| && j == |b| then []
      else if i == |a| then [b[j]] + MergeLists(a[i..], b[j + 1..])
      else if j == |b| then [a[i]] + MergeLists(a[i + 1..], b[j..])
      else if a[i].address == b[j].address then
        [if a[i].expires > b[j].expires then a[i] else b[j]] + MergeLists(a[i + 1..], b[j + 1..])
      else if AddressLess(a[i], b[j]) then [a[i]] + MergeLists(a[i + 1..], b[j..])
      else [b[j]] + MergeLists(a[i..], b[j + 1..])
  {
    assert i < |a| ==> a[i..][1..] == a[i + 1..];
    assert j < |b| ==> b[j..][1..] == b[j + 1..];
    assert i == |a| && j < |b| ==> b[j..] == [b[j]] + b[j + 1..];
    assert j == |b| && i < |a| ==> a[i..] == [a[i]] + a[i + 1..];
  }

  // Sorted means: by address, in the byte order of strings.
  lemma SortedMeans(s: seq<DatabaseAddress>)
    ensures Sorted(s, AddressLess) <==> forall i, j :: 0 <= i < j < |s| ==> !StringLess(s[j].address, s[i].address)
  {
    if Sorted(s, AddressLess) {
      forall i, j | 0 <= i < j < |s| ensures !StringLess(s[j].address, s[i].address) {
        assert !AddressLess(s[j], s[i]);
      }
    }
  }

  // Addresses in ascending order, none of them twice.
  ghost predicate Ascending(s: seq<DatabaseAddress>) {
    forall i, j :: 0 <= i < j < |s| ==> StringLess(s[i].address, s[j].address)
  }

  // Merging lists without repeated addresses gives one entry per address, in ascending order.
  lemma {:induction false} MergeIsAscending(a: seq<DatabaseAddress>, b: seq<DatabaseAddress>)
    requires Ascending(a) && Ascending(b)
    ensures Ascending(MergeLists(a, b))
    decreases |a| + |b|
  {
    if a != [] && b != [] {
      var r := MergeLists(a, b);
      var a', b' := if a[0].address == b[0].address || AddressLess(a[0], b[0]) then a[1..] else a,
                    if a[0].address == b[0].address || !AddressLess(a[0], b[0]) then b[1..] else b;
      var r' := MergeLists(a', b');
      assert r == [r[0]] + r';
      AscendingTail(a);
      AscendingTail(b);
      hide StringLess, MergeLists, Ascending;
      MergeIsAscending(a', b');
      MergeDominates(a', b');
      forall x | x in r' ensures StringLess(r[0].address, x.address) {
        AboveHead(a, b, x);
      }
      AscendingPrepend(r[0], r');
    }
  }

  lemma AscendingTail(s: seq<DatabaseAddress>)
    requires Ascending(s) && s != []
    ensures Ascending(s[1..])
  {
  }

  lemma AscendingPrepend(x: DatabaseAddress, s: seq<DatabaseAddress>)
    requires Ascending(s) && forall y :: y in s ==> StringLess(x.address, y.address)
    ensures Ascending([x] + s)
  {
    hide StringLess;
    forall j | 0 <= j < |s| ensures StringLess(x.address, s[j].address) {
      assert s[j] in s;
    }
  }

  lemma AboveHead(a: seq<DatabaseAddress>, b: seq<DatabaseAddress>, x: DatabaseAddress)
    requires a != [] && b != []
    requires Ascending(a) && Ascending(b)
    requires var same, less := a[0].address == b[0].address, StringLess(a[0].address, b[0].address);
      x in (if same || less then a[1..] else a) || x in (if same || !less then b[1..] else b)
    ensures StringLess(MergeLists(a, b)[0].address, x.address)
  {
    var h, p, q := MergeLists(a, b)[0].address, a[0].address, b[0].address;
    StringLessTotal(p, q);
    assert h == if p == q || StringLess(p, q) then p else q;
    hide MergeLists, StringLess, Ascending;
    var same, less := p == q, StringLess(p, q);
    if x in (if same || less then a[1..] else a) {
      Behind(a, x);
      if x.address != p && h != p {
        StringLessStrict(h, p, x.address);
      }
    } else {
      Behind(b, x);
      if x.address != q && h != q {
        StringLessStrict(h, q, x.address);
      }
    }
  }

  lemma Behind(s: seq<DatabaseAddress>, x: DatabaseAddress)
    requires s != [] && Ascending(s)
    ensures x in s ==> x == s[0] || StringLess(s[0].address, x.address)
    ensures x in s[1..] ==> x in s && StringLess(s[0].address, x.address)
  {
  }

  // ---------- expire ----------

  function NotExpired(now: int64): DatabaseAddress -> bool {
    (e: DatabaseAddress) => e.expires >= now
  }

  // Dropping expired entries drops exactly the addresses whose latest expiry has passed.
  lemma ExpireIsLive(s: seq<DatabaseAddress>, now: int64)
    ensures Latest(Filter(s, NotExpired(now))) == Live(Latest(s), now)
  {
    LatestIsLatest(s);
    LatestUnique(Filter(s, NotExpired(now)), Live(Latest(s), now));
  }

  method Expire(addrs: seq<DatabaseAddress>, now: int64) returns (r: seq<DatabaseAddress>)
    ensures forall e :: e in r <==> e in addrs && e.expires >= now
    ensures Latest(r) == Live(Latest(addrs), now)
    ensures r == Filter(addrs, NotExpired(now))
  {
    r := RemoveInPlace(addrs, NotExpired(now));
    ExpireIsLive(addrs, now);
  }

  // Expiring before or after merging makes no difference to what is known.
  lemma ExpireCommutesWithMerge(a: seq<DatabaseAddress>, b: seq<DatabaseAddress>, now: int64)
    ensures Latest(Filter(MergeLists(a, b), NotExpired(now)))
         == Latest(MergeLists(Filter(a, NotExpired(now)), Filter(b, NotExpired(now))))
  {
    ExpireIsLive(MergeLists(a, b), now);
    ExpireIsLive(a, now);
    ExpireIsLive(b, now);
    MergeIsJoin(a, b);
    MergeIsJoin(Filter(a, NotExpired(now)), Filter(b, NotExpired(now)));
    LiveJoin(Latest(a), Latest(b), now);
  }

  // handleAnnounce: every address gets the same expiry, and the list is sorted before it is
  // merged and replicated.
  method Announcement(addresses: seq<seq<byte>>, expire: int64) returns (dbAddrs: seq<DatabaseAddress>)
    ensures Sorted(dbAddrs, AddressLess)
    ensures Latest(dbAddrs) == map k | k in addresses :: expire
  {
    dbAddrs := [];
    for i := 0 to |addresses|
      invariant |dbAddrs| == i
      invariant forall j :: 0 <= j < i ==> dbAddrs[j] == DatabaseAddress(addresses[j], expire)
    {
      dbAddrs := dbAddrs + [DatabaseAddress(addresses[i], expire)];
    }
    ghost var m := map k | k in addresses :: expire;
    forall k | k in m ensures DatabaseAddress(k, m[k]) in dbAddrs {
      var j :| 0 <= j < |addresses| && addresses[j] == k;
      assert dbAddrs[j] in dbAddrs;
    }
    LatestUnique(dbAddrs, m);
    dbAddrs := SortedCopy(dbAddrs);
  }
}
