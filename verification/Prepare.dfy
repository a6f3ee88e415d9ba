// Configuration.prepare as a whole: ignored folders, the folder list, and the invariant that ties
// the parts of a prepared configuration together.
module Prepare {
  import opened Common
  import opened Sorting
  import opened SliceUtil
  import opened StringUtil
  import opened Config

  // ---------- DeviceConfiguration.prepare ----------

  // o is the entry for its folder with the latest time, the first one if several share that time.
  ghost predicate IsNewest(s: seq<ObservedFolder>, o: ObservedFolder) {
    exists k :: 0 <= k < |s| && s[k] == o && NewestAt(s, k)
  }

  ghost predicate NewestAt(s: seq<ObservedFolder>, k: nat)
    requires k < |s|
  {
    forall j :: 0 <= j < |s| && s[j].id == s[k].id ==> s[j].time < s[k].time || (s[j].time == s[k].time && j >= k)
  }

  ghost predicate ListsFolder(s: seq<ObservedFolder>, id: FolderID) {
    exists o :: o in s && o.id == id
  }

  ghost predicate IgnoredPrepared(s: seq<ObservedFolder>, shared: set<FolderID>, r: seq<ObservedFolder>) {
    && Sorted(r, TimeLess)
    && (forall i, j :: 0 <= i < j < |r| ==> r[i].id != r[j].id)
    && (forall o :: o in r ==> IsNewest(s, o) && o.id !in shared)
    && (forall id :: ListsFolder(s, id) && id !in shared ==> ListsFolder(r, id))
  }

  ghost predicate DevicePrepared(d: Device, shared: set<FolderID>, r: Device) {
    && r == Device(d.id, r.addresses, d.untrusted, d.introducer && !d.untrusted, d.autoAcceptFolders && !d.untrusted,
                   r.ignoredFolders)
    && IgnoredPrepared(d.ignoredFolders, shared, r.ignoredFolders)
  }

  // The same in plain terms.
  lemma DeviceIs(d: Device, shared: set<FolderID>, r: Device)
    requires DevicePrepared(d, shared, r)
    ensures r.id == d.id && (r.untrusted <==> d.untrusted)
    ensures d.untrusted ==> !r.introducer && !r.autoAcceptFolders
    ensures !d.untrusted ==> (r.introducer <==> d.introducer) && (r.autoAcceptFolders <==> d.autoAcceptFolders)
    ensures forall o :: o in r.ignoredFolders ==> o in d.ignoredFolders && o.id !in shared
    ensures forall o, p :: o in r.ignoredFolders && p in d.ignoredFolders && p.id == o.id ==> p.time <= o.time
    ensures forall p :: p in d.ignoredFolders && p.id !in shared ==> exists o :: o in r.ignoredFolders && o.id == p.id
    ensures forall i, j :: 0 <= i < j < |r.ignoredFolders| ==>
              r.ignoredFolders[i].id != r.ignoredFolders[j].id && r.ignoredFolders[i].time <= r.ignoredFolders[j].time
  {
    var s, t := d.ignoredFolders, r.ignoredFolders;
    forall o, p | o in t && p in s && p.id == o.id ensures p.time <= o.time {
      assert IsNewest(s, o);
      var k :| 0 <= k < |s| && s[k] == o && NewestAt(s, k);
      var j :| 0 <= j < |s| && s[j] == p;
    }
    forall p | p in s && p.id !in shared ensures exists o :: o in t && o.id == p.id {
      assert ListsFolder(s, p.id);
    }
    forall i, j | 0 <= i < j < |t| ensures t[i].time <= t[j].time {
      assert !TimeLess(t[j], t[i]);
    }
  }

  // No address, or a single empty one.
  predicate IsBlank(addresses: seq<string>) {
    addresses == [] || addresses == [""]
  }

  const DYNAMIC := "dynamic"

  function DefaultAddresses(addresses: seq<string>): seq<string> {
    if IsBlank(addresses) then [DYNAMIC] else addresses
  }

  // Whether an address parses as a URL whose scheme starts with kcp. "dynamic" has no scheme.
  type Deprecation = f: string -> bool | !f(DYNAMIC) witness (_ => false)

  function Supported(deprecated: Deprecation): string -> bool {
    (address: string) => !deprecated(address)
  }

  // A device's addresses after prepare: the default is applied first, deprecated ones go last.
  function SettledAddresses(deprecated: Deprecation, addresses: seq<string>): seq<string> {
    Filter(DefaultAddresses(addresses), Supported(deprecated))
  }

  type Observed = map<FolderID, ObservedFolder>

  ghost predicate IsDeduplicated(input: seq<ObservedFolder>, output: Observed) {
    && (forall id :: id in output <==> ListsFolder(input, id))
    && (forall id :: id in output ==> output[id].id == id && IsNewest(input, output[id]))
  }

  method DeduplicateObservedFolders(input: seq<ObservedFolder>) returns (output: Observed)
    ensures IsDeduplicated(input, output)
  {
    output := map[];
    for i := 0 to |input|
      invariant IsDeduplicated(input[..i], output)
    {
      var folder := input[i];
      ghost var before := output;
      if folder.id !in output || output[folder.id].time < folder.time {
        output := output[folder.id := folder];
      }
      assert input[..i + 1] == input[..i] + [folder];
      DeduplicateStep(input[..i], folder, before, output);
    }
    assert input[..|input|] == input;
  }

  // Every folder has its entry, one of those listed and none of them later.
  lemma DeduplicatedIs(input: seq<ObservedFolder>, output: Observed)
    requires IsDeduplicated(input, output)
    ensures forall o :: o in input ==> o.id in output && o.time <= output[o.id].time
    ensures forall id :: id in output ==> output[id] in input && output[id].id == id
  {
    forall o | o in input ensures o.id in output && o.time <= output[o.id].time {
      assert ListsFolder(input, o.id);
      var k :| 0 <= k < |input| && input[k] == output[o.id] && NewestAt(input, k);
      var j :| 0 <= j < |input| && input[j] == o;
    }
  }

  // Of several with the latest time, it is the first.
  lemma FirstOfEquals(input: seq<ObservedFolder>, output: Observed, k: nat)
    requires IsDeduplicated(input, output) && k < |input|
    requires forall j :: 0 <= j < k && input[j].id == input[k].id ==> input[j].time < input[k].time
    requires forall j :: k < j < |input| && input[j].id == input[k].id ==> input[j].time <= input[k].time
    ensures input[k].id in output && output[input[k].id] == input[k]
  {
    assert input[k] in input && ListsFolder(input, input[k].id);
    var l :| 0 <= l < |input| && input[l] == output[input[k].id] && NewestAt(input, l);
  }

  lemma DeduplicateStep(s: seq<ObservedFolder>, x: ObservedFolder, before: Observed, output: Observed)
    requires IsDeduplicated(s, before)
    requires output == if x.id !in before || before[x.id].time < x.time then before[x.id := x] else before
    ensures IsDeduplicated(s + [x], output)
  {
    var t := s + [x];
    forall id ensures ListsFolder(t, id) <==> ListsFolder(s, id) || id == x.id {
      assert x in t;
      if ListsFolder(s, id) {
        var o :| o in s && o.id == id;
        assert o in t;
      }
    }
    forall id | id in output ensures output[id].id == id && IsNewest(t, output[id]) {
      if id == x.id && output[id] == x && (id !in before || before[id].time < x.time) {
        NewestReplaced(s, x, before);
      } else {
        NewestKept(s, x, before[id]);
      }
    }
  }

  lemma NewestReplaced(s: seq<ObservedFolder>, x: ObservedFolder, before: Observed)
    requires IsDeduplicated(s, before) && (x.id !in before || before[x.id].time < x.time)
    ensures IsNewest(s + [x], x)
  {
    var t := s + [x];
    forall j | 0 <= j < |s| && s[j].id == x.id ensures s[j].time < x.time {
      assert s[j] in s && ListsFolder(s, x.id);
      var k :| 0 <= k < |s| && s[k] == before[x.id] && NewestAt(s, k);
    }
    assert t[|s|] == x && NewestAt(t, |s|);
  }

  lemma NewestKept(s: seq<ObservedFolder>, x: ObservedFolder, o: ObservedFolder)
    requires IsNewest(s, o) && (o.id == x.id ==> x.time <= o.time)
    ensures IsNewest(s + [x], o)
  {
    var k :| 0 <= k < |s| && s[k] == o && NewestAt(s, k);
    assert (s + [x])[k] == o && NewestAt(s + [x], k);
  }

  // Map iteration order is arbitrary; the result is sorted by time only.
  method SortedObservedFolders(input: Observed) returns (output: seq<ObservedFolder>)
    requires forall id :: id in input ==> input[id].id == id
    ensures Sorted(output, TimeLess)
    ensures forall i, j :: 0 <= i < j < |output| ==> output[i].id != output[j].id
    ensures forall o :: o in output <==> o.id in input && input[o.id] == o
  {
    var list: seq<ObservedFolder> := [];
    var left := input.Keys;
    while left != {}
      invariant left <= input.Keys
      invariant forall o :: o in list <==> o.id in input && o.id !in left && input[o.id] == o
      invariant forall i, j :: 0 <= i < j < |list| ==> list[i].id != list[j].id
      decreases left
    {
      var id :| id in left;
      assert forall i :: 0 <= i < |list| ==> list[i] in list;
      list := list + [input[id]];
      left := left - {id};
    }
    output := Sort(list, TimeLess);
    forall i, j | 0 <= i < j < |output| ensures output[i].id != output[j].id {
      DistinctAfterSort(list, output, (o: ObservedFolder) => o.id, i, j);
    }
  }

  method PrepareDevice(d: Device, sharedFolders: seq<FolderID>) returns (r: Device)
    ensures DevicePrepared(d, (set id | id in sharedFolders), r) && r.addresses == DefaultAddresses(d.addresses)
    ensures r.addresses == if d.addresses == [] || d.addresses == [""] then ["dynamic"] else d.addresses
  {
    var addresses := d.addresses;
    if |addresses| == 0 || (|addresses| == 1 && addresses[0] == "") {
      addresses := [DYNAMIC];
    }
    var all := DeduplicateObservedFolders(d.ignoredFolders);
    var ignoredFolders := all;
    for i := 0 to |sharedFolders|
      invariant forall id :: id in ignoredFolders <==> id in all && id !in sharedFolders[..i]
      invariant forall id :: id in ignoredFolders ==> ignoredFolders[id] == all[id]
    {
      ignoredFolders := ignoredFolders - {sharedFolders[i]};
      assert sharedFolders[..i + 1] == sharedFolders[..i] + [sharedFolders[i]];
    }
    assert sharedFolders[..|sharedFolders|] == sharedFolders;
    var list := SortedObservedFolders(ignoredFolders);
    r := d.(addresses := addresses, ignoredFolders := list);
    if r.untrusted {
      if r.introducer {
        r := r.(introducer := false);
      }
      if r.autoAcceptFolders {
        r := r.(autoAcceptFolders := false);
      }
    }
    forall id | ListsFolder(d.ignoredFolders, id) && id !in sharedFolders ensures ListsFolder(list, id) {
      assert all[id] in list;
    }
  }

  // Preparing again with the same shared folders keeps the same entries.
  lemma IgnoredIdempotent(s: seq<ObservedFolder>, shared: set<FolderID>, r: seq<ObservedFolder>, t: seq<ObservedFolder>)
    requires IgnoredPrepared(s, shared, r) && IgnoredPrepared(r, shared, t)
    ensures forall o :: o in t <==> o in r
    ensures DistinctTimes(r) ==> t == r
  {
    forall o | o in r ensures o in t {
      assert ListsFolder(r, o.id);
      var p :| p in t && p.id == o.id;
      assert p in r;
    }
    if DistinctTimes(r) {
      SortedOneWay(r, t);
    }
  }

  lemma SortedOneWay(r: seq<ObservedFolder>, t: seq<ObservedFolder>)
    requires DistinctTimes(r) && Sorted(r, TimeLess) && Sorted(t, TimeLess)
    requires forall i, j :: 0 <= i < j < |t| ==> t[i].id != t[j].id
    requires forall o :: o in t <==> o in r
    ensures t == r
  {
    forall i, j | 0 <= i < j < |t| ensures TimeLess(t[i], t[j]) {
      assert t[i] in r && t[j] in r;
      var k :| 0 <= k < |r| && r[k] == t[i];
      var l :| 0 <= l < |r| && r[l] == t[j];
      assert !TimeLess(t[j], t[i]);
    }
    assert StrictlySorted(r, TimeLess) by {
      assert forall i, j :: 0 <= i < j < |r| ==> !TimeLess(r[j], r[i]);
    }
    StrictlySortedUnique(r, t, TimeLess);
  }

  predicate DistinctTimes(s: seq<ObservedFolder>) {
    forall i, j :: 0 <= i < j < |s| ==> s[i].time != s[j].time
  }

  // Their order is sure to stay exactly if no two carry the same time: the entries come from
  // iterating over a map, so entries with equal times may come out in any order.
  lemma OrderIsKeptIff(s: seq<ObservedFolder>, shared: set<FolderID>, r: seq<ObservedFolder>)
    requires IgnoredPrepared(s, shared, r)
    ensures (forall t :: IgnoredPrepared(r, shared, t) ==> t == r) <==> DistinctTimes(r)
  {
    hide IgnoredPrepared, DistinctTimes;
    if DistinctTimes(r) {
      forall t | IgnoredPrepared(r, shared, t) ensures t == r {
        IgnoredIdempotent(s, shared, r, t);
      }
    } else {
      var t := OtherOrder(s, shared, r);
    }
  }

  lemma OtherOrder(s: seq<ObservedFolder>, shared: set<FolderID>, r: seq<ObservedFolder>)
    returns (t: seq<ObservedFolder>)
    requires IgnoredPrepared(s, shared, r) && !DistinctTimes(r)
    ensures IgnoredPrepared(r, shared, t) && t != r
  {
    var i, j :| 0 <= i < j < |r| && r[i].time == r[j].time;
    t := r[i := r[j]][j := r[i]];
    assert t[i].id != r[i].id;
    hide IgnoredPrepared;
    Exchanged(r, shared, i, j, t);
  }

  lemma Exchanged(r: seq<ObservedFolder>, shared: set<FolderID>, i: nat, j: nat, t: seq<ObservedFolder>)
    requires i < j < |r| && r[i].time == r[j].time && t == r[i := r[j]][j := r[i]]
    requires Sorted(r, TimeLess) && forall k, l :: 0 <= k < l < |r| ==> r[k].id != r[l].id
    requires forall o :: o in r ==> o.id !in shared
    ensures IgnoredPrepared(r, shared, t)
  {
    assert forall k :: 0 <= k < |r| ==> t[k].time == r[k].time;
    forall k | 0 <= k < |t| ensures IsNewest(r, t[k]) && t[k].id !in shared {
      var l := if k == i then j else if k == j then i else k;
      assert r[l] == t[k] && NewestAt(r, l) && r[l] in r;
    }
    forall id | ListsFolder(r, id) ensures ListsFolder(t, id) {
      var k :| 0 <= k < |r| && r[k].id == id;
      var l := if k == i then j else if k == j then i else k;
      assert t[l] == r[k] && t[l] in t;
    }
  }

  lemma DeviceIdempotent(d: Device, shared: set<FolderID>, r: Device, t: Device)
    requires DevicePrepared(d, shared, r) && DevicePrepared(r, shared, t)
    ensures t == r.(addresses := t.addresses, ignoredFolders := t.ignoredFolders)
    ensures forall o :: o in t.ignoredFolders <==> o in r.ignoredFolders
    ensures DistinctTimes(r.ignoredFolders) ==> t.ignoredFolders == r.ignoredFolders
  {
    IgnoredIdempotent(d.ignoredFolders, shared, r.ignoredFolders, t.ignoredFolders);
  }

  // Deprecated addresses go after the default was applied, so a device can be left without any; the
  // next prepare makes that "dynamic". Apart from that, addresses stay.
  lemma AddressesStayIff(deprecated: Deprecation, addresses: seq<string>)
    ensures var r := SettledAddresses(deprecated, addresses);
      && (SettledAddresses(deprecated, r) == r <==> !IsBlank(r))
      && (IsBlank(r) <==> !IsBlank(addresses) && IsBlank(Filter(addresses, Supported(deprecated))))
      && (IsBlank(r) ==> SettledAddresses(deprecated, r) == [DYNAMIC])
  {
    var r := SettledAddresses(deprecated, addresses);
    assert [DYNAMIC][1..] == [];
    if !IsBlank(r) {
      FilterAll(r, Supported(deprecated));
    }
  }

  // An address that is not blank, but deprecated, leaves a device without any.
  lemma OnlyDeprecatedAddress(deprecated: Deprecation, address: string)
    requires address != "" && deprecated(address)
    ensures SettledAddresses(deprecated, [address]) == []
    ensures SettledAddresses(deprecated, SettledAddresses(deprecated, [address])) == [DYNAMIC]
  {
    assert [address][1..] == [] && [DYNAMIC][1..] == [];
    assert Filter([address], Supported(deprecated)) == [];
  }

  // Listen addresses have no default and stay.
  lemma ListenAddressesStay(deprecated: Deprecation, addresses: seq<string>)
    ensures var r := Filter(UniqueTrimmed(addresses), Supported(deprecated));
      AreUnique(r) && Filter(UniqueTrimmed(r), Supported(deprecated)) == r
  {
    var r := Filter(UniqueTrimmed(addresses), Supported(deprecated));
    UniqueTrimmedElements(addresses);
    FilteredIsUnique(UniqueTrimmed(addresses), Supported(deprecated));
    UniqueTrimmedStays(r);
    FilterAll(r, Supported(deprecated));
  }

  // ---------- prepareFolders ----------

  // The error that prepareFolders reports: that of the first folder with a problem.
  function FirstError(folders: seq<Folder>, i: nat): Option<Error>
    requires i <= |folders|
    decreases |folders| - i
  {
    if i == |folders| then None
    else if folders[i].id == [] then Some(FolderIDEmpty)
    else if folders[i].path == "" then Some(FolderPathEmpty(folders[i].id))
    else if exists j :: 0 <= j < i && folders[j].id == folders[i].id then Some(FolderIDDuplicate(folders[i].id))
    else FirstError(folders, i + 1)
  }

  // There is no error exactly when every folder has an ID of its own and a path.
  lemma {:induction false} NoErrorMeans(folders: seq<Folder>, i: nat)
    requires i <= |folders|
    ensures FirstError(folders, i) == None <==>
      && (forall k :: i <= k < |folders| ==> folders[k].id != [] && folders[k].path != "")
      && (forall j, k :: 0 <= j < k && i <= k < |folders| ==> folders[j].id != folders[k].id)
    decreases |folders| - i
  {
    if i < |folders| {
      NoErrorMeans(folders, i + 1);
    }
  }

  // The error is that of the first folder that has one.
  lemma {:induction false} FirstErrorIs(folders: seq<Folder>, i: nat, k: nat)
    requires i <= k < |folders|
    requires forall j :: 0 <= j < k ==> folders[j].id != [] && folders[j].path != ""
    requires forall j, l :: 0 <= j < l < k ==> folders[j].id != folders[l].id
    requires folders[k].id == [] || folders[k].path == "" || exists j :: 0 <= j < k && folders[j].id == folders[k].id
    ensures FirstError(folders, i) == Some(
      if folders[k].id == [] then FolderIDEmpty
      else if folders[k].path == "" then FolderPathEmpty(folders[k].id)
      else FolderIDDuplicate(folders[k].id))
    decreases k - i
  {
    if i < k {
      FirstErrorIs(folders, i + 1, k);
    }
  }

  // Each folder prepared in place.
  ghost predicate EachPrepared(fs: seq<Folder>, me: DeviceID, trust: Trust, gs: seq<Folder>) {
    && |gs| == |fs|
    && forall j :: 0 <= j < |fs| ==> FolderPrepared(fs[j], me, trust, gs[j])
  }

  ghost predicate FoldersPrepared(fs: seq<Folder>, me: DeviceID, trust: Trust, gs: seq<Folder>) {
    && StrictlySorted(gs, FolderLess)
    && (forall g :: g in gs ==> g.id != [] && g.path != "")
    && exists each :: EachPrepared(fs, me, trust, each) && multiset(gs) == multiset(each)
  }

  type SharedFolders = map<DeviceID, seq<FolderID>>

  function SharedOf(shared: SharedFolders, id: DeviceID): seq<FolderID> {
    if id in shared then shared[id] else []
  }

  ghost function SharedWith(folders: seq<Folder>, id: DeviceID): set<FolderID> {
    set g | g in folders && ListsDevice(g.devices, id) :: g.id
  }

  ghost predicate IsShared(folders: seq<Folder>, shared: SharedFolders) {
    forall id :: (set f | f in SharedOf(shared, id)) == SharedWith(folders, id)
  }

  // sharedFolders[dev] = append(sharedFolders[dev], folder.ID) for every device of the folder
  method RecordShared(folders: seq<Folder>, folder: Folder, shared: SharedFolders) returns (r: SharedFolders)
    requires IsShared(folders, shared)
    ensures IsShared(folders + [folder], r)
  {
    r := shared;
    for i := 0 to |folder.devices|
      invariant forall id :: (set f | f in SharedOf(r, id)) == SharedWith(folders, id) +
                  (if ListsDevice(folder.devices[..i], id) then {folder.id} else {})
    {
      var dev := folder.devices[i].id;
      ghost var before := r;
      r := r[dev := SharedOf(r, dev) + [folder.id]];
      assert folder.devices[..i + 1] == folder.devices[..i] + [folder.devices[i]];
      forall id ensures (set f | f in SharedOf(r, id)) == SharedWith(folders, id) +
                  (if ListsDevice(folder.devices[..i + 1], id) then {folder.id} else {})
      {
        HasIdAppend(folder.devices[..i], folder.devices[i], FolderDeviceId, id);
        assert (set f | f in SharedOf(before, id)) == SharedWith(folders, id) +
                  (if ListsDevice(folder.devices[..i], id) then {folder.id} else {});
      }
    }
    assert folder.devices[..|folder.devices|] == folder.devices;
    forall id ensures (set f | f in SharedOf(r, id)) == SharedWith(folders + [folder], id) {
      SharedWithAppend(folders, folder, id);
    }
  }

  lemma SharedWithAppend(folders: seq<Folder>, folder: Folder, id: DeviceID)
    ensures SharedWith(folders + [folder], id)
         == SharedWith(folders, id) + (if ListsDevice(folder.devices, id) then {folder.id} else {})
  {
    var all := folders + [folder];
    assert forall g :: g in all <==> g in folders || g == folder;
    assert folder in all;
  }

  method PrepareFolders(folders: seq<Folder>, me: DeviceID, existingDevices: Trust)
    returns (err: Option<Error>, r: seq<Folder>, sharedFolders: SharedFolders)
    requires me != EMPTY_ID ==> me in existingDevices
    ensures err == FirstError(folders, 0)
    ensures err == None ==> FoldersPrepared(folders, me, existingDevices, r) && IsShared(r, sharedFolders)
  {
    hide FolderPrepared, IsShared, SharedWith, FoldersPrepared;
    var prepared: seq<Folder> := [];
    sharedFolders := map[];
    NothingShared();
    var existingFolders: set<FolderID> := {};
    for i := 0 to |folders|
      invariant FirstError(folders, 0) == FirstError(folders, i)
      invariant existingFolders == set j | 0 <= j < i :: folders[j].id
      invariant |prepared| == i
      invariant forall j :: 0 <= j < i ==> FolderPrepared(folders[j], me, existingDevices, prepared[j])
      invariant IsShared(prepared, sharedFolders)
    {
      var folder := folders[i];
      if folder.id == [] {
        return Some(FolderIDEmpty), folders, sharedFolders;
      }
      if folder.path == "" {
        return Some(FolderPathEmpty(folder.id)), folders, sharedFolders;
      }
      if folder.id in existingFolders {
        return Some(FolderIDDuplicate(folder.id)), folders, sharedFolders;
      }
      var g := PrepareFolder(folder, me, existingDevices);
      existingFolders := existingFolders + {folder.id};
      sharedFolders := RecordShared(prepared, g, sharedFolders);
      prepared := prepared + [g];
    }
    FolderOrder();
    r := Sort(prepared, FolderLess);
    FoldersSorted(folders, me, existingDevices, prepared, r);
    SharedOfSorted(prepared, r, sharedFolders);
    return None, r, sharedFolders;
  }

  lemma NothingShared()
    ensures IsShared([], map[])
  {
  }

  lemma SharedOfSorted(s: seq<Folder>, r: seq<Folder>, shared: SharedFolders)
    requires IsShared(s, shared) && forall g :: g in r <==> g in s
    ensures IsShared(r, shared)
  {
    forall id ensures SharedWith(r, id) == SharedWith(s, id) {
    }
  }

  lemma PreparedKeepsFolder(f: Folder, me: DeviceID, trust: Trust, g: Folder)
    requires FolderPrepared(f, me, trust, g)
    ensures g.id == f.id && g.path == f.path
  {
  }

  lemma FoldersSorted(fs: seq<Folder>, me: DeviceID, trust: Trust, prepared: seq<Folder>, r: seq<Folder>)
    requires FirstError(fs, 0) == None && EachPrepared(fs, me, trust, prepared)
    requires multiset(r) == multiset(prepared) && Sorted(r, FolderLess)
    ensures FoldersPrepared(fs, me, trust, r)
  {
    hide FolderPrepared, FirstError, StringLess;
    NoErrorMeans(fs, 0);
    SameElements(r, prepared);
    forall j | 0 <= j < |fs| ensures prepared[j].id == fs[j].id && prepared[j].path == fs[j].path {
      PreparedKeepsFolder(fs[j], me, trust, prepared[j]);
    }
    forall i, j | 0 <= i < j < |r| ensures FolderLess(r[i], r[j]) {
      DistinctAfterSort(prepared, r, (g: Folder) => g.id, i, j);
      StringLessTotal(r[i].id, r[j].id);
    }
    forall g | g in r ensures g.id != [] && g.path != "" {
      var j :| 0 <= j < |prepared| && prepared[j] == g;
    }
  }

  // ---------- prepare ----------

  datatype Settings = Settings(devices: seq<Device>, folders: seq<Folder>, ignoredDevices: seq<ObservedDevice>,
                               defaultFolder: Folder, defaultDevice: Device, listenAddresses: seq<string>)

  function NotAdded(trust: Trust): ObservedDevice -> bool {
    (d: ObservedDevice) => d.id !in trust
  }

  // The relation between a configuration and what prepare makes of it, through the device list
  // that exists while the folders are being prepared.
  ghost predicate PreparedVia(a: Settings, me: DeviceID, deprecated: Deprecation, list: seq<Device>, trust: Trust,
                              b: Settings)
  {
    && DeviceListPrepared(a.devices, me, list) && IsTrustOf(list, trust)
    && FoldersPrepared(a.folders, me, trust, b.folders)
    && |b.devices| == |list|
    && (forall i :: 0 <= i < |list| ==> DevicePrepared(list[i], SharedWith(b.folders, list[i].id), b.devices[i]))
    && (forall i :: 0 <= i < |list| ==> b.devices[i].addresses == SettledAddresses(deprecated, list[i].addresses))
    && b.ignoredDevices == Filter(a.ignoredDevices, NotAdded(trust))
    && FolderPrepared(a.defaultFolder.(id := []), me, trust, b.defaultFolder)
    && DevicePrepared(a.defaultDevice.(id := EMPTY_ID), {}, b.defaultDevice)
    && b.defaultDevice.addresses == DefaultAddresses(a.defaultDevice.addresses)
    && b.listenAddresses == Filter(UniqueTrimmed(a.listenAddresses), Supported(deprecated))
  }

  ghost predicate Prepared(a: Settings, me: DeviceID, deprecated: Deprecation, b: Settings) {
    exists list, trust :: PreparedVia(a, me, deprecated, list, trust, b)
  }

  class Configuration {
    var devices: seq<Device>
    var folders: seq<Folder>
    var ignoredDevices: seq<ObservedDevice>
    var defaultFolder: Folder
    var defaultDevice: Device
    var listenAddresses: seq<string>

    ghost function Value(): Settings
      reads this
    {
      Settings(devices, folders, ignoredDevices, defaultFolder, defaultDevice, listenAddresses)
    }

    constructor (settings: Settings)
      ensures Value() == settings
    {
      devices, folders, ignoredDevices := settings.devices, settings.folders, settings.ignoredDevices;
      defaultFolder, defaultDevice := settings.defaultFolder, settings.defaultDevice;
      listenAddresses := settings.listenAddresses;
    }

    // prepare, up to the migrations. After an error the configuration is not used.
    method Prepare(me: DeviceID, deprecated: Deprecation) returns (err: Option<Error>)
      modifies this
      ensures err == FirstError(old(folders), 0)
      ensures err == None ==> Prepared(old(Value()), me, deprecated, Value())
    {
      hide FolderPrepared, DevicePrepared, FoldersPrepared, SharedWith, FirstError, Filter, DefaultAddresses;
      hide SettledAddresses, IsTrustOf, DeviceListPrepared;
      ghost var before := Value();
      var existingDevices;
      ghost var list;
      err, existingDevices, list := PrepareFoldersAndDevices(me);
      if err != None {
        return;
      }
      ghost var withDefaults := devices;
      listenAddresses := UniqueTrimmedStrings(listenAddresses);
      PrepareIgnoredDevices(existingDevices);
      defaultFolder := PrepareFolder(defaultFolder.(id := []), me, existingDevices);
      var noFolders: seq<FolderID> := [];
      defaultDevice := PrepareDevice(defaultDevice.(id := EMPTY_ID), noFolders);
      assert (set id | id in noFolders) == {};
      RemoveDeprecatedProtocols(deprecated);
      DevicesSettled(list, folders, withDefaults, deprecated, devices);
      assert PreparedVia(before, me, deprecated, list, existingDevices, Value());
    }

    // list is the device list while the folders are prepared, before the devices are.
    method PrepareFoldersAndDevices(me: DeviceID)
      returns (err: Option<Error>, existingDevices: Trust, ghost list: seq<Device>)
      modifies this`devices, this`folders
      ensures err == FirstError(old(folders), 0)
      ensures DeviceListPrepared(old(devices), me, list) && IsTrustOf(list, existingDevices)
      ensures me != EMPTY_ID ==> me in existingDevices
      ensures err == None ==>
        && FoldersPrepared(old(folders), me, existingDevices, folders) && |devices| == |list|
        && (forall j :: 0 <= j < |list| ==> DevicePrepared(list[j], SharedWith(folders, list[j].id), devices[j]))
        && (forall j :: 0 <= j < |list| ==> devices[j].addresses == DefaultAddresses(list[j].addresses))
    {
      hide FolderPrepared, DevicePrepared, FoldersPrepared, SharedWith, FirstError, DefaultAddresses;
      devices, existingDevices := PrepareDeviceList(devices, me);
      list := devices;
      var sharedFolders, prepared;
      err, prepared, sharedFolders := PrepareFolders(folders, me, existingDevices);
      if err != None {
        return;
      }
      folders := prepared;
      for i := 0 to |devices|
        invariant |devices| == |list| && folders == prepared
        invariant forall j :: 0 <= j < i ==> DevicePrepared(list[j], SharedWith(folders, list[j].id), devices[j])
        invariant forall j :: 0 <= j < i ==> devices[j].addresses == DefaultAddresses(list[j].addresses)
        invariant forall j :: i <= j < |list| ==> devices[j] == list[j]
      {
        var d := PrepareDevice(devices[i], SharedOf(sharedFolders, devices[i].id));
        devices := devices[i := d];
      }
    }

    method RemoveDeprecatedProtocols(deprecated: Deprecation)
      modifies this`devices, this`listenAddresses
      ensures listenAddresses == Filter(old(listenAddresses), Supported(deprecated))
      ensures |devices| == |old(devices)|
      ensures forall j :: 0 <= j < |devices| ==>
                devices[j] == old(devices)[j].(addresses := Filter(old(devices)[j].addresses, Supported(deprecated)))
    {
      listenAddresses := RemoveInPlace(listenAddresses, Supported(deprecated));
      for i := 0 to |devices|
        invariant listenAddresses == Filter(old(listenAddresses), Supported(deprecated))
        invariant |devices| == |old(devices)|
        invariant forall j :: 0 <= j < i ==>
          devices[j] == old(devices)[j].(addresses := Filter(old(devices)[j].addresses, Supported(deprecated)))
        invariant forall j :: i <= j < |devices| ==> devices[j] == old(devices)[j]
      {
        var addresses := RemoveInPlace(devices[i].addresses, Supported(deprecated));
        devices := devices[i := devices[i].(addresses := addresses)];
      }
    }

    // Ignored devices that have been added are not ignored any more; the slice is filtered in place.
    method PrepareIgnoredDevices(existingDevices: Trust)
      modifies this`ignoredDevices
      ensures ignoredDevices == Filter(old(ignoredDevices), NotAdded(existingDevices))
      ensures forall x :: x in ignoredDevices <==> x in old(ignoredDevices) && x.id !in existingDevices
    {
      var newIgnoredDevices: seq<ObservedDevice> := [];
      for i := 0 to |ignoredDevices|
        invariant ignoredDevices == old(ignoredDevices)
        invariant newIgnoredDevices == Filter(ignoredDevices[..i], NotAdded(existingDevices))
      {
        var dev := ignoredDevices[i];
        assert ignoredDevices[..i + 1] == ignoredDevices[..i] + [dev];
        FilterAppend(ignoredDevices[..i], [dev], NotAdded(existingDevices));
        FilterOne(dev, NotAdded(existingDevices));
        if dev.id !in existingDevices {
          newIgnoredDevices := newIgnoredDevices + [dev];
        }
      }
      assert ignoredDevices[..|ignoredDevices|] == ignoredDevices;
      ignoredDevices := newIgnoredDevices;
    }
  }

  // Removing addresses at the end leaves everything else as DeviceConfiguration.prepare left it.
  lemma DevicesSettled(list: seq<Device>, folders: seq<Folder>, withDefaults: seq<Device>, deprecated: Deprecation,
                       devices: seq<Device>)
    requires |list| == |withDefaults| == |devices|
    requires forall j :: 0 <= j < |list| ==> DevicePrepared(list[j], SharedWith(folders, list[j].id), withDefaults[j])
    requires forall j :: 0 <= j < |list| ==> withDefaults[j].addresses == DefaultAddresses(list[j].addresses)
    requires forall j :: 0 <= j < |list| ==>
               devices[j] == withDefaults[j].(addresses := Filter(withDefaults[j].addresses, Supported(deprecated)))
    ensures forall j :: 0 <= j < |list| ==> DevicePrepared(list[j], SharedWith(folders, list[j].id), devices[j])
    ensures forall j :: 0 <= j < |list| ==> devices[j].addresses == SettledAddresses(deprecated, list[j].addresses)
  {
    hide DevicePrepared, SharedWith, Filter, DefaultAddresses;
    forall j | 0 <= j < |list| ensures DevicePrepared(list[j], SharedWith(folders, list[j].id), devices[j]) {
      AnyAddresses(list[j], SharedWith(folders, list[j].id), withDefaults[j], devices[j].addresses);
    }
  }

  lemma AnyAddresses(d: Device, shared: set<FolderID>, r: Device, addresses: seq<string>)
    requires DevicePrepared(d, shared, r)
    ensures DevicePrepared(d, shared, r.(addresses := addresses))
  {
  }

  lemma FilterOne<T(!new)>(x: T, keep: T -> bool)
    ensures Filter([x], keep) == if keep(x) then [x] else []
  {
    assert [x][1..] == [];
  }

  // ---------- what a prepared configuration is ----------

  ghost predicate WellPrepared(b: Settings, me: DeviceID) {
    // devices: sorted and unique, no empty ID, ourselves included, untrusted ones without privileges
    && StrictlySorted(b.devices, DeviceLess)
    && (forall d :: d in b.devices ==> d.id != EMPTY_ID)
    && (me != EMPTY_ID ==> HasDevice(b.devices, me))
    && (forall d :: d in b.devices && d.untrusted ==> !d.introducer && !d.autoAcceptFolders)
    // folders: sorted and unique, named
    && StrictlySorted(b.folders, FolderLess)
    && (forall g :: g in b.folders ==> g.id != [] && FolderFits(b.devices, g))
    // nothing is ignored and configured at once
    && (forall x :: x in b.ignoredDevices ==> !HasDevice(b.devices, x.id))
    && (forall d, g :: d in b.devices && g in b.folders && ListsDevice(g.devices, d.id) ==>
          !ListsFolder(d.ignoredFolders, g.id))
  }

  // A folder is shared with distinct known devices, and with an untrusted one only encrypted.
  ghost predicate FolderFits(devices: seq<Device>, g: Folder) {
    && StrictlySorted(g.devices, FolderDeviceLess)
    && (forall e :: e in g.devices ==> HasDevice(devices, e.id))
    && (forall e, d :: e in g.devices && d in devices && d.id == e.id && d.untrusted ==>
          e.encryptionPassword != "" || g.receiveEncrypted)
  }

  // prepareDevices leaves IDs and trust alone.
  lemma SameTrust(list: seq<Device>, trust: Trust, devices: seq<Device>)
    requires StrictlySorted(list, DeviceLess) && IsTrustOf(list, trust) && |devices| == |list|
    requires forall i :: 0 <= i < |list| ==> devices[i].id == list[i].id && devices[i].untrusted == list[i].untrusted
    ensures StrictlySorted(devices, DeviceLess) && IsTrustOf(devices, trust)
    ensures forall id :: HasDevice(devices, id) <==> HasDevice(list, id)
  {
    forall id ensures HasDevice(devices, id) <==> HasDevice(list, id) {
      if HasDevice(devices, id) {
        var i :| 0 <= i < |devices| && devices[i].id == id;
        assert list[i] in list && DeviceId(list[i]) == id;
      }
      if HasDevice(list, id) {
        var i :| 0 <= i < |list| && list[i].id == id;
        assert devices[i] in devices && DeviceId(devices[i]) == id;
      }
    }
    forall d | d in devices ensures trust[d.id] == d.untrusted {
      var i :| 0 <= i < |devices| && devices[i] == d;
      assert list[i] in list;
    }
  }

  lemma DevicesKept(a: Settings, me: DeviceID, deprecated: Deprecation, list: seq<Device>, trust: Trust,
                    b: Settings)
    requires PreparedVia(a, me, deprecated, list, trust, b)
    ensures StrictlySorted(b.devices, DeviceLess) && IsTrustOf(b.devices, trust)
    ensures forall id :: HasDevice(b.devices, id) <==> HasDevice(list, id)
  {
    hide FoldersPrepared, FolderPrepared, IgnoredPrepared, SharedWith, Filter, IsTrustOf;
    SameTrust(list, trust, b.devices);
  }

  // The invariant: whenever prepare succeeds, the parts of the configuration fit together.
  lemma PreparedIsWell(a: Settings, me: DeviceID, deprecated: Deprecation, b: Settings)
    requires Prepared(a, me, deprecated, b)
    ensures WellPrepared(b, me)
    ensures forall i, j :: 0 <= i < j < |b.devices| ==> b.devices[i].id < b.devices[j].id
    ensures forall i, j :: 0 <= i < j < |b.folders| ==> StringLess(b.folders[i].id, b.folders[j].id)
  {
    var list: seq<Device>, trust: Trust :| PreparedVia(a, me, deprecated, list, trust, b);
    DevicesKept(a, me, deprecated, list, trust, b);
    FoldersFit(a, me, deprecated, list, trust, b);
    IgnoredFoldersFit(a, me, deprecated, list, trust, b);
    DevicesFit(a, me, deprecated, list, trust, b);
    hide DevicePrepared, FoldersPrepared, FolderPrepared, FolderFits, SharedWith;
    forall x | x in b.ignoredDevices ensures !HasDevice(b.devices, x.id) {
      assert x.id !in trust;
    }
    Ascending(b.devices, b.folders);
  }

  lemma Ascending(devices: seq<Device>, folders: seq<Folder>)
    requires StrictlySorted(devices, DeviceLess) && StrictlySorted(folders, FolderLess)
    ensures forall i, j :: 0 <= i < j < |devices| ==> devices[i].id < devices[j].id
    ensures forall i, j :: 0 <= i < j < |folders| ==> StringLess(folders[i].id, folders[j].id)
  {
    hide StringLess;
    forall i, j | 0 <= i < j < |devices| ensures devices[i].id < devices[j].id {
      assert DeviceLess(devices[i], devices[j]);
    }
    forall i, j | 0 <= i < j < |folders| ensures StringLess(folders[i].id, folders[j].id) {
      assert FolderLess(folders[i], folders[j]);
    }
  }

  lemma DevicesFit(a: Settings, me: DeviceID, deprecated: Deprecation, list: seq<Device>, trust: Trust,
                   b: Settings)
    requires PreparedVia(a, me, deprecated, list, trust, b)
    ensures forall d :: d in b.devices ==>
              d.id != EMPTY_ID && (d.untrusted ==> !d.introducer && !d.autoAcceptFolders)
    ensures StrictlySorted(b.folders, FolderLess) && forall g :: g in b.folders ==> g.id != []
  {
    hide FolderPrepared, SharedWith, Filter, SettledAddresses, IgnoredPrepared;
    forall d | d in b.devices ensures d.id != EMPTY_ID && (d.untrusted ==> !d.introducer && !d.autoAcceptFolders) {
      var i :| 0 <= i < |b.devices| && b.devices[i] == d;
      assert DevicePrepared(list[i], SharedWith(b.folders, list[i].id), b.devices[i]);
      assert HasDevice(list, d.id) by { assert DeviceId(list[i]) == d.id; }
    }
  }

  lemma FoldersFit(a: Settings, me: DeviceID, deprecated: Deprecation, list: seq<Device>, trust: Trust,
                    b: Settings)
    requires PreparedVia(a, me, deprecated, list, trust, b) && IsTrustOf(b.devices, trust)
    ensures forall g :: g in b.folders ==> FolderFits(b.devices, g)
  {
    hide FoldersPrepared, FolderPrepared, DevicePrepared, SharedWith, Filter, FolderFits, IsTrustOf;
    forall g | g in b.folders ensures FolderFits(b.devices, g) {
      var f := PreparedFrom(a.folders, me, trust, b.folders, g);
      FolderFitsDevices(f, me, trust, g, b.devices);
    }
  }

  lemma PreparedFrom(fs: seq<Folder>, me: DeviceID, trust: Trust, gs: seq<Folder>, g: Folder) returns (f: Folder)
    requires FoldersPrepared(fs, me, trust, gs) && g in gs
    ensures f in fs && FolderPrepared(f, me, trust, g)
  {
    hide FolderPrepared;
    var each :| EachPrepared(fs, me, trust, each) && multiset(gs) == multiset(each);
    SameElements(each, gs);
    var j :| 0 <= j < |each| && each[j] == g;
    f := fs[j];
  }

  lemma PreparedTo(fs: seq<Folder>, me: DeviceID, trust: Trust, gs: seq<Folder>, f: Folder) returns (g: Folder)
    requires FoldersPrepared(fs, me, trust, gs) && f in fs
    ensures g in gs && FolderPrepared(f, me, trust, g)
  {
    hide FolderPrepared;
    var each :| EachPrepared(fs, me, trust, each) && multiset(gs) == multiset(each);
    SameElements(each, gs);
    var j :| 0 <= j < |fs| && fs[j] == f;
    g := each[j];
  }

  lemma FolderFitsDevices(f: Folder, me: DeviceID, trust: Trust, g: Folder, devices: seq<Device>)
    requires FolderPrepared(f, me, trust, g) && IsTrustOf(devices, trust)
    ensures FolderFits(devices, g)
  {
    forall e, d | e in g.devices && d in devices && d.id == e.id && d.untrusted
      ensures e.encryptionPassword != "" || g.receiveEncrypted
    {
      assert trust[d.id] == d.untrusted;
      assert Permitted(f.receiveEncrypted, trust, e);
    }
  }

  lemma IgnoredFoldersFit(a: Settings, me: DeviceID, deprecated: Deprecation, list: seq<Device>, trust: Trust,
                    b: Settings)
    requires PreparedVia(a, me, deprecated, list, trust, b)
    ensures forall d, g :: d in b.devices && g in b.folders && ListsDevice(g.devices, d.id) ==>
              !ListsFolder(d.ignoredFolders, g.id)
  {
    hide FoldersPrepared, FolderPrepared, Filter;
    forall d, g | d in b.devices && g in b.folders && ListsDevice(g.devices, d.id)
      ensures !ListsFolder(d.ignoredFolders, g.id)
    {
      var i :| 0 <= i < |b.devices| && b.devices[i] == d;
      assert DevicePrepared(list[i], SharedWith(b.folders, list[i].id), b.devices[i]);
      assert g.id in SharedWith(b.folders, d.id);
    }
  }

  // ---------- what prepare keeps ----------

  // Nothing but duplicates and what is named here gets lost or changed: every device and folder is
  // still there, a trusted device keeps its flags, exactly the deprecated addresses go, and an ignored
  // device or folder is dropped only where it was added or shared.
  lemma PrepareKeeps(a: Settings, me: DeviceID, deprecated: Deprecation, b: Settings)
    requires Prepared(a, me, deprecated, b)
    ensures forall d :: d in a.devices && d.id != 0 ==> exists x :: x in b.devices && x.id == d.id
    ensures forall x :: x in b.devices ==>
              exists d :: IsSource(a.devices, me, d) && KeepsDevice(deprecated, d, b.folders, x)
    ensures |b.folders| == |a.folders|
    ensures forall f :: f in a.folders ==> exists g :: g in b.folders && KeepsFolder(b.devices, me, f, g)
    ensures forall x :: x in b.ignoredDevices <==> x in a.ignoredDevices && forall d :: d in b.devices ==> d.id != x.id
    ensures b.defaultFolder.id == [] && KeepsFolder(b.devices, me, a.defaultFolder.(id := []), b.defaultFolder)
    ensures b.defaultDevice.id == 0 && (b.defaultDevice.untrusted <==> a.defaultDevice.untrusted)
    ensures forall s :: s in b.listenAddresses <==> IsTrimOf(a.listenAddresses, s) && !deprecated(s)
  {
    UniqueTrimmedElements(a.listenAddresses);
    var list: seq<Device>, trust: Trust :| PreparedVia(a, me, deprecated, list, trust, b);
    hide DeviceListPrepared, IsTrustOf, DevicePrepared, FolderPrepared, FoldersPrepared, SharedWith;
    hide IsSource, KeepsDevice, KeepsFolder, SettledAddresses, UniqueTrimmed, IsTrimOf;
    DevicesKept(a, me, deprecated, list, trust, b);
    DevicesOf(a, me, deprecated, list, trust, b);
    FoldersOf(a, me, deprecated, list, trust, b);
    IgnoredOf(a, me, deprecated, list, trust, b);
    FolderKept(a.defaultFolder.(id := []), me, trust, b.defaultFolder, b.devices);
    FolderIs(a.defaultFolder.(id := []), me, trust, b.defaultFolder);
    DeviceIs(a.defaultDevice.(id := EMPTY_ID), {}, b.defaultDevice);
  }

  // d is one of the devices configured, or the entry added for ourselves.
  ghost predicate IsSource(devices: seq<Device>, me: DeviceID, d: Device) {
    d in devices || (d == Device(me, [], false, false, false, []) && forall x :: x in devices ==> x.id != me)
  }

  ghost predicate KeepsDevice(deprecated: Deprecation, d: Device, folders: seq<Folder>, x: Device) {
    && x.id == d.id && (x.untrusted <==> d.untrusted)
    && (!d.untrusted ==> (x.introducer <==> d.introducer) && (x.autoAcceptFolders <==> d.autoAcceptFolders))
    && (forall s :: s in x.addresses <==>
          !deprecated(s) && if d.addresses == [] || d.addresses == [""] then s == "dynamic" else s in d.addresses)
    && (forall o :: o in d.ignoredFolders ==>
          || (exists p :: p in x.ignoredFolders && p.id == o.id && o.time <= p.time)
          || (exists g, e :: g in folders && g.id == o.id && e in g.devices && e.id == d.id))
  }

  // Who a folder was shared with stays, unless that would hand it to an untrusted device.
  ghost predicate KeepsFolder(devices: seq<Device>, me: DeviceID, f: Folder, g: Folder) {
    && g.id == f.id && g.path == f.path && (g.receiveEncrypted <==> f.receiveEncrypted)
    && (forall e, d :: e in f.devices && d in devices && d.id == e.id && MayStay(f, e.id, d.untrusted) ==>
          exists y :: y in g.devices && y.id == e.id)
    && (forall d :: d in devices && d.id == me && me != 0 && (f.receiveEncrypted || !d.untrusted)
          ==> exists y :: y in g.devices && y.id == me)
  }

  lemma FolderKept(f: Folder, me: DeviceID, trust: Trust, g: Folder, devices: seq<Device>)
    requires FolderPrepared(f, me, trust, g) && IsTrustOf(devices, trust)
    ensures KeepsFolder(devices, me, f, g)
  {
    FolderIs(f, me, trust, g);
    hide FolderPrepared;
    forall d | d in devices ensures d.id in trust && trust[d.id] == d.untrusted {
      assert HasDevice(devices, d.id) by { assert DeviceId(d) == d.id; }
    }
  }

  lemma FoldersOf(a: Settings, me: DeviceID, deprecated: Deprecation, list: seq<Device>, trust: Trust, b: Settings)
    requires PreparedVia(a, me, deprecated, list, trust, b) && IsTrustOf(b.devices, trust)
    ensures |b.folders| == |a.folders|
    ensures forall f :: f in a.folders ==> exists g :: g in b.folders && KeepsFolder(b.devices, me, f, g)
  {
    assert FoldersPrepared(a.folders, me, trust, b.folders);
    hide FolderPrepared, DevicePrepared, KeepsFolder;
    var each :| EachPrepared(a.folders, me, trust, each) && multiset(b.folders) == multiset(each);
    SameElements(b.folders, each);
    forall f | f in a.folders ensures exists g :: g in b.folders && KeepsFolder(b.devices, me, f, g) {
      var g := PreparedTo(a.folders, me, trust, b.folders, f);
      FolderKept(f, me, trust, g, b.devices);
    }
  }

  lemma IgnoredOf(a: Settings, me: DeviceID, deprecated: Deprecation, list: seq<Device>, trust: Trust, b: Settings)
    requires PreparedVia(a, me, deprecated, list, trust, b) && IsTrustOf(b.devices, trust)
    ensures forall x :: x in b.ignoredDevices <==> x in a.ignoredDevices && forall d :: d in b.devices ==> d.id != x.id
  {
    hide FoldersPrepared, FolderPrepared, DevicePrepared, SharedWith;
    forall id ensures id in trust <==> exists d :: d in b.devices && d.id == id {
      if id in trust {
        var d :| d in b.devices && DeviceId(d) == id;
        assert d in b.devices && d.id == id;
      }
      if d :| d in b.devices && d.id == id {
        assert HasDevice(b.devices, id) by { assert DeviceId(d) == id; }
      }
    }
  }

  lemma DevicesOf(a: Settings, me: DeviceID, deprecated: Deprecation, list: seq<Device>, trust: Trust, b: Settings)
    requires PreparedVia(a, me, deprecated, list, trust, b)
    ensures forall d :: d in a.devices && d.id != 0 ==> exists x :: x in b.devices && x.id == d.id
    ensures forall x :: x in b.devices ==>
              exists d :: IsSource(a.devices, me, d) && KeepsDevice(deprecated, d, b.folders, x)
  {
    hide *;
    DevicesStay(a, me, deprecated, list, trust, b);
    forall x | x in b.devices
      ensures exists d :: IsSource(a.devices, me, d) && KeepsDevice(deprecated, d, b.folders, x)
    {
      var d := SourceOf(a, me, deprecated, list, trust, b, x);
    }
  }

  lemma DevicesStay(a: Settings, me: DeviceID, deprecated: Deprecation, list: seq<Device>, trust: Trust, b: Settings)
    requires PreparedVia(a, me, deprecated, list, trust, b)
    ensures forall d :: d in a.devices && d.id != 0 ==> exists x :: x in b.devices && x.id == d.id
  {
    hide FoldersPrepared, FolderPrepared, SharedWith, DeviceListPrepared, IsTrustOf, DevicePrepared;
    hide SettledAddresses, Filter, UniqueTrimmed;
    DeviceListIs(a.devices, me, list);
    forall d | d in a.devices && d.id != 0 ensures exists x :: x in b.devices && x.id == d.id {
      var y :| y in list && y.id == d.id;
      var i :| 0 <= i < |list| && list[i] == y;
      DeviceIs(list[i], SharedWith(b.folders, list[i].id), b.devices[i]);
      assert b.devices[i] in b.devices;
    }
  }

  lemma SourceOf(a: Settings, me: DeviceID, deprecated: Deprecation, list: seq<Device>, trust: Trust, b: Settings,
                 x: Device) returns (d: Device)
    requires PreparedVia(a, me, deprecated, list, trust, b) && x in b.devices
    ensures IsSource(a.devices, me, d) && KeepsDevice(deprecated, d, b.folders, x)
  {
    hide FoldersPrepared, FolderPrepared, SharedWith, DeviceListPrepared, IsTrustOf, DevicePrepared;
    hide SettledAddresses, Filter, UniqueTrimmed, IsSource, KeepsDevice;
    var i :| 0 <= i < |b.devices| && b.devices[i] == x;
    d := list[i];
    DeviceKept(deprecated, d, b.folders, x);
    ListedIsSource(a.devices, me, list, d);
  }

  lemma ListedIsSource(devices: seq<Device>, me: DeviceID, list: seq<Device>, d: Device)
    requires DeviceListPrepared(devices, me, list) && d in list
    ensures IsSource(devices, me, d)
  {
    hide DeviceListPrepared;
    DeviceListIs(devices, me, list);
  }

  lemma DeviceKept(deprecated: Deprecation, d: Device, folders: seq<Folder>, x: Device)
    requires DevicePrepared(d, SharedWith(folders, d.id), x)
    requires x.addresses == SettledAddresses(deprecated, d.addresses)
    ensures KeepsDevice(deprecated, d, folders, x)
  {
    DeviceIs(d, SharedWith(folders, d.id), x);
    forall o | o in d.ignoredFolders && o.id in SharedWith(folders, d.id)
      ensures exists g, e :: g in folders && g.id == o.id && e in g.devices && e.id == d.id
    {
      var g :| g in folders && ListsDevice(g.devices, d.id) && g.id == o.id;
      var e :| e in g.devices && FolderDeviceId(e) == d.id;
      assert g in folders && g.id == o.id && e in g.devices && e.id == d.id;
    }
  }

  // ---------- preparing twice ----------

  // Equal in everything but blank addresses and the order of ignored folders that carry the same time.
  ghost predicate SameDevices(s: seq<Device>, t: seq<Device>) {
    && |t| == |s|
    && forall i :: 0 <= i < |s| ==> SameDevice(s[i], t[i])
  }

  ghost predicate SameDevice(d: Device, r: Device) {
    && r == d.(addresses := r.addresses, ignoredFolders := r.ignoredFolders)
    && (forall o :: o in r.ignoredFolders <==> o in d.ignoredFolders)
    && (DistinctTimes(d.ignoredFolders) ==> r.ignoredFolders == d.ignoredFolders)
    && (r.addresses == d.addresses <==> !IsBlank(d.addresses))
  }

  // A device that the next prepare is sure to leave alone.
  predicate IsStable(d: Device) {
    !IsBlank(d.addresses) && DistinctTimes(d.ignoredFolders)
  }

  // A prepared device list is its own prepared list.
  lemma DeviceListIdempotent(devices: seq<Device>, me: DeviceID, list: seq<Device>)
    requires StrictlySorted(devices, DeviceLess) && (me != EMPTY_ID ==> HasDevice(devices, me))
    requires forall d :: d in devices ==> d.id != EMPTY_ID
    requires DeviceListPrepared(devices, me, list)
    ensures list == devices
  {
    forall d | d in list ensures d in devices {
      if d == NewDevice(me) {
        assert HasDevice(list, me) by { assert DeviceId(d) == me; }
      }
    }
    forall d | d in devices ensures d in list {
      assert HasDevice(devices, d.id) by { assert DeviceId(d) == d.id; }
      var x :| x in list && DeviceId(x) == d.id;
      OneDevicePerId(devices, d, x);
    }
    StrictlySortedUnique(devices, list, DeviceLess);
  }

  lemma OneDevicePerId(devices: seq<Device>, x: Device, y: Device)
    requires StrictlySorted(devices, DeviceLess) && x in devices && y in devices && x.id == y.id
    ensures x == y
  {
    var i :| 0 <= i < |devices| && devices[i] == x;
    var j :| 0 <= j < |devices| && devices[j] == y;
  }

  lemma TrustIsUnique(devices: seq<Device>, t: Trust, u: Trust)
    requires IsTrustOf(devices, t) && IsTrustOf(devices, u)
    ensures t == u
  {
    assert t.Keys == u.Keys;
    forall id | id in t ensures t[id] == u[id] {
      var d :| d in devices && DeviceId(d) == id;
    }
  }

  lemma FoldersIdempotent(fs: seq<Folder>, me: DeviceID, trust: Trust, gs: seq<Folder>, hs: seq<Folder>)
    requires FoldersPrepared(fs, me, trust, gs) && FoldersPrepared(gs, me, trust, hs)
    ensures hs == gs
  {
    assert StrictlySorted(gs, FolderLess) && StrictlySorted(hs, FolderLess);
    hide FolderPrepared, FoldersPrepared, FolderLess;
    forall h | h in hs ensures h in gs {
      var g := PreparedFrom(gs, me, trust, hs, h);
      var f := PreparedFrom(fs, me, trust, gs, g);
      FolderIdempotent(f, me, trust, g, h);
    }
    forall g | g in gs ensures g in hs {
      var h := PreparedTo(gs, me, trust, hs, g);
      var f := PreparedFrom(fs, me, trust, gs, g);
      FolderIdempotent(f, me, trust, g, h);
    }
    FolderOrder();
    StrictlySortedUnique(gs, hs, FolderLess);
  }

  lemma DevicesSettleOnce(list: seq<Device>, folders: seq<Folder>, deprecated: Deprecation,
                          s: seq<Device>, t: seq<Device>)
    requires |t| == |s| == |list|
    requires forall i :: 0 <= i < |s| ==> DevicePrepared(list[i], SharedWith(folders, list[i].id), s[i])
    requires forall i :: 0 <= i < |s| ==> DevicePrepared(s[i], SharedWith(folders, s[i].id), t[i])
    requires forall i :: 0 <= i < |s| ==> s[i].addresses == SettledAddresses(deprecated, list[i].addresses)
    requires forall i :: 0 <= i < |s| ==> t[i].addresses == SettledAddresses(deprecated, s[i].addresses)
    ensures SameDevices(s, t)
  {
    hide SettledAddresses, SharedWith, IgnoredPrepared, DistinctTimes, IsBlank;
    forall i | 0 <= i < |s| ensures SameDevice(s[i], t[i]) {
      assert s[i].id == list[i].id;
      DeviceIdempotent(list[i], SharedWith(folders, list[i].id), s[i], t[i]);
      AddressesStayIff(deprecated, list[i].addresses);
    }
  }

  lemma StableDevicesStay(s: seq<Device>, t: seq<Device>)
    requires SameDevices(s, t) && forall d :: d in s ==> IsStable(d)
    ensures t == s
  {
    forall i | 0 <= i < |s| ensures t[i] == s[i] {
      StableDeviceStays(s[i], t[i]);
    }
  }

  lemma StableDeviceStays(d: Device, r: Device)
    requires SameDevice(d, r) && IsStable(d)
    ensures r == d
  {
  }

  // The device list of a prepared configuration is the one its folders are prepared with.
  lemma SameListAgain(a: Settings, me: DeviceID, deprecated: Deprecation, list: seq<Device>, trust: Trust, b: Settings,
                      list': seq<Device>, trust': Trust, c: Settings)
    requires PreparedVia(a, me, deprecated, list, trust, b) && PreparedVia(b, me, deprecated, list', trust', c)
    ensures list' == b.devices && trust' == trust
    ensures |list| == |b.devices| == |c.devices|
  {
    hide DevicePrepared, FolderPrepared, FoldersPrepared, SharedWith, SettledAddresses, Filter;
    PreparedIsWell(a, me, deprecated, b);
    DevicesKept(a, me, deprecated, list, trust, b);
    DeviceListIdempotent(b.devices, me, list');
    TrustIsUnique(b.devices, trust, trust');
  }

  lemma DefaultsIdempotent(a: Settings, me: DeviceID, deprecated: Deprecation, list: seq<Device>, trust: Trust,
                           b: Settings, c: Settings)
    requires PreparedVia(a, me, deprecated, list, trust, b) && PreparedVia(b, me, deprecated, b.devices, trust, c)
    ensures c.defaultFolder == b.defaultFolder && SameDevice(b.defaultDevice, c.defaultDevice)
    ensures c.ignoredDevices == b.ignoredDevices && c.listenAddresses == b.listenAddresses
  {
    assert b.defaultFolder.(id := []) == b.defaultFolder && b.defaultDevice.(id := EMPTY_ID) == b.defaultDevice;
    hide DeviceListPrepared, IsTrustOf, FoldersPrepared, SharedWith, SettledAddresses, IgnoredPrepared;
    FolderIdempotent(a.defaultFolder.(id := []), me, trust, b.defaultFolder, c.defaultFolder);
    DeviceIdempotent(a.defaultDevice.(id := EMPTY_ID), {}, b.defaultDevice, c.defaultDevice);
    FilterAll(b.ignoredDevices, NotAdded(trust));
    ListenAddressesStay(deprecated, a.listenAddresses);
  }

  // A second prepare under the same ID changes nothing, although it adds ourselves to every folder
  // anew and takes us out again where we are untrusted.
  lemma PrepareIsIdempotent(a: Settings, me: DeviceID, deprecated: Deprecation, b: Settings, c: Settings)
    requires Prepared(a, me, deprecated, b) && Prepared(b, me, deprecated, c)
    ensures c.folders == b.folders && c.ignoredDevices == b.ignoredDevices && c.listenAddresses == b.listenAddresses
    ensures SameDevices(b.devices, c.devices)
    ensures c.defaultFolder == b.defaultFolder && SameDevice(b.defaultDevice, c.defaultDevice)
    ensures (forall d :: d in b.devices + [b.defaultDevice] ==> IsStable(d)) ==> c == b
  {
    hide DeviceListPrepared, IsTrustOf, DevicePrepared, FolderPrepared, FoldersPrepared, SharedWith, Filter;
    hide SettledAddresses, SameDevice, IsStable;
    var list: seq<Device>, trust: Trust :| PreparedVia(a, me, deprecated, list, trust, b);
    var list': seq<Device>, trust': Trust :| PreparedVia(b, me, deprecated, list', trust', c);
    SameListAgain(a, me, deprecated, list, trust, b, list', trust', c);
    FoldersIdempotent(a.folders, me, trust, b.folders, c.folders);
    DefaultsIdempotent(a, me, deprecated, list, trust, b, c);
    DevicesSettleOnce(list, b.folders, deprecated, b.devices, c.devices);
    if forall d :: d in b.devices + [b.defaultDevice] ==> IsStable(d) {
      StableDevicesStay(b.devices, c.devices);
      assert b.defaultDevice in b.devices + [b.defaultDevice];
      StableDeviceStays(b.defaultDevice, c.defaultDevice);
    }
  }
}
