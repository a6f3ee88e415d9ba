// lib/config: what Configuration.prepare makes of a loaded configuration. Devices, folders, the
// folders' device lists, ignored devices and ignored folders are made consistent with each other.
module Config {
  import opened Common
  import opened Sorting
  import opened SliceUtil

  // A device ID is 32 bytes; it is modelled as the number those bytes spell, so that Compare is <.
  type DeviceID = nat
  const EMPTY_ID: DeviceID := 0
  type FolderID = seq<byte>

  datatype ObservedFolder = ObservedFolder(id: FolderID, time: int)
  datatype ObservedDevice = ObservedDevice(id: DeviceID, time: int)
  datatype Device = Device(id: DeviceID, addresses: seq<string>, untrusted: bool, introducer: bool,
                           autoAcceptFolders: bool, ignoredFolders: seq<ObservedFolder>)
  datatype FolderDevice = FolderDevice(id: DeviceID, introducedBy: DeviceID, encryptionPassword: string)
  datatype Folder = Folder(id: FolderID, path: string, receiveEncrypted: bool, devices: seq<FolderDevice>)

  datatype Error = FolderIDEmpty | FolderPathEmpty(id: FolderID) | FolderIDDuplicate(id: FolderID)

  // What the rest of prepare reads through existingDevices: which devices there are, and whether
  // each is untrusted.
  type Trust = map<DeviceID, bool>

  function NewDevice(id: DeviceID): Device { Device(id, [], false, false, false, []) }
  function NewFolderDevice(id: DeviceID): FolderDevice { FolderDevice(id, EMPTY_ID, "") }

  predicate DeviceLess(a: Device, b: Device) { a.id < b.id }
  predicate FolderDeviceLess(a: FolderDevice, b: FolderDevice) { a.id < b.id }
  predicate FolderLess(a: Folder, b: Folder) { StringLess(a.id, b.id) }
  predicate TimeLess(a: ObservedFolder, b: ObservedFolder) { a.time < b.time }

  lemma FolderOrder()
    ensures StrictWeakOrder(FolderLess)
  {
    forall a, b ensures FolderLess(a, b) ==> !FolderLess(b, a) { StringLessAsymmetric(a.id, b.id); }
    forall a, b, c ensures !FolderLess(b, a) && !FolderLess(c, b) ==> !FolderLess(c, a) {
      StringLessTransitive(a.id, b.id, c.id);
    }
  }

  function DeviceId(d: Device): nat { d.id }
  function FolderDeviceId(d: FolderDevice): nat { d.id }

  ghost predicate ListsDevice(s: seq<FolderDevice>, id: DeviceID) { HasId(s, FolderDeviceId, id) }
  ghost predicate HasDevice(s: seq<Device>, id: DeviceID) { HasId(s, DeviceId, id) }

  // ---------- the device list ----------

  // What prepareDeviceList promises: sorted, no duplicates, no empty IDs, and ourselves included.
  ghost predicate DeviceListPrepared(devices: seq<Device>, me: DeviceID, r: seq<Device>) {
    && StrictlySorted(r, DeviceLess)
    && (forall d :: d in r ==> d in devices || (d == NewDevice(me) && !HasDevice(devices, me)))
    && (forall id :: HasDevice(r, id) <==> id != EMPTY_ID && (HasDevice(devices, id) || id == me))
  }

  // The same in plain terms.
  lemma DeviceListIs(devices: seq<Device>, me: DeviceID, r: seq<Device>)
    requires DeviceListPrepared(devices, me, r)
    ensures forall i, j :: 0 <= i < j < |r| ==> r[i].id < r[j].id
    ensures forall d :: d in r ==> d.id != 0
    ensures forall d :: d in r && d !in devices ==> d == Device(me, [], false, false, false, [])
    ensures forall d :: d in r && d !in devices ==> forall x :: x in devices ==> x.id != me
    ensures forall d :: d in devices && d.id != 0 ==> exists x :: x in r && x.id == d.id
    ensures me != 0 ==> exists x :: x in r && x.id == me
  {
    forall i, j | 0 <= i < j < |r| ensures r[i].id < r[j].id {
      assert DeviceLess(r[i], r[j]);
    }
    forall d | d in r ensures d.id != 0 {
      assert HasDevice(r, d.id) by { assert DeviceId(d) == d.id; }
    }
    forall d | d in r && d !in devices ensures forall x :: x in devices ==> x.id != me {
      forall x | x in devices ensures x.id != me {
        assert DeviceId(x) == x.id;
      }
    }
    forall d | d in devices && d.id != 0 ensures exists x :: x in r && x.id == d.id {
      assert HasDevice(devices, d.id) by { assert DeviceId(d) == d.id; }
      var x :| x in r && DeviceId(x) == d.id;
    }
    if me != 0 {
      assert HasDevice(r, me);
      var x :| x in r && DeviceId(x) == me;
    }
  }

  method EnsureMyDevice(devices: seq<Device>, me: DeviceID) returns (r: seq<Device>)
    ensures r == if me == EMPTY_ID || HasDevice(devices, me) then devices else devices + [NewDevice(me)]
  {
    if me == EMPTY_ID {
      return devices;
    }
    for i := 0 to |devices|
      invariant forall d :: d in devices[..i] ==> d.id != me
    {
      if devices[i].id == me {
        assert devices[i] in devices;
        return devices;
      }
      assert devices[..i + 1] == devices[..i] + [devices[i]];
    }
    assert devices[..|devices|] == devices;
    return devices + [NewDevice(me)];
  }

  method PrepareDeviceList(devices: seq<Device>, me: DeviceID) returns (r: seq<Device>, existingDevices: Trust)
    ensures DeviceListPrepared(devices, me, r)
    ensures IsTrustOf(r, existingDevices)
  {
    var withMe := EnsureMyDevice(devices, me);
    var unique := RemoveDuplicates(withMe, DeviceId, true);
    r := Sort(unique, DeviceLess);
    DistinctSorted(unique, r);
    ListWithMe(devices, me, withMe, unique, r);
    existingDevices := map[];
    for i := 0 to |r|
      invariant IsTrustOf(r[..i], existingDevices)
    {
      TrustOfOneMore(r, i, existingDevices);
      existingDevices := existingDevices[r[i].id := r[i].untrusted];
    }
    assert r[..|r|] == r;
  }

  ghost predicate IsTrustOf(devices: seq<Device>, trust: Trust) {
    && (forall id :: id in trust <==> HasDevice(devices, id))
    && (forall d :: d in devices ==> trust[d.id] == d.untrusted)
  }

  lemma TrustOfOneMore(devices: seq<Device>, i: nat, trust: Trust)
    requires i < |devices| && StrictlySorted(devices, DeviceLess) && IsTrustOf(devices[..i], trust)
    ensures IsTrustOf(devices[..i + 1], trust[devices[i].id := devices[i].untrusted])
  {
    assert devices[..i + 1] == devices[..i] + [devices[i]];
    forall d | d in devices[..i] ensures d.id != devices[i].id {
      var k :| 0 <= k < i && devices[k] == d;
      assert DeviceLess(devices[k], devices[i]);
    }
    TrustOfAppend(devices[..i], devices[i], trust);
  }

  lemma TrustOfAppend(devices: seq<Device>, last: Device, trust: Trust)
    requires IsTrustOf(devices, trust) && forall d :: d in devices ==> d.id != last.id
    ensures IsTrustOf(devices + [last], trust[last.id := last.untrusted])
  {
    forall id ensures HasDevice(devices + [last], id) <==> HasDevice(devices, id) || id == last.id {
      HasIdAppend(devices, last, DeviceId, id);
    }
    forall d | d in devices + [last] ensures trust[last.id := last.untrusted][d.id] == d.untrusted {
      assert d in devices ==> HasDevice(devices, d.id) by { assert d in devices ==> DeviceId(d) == d.id; }
    }
  }

  lemma HasIdAppend<T(!new)>(s: seq<T>, x: T, id: T -> nat, d: nat)
    ensures HasId(s + [x], id, d) <==> HasId(s, id, d) || d == id(x)
  {
    assert x in s + [x];
    if HasId(s, id, d) {
      var y :| y in s && id(y) == d;
      assert y in s + [x];
    }
  }

  lemma DistinctSorted(unique: seq<Device>, r: seq<Device>)
    requires DistinctIds(unique, DeviceId, true) && multiset(r) == multiset(unique) && Sorted(r, DeviceLess)
    ensures StrictlySorted(r, DeviceLess)
  {
    forall i, j | 0 <= i < j < |r| ensures DeviceLess(r[i], r[j]) {
      DistinctAfterSort(unique, r, DeviceId, i, j);
    }
  }

  lemma ListWithMe(devices: seq<Device>, me: DeviceID, withMe: seq<Device>, unique: seq<Device>, r: seq<Device>)
    requires withMe == if me == EMPTY_ID || HasDevice(devices, me) then devices else devices + [NewDevice(me)]
    requires multiset(unique) <= multiset(withMe) && multiset(r) == multiset(unique)
    requires forall d :: HasId(unique, DeviceId, d) <==> HasId(withMe, DeviceId, d) && d != EMPTY_ID
    ensures forall d :: d in r ==> d in devices || (d == NewDevice(me) && !HasDevice(devices, me))
    ensures forall id :: HasDevice(r, id) <==> id != EMPTY_ID && (HasDevice(devices, id) || id == me)
  {
    SameElements(r, unique);
    forall d | d in r ensures d in withMe {
      assert d in multiset(r) && d in multiset(withMe);
    }
    forall id ensures HasDevice(r, id) <==> HasDevice(unique, id) {
    }
    forall id ensures HasDevice(withMe, id) <==> HasDevice(devices, id) || (id == me && me != EMPTY_ID) {
      HasIdAppend(devices, NewDevice(me), DeviceId, id);
    }
  }

  // ---------- the device list of a folder ----------

  // Whether the folder may be shared with e.
  predicate Permitted(receiveEncrypted: bool, trust: Trust, e: FolderDevice) {
    e.encryptionPassword != "" || receiveEncrypted || !(e.id in trust && trust[e.id])
  }

  // What FolderConfiguration.prepare promises: sorted, no duplicates, only existing devices, none
  // that must not be trusted; and no other device of the list, nor ourselves, is missing.
  ghost predicate FolderPrepared(f: Folder, me: DeviceID, trust: Trust, g: Folder) {
    && g == f.(devices := g.devices)
    && StrictlySorted(g.devices, FolderDeviceLess)
    && (forall e :: e in g.devices ==> Permitted(f.receiveEncrypted, trust, e) && e.id in trust)
    && (forall e :: e in g.devices ==> e in f.devices || IsAdded(f, me, e))
    && (forall id :: Wanted(f, me, trust, id) ==> ListsDevice(g.devices, id) || HasForbidden(f, me, trust, id))
  }

  ghost predicate Wanted(f: Folder, me: DeviceID, trust: Trust, id: DeviceID) {
    id in trust && (ListsDevice(f.devices, id) || (id == me && me != EMPTY_ID))
  }

  // An entry for id that would share the folder in trusted mode with an untrusted device.
  ghost predicate HasForbidden(f: Folder, me: DeviceID, trust: Trust, id: DeviceID) {
    exists e: FolderDevice ::
      e.id == id && (e in f.devices || IsAdded(f, me, e)) && !Permitted(f.receiveEncrypted, trust, e)
  }

  // e is the entry that prepare adds for ourselves when the folder has none.
  ghost predicate IsAdded(f: Folder, me: DeviceID, e: FolderDevice) {
    e == NewFolderDevice(me) && me != EMPTY_ID && !ListsDevice(f.devices, me)
  }

  // The folder's entries for a device are no danger, since the device is trusted or sees nothing.
  ghost predicate MayStay(f: Folder, id: DeviceID, untrusted: bool) {
    f.receiveEncrypted || !untrusted || forall x :: x in f.devices && x.id == id ==> x.encryptionPassword != ""
  }

  // What that means for the sharing: the list is in ascending order; whoever is on it is known, was on
  // it before or is ourselves, and may be; and who was on it and may be stays, as do we.
  lemma FolderIs(f: Folder, me: DeviceID, trust: Trust, g: Folder)
    requires FolderPrepared(f, me, trust, g)
    ensures g.id == f.id && g.path == f.path && (g.receiveEncrypted <==> f.receiveEncrypted)
    ensures forall i, j :: 0 <= i < j < |g.devices| ==> g.devices[i].id < g.devices[j].id
    ensures forall e :: e in g.devices ==>
              e.id in trust && (e.encryptionPassword != "" || f.receiveEncrypted || !trust[e.id])
    ensures forall e :: e in g.devices && e !in f.devices ==> e == FolderDevice(me, 0, "") && me != 0
    ensures forall e :: e in g.devices && e !in f.devices ==> forall x :: x in f.devices ==> x.id != me
    ensures forall e :: e in f.devices && e.id in trust && MayStay(f, e.id, trust[e.id]) ==>
              exists y :: y in g.devices && y.id == e.id
    ensures me != 0 && me in trust && (f.receiveEncrypted || !trust[me]) ==> exists y :: y in g.devices && y.id == me
  {
    forall i, j | 0 <= i < j < |g.devices| ensures g.devices[i].id < g.devices[j].id {
      assert FolderDeviceLess(g.devices[i], g.devices[j]);
    }
    forall e | e in g.devices && e !in f.devices ensures forall x :: x in f.devices ==> x.id != me {
      forall x | x in f.devices ensures x.id != me {
        assert FolderDeviceId(x) == x.id;
      }
    }
    forall e | e in f.devices && e.id in trust && MayStay(f, e.id, trust[e.id])
      ensures exists y :: y in g.devices && y.id == e.id
    {
      assert ListsDevice(f.devices, e.id) by { assert FolderDeviceId(e) == e.id; }
      StaysListed(f, me, trust, g, e.id);
    }
    if me != 0 && me in trust && (f.receiveEncrypted || !trust[me]) {
      StaysListed(f, me, trust, g, me);
    }
  }

  lemma StaysListed(f: Folder, me: DeviceID, trust: Trust, g: Folder, id: DeviceID)
    requires FolderPrepared(f, me, trust, g) && Wanted(f, me, trust, id)
    requires f.receiveEncrypted || !trust[id] ||
               (ListsDevice(f.devices, id) && forall x :: x in f.devices && x.id == id ==> x.encryptionPassword != "")
    ensures exists y :: y in g.devices && y.id == id
  {
    assert !HasForbidden(f, me, trust, id);
    var y :| y in g.devices && FolderDeviceId(y) == id;
  }

  method EnsureDevicePresent(devices: seq<FolderDevice>, me: DeviceID) returns (r: seq<FolderDevice>)
    ensures r == if me == EMPTY_ID || ListsDevice(devices, me) then devices else devices + [NewFolderDevice(me)]
  {
    if me == EMPTY_ID {
      return devices;
    }
    for i := 0 to |devices|
      invariant forall d :: d in devices[..i] ==> d.id != me
    {
      if devices[i].id == me {
        assert devices[i] in devices;
        return devices;
      }
      assert devices[..i + 1] == devices[..i] + [devices[i]];
    }
    assert devices[..|devices|] == devices;
    return devices + [NewFolderDevice(me)];
  }

  function Existing(trust: Trust): FolderDevice -> bool {
    (e: FolderDevice) => e.id in trust
  }

  function PermittedIn(receiveEncrypted: bool, trust: Trust): FolderDevice -> bool {
    (e: FolderDevice) => Permitted(receiveEncrypted, trust, e)
  }

  // The lookup of a device is unguarded: a missing one would be a nil dereference. Every caller
  // has removed unknown devices first.
  method EnsureNoUntrustedTrustingSharing(f: Folder, devices: seq<FolderDevice>, existingDevices: Trust)
    returns (r: seq<FolderDevice>)
    requires forall e :: e in devices ==> e.id in existingDevices
    ensures r == Filter(devices, PermittedIn(f.receiveEncrypted, existingDevices))
    ensures forall e :: e in r <==>
              e in devices && (e.encryptionPassword != "" || f.receiveEncrypted || !existingDevices[e.id])
  {
    hide Filter, RemoveAndZero;
    var keep := PermittedIn(f.receiveEncrypted, existingDevices);
    r := devices;
    var i := 0;
    while i < |r|
      invariant 0 <= i <= |r|
      invariant forall e :: e in r ==> e.id in existingDevices
      invariant forall e :: e in r[..i] ==> keep(e)
      invariant Filter(r, keep) == Filter(devices, keep)
      decreases |r| - i
    {
      var dev := r[i];
      if dev.encryptionPassword == "" && !f.receiveEncrypted && existingDevices[dev.id] {
        RemoveUnwanted(r, i, keep);
        StillIn(r, i);
        r := RemoveAndZero(r, i);
        continue;
      }
      assert keep(r[i]) && r[..i + 1] == r[..i] + [r[i]];
      i := i + 1;
    }
    assert r[..|r|] == r;
    FilterAll(r, keep);
  }

  lemma StillIn<T>(s: seq<T>, i: nat)
    requires i < |s|
    ensures forall x :: x in RemoveAndZero(s, i) ==> x in s
  {
  }

  method PrepareFolder(f: Folder, me: DeviceID, existingDevices: Trust) returns (g: Folder)
    requires me != EMPTY_ID ==> me in existingDevices
    ensures FolderPrepared(f, me, existingDevices, g)
  {
    var existing := RetainBySwapping(f.devices, Existing(existingDevices));
    var unique := RemoveDuplicates(existing, FolderDeviceId, false);
    KnownDevices(f.devices, existing, unique, existingDevices);
    var present := EnsureDevicePresent(unique, me);
    var trusted := EnsureNoUntrustedTrustingSharing(f, present, existingDevices);
    var sorted := Sort(trusted, FolderDeviceLess);
    g := f.(devices := sorted);
    PresentIsDistinct(unique, me, present);
    FilteredIsDistinct(present, PermittedIn(f.receiveEncrypted, existingDevices));
    forall i, j | 0 <= i < j < |sorted| ensures FolderDeviceLess(sorted[i], sorted[j]) {
      DistinctAfterSort(trusted, sorted, FolderDeviceId, i, j);
    }
    FolderListComplete(f, me, existingDevices, unique, present, g);
  }

  lemma KnownDevices(devices: seq<FolderDevice>, existing: seq<FolderDevice>, unique: seq<FolderDevice>, trust: Trust)
    requires multiset(existing) == multiset(Filter(devices, Existing(trust))) && multiset(unique) <= multiset(existing)
    requires forall d :: HasId(unique, FolderDeviceId, d) <==> HasId(existing, FolderDeviceId, d)
    ensures forall e :: e in unique ==> e in devices && e.id in trust
    ensures forall id :: ListsDevice(unique, id) <==> ListsDevice(devices, id) && id in trust
  {
    SameElements(existing, Filter(devices, Existing(trust)));
    forall e | e in unique ensures e in devices && e.id in trust {
      assert e in multiset(unique) && e in multiset(existing);
    }
    forall id ensures ListsDevice(existing, id) <==> ListsDevice(devices, id) && id in trust {
      if ListsDevice(devices, id) && id in trust {
        var e :| e in devices && FolderDeviceId(e) == id;
        assert e in existing;
      }
    }
  }

  lemma PresentIsDistinct(unique: seq<FolderDevice>, me: DeviceID, present: seq<FolderDevice>)
    requires DistinctIds(unique, FolderDeviceId, false)
    requires present == if me == EMPTY_ID || ListsDevice(unique, me) then unique else unique + [NewFolderDevice(me)]
    ensures DistinctIds(present, FolderDeviceId, false)
    ensures forall id :: ListsDevice(present, id) <==> ListsDevice(unique, id) || (id == me && me != EMPTY_ID)
  {
    if present != unique {
      OneMore(unique, NewFolderDevice(me), FolderDeviceId, false);
    }
  }

  lemma {:induction false} FilteredIsDistinct(s: seq<FolderDevice>, keep: FolderDevice -> bool)
    requires DistinctIds(s, FolderDeviceId, false)
    ensures DistinctIds(Filter(s, keep), FolderDeviceId, false)
    decreases |s|
  {
    if s != [] {
      FilteredIsDistinct(s[1..], keep);
      var tail := Filter(s[1..], keep);
      forall k | 0 <= k < |tail| ensures FolderDeviceId(tail[k]) != FolderDeviceId(s[0]) {
        assert tail[k] in s[1..];
      }
    }
  }

  lemma FolderListComplete(f: Folder, me: DeviceID, trust: Trust, unique: seq<FolderDevice>,
                           present: seq<FolderDevice>, g: Folder)
    requires me != EMPTY_ID ==> me in trust
    requires forall e :: e in unique ==> e in f.devices && e.id in trust
    requires forall id :: ListsDevice(unique, id) <==> ListsDevice(f.devices, id) && id in trust
    requires present == if me == EMPTY_ID || ListsDevice(unique, me) then unique else unique + [NewFolderDevice(me)]
    requires forall id :: ListsDevice(present, id) <==> ListsDevice(unique, id) || (id == me && me != EMPTY_ID)
    requires g == f.(devices := g.devices) && StrictlySorted(g.devices, FolderDeviceLess)
    requires forall e :: e in g.devices <==> e in present && Permitted(f.receiveEncrypted, trust, e)
    ensures FolderPrepared(f, me, trust, g)
  {
    forall e | e in g.devices ensures e in f.devices || IsAdded(f, me, e) {
      assert e in present;
    }
    forall id | Wanted(f, me, trust, id) ensures ListsDevice(g.devices, id) || HasForbidden(f, me, trust, id) {
      assert ListsDevice(present, id);
      var e :| e in present && FolderDeviceId(e) == id;
      if Permitted(f.receiveEncrypted, trust, e) {
        assert e in g.devices;
      }
    }
  }

  // A folder that was prepared once does not change when it is prepared again: we may be re-added
  // to it, but only to be removed once more as untrusted.
  lemma FolderIdempotent(f: Folder, me: DeviceID, trust: Trust, g: Folder, h: Folder)
    requires FolderPrepared(f, me, trust, g) && FolderPrepared(g, me, trust, h)
    ensures h == g
  {
    forall e | e in h.devices ensures e in g.devices {
      // an entry that is not in g is ourselves, wanted but refused the first time
      assert Wanted(f, me, trust, me) && !ListsDevice(g.devices, me) ==> HasForbidden(f, me, trust, me);
    }
    forall e | e in g.devices ensures e in h.devices {
      assert ListsDevice(g.devices, e.id) by { assert FolderDeviceId(e) == e.id; }
      assert Wanted(g, me, trust, e.id) && !HasForbidden(g, me, trust, e.id);
      var y :| y in h.devices && FolderDeviceId(y) == e.id;
      OneEntryPerId(g.devices, e, y);
    }
    StrictlySortedUnique(g.devices, h.devices, FolderDeviceLess);
  }

  lemma OneEntryPerId(devices: seq<FolderDevice>, x: FolderDevice, y: FolderDevice)
    requires StrictlySorted(devices, FolderDeviceLess) && x in devices && y in devices && x.id == y.id
    ensures x == y
  {
    var i :| 0 <= i < |devices| && devices[i] == x;
    var j :| 0 <= j < |devices| && devices[j] == y;
  }
}
