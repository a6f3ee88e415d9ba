// database.go: the record store. It holds encoded, partly expired bytes and writes them through
// one reused buffer; to its users it is the log of everything ever announced.
module Store {
  import opened Common
  import opened SliceUtil
  import Varint
  import opened Wire
  import opened Messages
  import opened Marshal
  import opened Unmarshal
  import opened Addresses

  type Key = seq<byte>
  type Database = map<Key, seq<byte>>

  ghost predicate Storable(db: Database) {
    forall k :: k in db ==> |db[k]| <= MAX_INT
  }

  // The record under key; nothing stored and nothing decodable both read as the empty record.
  function Stored(db: Database, key: Key): DatabaseRecord
    requires key in db ==> |db[key]| <= MAX_INT
  {
    if key !in db then NO_RECORD
    else
      match Decode(RECORD, db[key], NO_RECORD)
      case Ok(rec) => rec
      case Err(_) => NO_RECORD
  }

  // get: the stored record with its expired addresses removed.
  function Lookup(db: Database, key: Key, now: int64): DatabaseRecord
    requires key in db ==> |db[key]| <= MAX_INT
  {
    var rec := Stored(db, key);
    rec.(addresses := Filter(rec.addresses, NotExpired(now)))
  }

  // Only addresses are left out, and only expired ones: the counters and times are those stored.
  lemma LookupIs(db: Database, key: Key, now: int64)
    requires key in db ==> |db[key]| <= MAX_INT
    ensures key !in db ==> Lookup(db, key, now) == DatabaseRecord([], 0, 0, 0)
    ensures key in db ==>
      match Decode(RECORD, db[key], DatabaseRecord([], 0, 0, 0))
      case Err(_) => Lookup(db, key, now) == DatabaseRecord([], 0, 0, 0)
      case Ok(r) =>
        var rec := Lookup(db, key, now);
        && rec.misses == r.misses && rec.seen == r.seen && rec.missed == r.missed
        && multiset(rec.addresses) <= multiset(r.addresses)
        && forall e :: e in rec.addresses <==> e in r.addresses && e.expires >= now
  {
    hide DecodeFrom;
    FilterWithin(Stored(db, key).addresses, NotExpired(now));
  }

  // What merging addrs into old may leave.
  ghost predicate MergeResult(addrs: seq<DatabaseAddress>, seen: int64, prior: DatabaseRecord, rec: DatabaseRecord) {
    && Latest(rec.addresses) == Join(Latest(addrs), Latest(prior.addresses))
    && rec.seen == Max(seen, prior.seen) && rec.misses == 0 && rec.missed == 0
  }

  class LevelDBStore {
    var db: Database
    var marshalBuf: array<byte>

    ghost predicate Valid()
      reads this
    {
      Storable(db)
    }

    constructor ()
      ensures Valid() && db == map[] && fresh(marshalBuf)
    {
      db := map[];
      marshalBuf := new byte[0];
    }

    // The serialized part of put: marshal into the buffer, growing it when it is too short, and
    // store the bytes that were written. Earlier contents of the buffer never leak into db.
    method Put(key: Key, rec: DatabaseRecord)
      requires Valid() && |EncodeRecord(rec)| <= MAX_INT
      modifies this, marshalBuf
      ensures Valid() && (marshalBuf == old(marshalBuf) || fresh(marshalBuf))
      ensures db == old(db)[key := EncodeRecord(rec)]
      ensures Stored(db, key) == rec
    {
      hide EncodeRecord, DecodeFrom;
      var size := SizeOfRecord(rec);
      if marshalBuf.Length < size {
        marshalBuf := new byte[size];
      }
      var n := MarshalRecord(rec, marshalBuf, size);
      assert marshalBuf[..n] == EncodeRecord(rec);
      db := db[key := marshalBuf[..n]];
      RecordRoundTrip(rec);
    }

    method Get(key: Key, now: int64) returns (rec: DatabaseRecord)
      requires Valid()
      ensures rec == Lookup(db, key, now)
      ensures key !in db ==> rec == DatabaseRecord([], 0, 0, 0)
      ensures key in db ==>
        match Decode(RECORD, db[key], DatabaseRecord([], 0, 0, 0))
        case Err(_) => rec == DatabaseRecord([], 0, 0, 0)
        case Ok(r) =>
          && rec.misses == r.misses && rec.seen == r.seen && rec.missed == r.missed
          && forall e :: e in rec.addresses <==> e in r.addresses && e.expires >= now
      ensures Latest(rec.addresses) == Live(Latest(Stored(db, key).addresses), now)
    {
      ExpireIsLive(Stored(db, key).addresses, now);
      LookupIs(db, key, now);
      if key !in db {
        return NO_RECORD;
      }
      var message := new RecordMessage();
      var err := message.Unmarshal(db[key]);
      if err != None {
        return NO_RECORD;
      }
      var addresses := Expire(message.addresses, now);
      rec := DatabaseRecord(addresses, message.misses, message.seen, message.missed);
    }

    // The serialized part of merge: get, merge and put in one step.
    method Merge(key: Key, addrs: seq<DatabaseAddress>, seen: int64, now: int64) returns (ghost rec: DatabaseRecord)
      requires Valid()
      requires |EncodeAddresses(0x0a, addrs)| + |EncodeAddresses(0x0a, Stored(db, key).addresses)| + 33 <= MAX_INT
      modifies this, marshalBuf
      ensures Valid() && (marshalBuf == old(marshalBuf) || fresh(marshalBuf))
      ensures MergeResult(addrs, seen, Lookup(old(db), key, now), rec)
      ensures db == old(db)[key := EncodeRecord(rec)] && Stored(db, key) == rec
      ensures rec.misses == 0 && rec.missed == 0
      ensures key in old(db) && Decode(RECORD, old(db)[key], DatabaseRecord([], 0, 0, 0)).Ok? ==>
        var prior := Decode(RECORD, old(db)[key], DatabaseRecord([], 0, 0, 0)).value;
        && rec.seen >= seen && rec.seen >= prior.seen && rec.seen in {seen, prior.seen}
        && (forall e :: e in rec.addresses ==> e in addrs || (e in prior.addresses && e.expires >= now))
    {
      hide EncodeRecord, EncodeAddresses, DecodeFrom;
      var newRec := DatabaseRecord(addrs, 0, seen, 0);
      var oldRec := Get(key, now);
      newRec := Addresses.Merge(newRec, oldRec);
      rec := newRec;
      AmongBoth(rec.addresses, addrs, oldRec.addresses);
      FilterWithin(Stored(db, key).addresses, NotExpired(now));
      EncodingFits(rec, addrs, Stored(db, key).addresses);
      Put(key, newRec);
    }
  }

  lemma AmongBoth<T>(r: seq<T>, a: seq<T>, b: seq<T>)
    requires multiset(r) <= multiset(a) + multiset(b)
    ensures forall e :: e in r ==> e in a || e in b
  {
    forall e | e in r ensures e in a || e in b {
      assert e in multiset(r) && e in multiset(a) + multiset(b);
    }
  }

  // ---------- a merged record still fits ----------

  lemma {:induction false} FilterWithin<T(!new)>(s: seq<T>, keep: T -> bool)
    ensures multiset(Filter(s, keep)) <= multiset(s)
    decreases |s|
  {
    if s != [] {
      FilterWithin(s[1..], keep);
      assert s == [s[0]] + s[1..];
    }
  }

  // A list drawn from another encodes in no more bytes.
  lemma {:induction false} EncodingShrinks(x: seq<DatabaseAddress>, y: seq<DatabaseAddress>)
    requires multiset(x) <= multiset(y)
    ensures |EncodeAddresses(0x0a, x)| <= |EncodeAddresses(0x0a, y)|
    decreases |x|
  {
    hide EncodeAddress, DelimitedPart;
    if x != [] {
      assert x[0] in multiset(x) && x[0] in y;
      var i :| 0 <= i < |y| && y[i] == x[0];
      var before, after := y[..i], y[i + 1..];
      assert x == [x[0]] + x[1..] && y == before + ([x[0]] + after);
      assert multiset(x) == multiset{x[0]} + multiset(x[1..]);
      assert multiset(y) == multiset{x[0]} + multiset(before + after);
      Cancel(multiset{x[0]}, multiset(x[1..]), multiset(before + after));
      EncodingShrinks(x[1..], before + after);
      AddressesAppend(0x0a, before, [x[0]] + after);
      AddressesAppend(0x0a, [x[0]], after);
      AddressesAppend(0x0a, before, after);
      OneAddress(0x0a, x[0]);
    }
  }

  lemma Cancel<T>(a: multiset<T>, b: multiset<T>, c: multiset<T>)
    requires a + b <= a + c
    ensures b <= c
  {
    forall e ensures b[e] <= c[e] {
      assert (a + b)[e] == a[e] + b[e] && (a + c)[e] == a[e] + c[e];
    }
  }

  lemma EncodingFits(rec: DatabaseRecord, a: seq<DatabaseAddress>, b: seq<DatabaseAddress>)
    requires multiset(rec.addresses) <= multiset(a) + multiset(b)
    requires |EncodeAddresses(0x0a, a)| + |EncodeAddresses(0x0a, b)| + 33 <= MAX_INT
    ensures |EncodeRecord(rec)| <= MAX_INT
  {
    hide EncodeAddresses;
    EncodingShrinks(rec.addresses, a + b);
    AddressesAppend(0x0a, a, b);
    ScalarFits(0x10, AsUint64(rec.misses));
    ScalarFits(0x18, AsUint64(rec.seen));
    ScalarFits(0x20, AsUint64(rec.missed));
  }

  lemma ScalarFits(tag: byte, v: uint64)
    ensures |VarintPart(tag, v)| <= 11
  {
    Varint.SovAtMostTen(v);
    Varint.SovIsExact(v);
  }

  // ---------- the store as a log of announcements ----------

  datatype Announce = Announce(key: Key, addrs: seq<DatabaseAddress>)

  // Everything ever announced for key.
  function Known(history: seq<Announce>, key: Key): Expiries {
    if history == [] then map[]
    else
      var last, earlier := history[|history| - 1], Known(history[..|history| - 1], key);
      if last.key == key then Join(Latest(last.addrs), earlier) else earlier
  }

  // A write decided on the basis of an earlier read: a lookup that found nothing records the miss
  // with an empty address list, and the statistics routine deletes a record nobody asked for in a
  // long time. split tells whether a merge on the same key has happened since the read.
  datatype Pending = Pending(key: Key, write: Option<DatabaseRecord>, split: bool)

  datatype State = State(db: Database, now: int64, history: seq<Announce>, pending: map<nat, Pending>)

  datatype Event =
    | Tick(now: int64)
    | Merged(key: Key, addrs: seq<DatabaseAddress>, seen: int64, rec: DatabaseRecord)
    | ReadMiss(id: nat, key: Key, misses: int32, missed: int64)
    | ReadStale(id: nat, key: Key, t0: int64, cutoff2Mon: int64)
    | Complete(id: nat)

  predicate Initial(s: State) {
    s.db == map[] && s.history == [] && s.pending == map[]
  }

  function Split(pending: map<nat, Pending>, key: Key): map<nat, Pending> {
    map id | id in pending ::
      if pending[id].key == key then pending[id].(split := true) else pending[id]
  }

  function Write(db: Database, p: Pending): Database {
    match p.write
    case Some(rec) => db[p.key := EncodeRecord(rec)]
    case None => db - {p.key}
  }

  // One atomic step. The clock never goes back; a statistics pass reads its clock t0 before it
  // takes its snapshot of the database.
  ghost predicate Next(s: State, e: Event, s': State)
    requires Storable(s.db)
  {
    match e
    case Tick(now) => now >= s.now && s' == s.(now := now)
    case Merged(key, addrs, seen, rec) =>
      && MergeResult(addrs, seen, Lookup(s.db, key, s.now), rec)
      && |EncodeRecord(rec)| <= MAX_INT
      && s' == s.(db := s.db[key := EncodeRecord(rec)],
                  history := s.history + [Announce(key, addrs)],
                  pending := Split(s.pending, key))
    case ReadMiss(id, key, misses, missed) =>
      && id !in s.pending && Lookup(s.db, key, s.now).addresses == []
      && s' == s.(pending := s.pending[id := Pending(key,
                  Some(DatabaseRecord([], misses, Stored(s.db, key).seen, missed)), false)])
    case ReadStale(id, key, t0, cutoff2Mon) =>
      && id !in s.pending && key in s.db && t0 <= s.now
      && Lookup(s.db, key, t0).addresses == []
      && Stored(s.db, key).seen <= cutoff2Mon && Stored(s.db, key).missed < cutoff2Mon
      && s' == s.(pending := s.pending[id := Pending(key, None, false)])
    case Complete(id) =>
      && id in s.pending
      && s' == s.(db := Write(s.db, s.pending[id]), pending := s.pending - {id})
  }

  // A run, newest event last; unsplit runs complete no write whose read a merge has overtaken.
  ghost predicate Run(events: seq<Event>, states: seq<State>)
  {
    && |states| == |events| + 1 && Initial(states[0])
    && (forall i :: 0 <= i < |states| ==> Storable(states[i].db))
    && (forall i :: 0 <= i < |events| ==> Next(states[i], events[i], states[i + 1]))
  }

  ghost predicate Unsplit(s: State, e: Event) {
    e.Complete? && e.id in s.pending ==> !s.pending[e.id].split
  }

  // What the store knows and what it should know, as far as anyone can see at time now.
  ghost predicate Agrees(s: State, key: Key)
    requires Storable(s.db)
  {
    Live(Latest(Stored(s.db, key).addresses), s.now) == Live(Known(s.history, key), s.now)
  }

  ghost predicate Inv(s: State) {
    && Storable(s.db)
    && (forall key :: Agrees(s, key))
    && (forall id :: id in s.pending ==> WritesNoAddress(s.pending[id]))
    && (forall id :: id in s.pending && !s.pending[id].split ==>
          Live(Known(s.history, s.pending[id].key), s.now) == map[])
  }

  predicate WritesNoAddress(p: Pending) {
    p.write.Some? ==> p.write.value.addresses == []
  }

  lemma LiveLater(m: Expiries, now: int64, later: int64)
    requires now <= later
    ensures Live(Live(m, now), later) == Live(m, later)
    ensures Live(m, now) == map[] ==> Live(m, later) == map[]
  {
    assert forall k :: k in m && m[k] >= later ==> k in Live(m, now);
  }

  lemma NothingLive(addresses: seq<DatabaseAddress>, now: int64)
    requires Filter(addresses, NotExpired(now)) == []
    ensures Live(Latest(addresses), now) == map[]
  {
    ExpireIsLive(addresses, now);
  }

  lemma KnownAfter(history: seq<Announce>, a: Announce, key: Key)
    ensures Known(history + [a], key)
         == if a.key == key then Join(Latest(a.addrs), Known(history, key)) else Known(history, key)
  {
    assert (history + [a])[..|history|] == history;
  }

  // An encoded record that carries no address: at most three scalar fields.
  lemma EmptyRecordFits(rec: DatabaseRecord)
    requires rec.addresses == []
    ensures |EncodeRecord(rec)| <= MAX_INT
  {
    EncodingFits(rec, [], []);
  }

  lemma StoredAfterWrite(db: Database, p: Pending, key: Key)
    requires Storable(db) && WritesNoAddress(p)
    ensures Storable(Write(db, p))
    ensures Stored(Write(db, p), key).addresses == if key == p.key then [] else Stored(db, key).addresses
  {
    hide EncodeRecord, DecodeFrom;
    if p.write.Some? {
      EmptyRecordFits(p.write.value);
      RecordRoundTrip(p.write.value);
    }
  }

  lemma TickKeepsInv(s: State, e: Event, s': State)
    requires Inv(s) && e.Tick? && Next(s, e, s')
    ensures Inv(s')
  {
    hide Live, Known, Stored, Latest;
    forall key ensures Agrees(s', key) {
      assert Agrees(s, key);
      LiveLater(Latest(Stored(s.db, key).addresses), s.now, s'.now);
      LiveLater(Known(s.history, key), s.now, s'.now);
    }
    forall id | id in s'.pending && !s'.pending[id].split
      ensures Live(Known(s'.history, s'.pending[id].key), s'.now) == map[]
    {
      LiveLater(Known(s.history, s.pending[id].key), s.now, s'.now);
    }
  }

  lemma MergeKeepsInv(s: State, e: Event, s': State)
    requires Inv(s) && e.Merged? && Next(s, e, s')
    ensures Inv(s')
  {
    hide Live, Known, Join, Latest, EncodeRecord, DecodeFrom, Filter;
    RecordRoundTrip(e.rec);
    forall key ensures Agrees(s', key) {
      assert Agrees(s, key);
      KnownAfter(s.history, Announce(e.key, e.addrs), key);
      if key == e.key {
        var stored := Stored(s.db, key).addresses;
        ExpireIsLive(stored, s.now);
        LiveLater(Latest(stored), s.now, s.now);
        LiveJoin(Latest(e.addrs), Live(Latest(stored), s.now), s.now);
        LiveJoin(Latest(e.addrs), Known(s.history, key), s.now);
      }
    }
    forall id | id in s'.pending && !s'.pending[id].split
      ensures Live(Known(s'.history, s'.pending[id].key), s'.now) == map[]
    {
      KnownAfter(s.history, Announce(e.key, e.addrs), s.pending[id].key);
    }
  }

  lemma ReadKeepsInv(s: State, e: Event, s': State)
    requires Inv(s) && (e.ReadMiss? || e.ReadStale?) && Next(s, e, s')
    ensures Inv(s')
  {
    hide Live, Known, Latest, Filter, Stored;
    assert Agrees(s, e.key);
    var at := if e.ReadMiss? then s.now else e.t0;
    NothingLive(Stored(s.db, e.key).addresses, at);
    LiveLater(Latest(Stored(s.db, e.key).addresses), at, s.now);
    forall key ensures Agrees(s', key) {
      assert Agrees(s, key);
    }
  }

  // Completing a write keeps the refinement exactly when, at that moment, a lookup of the key
  // would still find nothing.
  lemma CompleteIsSafeIff(s: State, id: nat, s': State)
    requires Inv(s) && Next(s, Complete(id), s')
    ensures Storable(s'.db)
    ensures (forall key :: Agrees(s', key)) <==> Lookup(s.db, s.pending[id].key, s.now).addresses == []
  {
    hide Known, Stored, EncodeRecord;
    var p := s.pending[id];
    var stored := Stored(s.db, p.key).addresses;
    assert Agrees(s, p.key);
    StoredAfterWrite(s.db, p, p.key);
    forall key ensures Stored(s'.db, key).addresses == if key == p.key then [] else Stored(s.db, key).addresses {
      StoredAfterWrite(s.db, p, key);
    }
    forall key | key != p.key ensures Agrees(s', key) {
      assert Agrees(s, key);
    }
    ExpireIsLive(stored, s.now);
    if Filter(stored, NotExpired(s.now)) != [] {
      LatestIsLatest(Filter(stored, NotExpired(s.now)));
      var e := Filter(stored, NotExpired(s.now))[0];
      assert e.address in Live(Latest(stored), s.now);
      assert Latest([]) == map[];
      assert !Agrees(s', p.key);
    } else {
      assert Agrees(s', p.key);
    }
  }

  // A write that completes while a lookup of its key would find nothing.
  ghost predicate Harmless(s: State, e: Event)
    requires Storable(s.db)
  {
    e.Complete? && e.id in s.pending ==> Lookup(s.db, s.pending[e.id].key, s.now).addresses == []
  }

  // No merge since the read means that there is still nothing to find.
  lemma UnsplitIsHarmless(s: State, e: Event)
    requires Inv(s) && Unsplit(s, e)
    ensures Harmless(s, e)
  {
    hide Known, Stored;
    if e.Complete? && e.id in s.pending {
      var key := s.pending[e.id].key;
      var live := Filter(Stored(s.db, key).addresses, NotExpired(s.now));
      assert Agrees(s, key);
      ExpireIsLive(Stored(s.db, key).addresses, s.now);
      LatestIsLatest(live);
      assert live != [] ==> live[0].address in Latest(live);
    }
  }

  lemma CompleteKeepsInv(s: State, e: Event, s': State)
    requires Inv(s) && e.Complete? && Next(s, e, s') && Harmless(s, e)
    ensures Inv(s')
  {
    hide Known, Stored, Write;
    CompleteIsSafeIff(s, e.id, s');
  }

  lemma NextKeepsInv(s: State, e: Event, s': State)
    requires Inv(s) && Next(s, e, s') && Harmless(s, e)
    ensures Inv(s')
  {
    match e
    case Tick(_) => TickKeepsInv(s, e, s');
    case Merged(_, _, _, _) => MergeKeepsInv(s, e, s');
    case ReadMiss(_, _, _, _) => ReadKeepsInv(s, e, s');
    case ReadStale(_, _, _, _) => ReadKeepsInv(s, e, s');
    case Complete(_) => CompleteKeepsInv(s, e, s');
  }

  lemma {:induction false} RunKeepsInv(events: seq<Event>, states: seq<State>, n: nat)
    requires Run(events, states) && n < |states|
    requires forall i :: 0 <= i < n ==> Harmless(states[i], events[i])
    ensures Inv(states[n])
    decreases n
  {
    if n == 0 {
      forall key ensures Agrees(states[0], key) {
        assert Stored(states[0].db, key) == NO_RECORD;
      }
    } else {
      RunKeepsInv(events, states, n - 1);
      assert Next(states[n - 1], events[n - 1], states[n - 1 + 1]);
      NextKeepsInv(states[n - 1], events[n - 1], states[n]);
    }
  }

  lemma {:induction false} UnsplitRunIsHarmless(events: seq<Event>, states: seq<State>, n: nat)
    requires Run(events, states) && n < |states|
    requires forall i :: 0 <= i < n ==> Unsplit(states[i], events[i])
    ensures forall i :: 0 <= i < n ==> Harmless(states[i], events[i])
    decreases n
  {
    if n > 0 {
      UnsplitRunIsHarmless(events, states, n - 1);
      RunKeepsInv(events, states, n - 1);
      UnsplitIsHarmless(states[n - 1], events[n - 1]);
    }
  }

  // A lookup of key returns exactly the addresses ever announced for it whose latest expiry has not
  // passed, each with that expiry.
  ghost predicate IsTheLog(s: State, key: Key)
    requires Storable(s.db)
  {
    Latest(Lookup(s.db, key, s.now).addresses) == Live(Known(s.history, key), s.now)
  }

  lemma IsTheLogMeansAgrees(s: State, key: Key)
    requires Storable(s.db)
    ensures IsTheLog(s, key) <==> Agrees(s, key)
  {
    ExpireIsLive(Stored(s.db, key).addresses, s.now);
  }

  // The refinement: it holds at every point of every run that completes no overtaken write.
  lemma LookupIsTheLog(events: seq<Event>, states: seq<State>, n: nat, key: Key)
    requires Run(events, states) && n < |states|
    requires forall i :: 0 <= i < n ==> Unsplit(states[i], events[i])
    ensures Latest(Lookup(states[n].db, key, states[n].now).addresses)
         == Live(Known(states[n].history, key), states[n].now)
  {
    UnsplitRunIsHarmless(events, states, n);
    RunKeepsInv(events, states, n);
    assert Agrees(states[n], key);
    ExpireIsLive(Stored(states[n].db, key).addresses, states[n].now);
  }

  lemma {:induction false} LogMeansHarmless(events: seq<Event>, states: seq<State>, n: nat)
    requires Run(events, states) && n < |states|
    requires forall i, key :: 0 <= i <= n ==> IsTheLog(states[i], key)
    ensures forall i :: 0 <= i < n ==> Harmless(states[i], events[i])
    decreases n
  {
    hide IsTheLog, Inv, Agrees, Next;
    if n > 0 {
      LogMeansHarmless(events, states, n - 1);
      RunKeepsInv(events, states, n - 1);
      var s, e, s' := states[n - 1], events[n - 1], states[n];
      assert Next(s, e, states[n - 1 + 1]);
      forall key ensures Agrees(s', key) {
        IsTheLogMeansAgrees(s', key);
      }
      if e.Complete? {
        CompleteIsSafeIff(s, e.id, s');
      }
    }
  }

  // The exact condition: in every run, every lookup up to a point is the log if and only if every
  // write completed before that point was harmless.
  lemma LookupIsTheLogIff(events: seq<Event>, states: seq<State>, n: nat)
    requires Run(events, states) && n < |states|
    ensures (forall i, key :: 0 <= i <= n ==> IsTheLog(states[i], key))
       <==> (forall i :: 0 <= i < n ==> Harmless(states[i], events[i]))
  {
    hide IsTheLog, Agrees, Harmless;
    if forall i, key :: 0 <= i <= n ==> IsTheLog(states[i], key) {
      LogMeansHarmless(events, states, n);
    }
    if forall i :: 0 <= i < n ==> Harmless(states[i], events[i]) {
      forall i, key | 0 <= i <= n ensures IsTheLog(states[i], key) {
        RunKeepsInv(events, states, i);
        IsTheLogMeansAgrees(states[i], key);
      }
    }
  }

  // Without that condition any announcement can be lost: a miss is read, the device announces an
  // address, and the late write of the miss wipes it out while it is still live.
  lemma SplitWriteLosesAnAnnouncement(key: Key, address: seq<byte>, expires: int64, now: int64, seen: int64,
                                      misses: int32, missed: int64)
    returns (events: seq<Event>, states: seq<State>)
    requires now <= expires
    requires |EncodeRecord(DatabaseRecord([DatabaseAddress(address, expires)], 0, Max(seen, 0), 0))| <= MAX_INT
    ensures Run(events, states) && |events| == 3 && forall i :: 0 <= i < 4 ==> states[i].now == now
    ensures Lookup(states[3].db, key, now).addresses == []
    ensures Live(Known(states[3].history, key), now) == map[address := expires]
  {
    hide EncodeRecord, DecodeFrom, Latest, Join, Known, Filter;
    var addrs := [DatabaseAddress(address, expires)];
    var rec := DatabaseRecord(addrs, 0, Max(seen, 0), 0);
    var miss := DatabaseRecord([], misses, 0, missed);
    var pending := Pending(key, Some(miss), false);
    events := [ReadMiss(0, key, misses, missed), Merged(key, addrs, seen, rec), Complete(0)];
    var s0 := State(map[], now, [], map[]);
    var s1 := s0.(pending := map[0 := pending]);
    var s2 := State(map[key := EncodeRecord(rec)], now, [Announce(key, addrs)], map[0 := pending.(split := true)]);
    OneAnnouncement(key, address, expires, now);
    assert Next(s0, events[0], s1);
    assert Next(s1, events[1], s2);
    EmptyRecordFits(miss);
    RecordRoundTrip(miss);
    var s3 := State(map[key := EncodeRecord(miss)], now, s2.history, map[]);
    assert Next(s2, events[2], s3);
    states := [s0, s1, s2, s3];
  }

  lemma OneAnnouncement(key: Key, address: seq<byte>, expires: int64, now: int64)
    ensures var addrs := [DatabaseAddress(address, expires)];
      && Latest(addrs) == map[address := expires] == Join(Latest(addrs), Latest([]))
      && Known([Announce(key, addrs)], key) == map[address := expires]
    ensures Filter([], NotExpired(now)) == []
  {
    var addrs := [DatabaseAddress(address, expires)];
    LatestUnique(addrs, map[address := expires]);
    JoinIdempotent(Latest(addrs));
    JoinCommutes(Latest(addrs), map[]);
    assert [Announce(key, addrs)][..0] == [];
  }

  // ---------- what split means ----------

  predicate IsRead(e: Event, id: nat) {
    (e.ReadMiss? || e.ReadStale?) && e.id == id
  }

  // Event r is the read of the write id that is pending before event n.
  ghost predicate CurrentRead(events: seq<Event>, r: nat, n: nat, id: nat) {
    && r < n <= |events| && IsRead(events[r], id)
    && forall k :: r < k < n ==> !IsRead(events[k], id) && events[k] != Complete(id)
  }

  ghost predicate MergedBetween(events: seq<Event>, r: nat, n: nat, key: Key) {
    exists j :: r < j < n <= |events| && events[j].Merged? && events[j].key == key
  }

  // In every run, a pending write is marked as overtaken exactly if its key was merged since its read.
  lemma {:induction false} PendingHistory(events: seq<Event>, states: seq<State>, n: nat, id: nat) returns (r: nat)
    requires Run(events, states) && n < |states| && id in states[n].pending
    ensures CurrentRead(events, r, n, id)
    ensures events[r].key == states[n].pending[id].key
    ensures states[n].pending[id].split <==> MergedBetween(events, r, n, events[r].key)
    decreases n
  {
    hide Next, MergedBetween;
    var s, e, s' := states[n - 1], events[n - 1], states[n];
    assert Next(s, e, states[n - 1 + 1]);
    PendingAfter(s, e, s', id);
    if IsRead(e, id) {
      r := n - 1;
      NothingBetween(events, r, events[r].key);
    } else {
      r := PendingHistory(events, states, n - 1, id);
      MergedLater(events, r, n - 1, events[r].key);
    }
  }

  lemma NothingBetween(events: seq<Event>, r: nat, key: Key)
    ensures !MergedBetween(events, r, r + 1, key)
  {
  }

  lemma MergedLater(events: seq<Event>, r: nat, n: nat, key: Key)
    requires r < n < |events|
    ensures MergedBetween(events, r, n + 1, key) <==>
            MergedBetween(events, r, n, key) || (events[n].Merged? && events[n].key == key)
  {
    if j :| r < j < n <= |events| && events[j].Merged? && events[j].key == key {
      assert r < j < n + 1;
    }
  }

  lemma PendingAfter(s: State, e: Event, s': State, id: nat)
    requires Storable(s.db) && Next(s, e, s') && id in s'.pending
    ensures IsRead(e, id) ==> s'.pending[id].key == e.key && !s'.pending[id].split
    ensures !IsRead(e, id) ==> id in s.pending && e != Complete(id) && s'.pending[id].key == s.pending[id].key
    ensures !IsRead(e, id) ==>
      (s'.pending[id].split <==> s.pending[id].split || (e.Merged? && e.key == s.pending[id].key))
  {
  }

  // No write completed before n was overtaken by a merge on its key since its read.
  ghost predicate NoneOvertaken(events: seq<Event>, n: nat) {
    forall i: nat, r: nat :: i < n <= |events| && events[i].Complete? && CurrentRead(events, r, i, events[i].id) ==>
      !MergedBetween(events, r, i, events[r].key)
  }

  // So the refinement holds in every run in which none is, whatever else happens.
  lemma LookupIsTheLogUnlessOvertaken(events: seq<Event>, states: seq<State>, n: nat, key: Key)
    requires Run(events, states) && n < |states| && NoneOvertaken(events, n)
    ensures IsTheLog(states[n], key)
  {
    hide Next, IsTheLog;
    forall i | 0 <= i < n ensures Unsplit(states[i], events[i]) {
      if events[i].Complete? && events[i].id in states[i].pending {
        var r := PendingHistory(events, states, i, events[i].id);
      }
    }
    UnsplitRunIsHarmless(events, states, n);
    LookupIsTheLogIff(events, states, n);
  }

  // ---------- replicas ----------

  lemma {:induction false} KnownAbsorbs(history: seq<Announce>, a: Announce)
    requires a in history
    ensures Join(Latest(a.addrs), Known(history, a.key)) == Known(history, a.key)
    decreases |history|
  {
    hide Join, Latest;
    var front, last := history[..|history| - 1], history[|history| - 1];
    assert history == front + [last];
    var m, l, k := Latest(a.addrs), Latest(last.addrs), Known(front, a.key);
    if a == last {
      JoinAssociates(m, m, k);
      JoinIdempotent(m);
    } else {
      KnownAbsorbs(front, a);
      if last.key == a.key {
        JoinAssociates(m, l, k);
        JoinCommutes(m, l);
        JoinAssociates(l, m, k);
      }
    }
  }

  lemma {:induction false} KnownBelow(h1: seq<Announce>, h2: seq<Announce>, key: Key)
    requires forall addrs :: Announce(key, addrs) in h1 ==> Announce(key, addrs) in h2
    ensures Join(Known(h1, key), Known(h2, key)) == Known(h2, key)
    decreases |h1|
  {
    hide Join, Latest;
    JoinIdempotent(Known(h2, key));
    if h1 != [] {
      var front, last := h1[..|h1| - 1], h1[|h1| - 1];
      assert h1 == front + [last];
      KnownBelow(front, h2, key);
      if last.key == key {
        assert Announce(key, last.addrs) in h1;
        KnownAbsorbs(h2, last);
        JoinAssociates(Latest(last.addrs), Known(front, key), Known(h2, key));
      }
    }
  }

  // Servers that received the same announcements for a key, in any order and any number of times,
  // know the same addresses.
  lemma ReplicasConverge(h1: seq<Announce>, h2: seq<Announce>, key: Key)
    requires forall addrs :: Announce(key, addrs) in h1 <==> Announce(key, addrs) in h2
    ensures Known(h1, key) == Known(h2, key)
  {
    KnownBelow(h1, h2, key);
    KnownBelow(h2, h1, key);
    JoinCommutes(Known(h1, key), Known(h2, key));
  }

  lemma ReplicasAnswerAlike(e1: seq<Event>, s1: seq<State>, n1: nat, e2: seq<Event>, s2: seq<State>, n2: nat, key: Key)
    requires Run(e1, s1) && n1 < |s1| && forall i :: 0 <= i < n1 ==> Unsplit(s1[i], e1[i])
    requires Run(e2, s2) && n2 < |s2| && forall i :: 0 <= i < n2 ==> Unsplit(s2[i], e2[i])
    requires s1[n1].now == s2[n2].now
    requires forall addrs :: Announce(key, addrs) in s1[n1].history <==> Announce(key, addrs) in s2[n2].history
    ensures Latest(Lookup(s1[n1].db, key, s1[n1].now).addresses) == Latest(Lookup(s2[n2].db, key, s2[n2].now).addresses)
  {
    LookupIsTheLog(e1, s1, n1, key);
    LookupIsTheLog(e2, s2, n2, key);
    ReplicasConverge(s1[n1].history, s2[n2].history, key);
  }
}
