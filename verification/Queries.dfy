// apisrv.go and database.go: the two places that read the store first and write it later, handleGET
// when it finds nothing and the statistics routine when it meets a record nobody cares about.
module Queries {
  import opened Common
  import opened SliceUtil
  import opened Wire
  import opened Messages
  import opened Addresses
  import Unmarshal
  import opened Store

  // x + 1 in an int32.
  function Next32(x: int32): int32 {
    if x == 0x7FFF_FFFF then -0x8000_0000 else x + 1
  }

  class ApiServer {
    var misses: map<Key, int32>

    constructor ()
      ensures misses == map[]
    {
      misses := map[];
    }

    // handleGET up to the put: what the device's addresses are, and the record to put if there are
    // none. Every tenth miss is written, with everything but the addresses and the miss retained.
    method HandleGET(store: LevelDBStore, key: Key, now: int64, clock: int64)
      returns (addresses: seq<DatabaseAddress>, write: Option<DatabaseRecord>)
      requires store.Valid()
      modifies this
      ensures addresses == Lookup(store.db, key, now).addresses
      ensures addresses != [] ==> write == None && misses == old(misses)
      ensures addresses == [] ==>
        var rec := Lookup(store.db, key, now);
        var known := if key in old(misses) then old(misses)[key] else 0;
        var most := if known < rec.misses then rec.misses else known;
        var next: int32 := if most == 0x7FFF_FFFF then -0x8000_0000 else most + 1;
        && misses == old(misses)[key := next]
        && write == if next % 10 == 0 then Some(DatabaseRecord([], next, rec.seen, clock)) else None
    {
      var rec := store.Get(key, now);
      if |rec.addresses| == 0 {
        var m := if key in misses then misses[key] else 0;
        if m < rec.misses {
          m := Next32(rec.misses);
        } else {
          m := Next32(m);
        }
        misses := misses[key := m];
        if m % 10 == 0 {
          write := Some(DatabaseRecord([], m, rec.seen, clock));
        } else {
          write := None;
        }
        return [], write;
      }
      return rec.addresses, None;
    }
  }

  // The runs of the store allow for the writes that HandleGET leaves, and no others: decided on a
  // lookup that found nothing, without addresses, and keeping when the device was seen.
  lemma MissIsAnEventIff(s: State, key: Key, id: nat, rec: DatabaseRecord)
    requires Storable(s.db) && id !in s.pending
    ensures Store.Next(s, ReadMiss(id, key, rec.misses, rec.missed),
                       s.(pending := s.pending[id := Pending(key, Some(rec), false)]))
       <==> Lookup(s.db, key, s.now).addresses == [] && rec.addresses == [] && rec.seen == Lookup(s.db, key, s.now).seen
  {
    var kept := DatabaseRecord([], rec.misses, Lookup(s.db, key, s.now).seen, rec.missed);
    var p, q := s.pending[id := Pending(key, Some(rec), false)], s.pending[id := Pending(key, Some(kept), false)];
    assert p[id] == q[id] <==> p == q;
  }

  const DAY: int64 := 24 * 3600 * 1_000_000_000

  // One turn of the statistics loop: whether the record is deleted. t0 is the time of the pass; sixty
  // days are 5 184 000 seconds.
  method IsAbandoned(val: seq<byte>, t0: int64) returns (delete: bool)
    requires |val| <= MAX_INT && t0 - 5_184_000_000_000_000 >= -0x7FFF_FFFF_FFFF_FFFF
    ensures delete <==>
      && Decode(RECORD, val, NO_RECORD).Ok?
      && var rec := Decode(RECORD, val, NO_RECORD).value;
         (forall e :: e in rec.addresses ==> e.expires < t0)
         && rec.seen <= t0 - 5_184_000_000_000_000 && rec.missed < t0 - 5_184_000_000_000_000
  {
    var message := new Unmarshal.RecordMessage();
    var err := message.Unmarshal(val);
    if err != None {
      return false;
    }
    var current := Expire(message.addresses, t0);
    if |current| > 0 {
      assert current[0] in current;
      return false;
    }
    assert forall e :: e in message.addresses && e.expires >= t0 ==> e in current;
    if message.seen > t0 - DAY || message.seen > t0 - 7 * DAY || message.seen > t0 - 60 * DAY {
      return false;
    }
    return message.missed < t0 - 60 * DAY;
  }

  // The runs of the store allow for a deletion exactly if the record is abandoned.
  lemma DeletionIsAnEventIff(s: State, key: Key, id: nat, t0: int64)
    requires Storable(s.db) && id !in s.pending && key in s.db && t0 <= s.now
    requires t0 - 5_184_000_000_000_000 >= -0x7FFF_FFFF_FFFF_FFFF && Decode(RECORD, s.db[key], NO_RECORD).Ok?
    ensures var rec := Decode(RECORD, s.db[key], NO_RECORD).value;
      Store.Next(s, ReadStale(id, key, t0, t0 - 5_184_000_000_000_000),
                 s.(pending := s.pending[id := Pending(key, None, false)]))
      <==> (forall e :: e in rec.addresses ==> e.expires < t0)
           && rec.seen <= t0 - 5_184_000_000_000_000 && rec.missed < t0 - 5_184_000_000_000_000
  {
    var rec := Decode(RECORD, s.db[key], NO_RECORD).value;
    hide DecodeFrom, Filter;
    LookupIs(s.db, key, t0);
    var found := Lookup(s.db, key, t0).addresses;
    NoElements(found);
    forall e | e in rec.addresses && found == [] ensures e.expires < t0 {
      assert e !in found;
    }
  }

  lemma NoElements<T>(s: seq<T>)
    ensures (forall x :: x !in s) ==> s == []
  {
    if s != [] {
      assert s[0] in s;
    }
  }
}
