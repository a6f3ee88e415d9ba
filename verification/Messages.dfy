// The three messages of database.proto as values: their encodings, what each known field does
// to a message when decoded, and the round trips.
module Messages {
  import opened Common
  import opened Varint
  import opened Wire

  datatype DatabaseAddress = DatabaseAddress(address: seq<byte>, expires: int64)

  datatype DatabaseRecord = DatabaseRecord(addresses: seq<DatabaseAddress>, misses: int32, seen: int64, missed: int64)

  datatype ReplicationRecord = ReplicationRecord(key: seq<byte>, addresses: seq<DatabaseAddress>, seen: int64)

  const NO_ADDRESS := DatabaseAddress([], 0)
  const NO_RECORD := DatabaseRecord([], 0, 0, 0)
  const HEARTBEAT := ReplicationRecord([], [], 0)

  // ---------- encodings ----------

  // A scalar field: absent when zero.
  function VarintPart(tag: byte, v: uint64): seq<byte> {
    if v == 0 then [] else [tag] + Encode(v)
  }

  // A length-delimited field.
  function DelimitedPart(tag: byte, payload: seq<byte>): seq<byte> {
    [tag] + Encode(|payload|) + payload
  }

  // A string field: absent when empty.
  function StringPart(tag: byte, payload: seq<byte>): seq<byte> {
    if payload == [] then [] else DelimitedPart(tag, payload)
  }

  function EncodeAddress(a: DatabaseAddress): seq<byte> {
    StringPart(0x0a, a.address) + VarintPart(0x10, AsUint64(a.expires))
  }

  function EncodeAddresses(tag: byte, addresses: seq<DatabaseAddress>): seq<byte> {
    if addresses == [] then []
    else DelimitedPart(tag, EncodeAddress(addresses[0])) + EncodeAddresses(tag, addresses[1..])
  }

  function EncodeRecord(m: DatabaseRecord): seq<byte> {
    EncodeAddresses(0x0a, m.addresses)
    + (VarintPart(0x10, AsUint64(m.misses))
       + (VarintPart(0x18, AsUint64(m.seen))
          + VarintPart(0x20, AsUint64(m.missed))))
  }

  function EncodeReplication(m: ReplicationRecord): seq<byte> {
    StringPart(0x0a, m.key)
    + (EncodeAddresses(0x12, m.addresses)
       + VarintPart(0x18, AsUint64(m.seen)))
  }

  // ---------- schemas ----------

  function AddressKind(num: int32): Kind {
    if num == 1 then AsBytes else if num == 2 then AsVarint else Unknown
  }

  function ApplyToAddress(m: DatabaseAddress, field: Field): Result<DatabaseAddress, Error> {
    match field
    case BytesField(1, data) => Ok(m.(address := data))
    case VarintField(2, v) => Ok(m.(expires := AsInt64(v)))
    case _ => Ok(m)
  }

  const ADDRESS: Schema<DatabaseAddress> := Schema(AddressKind, ApplyToAddress)

  // A repeated message field appends a fresh message decoded from the payload.
  function AppendAddress(addresses: seq<DatabaseAddress>, data: seq<byte>): Result<seq<DatabaseAddress>, Error> {
    if |data| > MAX_INT then Err(UnexpectedEOF)
    else
      match Decode(ADDRESS, data, NO_ADDRESS)
      case Err(e) => Err(e)
      case Ok(a) => Ok(addresses + [a])
  }

  function RecordKind(num: int32): Kind {
    if num == 1 then AsBytes else if num in {2, 3, 4} then AsVarint else Unknown
  }

  function ApplyToRecord(m: DatabaseRecord, field: Field): Result<DatabaseRecord, Error> {
    match field
    case BytesField(1, data) =>
      (match AppendAddress(m.addresses, data)
       case Err(e) => Err(e)
       case Ok(addresses) => Ok(m.(addresses := addresses)))
    case VarintField(2, v) => Ok(m.(misses := AsInt32(v)))
    case VarintField(3, v) => Ok(m.(seen := AsInt64(v)))
    case VarintField(4, v) => Ok(m.(missed := AsInt64(v)))
    case _ => Ok(m)
  }

  const RECORD: Schema<DatabaseRecord> := Schema(RecordKind, ApplyToRecord)

  function ReplicationKind(num: int32): Kind {
    if num in {1, 2} then AsBytes else if num == 3 then AsVarint else Unknown
  }

  function ApplyToReplication(m: ReplicationRecord, field: Field): Result<ReplicationRecord, Error> {
    match field
    case BytesField(1, data) => Ok(m.(key := data))
    case BytesField(2, data) =>
      (match AppendAddress(m.addresses, data)
       case Err(e) => Err(e)
       case Ok(addresses) => Ok(m.(addresses := addresses)))
    case VarintField(3, v) => Ok(m.(seen := AsInt64(v)))
    case _ => Ok(m)
  }

  const REPLICATION: Schema<ReplicationRecord> := Schema(ReplicationKind, ApplyToReplication)

  // ---------- one encoded field, decoded ----------

  lemma ReadTagByte(num: int32, wireType: nat, rest: seq<byte>)
    requires 0 < num < 16 && wireType < 8
    ensures var wire := Read([num * 8 + wireType] + rest);
      wire == Ok(Scan(num * 8 + wireType, 1)) && AsInt32(wire.value.value / 8) == num
  {
    assert Encode(num * 8 + wireType) == [num * 8 + wireType];
    ReadOfEncode(num * 8 + wireType, rest);
    SovIsExact(num * 8 + wireType);
  }

  lemma ParseVarintField(kind: int32 -> Kind, num: int32, v: uint64, rest: seq<byte>, at: nat)
    requires 0 < num < 16 && kind(num) == AsVarint
    requires at + |[num * 8] + (Encode(v) + rest)| <= MAX_INT
    ensures ParseField(kind, [num * 8] + (Encode(v) + rest), at) == Ok(Parsed(VarintField(num, v), 1 + |Encode(v)|))
  {
    hide ScanFrom, SkipFrom, Encode;
    var s := [num * 8] + (Encode(v) + rest);
    ReadTagByte(num, 0, Encode(v) + rest);
    assert s[1..] == Encode(v) + rest;
    ReadOfEncode(v, rest);
    SovIsExact(v);
  }

  lemma ParseDelimitedField(kind: int32 -> Kind, num: int32, payload: seq<byte>, rest: seq<byte>, at: nat)
    requires 0 < num < 16 && kind(num) == AsBytes
    requires at + |DelimitedPart(num * 8 + 2, payload) + rest| <= MAX_INT
    ensures ParseField(kind, DelimitedPart(num * 8 + 2, payload) + rest, at)
         == Ok(Parsed(BytesField(num, payload), |DelimitedPart(num * 8 + 2, payload)|))
  {
    hide ScanFrom, SkipFrom, Encode;
    var n := |payload|;
    var s := DelimitedPart(num * 8 + 2, payload) + rest;
    assert s == [num * 8 + 2] + (Encode(n) + (payload + rest));
    ReadTagByte(num, 2, Encode(n) + (payload + rest));
    assert s[1..] == Encode(n) + (payload + rest);
    ReadOfEncode(n, payload + rest);
    SovIsExact(n);
    var j := 1 + |Encode(n)|;
    assert s[j..j + n] == payload;
    TakeWithin(num, s, at, j, n);
  }

  lemma TakeWithin(num: int32, s: seq<byte>, at: nat, j: nat, n: nat)
    requires 1 <= j && j + n <= |s| && at + |s| <= MAX_INT
    ensures TakeBytes(num, s, at, j, n) == Ok(Parsed(BytesField(num, s[j..j + n]), j + n))
  {
  }

  lemma DecodeVarintPart<M>(schema: Schema<M>, num: int32, v: uint64, rest: seq<byte>, at: nat, m: M, m': M)
    requires 0 < num < 16 && schema.kind(num) == AsVarint
    requires at + |VarintPart(num * 8, v) + rest| <= MAX_INT
    requires if v == 0 then m' == m else schema.apply(m, VarintField(num, v)) == Ok(m')
    ensures DecodeFrom(schema, VarintPart(num * 8, v) + rest, at, m)
         == DecodeFrom(schema, rest, at + |VarintPart(num * 8, v)|, m')
  {
    hide ParseField, DecodeFrom, Encode;
    var part := VarintPart(num * 8, v);
    var s := part + rest;
    if v == 0 {
      assert s == rest;
    } else {
      assert s == [num * 8] + (Encode(v) + rest);
      ParseVarintField(schema.kind, num, v, rest, at);
      assert s[|part|..] == rest;
      DecodeStep(schema, s, at, m, Parsed(VarintField(num, v), |part|), m');
    }
  }

  lemma DecodeDelimitedPart<M>(schema: Schema<M>, num: int32, payload: seq<byte>, rest: seq<byte>, at: nat, m: M, m': M)
    requires 0 < num < 16 && schema.kind(num) == AsBytes
    requires at + |DelimitedPart(num * 8 + 2, payload) + rest| <= MAX_INT
    requires schema.apply(m, BytesField(num, payload)) == Ok(m')
    ensures DecodeFrom(schema, DelimitedPart(num * 8 + 2, payload) + rest, at, m)
         == DecodeFrom(schema, rest, at + |DelimitedPart(num * 8 + 2, payload)|, m')
  {
    hide ParseField, DecodeFrom, DelimitedPart;
    var part := DelimitedPart(num * 8 + 2, payload);
    ParseDelimitedField(schema.kind, num, payload, rest, at);
    assert (part + rest)[|part|..] == rest;
    DecodeStep(schema, part + rest, at, m, Parsed(BytesField(num, payload), |part|), m');
  }

  // ---------- round trips ----------

  lemma AddressRoundTrip(a: DatabaseAddress)
    requires |EncodeAddress(a)| <= MAX_INT
    ensures Decode(ADDRESS, EncodeAddress(a), NO_ADDRESS) == Ok(a)
  {
    hide ScanFrom, SkipFrom, ParseField;
    var expires := VarintPart(0x10, AsUint64(a.expires));
    var named := NO_ADDRESS.(address := a.address);
    if a.address == [] {
      assert EncodeAddress(a) == expires;
    } else {
      DecodeDelimitedPart(ADDRESS, 1, a.address, expires, 0, NO_ADDRESS, named);
    }
    var at := |StringPart(0x0a, a.address)|;
    assert expires + [] == expires;
    DecodeVarintPart(ADDRESS, 2, AsUint64(a.expires), [], at, named, a);
  }

  // Encoded addresses, wherever they stand in a message, append to its list in order.
  lemma {:induction false} DecodeAddresses<M>(schema: Schema<M>, num: int32, addresses: seq<DatabaseAddress>,
                                              rest: seq<byte>, at: nat, before: seq<DatabaseAddress>,
                                              put: seq<DatabaseAddress> -> M)
    requires 0 < num < 16 && schema.kind(num) == AsBytes
    requires at + |EncodeAddresses(num * 8 + 2, addresses) + rest| <= MAX_INT
    requires forall list, a :: |EncodeAddress(a)| <= MAX_INT ==>
               schema.apply(put(list), BytesField(num, EncodeAddress(a))) == Ok(put(list + [a]))
    ensures DecodeFrom(schema, EncodeAddresses(num * 8 + 2, addresses) + rest, at, put(before))
         == DecodeFrom(schema, rest, at + |EncodeAddresses(num * 8 + 2, addresses)|, put(before + addresses))
    decreases |addresses|
  {
    hide ScanFrom, SkipFrom, ParseField, EncodeAddress;
    var tag := num * 8 + 2;
    if addresses == [] {
      assert EncodeAddresses(tag, addresses) + rest == rest && before + addresses == before;
    } else {
      var a, tail := addresses[0], addresses[1..];
      var part, more := DelimitedPart(tag, EncodeAddress(a)), EncodeAddresses(tag, tail) + rest;
      assert EncodeAddresses(tag, addresses) + rest == part + more;
      assert before + [a] + tail == before + addresses;
      DecodeDelimitedPart(schema, num, EncodeAddress(a), more, at, put(before), put(before + [a]));
      DecodeAddresses(schema, num, tail, rest, at + |part|, before + [a], put);
    }
  }

  // Last one wins: what decoding m's encoding makes of a record that already holds onto.
  function Overlay(onto: DatabaseRecord, m: DatabaseRecord): DatabaseRecord {
    DatabaseRecord(onto.addresses + m.addresses,
                   if m.misses != 0 then m.misses else onto.misses,
                   if m.seen != 0 then m.seen else onto.seen,
                   if m.missed != 0 then m.missed else onto.missed)
  }

  lemma DecodeOnto(onto: DatabaseRecord, m: DatabaseRecord)
    requires |EncodeRecord(m)| <= MAX_INT
    ensures Decode(RECORD, EncodeRecord(m), onto) == Ok(Overlay(onto, m))
  {
    hide ParseField, DecodeFrom, VarintPart, EncodeAddresses, EncodeAddress;
    var missed := VarintPart(0x20, AsUint64(m.missed));
    var seen := VarintPart(0x18, AsUint64(m.seen)) + missed;
    var misses := VarintPart(0x10, AsUint64(m.misses)) + seen;
    var put := list => onto.(addresses := list);
    forall list, a | |EncodeAddress(a)| <= MAX_INT
      ensures RECORD.apply(put(list), BytesField(1, EncodeAddress(a))) == Ok(put(list + [a]))
    {
      AddressRoundTrip(a);
    }
    DecodeAddresses(RECORD, 1, m.addresses, misses, 0, onto.addresses, put);
    var at := |EncodeAddresses(0x0a, m.addresses)|;
    var m1 := put(onto.addresses + m.addresses);
    Int32RoundTrip(m.misses);
    var m2 := m1.(misses := Overlay(onto, m).misses);
    DecodeVarintPart(RECORD, 2, AsUint64(m.misses), seen, at, m1, m2);
    at := at + |VarintPart(0x10, AsUint64(m.misses))|;
    var m3 := m2.(seen := Overlay(onto, m).seen);
    DecodeVarintPart(RECORD, 3, AsUint64(m.seen), missed, at, m2, m3);
    at := at + |VarintPart(0x18, AsUint64(m.seen))|;
    assert missed + [] == missed;
    DecodeVarintPart(RECORD, 4, AsUint64(m.missed), [], at, m3, Overlay(onto, m));
    DecodeEmpty(RECORD, at + |missed|, Overlay(onto, m));
  }

  // Every record decodes from its own encoding, negative scalars included.
  lemma RecordRoundTrip(m: DatabaseRecord)
    requires |EncodeRecord(m)| <= MAX_INT
    ensures Decode(RECORD, EncodeRecord(m), NO_RECORD) == Ok(m)
  {
    DecodeOnto(NO_RECORD, m);
    assert [] + m.addresses == m.addresses;
  }

  // Two encodings back to back decode as one record laid over the other.
  lemma ConcatenatedRecords(a: DatabaseRecord, b: DatabaseRecord)
    requires |EncodeRecord(a) + EncodeRecord(b)| <= MAX_INT
    ensures Decode(RECORD, EncodeRecord(a) + EncodeRecord(b), NO_RECORD) == Ok(Overlay(a, b))
  {
    hide DecodeFrom, EncodeRecord;
    RecordRoundTrip(a);
    DecodeConcat(RECORD, EncodeRecord(a), EncodeRecord(b), 0, 0, NO_RECORD, a);
    DecodeOnto(a, b);
  }

  lemma DecodeEmpty<M>(schema: Schema<M>, at: nat, m: M)
    requires at <= MAX_INT
    ensures DecodeFrom(schema, [], at, m) == Ok(m)
  {
  }

  lemma ReplicationRoundTrip(m: ReplicationRecord)
    requires |EncodeReplication(m)| <= MAX_INT
    ensures Decode(REPLICATION, EncodeReplication(m), HEARTBEAT) == Ok(m)
  {
    hide ParseField, DecodeFrom, VarintPart, EncodeAddresses, EncodeAddress, DelimitedPart;
    var seen := VarintPart(0x18, AsUint64(m.seen));
    var rest := EncodeAddresses(0x12, m.addresses) + seen;
    var put := list => ReplicationRecord(m.key, list, 0);
    if m.key == [] {
      assert EncodeReplication(m) == rest;
    } else {
      DecodeDelimitedPart(REPLICATION, 1, m.key, rest, 0, HEARTBEAT, put([]));
    }
    var at := |StringPart(0x0a, m.key)|;
    forall list, a | |EncodeAddress(a)| <= MAX_INT
      ensures REPLICATION.apply(put(list), BytesField(2, EncodeAddress(a))) == Ok(put(list + [a]))
    {
      AddressRoundTrip(a);
    }
    DecodeAddresses(REPLICATION, 2, m.addresses, seen, at, [], put);
    assert [] + m.addresses == m.addresses;
    at := at + |EncodeAddresses(0x12, m.addresses)|;
    assert seen + [] == seen;
    DecodeVarintPart(REPLICATION, 3, AsUint64(m.seen), [], at, put(m.addresses), m);
    DecodeEmpty(REPLICATION, at + |seen|, m);
  }

  // Only the heartbeat has an empty encoding.
  lemma EmptyOnlyForHeartbeat(m: ReplicationRecord)
    ensures EncodeReplication(m) == [] <==> m == HEARTBEAT
  {
    if EncodeReplication(m) == [] {
      assert StringPart(0x0a, m.key) == [] && EncodeAddresses(0x12, m.addresses) == [];
    }
  }

  // ---------- database.proto ----------

  // The field numbers and wire types of the three messages, and what each field sets.
  lemma FieldsAre(a: DatabaseAddress, m: DatabaseRecord, r: ReplicationRecord, v: uint64, data: seq<byte>, n: int32)
    ensures ADDRESS.kind(1) == AsBytes && ADDRESS.apply(a, BytesField(1, data)) == Ok(DatabaseAddress(data, a.expires))
    ensures ADDRESS.kind(2) == AsVarint
         && ADDRESS.apply(a, VarintField(2, v)) == Ok(DatabaseAddress(a.address, AsInt64(v)))
    ensures RECORD.kind(1) == AsBytes
    ensures RECORD.kind(2) == AsVarint
         && RECORD.apply(m, VarintField(2, v)) == Ok(DatabaseRecord(m.addresses, AsInt32(v), m.seen, m.missed))
    ensures RECORD.kind(3) == AsVarint
         && RECORD.apply(m, VarintField(3, v)) == Ok(DatabaseRecord(m.addresses, m.misses, AsInt64(v), m.missed))
    ensures RECORD.kind(4) == AsVarint
         && RECORD.apply(m, VarintField(4, v)) == Ok(DatabaseRecord(m.addresses, m.misses, m.seen, AsInt64(v)))
    ensures REPLICATION.kind(1) == AsBytes
         && REPLICATION.apply(r, BytesField(1, data)) == Ok(ReplicationRecord(data, r.addresses, r.seen))
    ensures REPLICATION.kind(2) == AsBytes
    ensures REPLICATION.kind(3) == AsVarint
         && REPLICATION.apply(r, VarintField(3, v)) == Ok(ReplicationRecord(r.key, r.addresses, AsInt64(v)))
    ensures n !in {1, 2} ==> ADDRESS.kind(n) == Unknown
    ensures n !in {1, 2, 3, 4} ==> RECORD.kind(n) == Unknown
    ensures n !in {1, 2, 3} ==> REPLICATION.kind(n) == Unknown
  {
  }

  // A repeated address field adds one address, the payload decoded into an empty one, or fails.
  lemma AddressFieldIs(m: DatabaseRecord, r: ReplicationRecord, data: seq<byte>)
    requires |data| <= MAX_INT
    ensures match Decode(ADDRESS, data, DatabaseAddress([], 0))
            case Ok(a) =>
              && RECORD.apply(m, BytesField(1, data))
              == Ok(DatabaseRecord(m.addresses + [a], m.misses, m.seen, m.missed))
              && REPLICATION.apply(r, BytesField(2, data)) == Ok(ReplicationRecord(r.key, r.addresses + [a], r.seen))
            case Err(e) =>
              && RECORD.apply(m, BytesField(1, data)) == Err(e)
              && REPLICATION.apply(r, BytesField(2, data)) == Err(e)
  {
    hide DecodeFrom;
  }

  // One record of each kind, byte by byte; -1 takes ten bytes.
  lemma BytesAre()
    ensures EncodeAddress(DatabaseAddress([0x61], 1)) == [0x0A, 1, 0x61, 0x10, 1]
    ensures EncodeRecord(DatabaseRecord([DatabaseAddress([0x61], 1)], 2, 300, -1))
         == [0x0A, 5, 0x0A, 1, 0x61, 0x10, 1] + ([0x10, 2] + ([0x18, 0xAC, 0x02]
            + [0x20, 255, 255, 255, 255, 255, 255, 255, 255, 255, 1]))
    ensures EncodeReplication(ReplicationRecord([0x6B], [DatabaseAddress([0x61], 1)], 4))
         == [0x0A, 1, 0x6B] + ([0x12, 5, 0x0A, 1, 0x61, 0x10, 1] + [0x18, 4])
    ensures EncodeRecord(DatabaseRecord([], 0, 0, 0)) == []
  {
    AddressBytes();
    AddressesBytes(0x0A);
    AddressesBytes(0x12);
    ScalarBytes();
    hide EncodeAddress, EncodeAddresses, VarintPart, Encode;
    assert StringPart(0x0A, [0x6B]) == [0x0A, 1, 0x6B] by { StringBytes(0x6B); }
    NoBytes();
  }

  lemma NoBytes()
    ensures EncodeRecord(DatabaseRecord([], 0, 0, 0)) == []
  {
  }

  lemma StringBytes(c: byte)
    ensures StringPart(0x0A, [c]) == [0x0A, 1, c]
  {
    SmallVarints();
    hide Encode;
  }

  lemma AddressBytes()
    ensures EncodeAddress(DatabaseAddress([0x61], 1)) == [0x0A, 1, 0x61, 0x10, 1]
  {
    SmallVarints();
    StringBytes(0x61);
    hide Encode;
    assert VarintPart(0x10, 1) == [0x10, 1];
  }

  lemma AddressesBytes(tag: byte)
    ensures EncodeAddresses(tag, [DatabaseAddress([0x61], 1)]) == [tag, 5, 0x0A, 1, 0x61, 0x10, 1]
  {
    SmallVarints();
    AddressBytes();
    hide Encode, EncodeAddress;
    var a := [DatabaseAddress([0x61], 1)];
    assert a[1..] == [] && EncodeAddresses(tag, []) == [];
    assert DelimitedPart(tag, [0x0A, 1, 0x61, 0x10, 1]) == [tag, 5, 0x0A, 1, 0x61, 0x10, 1];
  }

  lemma ScalarBytes()
    ensures VarintPart(0x10, AsUint64(2)) == [0x10, 2] && VarintPart(0x18, AsUint64(300)) == [0x18, 0xAC, 0x02]
    ensures VarintPart(0x20, AsUint64(-1)) == [0x20, 255, 255, 255, 255, 255, 255, 255, 255, 255, 1]
    ensures VarintPart(0x18, AsUint64(4)) == [0x18, 4]
  {
    SmallVarints();
    AllOnes();
    hide Encode;
    assert AsUint64(-1) == 0xFFFF_FFFF_FFFF_FFFF;
  }

  lemma SmallVarints()
    ensures Encode(1) == [1] && Encode(2) == [2] && Encode(4) == [4] && Encode(5) == [5] && Encode(300) == [0xAC, 0x02]
  {
    assert Encode(2) == [2];
  }

  lemma AllOnes()
    ensures Encode(0xFFFF_FFFF_FFFF_FFFF) == [255, 255, 255, 255, 255, 255, 255, 255, 255, 1]
  {
    assert Encode(1) == [1];
    assert Encode(0xFF) == [255, 1];
    assert Encode(0x7FFF) == [255] + Encode(0xFF);
    assert Encode(0x3F_FFFF) == [255] + Encode(0x7FFF);
    assert Encode(0x1FFF_FFFF) == [255] + Encode(0x3F_FFFF);
    assert Encode(0xF_FFFF_FFFF) == [255] + Encode(0x1FFF_FFFF);
    assert Encode(0x7FF_FFFF_FFFF) == [255] + Encode(0xF_FFFF_FFFF);
    assert Encode(0x3_FFFF_FFFF_FFFF) == [255] + Encode(0x7FF_FFFF_FFFF);
    assert Encode(0x1FF_FFFF_FFFF_FFFF) == [255] + Encode(0x3_FFFF_FFFF_FFFF);
    assert Encode(0xFFFF_FFFF_FFFF_FFFF) == [255] + Encode(0x1FF_FFFF_FFFF_FFFF);
  }
}
