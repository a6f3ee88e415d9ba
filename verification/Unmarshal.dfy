// skipDatabase and the three Unmarshal methods in their own form, loops that advance iNdEx over
// the input and fill the fields of a message, each tied to its specification in Wire.
module Unmarshal {
  import opened Common
  import opened Varint
  import opened Wire
  import opened Messages

  method SkipDatabase(dAtA: seq<byte>) returns (r: Result<nat, Error>)
    requires |dAtA| <= MAX_INT
    ensures r == SkipFrom(dAtA, 0, 0)
  {
    hide ScanFrom, SkipPayload;
    var iNdEx: int64, depth: nat := 0, 0;
    while iNdEx < |dAtA|
      invariant 0 <= iNdEx
      invariant SkipFrom(dAtA, 0, 0) == SkipFrom(dAtA, iNdEx, depth)
      decreases |dAtA| - iNdEx
    {
      var wire, afterTag := ReadVarint(dAtA, iNdEx);
      if wire.Err? {
        return Err(wire.error);
      }
      var hop := SkipWireType(dAtA, afterTag, wire.value % 8, depth);
      if hop.Err? {
        return Err(hop.error);
      }
      iNdEx, depth := hop.value.at, hop.value.depth;
      if iNdEx < 0 {
        return Err(InvalidLength);
      }
      if depth == 0 {
        return Ok(iNdEx);
      }
    }
    return Err(UnexpectedEOF);
  }

  // The switch on the wire type.
  method SkipWireType(dAtA: seq<byte>, start: nat, wireType: nat, depth: nat) returns (r: Result<Hop, Error>)
    requires start <= |dAtA| <= MAX_INT
    ensures r == SkipPayload(dAtA, start, wireType, depth)
  {
    hide ScanFrom;
    match wireType
    case 0 =>
      var skipped, iNdEx := ReadVarint(dAtA, start);
      if skipped.Err? {
        return Err(skipped.error);
      }
      return Ok(Hop(iNdEx, depth));
    case 1 => return Ok(Hop(WrapInt(start + 8), depth));
    case 2 =>
      var length, iNdEx := ReadVarint(dAtA, start);
      if length.Err? {
        return Err(length.error);
      }
      if AsInt64(length.value) < 0 {
        return Err(InvalidLength);
      }
      return Ok(Hop(WrapInt(iNdEx + AsInt64(length.value)), depth));
    case 3 => return Ok(Hop(start, depth + 1));
    case 4 =>
      if depth == 0 {
        return Err(UnexpectedEndOfGroup);
      }
      return Ok(Hop(start, depth - 1));
    case 5 => return Ok(Hop(WrapInt(start + 4), depth));
    case _ => return Err(IllegalWireType);
  }

  // The tag at the start of every iteration: its field number, its wire type, and where it ends.
  datatype Tag = Tag(num: int32, wireType: nat)

  method ReadTag(dAtA: seq<byte>, start: nat) returns (r: Result<Tag, Error>, iNdEx: nat)
    requires start <= |dAtA|
    ensures start <= iNdEx <= |dAtA|
    ensures match Read(dAtA[start..])
            case Err(e) => r == Err(e)
            case Ok(wire) =>
              var num, wireType := AsInt32(wire.value / 8), wire.value % 8;
              && iNdEx == start + wire.width
              && r == if wireType == 4 then Err(EndGroupForNonGroup)
                      else if num <= 0 then Err(IllegalTag)
                      else Ok(Tag(num, wireType))
  {
    var wire, at := ReadVarint(dAtA, start);
    iNdEx := at;
    if wire.Err? {
      return Err(wire.error), iNdEx;
    }
    var num, wireType := AsInt32(wire.value / 8), wire.value % 8;
    if wireType == 4 {
      return Err(EndGroupForNonGroup), iNdEx;
    }
    if num <= 0 {
      return Err(IllegalTag), iNdEx;
    }
    return Ok(Tag(num, wireType)), iNdEx;
  }

  lemma TagFails<M>(schema: Schema<M>, dAtA: seq<byte>, preIndex: nat, m: M, e: Error)
    requires preIndex < |dAtA| <= MAX_INT
    requires match Read(dAtA[preIndex..])
             case Err(x) => e == x
             case Ok(wire) =>
               var num, wireType := AsInt32(wire.value / 8), wire.value % 8;
               if wireType == 4 then e == EndGroupForNonGroup else num <= 0 && e == IllegalTag
    ensures DecodeFrom(schema, dAtA[preIndex..], preIndex, m) == Err(e)
  {
    hide ScanFrom, SkipFrom;
  }

  // A length and the bytes it announces.
  method ReadBytes(dAtA: seq<byte>, num: int32, preIndex: nat, start: nat)
    returns (r: Result<seq<byte>, Error>, iNdEx: nat)
    requires preIndex < start <= |dAtA| <= MAX_INT
    ensures start <= iNdEx <= |dAtA|
    ensures match Read(dAtA[start..])
            case Err(e) => r == Err(e)
            case Ok(scan) =>
              match TakeBytes(num, dAtA[preIndex..], preIndex, start - preIndex + scan.width, AsInt64(scan.value))
              case Err(e) => r == Err(e)
              case Ok(p) => r.Ok? && p.field == BytesField(num, r.value) && iNdEx == preIndex + p.width
  {
    var length, at := ReadVarint(dAtA, start);
    iNdEx := at;
    if length.Err? {
      return Err(length.error), iNdEx;
    }
    var n := AsInt64(length.value);
    if n < 0 {
      return Err(InvalidLength), iNdEx;
    }
    var postIndex := WrapInt(iNdEx + n);
    if postIndex < 0 {
      return Err(InvalidLength), iNdEx;
    }
    if postIndex > |dAtA| {
      return Err(UnexpectedEOF), iNdEx;
    }
    SliceOfSuffix(dAtA, preIndex, iNdEx, postIndex);
    return Ok(dAtA[iNdEx..postIndex]), postIndex;
  }

  lemma SliceOfSuffix(s: seq<byte>, i: nat, j: nat, k: nat)
    requires i <= j <= k <= |s|
    ensures s[i..][j - i..k - i] == s[j..k] && s[i..][j - i..] == s[j..]
  {
  }

  // The default case: step over a field nobody knows.
  method SkipUnknown(dAtA: seq<byte>, preIndex: nat) returns (r: Result<nat, Error>)
    requires preIndex < |dAtA| <= MAX_INT
    ensures match SkipFrom(dAtA[preIndex..], 0, 0)
            case Err(e) => r == Err(e)
            case Ok(skippy) =>
              r == if WrapInt(preIndex + skippy) < 0 then Err(InvalidLength)
                   else if preIndex + skippy > |dAtA| then Err(UnexpectedEOF)
                   else Ok(preIndex + skippy)
  {
    var skippy := SkipDatabase(dAtA[preIndex..]);
    if skippy.Err? {
      return Err(skippy.error);
    }
    if skippy.value < 0 || WrapInt(preIndex + skippy.value) < 0 {
      return Err(InvalidLength);
    }
    if preIndex + skippy.value > |dAtA| {
      return Err(UnexpectedEOF);
    }
    return Ok(preIndex + skippy.value);
  }

  // The part of the loop body that the three Unmarshal methods share: everything up to the
  // assignment to a field of the message.
  method ReadField(kind: int32 -> Kind, dAtA: seq<byte>, preIndex: nat) returns (r: Result<Parsed, Error>)
    requires preIndex < |dAtA| <= MAX_INT
    ensures r == ParseField(kind, dAtA[preIndex..], preIndex)
  {
    var tag, iNdEx := ReadTag(dAtA, preIndex);
    if tag.Err? {
      return Err(tag.error);
    }
    r := ReadPayload(kind, dAtA, preIndex, tag.value, iNdEx);
  }

  // tag was read from preIndex and ends at iNdEx.
  ghost predicate TagAt(dAtA: seq<byte>, preIndex: nat, tag: Tag, iNdEx: nat)
    requires preIndex <= |dAtA|
  {
    Read(dAtA[preIndex..]).Ok? &&
    var wire := Read(dAtA[preIndex..]).value;
    && tag == Tag(AsInt32(wire.value / 8), wire.value % 8) && tag.wireType != 4 && tag.num > 0
    && iNdEx == preIndex + wire.width
  }

  method ReadPayload(kind: int32 -> Kind, dAtA: seq<byte>, preIndex: nat, tag: Tag, iNdEx: nat)
    returns (r: Result<Parsed, Error>)
    requires preIndex < |dAtA| <= MAX_INT && TagAt(dAtA, preIndex, tag, iNdEx)
    ensures r == ParseField(kind, dAtA[preIndex..], preIndex)
    ensures r.Ok? && !r.value.field.SkippedField? ==> r.value.field.num == tag.num
  {
    hide ScanFrom, SkipFrom, WrapInt;
    var num, wireType := tag.num, tag.wireType;
    SliceOfSuffix(dAtA, preIndex, iNdEx, iNdEx);
    match kind(num)
    case AsVarint =>
      if wireType != 0 {
        return Err(WrongWireType);
      }
      var v, postIndex := ReadVarint(dAtA, iNdEx);
      if v.Err? {
        return Err(v.error);
      }
      return Ok(Parsed(VarintField(num, v.value), postIndex - preIndex));
    case AsBytes =>
      if wireType != 2 {
        return Err(WrongWireType);
      }
      var data, postIndex := ReadBytes(dAtA, num, preIndex, iNdEx);
      if data.Err? {
        return Err(data.error);
      }
      return Ok(Parsed(BytesField(num, data.value), postIndex - preIndex));
    case Unknown =>
      var postIndex := SkipUnknown(dAtA, preIndex);
      if postIndex.Err? {
        return Err(postIndex.error);
      }
      return Ok(Parsed(SkippedField, postIndex.value - preIndex));
  }

  // The case of an int32 field, whose reader accumulates in 32 bits.
  method ReadInt32(kind: int32 -> Kind, dAtA: seq<byte>, preIndex: nat, tag: Tag, iNdEx: nat)
    returns (r: Result<int32, Error>, postIndex: nat)
    requires preIndex < |dAtA| <= MAX_INT && TagAt(dAtA, preIndex, tag, iNdEx)
    requires kind(tag.num) == AsVarint
    ensures match ParseField(kind, dAtA[preIndex..], preIndex)
            case Err(e) => r == Err(e)
            case Ok(p) => p.field.VarintField? && p.field.num == tag.num
                          && r == Ok(AsInt32(p.field.value)) && postIndex == preIndex + p.width
  {
    hide ScanFrom, SkipFrom;
    if tag.wireType != 0 {
      return Err(WrongWireType), iNdEx;
    }
    SliceOfSuffix(dAtA, preIndex, iNdEx, iNdEx);
    r, postIndex := ReadVarint32(dAtA, iNdEx);
  }

  // The field at preIndex has been read and put into the message: before and now are the message's
  // values, and the next field starts at postIndex; or err is the error.
  ghost predicate OneField<M>(schema: Schema<M>, dAtA: seq<byte>, preIndex: nat, before: M,
                              err: Option<Error>, postIndex: nat, now: M)
    requires preIndex < |dAtA| <= MAX_INT
  {
    match ParseField(schema.kind, dAtA[preIndex..], preIndex)
    case Err(e) => err == Some(e)
    case Ok(p) =>
      match Update(schema, before, p.field)
      case Err(e) => err == Some(e)
      case Ok(m) => err == None && postIndex == preIndex + p.width && now == m
  }

  lemma OneFieldStep<M>(schema: Schema<M>, dAtA: seq<byte>, preIndex: nat, before: M,
                        err: Option<Error>, postIndex: nat, now: M)
    requires preIndex < |dAtA| <= MAX_INT && OneField(schema, dAtA, preIndex, before, err, postIndex, now)
    ensures match err
            case Some(e) => DecodeFrom(schema, dAtA[preIndex..], preIndex, before) == Err(e)
            case None =>
              && preIndex < postIndex <= |dAtA|
              && DecodeFrom(schema, dAtA[preIndex..], preIndex, before)
              == DecodeFrom(schema, dAtA[postIndex..], postIndex, now)
  {
    hide ParseField;
    if err == None {
      SliceOfSuffix(dAtA, preIndex, postIndex, |dAtA|);
    }
  }

  // The outcome of Unmarshal as its caller sees it.
  ghost predicate Outcome<M>(spec: Result<M, Error>, err: Option<Error>, value: M) {
    match spec
    case Ok(m) => err == None && value == m
    case Err(e) => err == Some(e)
  }

  class AddressMessage {
    var address: seq<byte>
    var expires: int64

    ghost function Value(): DatabaseAddress
      reads this
    {
      DatabaseAddress(address, expires)
    }

    constructor ()
      ensures Value() == NO_ADDRESS
    {
      address, expires := [], 0;
    }

    method Unmarshal(dAtA: seq<byte>) returns (err: Option<Error>)
      requires |dAtA| <= MAX_INT
      modifies this
      ensures Outcome(Decode(ADDRESS, dAtA, old(Value())), err, Value())
    {
      hide ParseField;
      var iNdEx := 0;
      assert dAtA[0..] == dAtA;
      while iNdEx < |dAtA|
        invariant 0 <= iNdEx <= |dAtA|
        invariant Decode(ADDRESS, dAtA, old(Value())) == DecodeFrom(ADDRESS, dAtA[iNdEx..], iNdEx, Value())
      {
        ghost var before := Value();
        var p := ReadField(AddressKind, dAtA, iNdEx);
        if p.Err? {
          return Some(p.error);
        }
        match p.value.field {
          case BytesField(1, data) => address := data;
          case VarintField(2, v) => expires := AsInt64(v);
          case _ =>
        }
        SliceOfSuffix(dAtA, iNdEx, iNdEx + p.value.width, |dAtA|);
        DecodeStep(ADDRESS, dAtA[iNdEx..], iNdEx, before, p.value, Value());
        iNdEx := iNdEx + p.value.width;
      }
      return None;
    }
  }

  // m.Addresses = append(m.Addresses, DatabaseAddress{}), then Unmarshal into the new element.
  method AppendUnmarshalled(addresses: seq<DatabaseAddress>, data: seq<byte>)
    returns (r: Result<seq<DatabaseAddress>, Error>)
    requires |data| <= MAX_INT
    ensures r == AppendAddress(addresses, data)
  {
    var element := new AddressMessage();
    var err := element.Unmarshal(data);
    match err
    case Some(e) => return Err(e);
    case None =>
      return Ok(addresses + [DatabaseAddress(element.address, element.expires)]);
  }

  class RecordMessage {
    var addresses: seq<DatabaseAddress>
    var misses: int32
    var seen: int64
    var missed: int64

    ghost function Value(): DatabaseRecord
      reads this
    {
      DatabaseRecord(addresses, misses, seen, missed)
    }

    constructor ()
      ensures Value() == NO_RECORD
    {
      addresses, misses, seen, missed := [], 0, 0, 0;
    }

    // The case of field 2, misses.
    method ReadMisses(dAtA: seq<byte>, preIndex: nat, tag: Tag, start: nat)
      returns (err: Option<Error>, postIndex: nat)
      requires preIndex < |dAtA| <= MAX_INT && TagAt(dAtA, preIndex, tag, start) && tag.num == 2
      modifies this
      ensures OneField(RECORD, dAtA, preIndex, old(Value()), err, postIndex, Value())
    {
      hide ParseField;
      var v;
      v, postIndex := ReadInt32(RecordKind, dAtA, preIndex, tag, start);
      if v.Err? {
        return Some(v.error), postIndex;
      }
      misses := v.value;
      err := None;
    }

    // The other cases.
    method ReadOther(dAtA: seq<byte>, preIndex: nat, tag: Tag, start: nat)
      returns (err: Option<Error>, postIndex: nat)
      requires preIndex < |dAtA| <= MAX_INT && TagAt(dAtA, preIndex, tag, start) && tag.num != 2
      modifies this
      ensures OneField(RECORD, dAtA, preIndex, old(Value()), err, postIndex, Value())
    {
      hide ParseField, AppendAddress;
      postIndex := start;
      var p := ReadPayload(RecordKind, dAtA, preIndex, tag, start);
      if p.Err? {
        return Some(p.error), postIndex;
      }
      match p.value.field {
        case BytesField(1, data) =>
          var list := AppendUnmarshalled(addresses, data);
          if list.Err? {
            return Some(list.error), postIndex;
          }
          addresses := list.value;
        case VarintField(3, v) => seen := AsInt64(v);
        case VarintField(4, v) => missed := AsInt64(v);
        case _ =>
      }
      return None, preIndex + p.value.width;
    }

    method Unmarshal(dAtA: seq<byte>) returns (err: Option<Error>)
      requires |dAtA| <= MAX_INT
      modifies this
      ensures Outcome(Decode(RECORD, dAtA, old(Value())), err, Value())
    {
      hide OneField;
      var iNdEx := 0;
      assert dAtA[0..] == dAtA;
      while iNdEx < |dAtA|
        invariant 0 <= iNdEx <= |dAtA|
        invariant Decode(RECORD, dAtA, old(Value())) == DecodeFrom(RECORD, dAtA[iNdEx..], iNdEx, Value())
      {
        ghost var before := Value();
        var tag, start := ReadTag(dAtA, iNdEx);
        if tag.Err? {
          TagFails(RECORD, dAtA, iNdEx, before, tag.error);
          return Some(tag.error);
        }
        var postIndex;
        if tag.value.num == 2 {
          err, postIndex := ReadMisses(dAtA, iNdEx, tag.value, start);
        } else {
          err, postIndex := ReadOther(dAtA, iNdEx, tag.value, start);
        }
        OneFieldStep(RECORD, dAtA, iNdEx, before, err, postIndex, Value());
        if err != None {
          return;
        }
        iNdEx := postIndex;
      }
      return None;
    }
  }

  class ReplicationMessage {
    var key: seq<byte>
    var addresses: seq<DatabaseAddress>
    var seen: int64

    ghost function Value(): ReplicationRecord
      reads this
    {
      ReplicationRecord(key, addresses, seen)
    }

    constructor ()
      ensures Value() == HEARTBEAT
    {
      key, addresses, seen := [], [], 0;
    }

    method Unmarshal(dAtA: seq<byte>) returns (err: Option<Error>)
      requires |dAtA| <= MAX_INT
      modifies this
      ensures Outcome(Decode(REPLICATION, dAtA, old(Value())), err, Value())
    {
      hide ParseField, AppendAddress;
      var iNdEx := 0;
      assert dAtA[0..] == dAtA;
      while iNdEx < |dAtA|
        invariant 0 <= iNdEx <= |dAtA|
        invariant Decode(REPLICATION, dAtA, old(Value())) == DecodeFrom(REPLICATION, dAtA[iNdEx..], iNdEx, Value())
      {
        ghost var before := Value();
        var p := ReadField(ReplicationKind, dAtA, iNdEx);
        if p.Err? {
          return Some(p.error);
        }
        match p.value.field {
          case BytesField(1, data) => key := data;
          case BytesField(2, data) =>
            var list := AppendUnmarshalled(addresses, data);
            if list.Err? {
              return Some(list.error);
            }
            addresses := list.value;
          case VarintField(3, v) => seen := AsInt64(v);
          case _ =>
        }
        SliceOfSuffix(dAtA, iNdEx, iNdEx + p.value.width, |dAtA|);
        DecodeStep(REPLICATION, dAtA[iNdEx..], iNdEx, before, p.value, Value());
        iNdEx := iNdEx + p.value.width;
      }
      return None;
    }
  }
}
