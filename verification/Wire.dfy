// The shape shared by the three generated Unmarshal methods and skipDatabase: a loop that reads
// a tag, then a field (Protocol Buffers Encoding, section "Message Structure"). A message type
// contributes only which field numbers it knows and what each does to the message.
module Wire {
  import opened Common
  import opened Varint

  // How a known field number is encoded.
  datatype Kind = AsVarint | AsBytes | Unknown

  datatype Field =
    | VarintField(num: int32, value: uint64)
    | BytesField(num: int32, data: seq<byte>)
    | SkippedField

  datatype Parsed = Parsed(field: Field, width: nat)

  datatype Schema<!M> = Schema(kind: int32 -> Kind, apply: (M, Field) -> Result<M, Error>)

  // ---------- skipDatabase ----------

  // What one wire type does to the position and the group depth, before the checks that end
  // the loop body. The position may have wrapped to a negative number or passed the end.
  datatype Hop = Hop(at: int64, depth: nat)

  function SkipPayload(s: seq<byte>, j: nat, wireType: nat, depth: nat): (r: Result<Hop, Error>)
    requires j <= |s| <= MAX_INT
    ensures r.Ok? ==> r.value.at < 0 || r.value.at >= j
    ensures r.Ok? ==> r.value.depth <= depth + 1
  {
    match wireType
    case 0 =>
      (match Read(s[j..])
       case Err(e) => Err(e)
       case Ok(scan) => Ok(Hop(j + scan.width, depth)))
    case 1 => Ok(Hop(WrapInt(j + 8), depth))
    case 2 =>
      (match Read(s[j..])
       case Err(e) => Err(e)
       case Ok(scan) =>
         var length := AsInt64(scan.value);
         if length < 0 then Err(InvalidLength)
         else Ok(Hop(WrapInt(j + scan.width + length), depth)))
    case 3 => Ok(Hop(j, depth + 1))
    case 4 => if depth == 0 then Err(UnexpectedEndOfGroup) else Ok(Hop(j, depth - 1))
    case 5 => Ok(Hop(WrapInt(j + 4), depth))
    case _ => Err(IllegalWireType)
  }

  // skipDatabase from position i inside depth open groups: the position after the field that
  // closes the outermost one. The result may lie beyond the end of s; callers check.
  function SkipFrom(s: seq<byte>, i: nat, depth: nat): (r: Result<nat, Error>)
    requires |s| <= MAX_INT
    ensures r.Ok? ==> i < r.value <= MAX_INT
    decreases |s| - i
  {
    if i >= |s| then Err(UnexpectedEOF)
    else
      match Read(s[i..])
      case Err(e) => Err(e)
      case Ok(scan) =>
        var j := i + scan.width;
        match SkipPayload(s, j, scan.value % 8, depth)
        case Err(e) => Err(e)
        case Ok(hop) =>
          if hop.at < 0 then Err(InvalidLength)
          else if hop.depth == 0 then Ok(hop.at)
          else SkipFrom(s, hop.at, hop.depth)
  }

  // ---------- one field of a message ----------

  // The loop body of Unmarshal up to the point where the message is updated. s is the rest of
  // the input, which starts at position at of the whole.
  function ParseField(kind: int32 -> Kind, s: seq<byte>, at: nat): (r: Result<Parsed, Error>)
    requires s != [] && at + |s| <= MAX_INT
    ensures r.Ok? ==> 1 <= r.value.width <= |s|
    ensures r.Ok? && r.value.field.BytesField? ==> |r.value.field.data| <= |s|
  {
    match Read(s)
    case Err(e) => Err(e)
    case Ok(wire) =>
      var num, wireType := AsInt32(wire.value / 8), wire.value % 8;
      if wireType == 4 then Err(EndGroupForNonGroup)
      else if num <= 0 then Err(IllegalTag)
      else
        match kind(num)
        case AsVarint =>
          if wireType != 0 then Err(WrongWireType)
          else (
            match Read(s[wire.width..])
            case Err(e) => Err(e)
            case Ok(scan) => Ok(Parsed(VarintField(num, scan.value), wire.width + scan.width)))
        case AsBytes =>
          if wireType != 2 then Err(WrongWireType)
          else (
            match Read(s[wire.width..])
            case Err(e) => Err(e)
            case Ok(scan) => TakeBytes(num, s, at, wire.width + scan.width, AsInt64(scan.value)))
        case Unknown =>
          match SkipFrom(s, 0, 0)
          case Err(e) => Err(e)
          case Ok(skippy) =>
            if WrapInt(at + skippy) < 0 then Err(InvalidLength)
            else if at + skippy > at + |s| then Err(UnexpectedEOF)
            else Ok(Parsed(SkippedField, skippy))
  }

  // Which error a field is refused with: that of its tag, an end-group tag, a number that is not
  // positive, a wire type that does not go with the number, or that of its payload.
  lemma ParseErrors(kind: int32 -> Kind, s: seq<byte>, at: nat)
    requires s != [] && at + |s| <= MAX_INT
    ensures Read(s) == Err(IntOverflow) ==> ParseField(kind, s, at) == Err(IntOverflow)
    ensures Read(s) == Err(UnexpectedEOF) ==> ParseField(kind, s, at) == Err(UnexpectedEOF)
    ensures Read(s).Ok? ==>
      var tag, rest := Read(s).value.value, s[Read(s).value.width..];
      var num := AsInt32(tag / 8);
      && (tag % 8 == 4 ==> ParseField(kind, s, at) == Err(EndGroupForNonGroup))
      && (tag % 8 != 4 && num <= 0 ==> ParseField(kind, s, at) == Err(IllegalTag))
      && (num > 0 && kind(num) == AsVarint && tag % 8 !in {0, 4} ==> ParseField(kind, s, at) == Err(WrongWireType))
      && (num > 0 && kind(num) == AsBytes && tag % 8 !in {2, 4} ==> ParseField(kind, s, at) == Err(WrongWireType))
      && (num > 0 && kind(num) == AsVarint && tag % 8 == 0 && Read(rest).Err? ==>
            ParseField(kind, s, at) == Err(Read(rest).error))
      && (num > 0 && kind(num) == AsBytes && tag % 8 == 2 && Read(rest).Err? ==>
            ParseField(kind, s, at) == Err(Read(rest).error))
      && (num > 0 && kind(num) == AsBytes && tag % 8 == 2 && Read(rest).Ok? && Read(rest).value.value > MAX_INT ==>
            ParseField(kind, s, at) == Err(InvalidLength))
  {
    hide ScanFrom, SkipFrom;
  }

  // And which one the skipper gives up with.
  lemma SkipErrors(s: seq<byte>, i: nat, depth: nat)
    requires |s| <= MAX_INT
    ensures i >= |s| ==> SkipFrom(s, i, depth) == Err(UnexpectedEOF)
    ensures i < |s| && Read(s[i..]).Err? ==> SkipFrom(s, i, depth) == Err(Read(s[i..]).error)
    ensures i < |s| && Read(s[i..]).Ok? ==>
      var tag, rest := Read(s[i..]).value.value, s[i + Read(s[i..]).value.width..];
      && (tag % 8 == 4 && depth == 0 ==> SkipFrom(s, i, depth) == Err(UnexpectedEndOfGroup))
      && (tag % 8 in {6, 7} ==> SkipFrom(s, i, depth) == Err(IllegalWireType))
      && (tag % 8 in {0, 2} && Read(rest).Err? ==> SkipFrom(s, i, depth) == Err(Read(rest).error))
      && (tag % 8 == 2 && Read(rest).Ok? && Read(rest).value.value >= 0x8000_0000_0000_0000 ==>
            SkipFrom(s, i, depth) == Err(InvalidLength))
  {
    hide ScanFrom;
  }

  // The bounds checks on a length-delimited field whose payload starts at s[j].
  function TakeBytes(num: int32, s: seq<byte>, at: nat, j: nat, length: int64): (r: Result<Parsed, Error>)
    requires 1 <= j <= |s| && at + |s| <= MAX_INT
    ensures r.Ok? ==> 1 <= r.value.width <= |s|
    ensures r.Ok? ==> r.value.field.BytesField? && |r.value.field.data| <= |s|
  {
    if length < 0 then Err(InvalidLength)
    else
      var postIndex := WrapInt(at + j + length);
      if postIndex < 0 then Err(InvalidLength)
      else if postIndex > at + |s| then Err(UnexpectedEOF)
      else Ok(Parsed(BytesField(num, s[j..j + length]), j + length))
  }

  // ---------- Unmarshal ----------

  function Update<M>(schema: Schema<M>, m: M, field: Field): Result<M, Error> {
    if field.SkippedField? then Ok(m) else schema.apply(m, field)
  }

  // Unmarshal of s, which starts at position at of the whole input, into message m.
  function DecodeFrom<M>(schema: Schema<M>, s: seq<byte>, at: nat, m: M): (r: Result<M, Error>)
    requires at + |s| <= MAX_INT
    decreases |s|
  {
    if s == [] then Ok(m)
    else
      match ParseField(schema.kind, s, at)
      case Err(e) => Err(e)
      case Ok(p) =>
        match Update(schema, m, p.field)
        case Err(e) => Err(e)
        case Ok(m') => DecodeFrom(schema, s[p.width..], at + p.width, m')
  }

  function Decode<M>(schema: Schema<M>, s: seq<byte>, m: M): (r: Result<M, Error>)
    requires |s| <= MAX_INT
  {
    DecodeFrom(schema, s, 0, m)
  }

  // Two outcomes agree: both fail, or both succeed with the same value. Which error is reported
  // can depend on absolute positions, through the 64-bit wrap checks.
  ghost predicate SameOutcome<M>(a: Result<M, Error>, b: Result<M, Error>) {
    (a.Ok? <==> b.Ok?) && (a.Ok? ==> a == b)
  }

  lemma DecodeStep<M>(schema: Schema<M>, s: seq<byte>, at: nat, m: M, p: Parsed, m': M)
    requires s != [] && at + |s| <= MAX_INT
    requires ParseField(schema.kind, s, at) == Ok(p) && Update(schema, m, p.field) == Ok(m')
    ensures DecodeFrom(schema, s, at, m) == DecodeFrom(schema, s[p.width..], at + p.width, m')
  {
    hide ParseField, ScanFrom, SkipFrom;
  }

  // ---------- concatenation ----------

  // The first iteration of skipDatabase, which bytes appended to s do not change.
  lemma FirstHop(s: seq<byte>, t: seq<byte>, i: nat, depth: nat) returns (hop: Hop)
    requires |s + t| <= MAX_INT
    requires SkipFrom(s, i, depth).Ok?
    ensures i < hop.at && i < |s|
    ensures SkipFrom(s, i, depth) == if hop.depth == 0 then Ok(hop.at) else SkipFrom(s, hop.at, hop.depth)
    ensures SkipFrom(s + t, i, depth) == if hop.depth == 0 then Ok(hop.at) else SkipFrom(s + t, hop.at, hop.depth)
  {
    hide ScanFrom, SkipPayload;
    var scan := Read(s[i..]).value;
    hop := SkipPayload(s, i + scan.width, scan.value % 8, depth).value;
    assert (s + t)[i..] == s[i..] + t;
    ReadExtends(s[i..], t, 0, 0);
    PayloadExtends(s, t, i + scan.width, scan.value % 8, depth);
  }

  lemma {:induction false} SkipExtends(s: seq<byte>, t: seq<byte>, i: nat, depth: nat)
    requires |s + t| <= MAX_INT
    requires SkipFrom(s, i, depth).Ok?
    ensures SkipFrom(s + t, i, depth) == SkipFrom(s, i, depth)
    decreases |s| - i
  {
    var hop := FirstHop(s, t, i, depth);
    if hop.depth > 0 {
      SkipExtends(s, t, hop.at, hop.depth);
    }
  }

  lemma PayloadExtends(s: seq<byte>, t: seq<byte>, j: nat, wireType: nat, depth: nat)
    requires j <= |s| && |s + t| <= MAX_INT
    requires SkipPayload(s, j, wireType, depth).Ok?
    ensures SkipPayload(s + t, j, wireType, depth) == SkipPayload(s, j, wireType, depth)
  {
    assert (s + t)[j..] == s[j..] + t;
    if wireType == 0 || wireType == 2 {
      ReadExtends(s[j..], t, 0, 0);
    }
  }

  // A field that parses keeps parsing the same way when input is added after it.
  lemma ParseExtends(kind: int32 -> Kind, s: seq<byte>, t: seq<byte>, at: nat)
    requires s != [] && at + |s + t| <= MAX_INT
    requires ParseField(kind, s, at).Ok?
    ensures ParseField(kind, s + t, at) == ParseField(kind, s, at)
  {
    hide ScanFrom, SkipFrom;
    var wire := Read(s).value;
    ReadExtends(s, t, 0, 0);
    if kind(AsInt32(wire.value / 8)) == Unknown {
      SkipExtends(s, t, 0, 0);
    } else {
      assert (s + t)[wire.width..] == s[wire.width..] + t;
      ReadExtends(s[wire.width..], t, 0, 0);
      var scan := Read(s[wire.width..]).value;
      if kind(AsInt32(wire.value / 8)) == AsBytes {
        TakeExtends(AsInt32(wire.value / 8), s, t, at, wire.width + scan.width, AsInt64(scan.value));
      }
    }
  }

  lemma TakeExtends(num: int32, s: seq<byte>, t: seq<byte>, at: nat, j: nat, length: int64)
    requires 1 <= j <= |s| && at + |s + t| <= MAX_INT
    requires TakeBytes(num, s, at, j, length).Ok?
    ensures TakeBytes(num, s + t, at, j, length) == TakeBytes(num, s, at, j, length)
  {
    assert (s + t)[j..j + length] == s[j..j + length];
  }

  // Where a field sits in the input does not change what it parses to.
  lemma ParseAnywhere(kind: int32 -> Kind, s: seq<byte>, at: nat, at': nat)
    requires s != [] && at + |s| <= MAX_INT && at' + |s| <= MAX_INT
    requires ParseField(kind, s, at).Ok?
    ensures ParseField(kind, s, at') == ParseField(kind, s, at)
  {
  }

  lemma {:induction false} DecodeAnywhere<M>(schema: Schema<M>, s: seq<byte>, at: nat, at': nat, m: M)
    requires at + |s| <= MAX_INT && at' + |s| <= MAX_INT
    ensures SameOutcome(DecodeFrom(schema, s, at, m), DecodeFrom(schema, s, at', m))
    decreases |s|
  {
    hide ParseField, ScanFrom, SkipFrom;
    if s != [] {
      var p, p' := ParseField(schema.kind, s, at), ParseField(schema.kind, s, at');
      if p.Ok? {
        ParseAnywhere(schema.kind, s, at, at');
        var step := Update(schema, m, p.value.field);
        if step.Ok? {
          DecodeAnywhere(schema, s[p.value.width..], at + p.value.width, at' + p.value.width, step.value);
        }
      } else if p'.Ok? {
        ParseAnywhere(schema.kind, s, at', at);
      }
    }
  }

  // The first field of x is also the first field of x followed by y.
  lemma FirstField<M>(schema: Schema<M>, x: seq<byte>, y: seq<byte>, at: nat, m: M) returns (p: Parsed, m': M)
    requires x != [] && at + |x + y| <= MAX_INT
    requires DecodeFrom(schema, x, at, m).Ok?
    ensures 1 <= p.width <= |x|
    ensures DecodeFrom(schema, x, at, m) == DecodeFrom(schema, x[p.width..], at + p.width, m')
    ensures DecodeFrom(schema, x + y, at, m) == DecodeFrom(schema, x[p.width..] + y, at + p.width, m')
  {
    hide ScanFrom, SkipFrom;
    p := ParseField(schema.kind, x, at).value;
    m' := Update(schema, m, p.field).value;
    ParseExtends(schema.kind, x, y, at);
    DecodeStep(schema, x, at, m, p, m');
    assert (x + y)[p.width..] == x[p.width..] + y;
    DecodeStep(schema, x + y, at, m, p, m');
  }

  // Decoding x followed by y is decoding y into the message that x left: repeated fields append
  // and scalars are replaced (section "Last One Wins"), for every message type and every y.
  lemma {:induction false} DecodeConcat<M>(schema: Schema<M>, x: seq<byte>, y: seq<byte>, at: nat, at': nat,
                                           m: M, mx: M)
    requires at + |x + y| <= MAX_INT && at' + |y| <= MAX_INT
    requires DecodeFrom(schema, x, at, m) == Ok(mx)
    ensures SameOutcome(DecodeFrom(schema, x + y, at, m), DecodeFrom(schema, y, at', mx))
    decreases |x|
  {
    hide ParseField, ScanFrom, SkipFrom;
    if x == [] {
      assert x + y == y;
      DecodeAnywhere(schema, y, at, at', m);
    } else {
      var p, m' := FirstField(schema, x, y, at, m);
      DecodeConcat(schema, x[p.width..], y, at + p.width, at', m', mx);
    }
  }
}
