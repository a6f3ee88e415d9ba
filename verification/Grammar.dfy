// What skipDatabase accepts, stated independently as a grammar of wire-format fields, and the
// consequence for messages: a field with an unknown number is invisible.
module Grammar {
  import opened Common
  import opened Varint
  import opened Wire

  // One field on the wire. A group holds further fields between its start and end tags; the
  // skipper never compares the two tags' field numbers, so neither does the grammar.
  datatype Item =
    | Leaf(tag: seq<byte>, body: seq<byte>)
    | Group(tag: seq<byte>, items: Items, end: seq<byte>)

  datatype Items = Nil | Cons(head: Item, tail: Items)

  function Flat(item: Item): seq<byte> {
    match item
    case Leaf(tag, body) => tag + body
    case Group(tag, items, end) => tag + FlatAll(items) + end
  }

  function FlatAll(items: Items): seq<byte> {
    match items
    case Nil => []
    case Cons(head, tail) => Flat(head) + FlatAll(tail)
  }

  // t is exactly one varint, of any permitted width.
  predicate IsVarint(t: seq<byte>) {
    Read(t).Ok? && Read(t).value.width == |t|
  }

  predicate IsTag(t: seq<byte>, wireType: nat) {
    IsVarint(t) && Read(t).value.value % 8 == wireType
  }

  predicate IsDelimited(body: seq<byte>) {
    Read(body).Ok? &&
    var scan := Read(body).value;
    scan.value <= MAX_INT && |body| == scan.width + scan.value
  }

  predicate WellFormedLeaf(tag: seq<byte>, body: seq<byte>) {
    || (IsTag(tag, 0) && IsVarint(body))
    || (IsTag(tag, 1) && |body| == 8)
    || (IsTag(tag, 2) && IsDelimited(body))
    || (IsTag(tag, 5) && |body| == 4)
  }

  predicate WellFormed(item: Item) {
    match item
    case Leaf(tag, body) => WellFormedLeaf(tag, body)
    case Group(tag, items, end) => IsTag(tag, 3) && AllWellFormed(items) && IsTag(end, 4)
  }

  predicate AllWellFormed(items: Items) {
    match items
    case Nil => true
    case Cons(head, tail) => WellFormed(head) && AllWellFormed(tail)
  }

  // x lies in s from position i on.
  predicate LiesAt(s: seq<byte>, i: nat, x: seq<byte>) {
    i + |x| <= |s| && s[i..i + |x|] == x
  }

  lemma LiesSplit(s: seq<byte>, i: nat, x: seq<byte>, y: seq<byte>)
    requires LiesAt(s, i, x + y)
    ensures LiesAt(s, i, x) && LiesAt(s, i + |x|, y)
  {
    assert s[i..i + |x + y|][..|x|] == x && s[i..i + |x + y|][|x|..] == y;
  }

  lemma ReadAt(s: seq<byte>, i: nat, x: seq<byte>)
    requires LiesAt(s, i, x) && Read(x).Ok?
    ensures Read(s[i..]) == Read(x)
  {
    assert s[i..] == x + s[i + |x|..];
    ReadExtends(x, s[i + |x|..], 0, 0);
  }

  // Where the skipper stands once a field ending at j is done.
  function After(s: seq<byte>, j: nat, depth: nat): Result<nat, Error>
    requires |s| <= MAX_INT
  {
    if depth == 0 then Ok(j) else SkipFrom(s, j, depth)
  }

  // One iteration of the skipper over a tag whose payload moves it to j.
  lemma SkipTag(s: seq<byte>, i: nat, depth: nat, tag: seq<byte>, wireType: nat, hop: Hop)
    requires |s| <= MAX_INT && LiesAt(s, i, tag) && IsTag(tag, wireType)
    requires SkipPayload(s, i + |tag|, wireType, depth) == Ok(hop) && hop.at >= 0
    ensures SkipFrom(s, i, depth) == After(s, hop.at, hop.depth)
  {
    hide ScanFrom, SkipPayload;
    ReadAt(s, i, tag);
  }

  lemma SkipLeaf(tag: seq<byte>, body: seq<byte>, s: seq<byte>, i: nat, depth: nat)
    requires |s| <= MAX_INT && WellFormedLeaf(tag, body) && LiesAt(s, i, tag + body)
    ensures SkipFrom(s, i, depth) == After(s, i + |tag + body|, depth)
  {
    hide ScanFrom, SkipFrom;
    LiesSplit(s, i, tag, body);
    var wireType := Read(tag).value.value % 8;
    if wireType == 0 || wireType == 2 {
      ReadAt(s, i + |tag|, body);
    }
    SkipTag(s, i, depth, tag, wireType, Hop(i + |tag + body|, depth));
  }

  // Soundness: the skipper steps over every well-formed field, at any depth.
  lemma {:induction false} SkipItem(item: Item, s: seq<byte>, i: nat, depth: nat)
    requires |s| <= MAX_INT && WellFormed(item) && LiesAt(s, i, Flat(item))
    ensures SkipFrom(s, i, depth) == After(s, i + |Flat(item)|, depth)
    decreases item
  {
    hide ScanFrom, SkipFrom;
    match item
    case Leaf(tag, body) =>
      SkipLeaf(tag, body, s, i, depth);
    case Group(tag, items, end) =>
      var k := i + |tag|;
      LiesSplit(s, i, tag + FlatAll(items), end);
      LiesSplit(s, i, tag, FlatAll(items));
      SkipTag(s, i, depth, tag, 3, Hop(k, depth + 1));
      SkipItems(items, s, k, depth + 1);
      SkipTag(s, k + |FlatAll(items)|, depth + 1, end, 4, Hop(i + |Flat(item)|, depth));
  }

  lemma {:induction false} SkipItems(items: Items, s: seq<byte>, i: nat, depth: nat)
    requires |s| <= MAX_INT && AllWellFormed(items) && LiesAt(s, i, FlatAll(items)) && depth > 0
    ensures SkipFrom(s, i, depth) == SkipFrom(s, i + |FlatAll(items)|, depth)
    decreases items
  {
    hide ScanFrom, SkipFrom;
    match items
    case Nil =>
    case Cons(head, tail) =>
      LiesSplit(s, i, Flat(head), FlatAll(tail));
      SkipItem(head, s, i, depth);
      SkipItems(tail, s, i + |Flat(head)|, depth);
  }

  // ---------- completeness ----------

  // The rest of an open group: fields, then the end tag.
  datatype Frame = Frame(items: Items, end: seq<byte>)

  function FlatFrame(frame: Frame): seq<byte> {
    FlatAll(frame.items) + frame.end
  }

  function FlatFrames(frames: seq<Frame>): seq<byte> {
    if frames == [] then [] else FlatFrame(frames[0]) + FlatFrames(frames[1..])
  }

  predicate WellFormedFrames(frames: seq<Frame>) {
    forall k :: 0 <= k < |frames| ==> AllWellFormed(frames[k].items) && IsTag(frames[k].end, 4)
  }

  lemma {:induction false} ScanPrefix(s: seq<byte>, k: nat, acc: nat)
    requires k < 10 ==> acc < Weight(k)
    requires ScanFrom(s, k, acc).Ok?
    ensures ScanFrom(s[..ScanFrom(s, k, acc).value.width], k, acc) == ScanFrom(s, k, acc)
    decreases |s|
  {
    var n := ScanFrom(s, k, acc).value.width;
    if s[0] >= 128 {
      ScanPrefix(s[1..], k + 1, OrShift(acc, s[0], k));
      assert s[..n][1..] == s[1..][..n - 1];
    }
  }

  // The bytes a varint was read from are a varint by themselves.
  lemma VarintAt(s: seq<byte>, i: nat) returns (t: seq<byte>)
    requires i <= |s| && Read(s[i..]).Ok?
    ensures |t| == Read(s[i..]).value.width && LiesAt(s, i, t)
    ensures IsVarint(t) && Read(t) == Read(s[i..])
  {
    ScanPrefix(s[i..], 0, 0);
    t := s[i..][..Read(s[i..]).value.width];
    assert t == s[i..i + |t|];
  }

  lemma BodyOf(s: seq<byte>, j: nat, tag: seq<byte>, wireType: nat, depth: nat, hop: Hop)
    requires j <= |s| <= MAX_INT && IsTag(tag, wireType) && wireType != 3 && wireType != 4
    requires SkipPayload(s, j, wireType, depth) == Ok(hop) && 0 <= hop.at <= |s|
    ensures j <= hop.at && hop.depth == depth && WellFormedLeaf(tag, s[j..hop.at])
  {
    hide ScanFrom;
    if wireType == 0 || wireType == 2 {
      var t := VarintAt(s, j);
      var body := s[j..hop.at];
      assert body == t + body[|t|..] by { assert body[..|t|] == s[j..j + |t|]; }
      ReadExtends(t, body[|t|..], 0, 0);
    }
  }

  // The skipper's first iteration, taken apart.
  lemma OpenHop(s: seq<byte>, i: nat, depth: nat) returns (tag: seq<byte>, hop: Hop)
    requires |s| <= MAX_INT && SkipFrom(s, i, depth).Ok?
    ensures LiesAt(s, i, tag) && IsVarint(tag) && hop.at >= i + |tag| && |tag| > 0
    ensures SkipPayload(s, i + |tag|, Read(tag).value.value % 8, depth) == Ok(hop)
    ensures SkipFrom(s, i, depth) == After(s, hop.at, hop.depth)
    ensures hop.depth > 0 ==> hop.at < |s|
  {
    hide ScanFrom, SkipPayload;
    tag := VarintAt(s, i);
    hop := SkipPayload(s, i + |tag|, Read(tag).value.value % 8, depth).value;
  }

  // Completeness inside depth open groups: what the skipper consumed is the rest of each group,
  // innermost first.
  lemma {:induction false} FramesOf(s: seq<byte>, i: nat, depth: nat) returns (frames: seq<Frame>)
    requires |s| <= MAX_INT && depth > 0
    requires SkipFrom(s, i, depth).Ok? && SkipFrom(s, i, depth).value <= |s|
    ensures |frames| == depth && WellFormedFrames(frames)
    ensures FlatFrames(frames) == s[i..SkipFrom(s, i, depth).value]
    decreases |s| - i
  {
    hide ScanFrom, SkipFrom, SkipPayload;
    var n := SkipFrom(s, i, depth).value;
    var tag, hop := OpenHop(s, i, depth);
    var wireType := Read(tag).value.value % 8;
    var j := i + |tag|;
    HopDepth(s, j, wireType, depth, hop);
    if hop.depth == 0 {
      frames := PushEnd(tag, []);
    } else {
      var rest := FramesOf(s, hop.at, hop.depth);
      hide WellFormedFrames, FlatFrames;
      if wireType == 4 {
        frames := PushEnd(tag, rest);
      } else if wireType == 3 {
        frames := Regroup(tag, rest);
      } else {
        BodyOf(s, j, tag, wireType, depth, hop);
        frames := PrependLeaf(tag, s[j..hop.at], rest);
      }
      Slices(s, i, j, hop.at, n);
    }
  }

  lemma Slices(s: seq<byte>, i: nat, j: nat, k: nat, n: nat)
    requires i <= j <= k <= n <= |s|
    ensures s[i..n] == s[i..j] + s[j..k] + s[k..n]
    ensures j == k ==> s[i..n] == s[i..j] + s[k..n]
  {
  }

  lemma PushFrame(frame: Frame, rest: seq<Frame>)
    ensures FlatFrames([frame] + rest) == FlatFrame(frame) + FlatFrames(rest)
  {
    assert ([frame] + rest)[1..] == rest;
  }

  lemma PushEnd(tag: seq<byte>, rest: seq<Frame>) returns (frames: seq<Frame>)
    requires IsTag(tag, 4) && WellFormedFrames(rest)
    ensures |frames| == |rest| + 1 && WellFormedFrames(frames) && FlatFrames(frames) == tag + FlatFrames(rest)
  {
    frames := [Frame(Nil, tag)] + rest;
    PushFrame(frames[0], rest);
    assert FlatFrame(frames[0]) == tag;
  }

  lemma HopDepth(s: seq<byte>, j: nat, wireType: nat, depth: nat, hop: Hop)
    requires j <= |s| <= MAX_INT && SkipPayload(s, j, wireType, depth) == Ok(hop)
    ensures wireType == 3 ==> hop == Hop(j, depth + 1)
    ensures wireType == 4 ==> depth > 0 && hop == Hop(j, depth - 1)
    ensures wireType != 3 && wireType != 4 ==> hop.depth == depth && wireType in {0, 1, 2, 5}
  {
  }

  // A start tag turns the innermost frame into a group inside the next one.
  lemma Regroup(tag: seq<byte>, rest: seq<Frame>) returns (frames: seq<Frame>)
    requires |rest| >= 2 && WellFormedFrames(rest) && IsTag(tag, 3)
    ensures |frames| == |rest| - 1 && WellFormedFrames(frames)
    ensures FlatFrames(frames) == tag + FlatFrames(rest)
  {
    var inner, outer, tail := rest[0], rest[1], rest[2..];
    var group := Group(tag, inner.items, inner.end);
    var frame := Frame(Cons(group, outer.items), outer.end);
    frames := [frame] + tail;
    PushFrame(frame, tail);
    assert rest == [inner] + ([outer] + tail);
    PushFrame(inner, [outer] + tail);
    PushFrame(outer, tail);
    Associates(tag, FlatAll(inner.items), inner.end);
    Associates(Flat(group), FlatAll(outer.items), outer.end);
    Associates(tag + FlatFrame(inner), FlatFrame(outer), FlatFrames(tail));
    Associates(tag, FlatFrame(inner), FlatFrame(outer) + FlatFrames(tail));
  }

  lemma PrependLeaf(tag: seq<byte>, body: seq<byte>, rest: seq<Frame>) returns (frames: seq<Frame>)
    requires |rest| >= 1 && WellFormedFrames(rest) && WellFormedLeaf(tag, body)
    ensures |frames| == |rest| && WellFormedFrames(frames)
    ensures FlatFrames(frames) == tag + body + FlatFrames(rest)
  {
    var first, tail := rest[0], rest[1..];
    var frame := Frame(Cons(Leaf(tag, body), first.items), first.end);
    frames := [frame] + tail;
    PushFrame(frame, tail);
    assert rest == [first] + tail;
    PushFrame(first, tail);
    assert FlatAll(frame.items) == tag + body + FlatAll(first.items);
    Associates(tag + body, FlatAll(first.items), first.end);
    Associates(tag + body, FlatFrame(first), FlatFrames(tail));
    assert frames[0] == frame;
    assert AllWellFormed(frames[0].items);
  }

  lemma FieldOf(s: seq<byte>) returns (item: Item)
    requires |s| <= MAX_INT && SkipFrom(s, 0, 0).Ok? && SkipFrom(s, 0, 0).value <= |s|
    ensures WellFormed(item) && Flat(item) == s[..SkipFrom(s, 0, 0).value]
  {
    hide ScanFrom, SkipFrom, SkipPayload;
    var n := SkipFrom(s, 0, 0).value;
    var tag, hop := OpenHop(s, 0, 0);
    var wireType := Read(tag).value.value % 8;
    HopDepth(s, |tag|, wireType, 0, hop);
    if wireType == 3 {
      var frames := FramesOf(s, |tag|, 1);
      item := Group(tag, frames[0].items, frames[0].end);
      assert frames == [frames[0]] + [];
      PushFrame(frames[0], []);
      assert FlatFrame(frames[0]) == s[|tag|..n];
      Associates(tag, FlatAll(frames[0].items), frames[0].end);
    } else {
      BodyOf(s, |tag|, tag, wireType, 0, hop);
      item := Leaf(tag, s[|tag|..hop.at]);
    }
    assert s[..n] == s[0..n];
    Slices(s, 0, |tag|, |tag|, n);
  }

  predicate IsField(x: seq<byte>, item: Item) {
    WellFormed(item) && Flat(item) == x
  }

  // skipDatabase recognises exactly the fields of the grammar: it accepts n bytes of s just when
  // those bytes are one well-formed field.
  lemma SkipIsExact(s: seq<byte>, n: nat)
    requires n <= |s| <= MAX_INT
    ensures SkipFrom(s, 0, 0) == Ok(n) <==> exists item :: IsField(s[..n], item)
  {
    hide ScanFrom, SkipFrom, WellFormed, Flat;
    if SkipFrom(s, 0, 0) == Ok(n) {
      var item := FieldOf(s);
      assert IsField(s[..n], item);
    }
    if item :| IsField(s[..n], item) {
      SkipItem(item, s, 0, 0);
    }
  }

  // ---------- unknown fields ----------

  function TagOf(item: Item): seq<byte> {
    match item
    case Leaf(tag, _) => tag
    case Group(tag, _, _) => tag
  }

  // A well-formed field whose number the message type does not know.
  predicate UnknownTo(kind: int32 -> Kind, item: Item) {
    WellFormed(item) &&
    var num := AsInt32(Read(TagOf(item)).value.value / 8);
    num > 0 && kind(num) == Unknown
  }

  lemma ParseUnknown(kind: int32 -> Kind, item: Item, y: seq<byte>, at: nat)
    requires at + |Flat(item) + y| <= MAX_INT && UnknownTo(kind, item)
    ensures ParseField(kind, Flat(item) + y, at) == Ok(Parsed(SkippedField, |Flat(item)|))
  {
    hide ScanFrom, SkipFrom;
    var s := Flat(item) + y;
    assert LiesAt(s, 0, Flat(item));
    SkipItem(item, s, 0, 0);
    assert LiesAt(s, 0, TagOf(item));
    ReadAt(s, 0, TagOf(item));
    assert s[0..] == s;
  }

  // Inserting any unknown field, groups included, at a field boundary changes nothing.
  lemma UnknownFieldsAreInvisible<M>(schema: Schema<M>, x: seq<byte>, item: Item, y: seq<byte>, m: M, mx: M)
    requires |x + (Flat(item) + y)| <= MAX_INT
    requires UnknownTo(schema.kind, item) && Decode(schema, x, m) == Ok(mx)
    ensures SameOutcome(Decode(schema, x + (Flat(item) + y), m), Decode(schema, x + y, m))
  {
    hide ScanFrom, SkipFrom, ParseField;
    var s := Flat(item) + y;
    DecodeConcat(schema, x, s, 0, 0, m, mx);
    DecodeConcat(schema, x, y, 0, |Flat(item)|, m, mx);
    ParseUnknown(schema.kind, item, y, 0);
    assert s[|Flat(item)|..] == y;
    DecodeStep(schema, s, 0, mx, Parsed(SkippedField, |Flat(item)|), mx);
  }

  // ---------- what a message is ----------

  function Number(item: Item): int32
    requires Read(TagOf(item)).Ok?
  {
    AsInt32(Read(TagOf(item)).value.value / 8)
  }

  // A field a message type takes: its number is positive, and if the type knows the number, the field
  // has the wire type that goes with it.
  predicate Accepts(kind: int32 -> Kind, item: Item) {
    WellFormed(item) && Number(item) > 0 &&
    match kind(Number(item))
    case AsVarint => item.Leaf? && IsTag(item.tag, 0)
    case AsBytes => item.Leaf? && IsTag(item.tag, 2)
    case Unknown => true
  }

  // What such a field carries.
  function Content(kind: int32 -> Kind, item: Item): Field
    requires Accepts(kind, item)
  {
    match kind(Number(item))
    case AsVarint => VarintField(Number(item), Read(item.body).value.value)
    case AsBytes => BytesField(Number(item), item.body[Read(item.body).value.width..])
    case Unknown => SkippedField
  }

  lemma ParseAccepted(kind: int32 -> Kind, item: Item, y: seq<byte>, at: nat)
    requires at + |Flat(item) + y| <= MAX_INT && Accepts(kind, item)
    ensures ParseField(kind, Flat(item) + y, at) == Ok(Parsed(Content(kind, item), |Flat(item)|))
  {
    hide ScanFrom, SkipFrom, ParseField;
    match kind(Number(item))
    case Unknown => ParseUnknown(kind, item, y, at);
    case AsVarint => ParseVarint(kind, item, y, at);
    case AsBytes => ParseBytes(kind, item, y, at);
  }

  lemma ReadLeaf(item: Item, y: seq<byte>)
    requires item.Leaf? && Read(item.tag).Ok? && Read(item.tag).value.width == |item.tag| && Read(item.body).Ok?
    ensures var s := Flat(item) + y;
      Read(s) == Read(item.tag) && Read(s[|item.tag|..]) == Read(item.body)
  {
    hide ScanFrom;
    var s := Flat(item) + y;
    assert LiesAt(s, 0, item.tag + item.body);
    LiesSplit(s, 0, item.tag, item.body);
    ReadAt(s, 0, item.tag);
    ReadAt(s, |item.tag|, item.body);
    assert s[0..] == s;
  }

  lemma ParseVarint(kind: int32 -> Kind, item: Item, y: seq<byte>, at: nat)
    requires at + |Flat(item) + y| <= MAX_INT && Accepts(kind, item) && kind(Number(item)) == AsVarint
    ensures ParseField(kind, Flat(item) + y, at) == Ok(Parsed(Content(kind, item), |Flat(item)|))
  {
    hide ScanFrom, SkipFrom;
    ReadLeaf(item, y);
  }

  lemma ParseBytes(kind: int32 -> Kind, item: Item, y: seq<byte>, at: nat)
    requires at + |Flat(item) + y| <= MAX_INT && Accepts(kind, item) && kind(Number(item)) == AsBytes
    ensures ParseField(kind, Flat(item) + y, at) == Ok(Parsed(Content(kind, item), |Flat(item)|))
  {
    hide ScanFrom, SkipFrom;
    ReadLeaf(item, y);
    var s, j := Flat(item) + y, |item.tag| + Read(item.body).value.width;
    assert s[j..|item.tag| + |item.body|] == item.body[Read(item.body).value.width..];
  }

  // item is the field that ParseField found at the start of s.
  ghost predicate IsParsed(kind: int32 -> Kind, s: seq<byte>, at: nat, item: Item)
    requires s != [] && at + |s| <= MAX_INT
  {
    && Accepts(kind, item) && ParseField(kind, s, at) == Ok(Parsed(Content(kind, item), |Flat(item)|))
    && |Flat(item)| <= |s| && Flat(item) == s[..|Flat(item)|]
  }

  lemma ParsedItem(kind: int32 -> Kind, s: seq<byte>, at: nat) returns (item: Item)
    requires s != [] && at + |s| <= MAX_INT && ParseField(kind, s, at).Ok?
    ensures IsParsed(kind, s, at, item)
  {
    hide IsParsed, ScanFrom, SkipFrom;
    match kind(AsInt32(Read(s).value.value / 8))
    case Unknown => item := ParsedUnknown(kind, s, at);
    case AsVarint => item := ParsedVarint(kind, s, at);
    case AsBytes => item := ParsedBytes(kind, s, at);
  }

  lemma ParsedUnknown(kind: int32 -> Kind, s: seq<byte>, at: nat) returns (item: Item)
    requires s != [] && at + |s| <= MAX_INT && ParseField(kind, s, at).Ok?
    requires kind(AsInt32(Read(s).value.value / 8)) == Unknown
    ensures IsParsed(kind, s, at, item)
  {
    hide ScanFrom, SkipFrom;
    item := FieldOf(s);
    assert LiesAt(s, 0, TagOf(item));
    ReadAt(s, 0, TagOf(item));
    assert s[0..] == s;
  }

  lemma ParsedVarint(kind: int32 -> Kind, s: seq<byte>, at: nat) returns (item: Item)
    requires s != [] && at + |s| <= MAX_INT && ParseField(kind, s, at).Ok?
    requires kind(AsInt32(Read(s).value.value / 8)) == AsVarint
    ensures IsParsed(kind, s, at, item)
  {
    hide ScanFrom, SkipFrom;
    assert s[0..] == s;
    var tag := VarintAt(s, 0);
    var body := VarintAt(s, |tag|);
    item := Leaf(tag, body);
    assert s[..|tag| + |body|] == tag + body;
  }

  lemma ParsedBytes(kind: int32 -> Kind, s: seq<byte>, at: nat) returns (item: Item)
    requires s != [] && at + |s| <= MAX_INT && ParseField(kind, s, at).Ok?
    requires kind(AsInt32(Read(s).value.value / 8)) == AsBytes
    ensures IsParsed(kind, s, at, item)
  {
    hide ScanFrom, SkipFrom;
    var n := ParseField(kind, s, at).value.width;
    assert s[0..] == s;
    var tag := VarintAt(s, 0);
    var t := VarintAt(s, |tag|);
    var body := s[|tag|..n];
    item := Leaf(tag, body);
    Pieces(s, tag, t, n);
    ReadExtends(t, body[|t|..], 0, 0);
  }

  lemma Pieces(s: seq<byte>, tag: seq<byte>, t: seq<byte>, n: nat)
    requires |tag| + |t| <= n <= |s| && LiesAt(s, 0, tag) && LiesAt(s, |tag|, t)
    ensures var body := s[|tag|..n];
      s[..n] == tag + body && body == t + body[|t|..] && body[|t|..] == s[|tag| + |t|..n]
  {
    assert s[|tag|..n][..|t|] == s[|tag|..|tag| + |t|];
  }

  predicate AllAccepted(kind: int32 -> Kind, items: Items) {
    match items
    case Nil => true
    case Cons(head, tail) => Accepts(kind, head) && AllAccepted(kind, tail)
  }

  // The message that the fields make of m, one after the other.
  function Meaning<M>(schema: Schema<M>, items: Items, m: M): Result<M, Error>
    requires AllAccepted(schema.kind, items)
  {
    match items
    case Nil => Ok(m)
    case Cons(head, tail) =>
      match Update(schema, m, Content(schema.kind, head))
      case Err(e) => Err(e)
      case Ok(m') => Meaning(schema, tail, m')
  }

  lemma {:induction false} DecodeItems<M>(schema: Schema<M>, items: Items, at: nat, m: M)
    requires AllAccepted(schema.kind, items) && at + |FlatAll(items)| <= MAX_INT
    ensures DecodeFrom(schema, FlatAll(items), at, m) == Meaning(schema, items, m)
    decreases items
  {
    hide ParseField, Accepts, Content, Flat, ScanFrom, SkipFrom;
    match items
    case Nil =>
    case Cons(head, tail) =>
      var s, n := FlatAll(items), |Flat(head)|;
      ParseAccepted(schema.kind, head, FlatAll(tail), at);
      NotEmpty(schema.kind, head);
      assert s[n..] == FlatAll(tail);
      var update := Update(schema, m, Content(schema.kind, head));
      if update.Ok? {
        DecodeItems(schema, tail, at + n, update.value);
      }
  }

  lemma NotEmpty(kind: int32 -> Kind, item: Item)
    requires Accepts(kind, item)
    ensures Flat(item) != []
  {
    hide ScanFrom;
    assert TagOf(item) != [];
  }

  lemma {:induction false} DecodedItems<M>(schema: Schema<M>, s: seq<byte>, at: nat, m: M) returns (items: Items)
    requires at + |s| <= MAX_INT && DecodeFrom(schema, s, at, m).Ok?
    ensures AllAccepted(schema.kind, items) && FlatAll(items) == s
    decreases |s|
  {
    hide ParseField, Accepts, Content, Flat, ScanFrom, SkipFrom;
    if s == [] {
      items := Nil;
    } else {
      var p := ParseField(schema.kind, s, at).value;
      var item := ParsedItem(schema.kind, s, at);
      var tail := DecodedItems(schema, s[p.width..], at + p.width, Update(schema, m, p.field).value);
      items := Cons(item, tail);
      assert s == s[..p.width] + s[p.width..];
    }
  }

  ghost predicate IsMessage<M>(schema: Schema<M>, s: seq<byte>, m: M, r: M, items: Items) {
    AllAccepted(schema.kind, items) && FlatAll(items) == s && Meaning(schema, items, m) == Ok(r)
  }

  // Unmarshal, exactly: it succeeds with r if and only if the input is a sequence of fields the type
  // takes, and r is what those make of m. Nothing else is accepted, and nothing of it is left unread.
  lemma DecodeIsExact<M>(schema: Schema<M>, s: seq<byte>, m: M, r: M)
    requires |s| <= MAX_INT
    ensures Decode(schema, s, m) == Ok(r) <==> exists items :: IsMessage(schema, s, m, r, items)
  {
    hide AllAccepted, Meaning, FlatAll, DecodeFrom;
    if Decode(schema, s, m) == Ok(r) {
      var items := DecodedItems(schema, s, 0, m);
      DecodeItems(schema, items, 0, m);
      assert IsMessage(schema, s, m, r, items);
    }
    if items :| IsMessage(schema, s, m, r, items) {
      DecodeItems(schema, items, 0, m);
    }
  }
}
