// Replication framing: every record travels behind a four-byte big-endian length; a length of
// zero is a heartbeat.
module Framing {
  import opened Common
  import opened Varint
  import opened Wire
  import opened Messages
  import opened Marshal
  import opened Unmarshal
  import opened Sorting

  // binary.BigEndian.PutUint32(buf, uint32(n)): the conversion keeps the low 32 bits.
  function BigEndian(n: nat): (s: seq<byte>)
    ensures |s| == 4
  {
    [n / 0x100_0000 % 256, n / 0x1_0000 % 256, n / 0x100 % 256, n % 256]
  }

  function FromBigEndian(s: seq<byte>): (n: nat)
    requires |s| == 4
    ensures n < TWO_32
  {
    var a: int, b: int, c: int, d: int := s[0], s[1], s[2], s[3];
    a * 0x100_0000 + b * 0x1_0000 + c * 0x100 + d
  }

  // The header announces the right length exactly when the length fits in 32 bits.
  lemma HeaderIsExact(n: nat)
    ensures FromBigEndian(BigEndian(n)) == n % TWO_32
    ensures FromBigEndian(BigEndian(n)) == n <==> n < TWO_32
  {
    var a, b, c := n / 0x100, n / 0x1_0000, n / 0x100_0000;
    DivideByBytes(n);
    HeaderSum(n, a, b, c);
  }

  lemma DivideByBytes(n: nat)
    ensures n / 0x1_0000 == n / 0x100 / 0x100
    ensures n / 0x100_0000 == n / 0x1_0000 / 0x100
  {
  }

  lemma HeaderSum(n: nat, a: nat, b: nat, c: nat)
    requires a == n / 256 && b == a / 256 && c == b / 256
    ensures c % 256 * 0x100_0000 + b % 256 * 0x1_0000 + a % 256 * 0x100 + n % 256 == n % TWO_32
  {
    var d := c / 256;
    assert n == d * TWO_32 + (c % 256 * 0x100_0000 + b % 256 * 0x1_0000 + a % 256 * 0x100 + n % 256);
  }

  // The first byte is the most significant: headers compare like the lengths they announce.
  lemma HeadersCompare(n: nat, m: nat)
    requires n < m < TWO_32
    ensures StringLess(BigEndian(n), BigEndian(m))
  {
    var s, t := BigEndian(n), BigEndian(m);
    HeaderIsExact(n);
    HeaderIsExact(m);
    StringLessIff(s, t);
    var k := FirstDifference(s, t);
    assert DiffersAt(s, t, k) by {
      assert forall i :: 0 <= i < k ==> s[i] == t[i];
    }
  }

  lemma FirstDifference(s: seq<byte>, t: seq<byte>) returns (k: nat)
    requires |s| == |t| == 4 && FromBigEndian(s) < FromBigEndian(t)
    ensures k < 4 && s[k] < t[k] && forall i :: 0 <= i < k ==> s[i] == t[i]
  {
    k := if s[0] != t[0] then 0 else if s[1] != t[1] then 1 else if s[2] != t[2] then 2 else 3;
  }

  function Frame(m: ReplicationRecord): seq<byte> {
    BigEndian(|EncodeReplication(m)|) + EncodeReplication(m)
  }

  function Stream(ms: seq<ReplicationRecord>): seq<byte> {
    if ms == [] then [] else Frame(ms[0]) + Stream(ms[1..])
  }

  // ---------- the sending loop ----------

  // Serve's loop over the outbox; sent is what the connection took, in order. The connection takes
  // limit bytes and then fails, possibly inside a record, which is lost. The buffer grows to hold the
  // largest record and is reused for every smaller one.
  method Send(outbox: seq<ReplicationRecord>, limit: nat) returns (sent: seq<byte>, ok: bool)
    requires forall m :: m in outbox ==> |EncodeReplication(m)| + 4 <= MAX_INT
    ensures ok <==> |Stream(outbox)| <= limit
    ensures sent == if ok then Stream(outbox) else Stream(outbox)[..limit]
  {
    hide Stream, Frame;
    var buf := new byte[1024];
    sent := [];
    StreamEmpty();
    for k := 0 to |outbox|
      invariant fresh(buf) && buf.Length >= 4
      invariant sent == Stream(outbox[..k]) && |sent| <= limit
    {
      var rec := outbox[k];
      var size := SizeOfReplication(rec);
      if buf.Length < size + 4 {
        buf := new byte[size + 4];
      }
      var n := WriteFrame(rec, buf, size);
      StreamSplit(outbox, k);
      if |sent| + 4 + n > limit {
        CutInside(sent, buf[..4 + n], Stream(outbox[k + 1..]), limit);
        return sent + buf[..limit - |sent|], false;
      }
      sent := sent + buf[..4 + n];
    }
    assert outbox[..|outbox|] == outbox;
    ok := true;
  }

  // The frames before record k, its own frame, and the frames behind it.
  lemma StreamSplit(outbox: seq<ReplicationRecord>, k: nat)
    requires k < |outbox|
    ensures Stream(outbox) == Stream(outbox[..k]) + Frame(outbox[k]) + Stream(outbox[k + 1..])
    ensures Stream(outbox[..k + 1]) == Stream(outbox[..k]) + Frame(outbox[k])
  {
    hide Stream, Frame;
    SplitAtRecord(outbox, k);
    StreamThrough(outbox[..k], outbox[k], outbox[k + 1..]);
  }

  lemma SplitAtRecord(outbox: seq<ReplicationRecord>, k: nat)
    requires k < |outbox|
    ensures outbox == outbox[..k] + [outbox[k]] + outbox[k + 1..] && outbox[..k + 1] == outbox[..k] + [outbox[k]]
  {
  }

  lemma StreamThrough(a: seq<ReplicationRecord>, m: ReplicationRecord, b: seq<ReplicationRecord>)
    ensures Stream(a + [m]) == Stream(a) + Frame(m)
    ensures Stream(a + [m] + b) == Stream(a) + Frame(m) + Stream(b)
  {
    hide Stream, Frame;
    StreamOne(m);
    StreamConcat(a, [m]);
    StreamConcat(a + [m], b);
  }

  lemma StreamOne(m: ReplicationRecord)
    ensures Stream([m]) == Frame(m)
  {
    hide Frame;
    assert Stream([m]) == Frame(m) + Stream([]);
  }

  lemma {:induction false} StreamConcat(a: seq<ReplicationRecord>, b: seq<ReplicationRecord>)
    ensures Stream(a + b) == Stream(a) + Stream(b)
    decreases |a|
  {
    hide Frame;
    if a == [] {
      assert a + b == b;
    } else {
      assert (a + b)[1..] == a[1..] + b;
      StreamConcat(a[1..], b);
      Associates(Frame(a[0]), Stream(a[1..]), Stream(b));
    }
  }

  lemma CutInside(a: seq<byte>, b: seq<byte>, c: seq<byte>, limit: nat)
    requires |a| <= limit < |a| + |b|
    ensures (a + b + c)[..limit] == a + b[..limit - |a|]
  {
  }

  lemma StreamEmpty()
    ensures Stream([]) == []
  {
  }

  // rec.MarshalTo(buf[4:]), then the size in front of it.
  method WriteFrame(rec: ReplicationRecord, buf: array<byte>, size: nat) returns (n: nat)
    requires size == |EncodeReplication(rec)| && size + 4 <= buf.Length && size <= MAX_INT
    modifies buf
    ensures n == size && buf[..4 + n] == Frame(rec)
  {
    hide EncodeReplication;
    n := MarshalReplication(rec, buf, 4 + size);
    ghost var body := buf[4..4 + n];
    assert body == EncodeReplication(rec);
    buf[0], buf[1], buf[2], buf[3] := n / 0x100_0000 % 256, n / 0x1_0000 % 256, n / 0x100 % 256, n % 256;
    assert buf[..4 + n] == BigEndian(n) + body;
  }

  // ---------- the receiving loop ----------

  // What the receiver stores, and the bytes after the last complete frame.
  datatype Received = Received(records: seq<ReplicationRecord>, rest: seq<byte>)

  function Receive(s: seq<byte>): (r: Received)
    decreases |s|
  {
    if |s| < 4 then Received([], s)
    else
      var size := FromBigEndian(s[..4]);
      if size == 0 then Receive(s[4..])
      else if |s| < 4 + size then Received([], s)
      else
        var tail := Receive(s[4 + size..]);
        tail.(records := Deliver(s[4..4 + size]) + tail.records)
  }

  // One frame's body: a record to store, or nothing when it does not decode.
  function Deliver(body: seq<byte>): seq<ReplicationRecord>
    requires |body| < TWO_32
  {
    match Decode(REPLICATION, body, HEARTBEAT)
    case Ok(m) => [m]
    case Err(_) => []
  }

  // The same outcome with earlier records in front.
  function After(records: seq<ReplicationRecord>, r: Received): Received {
    r.(records := records + r.records)
  }

  lemma AfterAfter(a: seq<ReplicationRecord>, b: seq<ReplicationRecord>, r: Received)
    ensures After(a, After(b, r)) == After(a + b, r)
  {
    assert a + (b + r.records) == a + b + r.records;
  }

  lemma AfterNothing(r: Received)
    ensures After([], r) == r
  {
    assert [] + r.records == r.records;
  }

  // The receiver standing at pos steps over a frame.
  lemma ReceiveStep(stream: seq<byte>, pos: nat, size: nat)
    requires pos + 4 + size <= |stream| && FromBigEndian(stream[pos..pos + 4]) == size
    ensures Receive(stream[pos..])
         == After(if size == 0 then [] else Deliver(stream[pos + 4..pos + 4 + size]), Receive(stream[pos + 4 + size..]))
  {
    hide Deliver;
    var s := stream[pos..];
    assert s[..4] == stream[pos..pos + 4];
    assert s[4..4 + size] == stream[pos + 4..pos + 4 + size] && s[4 + size..] == stream[pos + 4 + size..];
    AfterNothing(Receive(s[4 + size..]));
  }

  lemma AfterEnd(records: seq<ReplicationRecord>, rest: seq<byte>)
    ensures After(records, Received([], rest)) == Received(records, rest)
  {
  }

  lemma ReceiveEnd(stream: seq<byte>, pos: nat)
    requires pos <= |stream|
    requires pos + 4 <= |stream| ==>
      var size := FromBigEndian(stream[pos..pos + 4]); size > 0 && pos + 4 + size > |stream|
    ensures Receive(stream[pos..]) == Received([], stream[pos..])
  {
    var s := stream[pos..];
    assert pos + 4 <= |stream| ==> s[..4] == stream[pos..pos + 4];
  }

  // io.ReadFull(conn, buf[:n]) when the peer closes the connection after stream.
  method ReadFull(stream: seq<byte>, pos: nat, buf: array<byte>, n: nat) returns (ok: bool)
    requires pos <= |stream| && n <= buf.Length
    modifies buf
    ensures ok <==> pos + n <= |stream|
    ensures ok ==> buf[..n] == stream[pos..pos + n]
  {
    ok := pos + n <= |stream|;
    if ok {
      forall k | 0 <= k < n {
        buf[k] := stream[pos + k];
      }
    }
  }

  // handle: reads frames from the connection until it ends; stored is the sequence of records
  // given to the database. A record that does not decode is dropped and reading goes on.
  method Handle(stream: seq<byte>) returns (stored: seq<ReplicationRecord>, ghost rest: seq<byte>)
    ensures stored == Receive(stream).records && rest == Receive(stream).rest
  {
    hide Receive, After, Deliver, FromBigEndian;
    var buf := new byte[1024];
    stored := [];
    var pos := 0;
    assert stream[0..] == stream;
    AfterNothing(Receive(stream));
    while true
      invariant fresh(buf) && buf.Length >= 4 && pos <= |stream|
      invariant Receive(stream) == After(stored, Receive(stream[pos..]))
      decreases |stream| - pos
    {
      var ok := ReadFull(stream, pos, buf, 4);
      if !ok {
        ReceiveEnd(stream, pos);
        AfterEnd(stored, stream[pos..]);
        return stored, stream[pos..];
      }
      var size := FromBigEndian(buf[..4]);
      if buf.Length < size {
        buf := new byte[size];
      }
      if size == 0 {
        ReceiveStep(stream, pos, 0);
        AfterNothing(Receive(stream[pos + 4..]));
        pos := pos + 4;
        continue;
      }
      ok := ReadFull(stream, pos + 4, buf, size);
      if !ok {
        ReceiveEnd(stream, pos);
        AfterEnd(stored, stream[pos..]);
        return stored, stream[pos..];
      }
      ReceiveStep(stream, pos, size);
      var record := Unmarshalled(buf[..size]);
      AfterAfter(stored, record, Receive(stream[pos + 4 + size..]));
      stored := stored + record;
      pos := pos + 4 + size;
    }
  }

  // var rec ReplicationRecord; rec.Unmarshal(body), and whether there is something to store.
  method Unmarshalled(body: seq<byte>) returns (records: seq<ReplicationRecord>)
    requires |body| < TWO_32
    ensures records == Deliver(body)
  {
    var rec := new ReplicationMessage();
    var err := rec.Unmarshal(body);
    records := if err == None then [ReplicationRecord(rec.key, rec.addresses, rec.seen)] else [];
  }

  // ---------- sender to receiver ----------

  // The records that travel: heartbeats are not delivered.
  function Payload(ms: seq<ReplicationRecord>): seq<ReplicationRecord> {
    if ms == [] then []
    else if ms[0] == HEARTBEAT then Payload(ms[1..])
    else [ms[0]] + Payload(ms[1..])
  }

  lemma ReceiveFrame(m: ReplicationRecord, tail: seq<byte>)
    requires |EncodeReplication(m)| < 0x1_0000_0000
    ensures Receive(Frame(m) + tail) == After(if m == HEARTBEAT then [] else [m], Receive(tail))
  {
    hide EncodeReplication, Receive, DecodeFrom;
    var body := EncodeReplication(m);
    var s := Frame(m) + tail;
    HeaderIsExact(|body|);
    assert s[0..4] == BigEndian(|body|);
    assert s[4..4 + |body|] == body && s[4 + |body|..] == tail && s[0..] == s;
    ReceiveStep(s, 0, |body|);
    EmptyOnlyForHeartbeat(m);
    ReplicationRoundTrip(m);
  }

  // What one frame does, whatever is in it: a body that decodes is stored, one that does not is
  // dropped, a length of zero is skipped, and reading goes on with what follows.
  lemma FrameOutcome(body: seq<byte>, tail: seq<byte>)
    requires 0 < |body| < TWO_32
    ensures var s := BigEndian(|body|) + body + tail;
      match Decode(REPLICATION, body, ReplicationRecord([], [], 0))
      case Ok(m) => Receive(s) == Received([m] + Receive(tail).records, Receive(tail).rest)
      case Err(_) => Receive(s) == Receive(tail)
  {
    hide Receive, DecodeFrom;
    var s := BigEndian(|body|) + body + tail;
    HeaderIsExact(|body|);
    assert s[0..4] == BigEndian(|body|);
    assert s[4..4 + |body|] == body && s[4 + |body|..] == tail && s[0..] == s;
    ReceiveStep(s, 0, |body|);
    AfterNothing(Receive(tail));
  }

  lemma EmptyFrameOutcome(tail: seq<byte>)
    ensures Receive([0, 0, 0, 0] + tail) == Receive(tail)
  {
    hide Receive;
    var s: seq<byte> := [0, 0, 0, 0] + tail;
    assert s[0..4] == [0, 0, 0, 0] && s[4..] == tail && s[0..] == s && s[4 + 0..] == tail;
    ReceiveStep(s, 0, 0);
    AfterNothing(Receive(tail));
  }

  // Whatever mix of records and heartbeats is sent, exactly the records arrive, in order, and
  // reading goes on with whatever follows.
  lemma {:induction false} FramingRoundTrip(ms: seq<ReplicationRecord>, tail: seq<byte>)
    requires forall m :: m in ms ==> |EncodeReplication(m)| < 0x1_0000_0000
    ensures Receive(Stream(ms) + tail) == After(Payload(ms), Receive(tail))
    decreases |ms|
  {
    hide Frame, Receive, After, EncodeReplication;
    if ms == [] {
      assert Stream(ms) + tail == tail;
      AfterNothing(Receive(tail));
    } else {
      var more := Stream(ms[1..]) + tail;
      assert Stream(ms) + tail == Frame(ms[0]) + more;
      ReceiveFrame(ms[0], more);
      FramingRoundTrip(ms[1..], tail);
      AfterAfter(if ms[0] == HEARTBEAT then [] else [ms[0]], Payload(ms[1..]), Receive(tail));
      assert [] + Payload(ms[1..]) == Payload(ms[1..]);
    }
  }

  // Nothing but whole frames: nothing is left over.
  lemma SentIsReceived(ms: seq<ReplicationRecord>)
    requires forall m :: m in ms ==> |EncodeReplication(m)| < 0x1_0000_0000
    ensures Receive(Stream(ms)) == Received(Payload(ms), [])
  {
    FramingRoundTrip(ms, []);
    assert Stream(ms) + [] == Stream(ms);
    AfterEnd(Payload(ms), []);
  }

  // A connection that breaks anywhere, even inside a frame, delivers a prefix of the records.
  lemma {:induction false} BrokenConnection(ms: seq<ReplicationRecord>, cut: seq<byte>)
    requires forall m :: m in ms ==> |EncodeReplication(m)| < 0x1_0000_0000
    requires cut <= Stream(ms)
    ensures Receive(cut).records <= Payload(ms)
    decreases |ms|
  {
    hide EncodeReplication, Receive;
    if ms == [] {
      ReceiveEnd(cut, 0);
    } else {
      var first := Frame(ms[0]);
      if |first| <= |cut| {
        var more := cut[|first|..];
        assert cut == first + more;
        assert more <= Stream(ms[1..]);
        ReceiveFrame(ms[0], more);
        BrokenConnection(ms[1..], more);
      } else {
        var n := |EncodeReplication(ms[0])|;
        assert |EncodeReplication(ms[0])| < 0x1_0000_0000;
        HeaderIsExact(n);
        assert |cut| >= 4 ==> cut[0..4] == Stream(ms)[0..4] == first[0..4] == BigEndian(n);
        ReceiveEnd(cut, 0);
        assert cut[0..] == cut;
      }
    }
  }
}
