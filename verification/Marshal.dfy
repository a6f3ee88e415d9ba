// Size and MarshalToSizedBuffer: the encoder writes a message from the end of a buffer towards its
// front, trusting Size to have made the buffer exactly large enough.
module Marshal {
  import opened Common
  import opened Varint
  import opened Messages

  // ---------- Size ----------

  method SizeOfAddress(m: DatabaseAddress) returns (n: nat)
    requires |EncodeAddress(m)| <= MAX_INT
    ensures n == |EncodeAddress(m)|
  {
    n := 0;
    var l := |m.address|;
    if l > 0 {
      SovIsExact(l);
      n := n + 1 + l + Sov(l);
    }
    if m.expires != 0 {
      SovIsExact(AsUint64(m.expires));
      n := n + 1 + Sov(AsUint64(m.expires));
    }
  }

  lemma {:induction false} AddressesAppend(tag: byte, a: seq<DatabaseAddress>, b: seq<DatabaseAddress>)
    ensures EncodeAddresses(tag, a + b) == EncodeAddresses(tag, a) + EncodeAddresses(tag, b)
    decreases |a|
  {
    hide EncodeAddress, DelimitedPart;
    if a == [] {
      assert a + b == b;
    } else {
      assert (a + b)[1..] == a[1..] + b;
      AddressesAppend(tag, a[1..], b);
    }
  }

  lemma OneAddress(tag: byte, a: DatabaseAddress)
    ensures EncodeAddresses(tag, [a]) == DelimitedPart(tag, EncodeAddress(a))
  {
    assert [a][1..] == [];
  }

  // The loop over m.Addresses in the two record types' Size.
  method SizeOfAddresses(tag: byte, addresses: seq<DatabaseAddress>) returns (n: nat)
    requires |EncodeAddresses(tag, addresses)| <= MAX_INT
    ensures n == |EncodeAddresses(tag, addresses)|
  {
    hide EncodeAddress;
    n := 0;
    for k := 0 to |addresses|
      invariant n == |EncodeAddresses(tag, addresses[..k])|
    {
      ghost var a := addresses[k];
      assert addresses == addresses[..k] + ([a] + addresses[k + 1..]);
      assert addresses[..k + 1] == addresses[..k] + [a];
      AddressesAppend(tag, addresses[..k], [a] + addresses[k + 1..]);
      AddressesAppend(tag, [a], addresses[k + 1..]);
      AddressesAppend(tag, addresses[..k], [a]);
      OneAddress(tag, a);
      var l := SizeOfAddress(addresses[k]);
      SovIsExact(l);
      n := n + 1 + l + Sov(l);
    }
    assert addresses[..|addresses|] == addresses;
  }

  method SizeOfRecord(m: DatabaseRecord) returns (n: nat)
    requires |EncodeRecord(m)| <= MAX_INT
    ensures n == |EncodeRecord(m)|
  {
    n := SizeOfAddresses(0x0a, m.addresses);
    if m.misses != 0 {
      SovIsExact(AsUint64(m.misses));
      n := n + 1 + Sov(AsUint64(m.misses));
    }
    if m.seen != 0 {
      SovIsExact(AsUint64(m.seen));
      n := n + 1 + Sov(AsUint64(m.seen));
    }
    if m.missed != 0 {
      SovIsExact(AsUint64(m.missed));
      n := n + 1 + Sov(AsUint64(m.missed));
    }
  }

  method SizeOfReplication(m: ReplicationRecord) returns (n: nat)
    requires |EncodeReplication(m)| <= MAX_INT
    ensures n == |EncodeReplication(m)|
  {
    n := 0;
    var l := |m.key|;
    if l > 0 {
      SovIsExact(l);
      n := n + 1 + l + Sov(l);
    }
    var inAddresses := SizeOfAddresses(0x12, m.addresses);
    n := n + inAddresses;
    if m.seen != 0 {
      SovIsExact(AsUint64(m.seen));
      n := n + 1 + Sov(AsUint64(m.seen));
    }
  }

  // ---------- writing backwards ----------

  // The buffer changed from before to after by x being written at i, and nowhere else.
  ghost predicate Wrote(before: seq<byte>, after: seq<byte>, i: nat, x: seq<byte>) {
    i + |x| <= |before| && after == before[..i] + x + before[i + |x|..]
  }

  lemma WroteNothing(s: seq<byte>, i: nat)
    requires i <= |s|
    ensures Wrote(s, s, i, [])
  {
  }

  // Writing y just below x leaves y + x.
  lemma WroteBelow(s0: seq<byte>, s1: seq<byte>, s2: seq<byte>, i: nat, x: seq<byte>, y: seq<byte>)
    requires |y| <= i && Wrote(s0, s1, i, x) && Wrote(s1, s2, i - |y|, y)
    ensures Wrote(s0, s2, i - |y|, y + x)
  {
    assert s1[i..] == x + s0[i + |x|..];
    assert s1[..i - |y|] == s0[..i - |y|];
    assert s2 == s0[..i - |y|] + y + (x + s0[i + |x|..]);
  }

  method PutByte(dAtA: array<byte>, i: nat, b: byte, ghost start: seq<byte>, ghost x: seq<byte>)
    requires 0 < i <= dAtA.Length && Wrote(start, dAtA[..], i, x)
    modifies dAtA
    ensures Wrote(start, dAtA[..], i - 1, [b] + x)
  {
    ghost var s1 := dAtA[..];
    dAtA[i - 1] := b;
    WroteBelow(start, s1, dAtA[..], i, x, [b]);
  }

  method PutVarint(dAtA: array<byte>, i: nat, v: uint64, ghost start: seq<byte>, ghost x: seq<byte>) returns (base: nat)
    requires |Encode(v)| <= i <= dAtA.Length && Wrote(start, dAtA[..], i, x)
    modifies dAtA
    ensures base == i - |Encode(v)| && Wrote(start, dAtA[..], base, Encode(v) + x)
  {
    hide Encode;
    SovIsExact(v);
    ghost var s1 := dAtA[..];
    base := WriteVarint(dAtA, i, v);
    ghost var s2 := dAtA[..];
    assert s2 == s2[..base] + s2[base..i] + s2[i..];
    assert s2[..base] == s1[..base] && s2[i..] == s1[i..];
    WroteBelow(start, s1, s2, i, x, Encode(v));
  }

  // i -= len(src); copy(dAtA[i:], src)
  method PutBytes(dAtA: array<byte>, i: nat, src: seq<byte>, ghost start: seq<byte>, ghost x: seq<byte>)
    returns (base: nat)
    requires |src| <= i <= dAtA.Length && Wrote(start, dAtA[..], i, x)
    modifies dAtA
    ensures base == i - |src| && Wrote(start, dAtA[..], base, src + x)
  {
    ghost var s1 := dAtA[..];
    base := i - |src|;
    forall k | 0 <= k < |src| {
      dAtA[base + k] := src[k];
    }
    ghost var s2 := dAtA[..];
    assert s2 == s1[..base] + src + s1[i..];
    WroteBelow(start, s1, s2, i, x, src);
  }

  // A scalar field, when it is not zero.
  method PutScalar(dAtA: array<byte>, i: nat, tag: byte, v: uint64, ghost start: seq<byte>, ghost x: seq<byte>)
    returns (base: nat)
    requires |VarintPart(tag, v)| <= i <= dAtA.Length && Wrote(start, dAtA[..], i, x)
    modifies dAtA
    ensures base == i - |VarintPart(tag, v)| && Wrote(start, dAtA[..], base, VarintPart(tag, v) + x)
  {
    base := i;
    if v != 0 {
      base := PutVarint(dAtA, base, v, start, x);
      PutByte(dAtA, base, tag, start, Encode(v) + x);
      base := base - 1;
      assert [tag] + (Encode(v) + x) == VarintPart(tag, v) + x;
    } else {
      assert VarintPart(tag, v) + x == x;
    }
  }

  // The length and the tag in front of a payload of size bytes that is already written.
  method PutHeader(dAtA: array<byte>, i: nat, tag: byte, size: nat, ghost payload: seq<byte>,
                   ghost start: seq<byte>, ghost x: seq<byte>) returns (base: nat)
    requires size == |payload| <= MAX_INT && |Encode(|payload|)| < i <= dAtA.Length
    requires Wrote(start, dAtA[..], i, payload + x)
    modifies dAtA
    ensures base == i + |payload| - |DelimitedPart(tag, payload)|
    ensures Wrote(start, dAtA[..], base, DelimitedPart(tag, payload) + x)
  {
    base := PutVarint(dAtA, i, size, start, payload + x);
    PutByte(dAtA, base, tag, start, Encode(size) + (payload + x));
    base := base - 1;
    assert [tag] + (Encode(size) + (payload + x)) == DelimitedPart(tag, payload) + x;
  }

  method PutString(dAtA: array<byte>, i: nat, tag: byte, s: seq<byte>, ghost start: seq<byte>, ghost x: seq<byte>)
    returns (base: nat)
    requires |s| <= MAX_INT && |StringPart(tag, s)| <= i <= dAtA.Length && Wrote(start, dAtA[..], i, x)
    modifies dAtA
    ensures base == i - |StringPart(tag, s)| && Wrote(start, dAtA[..], base, StringPart(tag, s) + x)
  {
    base := i;
    if |s| > 0 {
      base := PutBytes(dAtA, base, s, start, x);
      base := PutHeader(dAtA, base, tag, |s|, s, start, x);
    } else {
      assert StringPart(tag, s) + x == x;
    }
  }

  // ---------- MarshalToSizedBuffer ----------

  // The slice dAtA[:end] is filled from its end; n bytes are used and nothing else is touched.
  method MarshalAddress(m: DatabaseAddress, dAtA: array<byte>, end: nat, ghost start: seq<byte>, ghost x: seq<byte>)
    returns (n: nat)
    requires |EncodeAddress(m)| <= end <= dAtA.Length && |EncodeAddress(m)| <= MAX_INT
    requires Wrote(start, dAtA[..], end, x)
    modifies dAtA
    ensures n == |EncodeAddress(m)| && Wrote(start, dAtA[..], end - n, EncodeAddress(m) + x)
  {
    hide VarintPart;
    ghost var expires := VarintPart(0x10, AsUint64(m.expires));
    var i := PutScalar(dAtA, end, 0x10, AsUint64(m.expires), start, x);
    i := PutString(dAtA, i, 0x0a, m.address, start, expires + x);
    n := end - i;
    assert StringPart(0x0a, m.address) + (expires + x) == EncodeAddress(m) + x;
  }

  // The loop from the last address to the first.
  method MarshalAddresses(tag: byte, addresses: seq<DatabaseAddress>, dAtA: array<byte>, end: nat,
                          ghost start: seq<byte>, ghost x: seq<byte>) returns (i: nat)
    requires |EncodeAddresses(tag, addresses)| <= end <= dAtA.Length
    requires |EncodeAddresses(tag, addresses)| <= MAX_INT
    requires Wrote(start, dAtA[..], end, x)
    modifies dAtA
    ensures i == end - |EncodeAddresses(tag, addresses)|
    ensures Wrote(start, dAtA[..], i, EncodeAddresses(tag, addresses) + x)
  {
    assert EncodeAddresses(tag, []) == [] && [] + x == x;
    hide EncodeAddress, EncodeAddresses, DelimitedPart;
    i := end;
    var iNdEx := |addresses|;
    assert addresses[iNdEx..] == [];
    while iNdEx > 0
      invariant 0 <= iNdEx <= |addresses|
      invariant |EncodeAddresses(tag, addresses[iNdEx..])| <= end
      invariant i == end - |EncodeAddresses(tag, addresses[iNdEx..])|
      invariant Wrote(start, dAtA[..], i, EncodeAddresses(tag, addresses[iNdEx..]) + x)
    {
      ghost var done := EncodeAddresses(tag, addresses[iNdEx..]) + x;
      iNdEx := iNdEx - 1;
      RestFits(tag, addresses, iNdEx);
      i := PutAddress(tag, addresses[iNdEx], dAtA, i, start, done);
      Associates(DelimitedPart(tag, EncodeAddress(addresses[iNdEx])), EncodeAddresses(tag, addresses[iNdEx + 1..]), x);
    }
    assert addresses[0..] == addresses;
  }

  // One entry of the repeated field: the nested message, its size and its tag.
  method PutAddress(tag: byte, a: DatabaseAddress, dAtA: array<byte>, end: nat,
                    ghost start: seq<byte>, ghost x: seq<byte>) returns (i: nat)
    requires |DelimitedPart(tag, EncodeAddress(a))| <= end <= dAtA.Length
    requires |DelimitedPart(tag, EncodeAddress(a))| <= MAX_INT
    requires Wrote(start, dAtA[..], end, x)
    modifies dAtA
    ensures i == end - |DelimitedPart(tag, EncodeAddress(a))|
    ensures Wrote(start, dAtA[..], i, DelimitedPart(tag, EncodeAddress(a)) + x)
  {
    hide EncodeAddress, Encode;
    var size := MarshalAddress(a, dAtA, end, start, x);
    i := PutHeader(dAtA, end - size, tag, size, EncodeAddress(a), start, x);
  }

  lemma RestFits(tag: byte, addresses: seq<DatabaseAddress>, k: nat)
    requires k < |addresses|
    ensures |EncodeAddresses(tag, addresses[k..])| <= |EncodeAddresses(tag, addresses)|
    ensures EncodeAddresses(tag, addresses[k..])
         == DelimitedPart(tag, EncodeAddress(addresses[k])) + EncodeAddresses(tag, addresses[k + 1..])
  {
    hide EncodeAddress, DelimitedPart;
    assert addresses == addresses[..k] + addresses[k..];
    AddressesAppend(tag, addresses[..k], addresses[k..]);
    assert addresses[k..][1..] == addresses[k + 1..];
  }

  // MarshalToSizedBuffer(dAtA[:end]) of a DatabaseRecord. When end is Size(), the record's
  // encoding is the whole slice, without a gap at the front.
  method MarshalRecord(m: DatabaseRecord, dAtA: array<byte>, end: nat) returns (n: nat)
    requires |EncodeRecord(m)| <= end <= dAtA.Length && |EncodeRecord(m)| <= MAX_INT
    modifies dAtA
    ensures n == |EncodeRecord(m)|
    ensures Wrote(old(dAtA[..]), dAtA[..], end - n, EncodeRecord(m))
  {
    hide VarintPart, EncodeAddresses;
    ghost var start := dAtA[..];
    WroteNothing(start, end);
    ghost var missed := VarintPart(0x20, AsUint64(m.missed));
    ghost var seen := VarintPart(0x18, AsUint64(m.seen));
    ghost var misses := VarintPart(0x10, AsUint64(m.misses));
    var i := PutScalar(dAtA, end, 0x20, AsUint64(m.missed), start, []);
    assert missed + [] == missed;
    i := PutScalar(dAtA, i, 0x18, AsUint64(m.seen), start, missed);
    i := PutScalar(dAtA, i, 0x10, AsUint64(m.misses), start, seen + missed);
    i := MarshalAddresses(0x0a, m.addresses, dAtA, i, start, misses + (seen + missed));
    n := end - i;
  }

  method MarshalReplication(m: ReplicationRecord, dAtA: array<byte>, end: nat) returns (n: nat)
    requires |EncodeReplication(m)| <= end <= dAtA.Length && |EncodeReplication(m)| <= MAX_INT
    modifies dAtA
    ensures n == |EncodeReplication(m)|
    ensures Wrote(old(dAtA[..]), dAtA[..], end - n, EncodeReplication(m))
  {
    hide VarintPart, EncodeAddresses;
    ghost var start := dAtA[..];
    WroteNothing(start, end);
    ghost var seen := VarintPart(0x18, AsUint64(m.seen));
    var i := PutScalar(dAtA, end, 0x18, AsUint64(m.seen), start, []);
    assert seen + [] == seen;
    i := MarshalAddresses(0x12, m.addresses, dAtA, i, start, seen);
    i := PutString(dAtA, i, 0x0a, m.key, start, EncodeAddresses(0x12, m.addresses) + seen);
    n := end - i;
  }
}
