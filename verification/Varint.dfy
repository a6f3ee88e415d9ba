// Base-128 varints as the discovery server's generated code reads and writes them
// (Protocol Buffers Encoding, section "Base 128 Varints").
module Varint {
  import opened Common

  datatype Error =
    | IntOverflow
    | UnexpectedEOF
    | InvalidLength
    | UnexpectedEndOfGroup
    | EndGroupForNonGroup
    | IllegalTag
    | WrongWireType
    | IllegalWireType

  // A value together with the number of bytes it was read from.
  datatype Scan = Scan(value: uint64, width: nat)

  // ---------- writing ----------

  // The varint of v: seven bits a byte, low bits first, the top bit set on all but the last.
  function Encode(v: nat): (s: seq<byte>)
    ensures |s| > 0
    decreases v
  {
    if v < 128 then [v] else [v % 128 + 128] + Encode(v / 128)
  }

  // bits.Len64
  function BitLen(x: nat): nat {
    if x == 0 then 0 else 1 + BitLen(x / 2)
  }

  // The size function: (bits.Len64(x|1) + 6) / 7.
  function Sov(x: uint64): nat {
    (BitLen(if x % 2 == 0 then x + 1 else x) + 6) / 7
  }

  lemma BitLenBy128(x: nat)
    requires x >= 128
    ensures BitLen(x) == BitLen(x / 128) + 7
  {
    var a, b, c, d, e, f := x / 2, x / 4, x / 8, x / 16, x / 32, x / 64;
    assert b == a / 2 && c == b / 2 && d == c / 2 && e == d / 2 && f == e / 2 && x / 128 == f / 2;
    assert BitLen(x) == 1 + BitLen(a) == 2 + BitLen(b) == 3 + BitLen(c);
    assert BitLen(c) == 1 + BitLen(d) == 2 + BitLen(e) == 3 + BitLen(f) == 4 + BitLen(x / 128);
  }

  function Pow2(n: nat): nat {
    if n == 0 then 1 else 2 * Pow2(n - 1)
  }

  lemma {:induction false} BitLenBelow(x: nat, n: nat)
    requires x < Pow2(n)
    ensures BitLen(x) <= n
    decreases n
  {
    if x > 0 {
      BitLenBelow(x / 2, n - 1);
    }
  }

  lemma BitLenSmall(x: nat)
    requires 0 < x < 128
    ensures 1 <= BitLen(x) <= 7
  {
    assert Pow2(3) == 8 && Pow2(5) == 32 && Pow2(7) == 128;
    BitLenBelow(x, 7);
  }

  // Setting the lowest bit does not lengthen a positive number.
  lemma BitLenOdd(x: nat)
    requires x > 0
    ensures BitLen(if x % 2 == 0 then x + 1 else x) == BitLen(x)
  {
    assert x % 2 == 0 ==> (x + 1) / 2 == x / 2;
  }

  // sovDatabase is exact: it is the number of bytes encodeVarintDatabase writes.
  lemma {:induction false} SovIsExact(v: uint64)
    ensures |Encode(v)| == Sov(v)
    decreases v
  {
    if v < 128 {
      BitLenSmall(if v % 2 == 0 then v + 1 else v);
    } else {
      SovIsExact(v / 128);
      BitLenBy128(v);
      BitLenOdd(v);
      BitLenOdd(v / 128);
    }
  }

  // 2^(7k), the weight of the k-th group of seven bits.
  function Weight(k: nat): (w: nat)
    ensures w > 0
  {
    if k == 0 then 1 else 128 * Weight(k - 1)
  }

  lemma WeightTable()
    ensures Weight(0) == 1 && Weight(1) == 0x80 && Weight(2) == 0x4000 && Weight(3) == 0x20_0000
    ensures Weight(4) == 0x1000_0000 && Weight(5) == 0x8_0000_0000 && Weight(6) == 0x400_0000_0000
    ensures Weight(7) == 0x2_0000_0000_0000 && Weight(8) == 0x100_0000_0000_0000
    ensures Weight(9) == 0x8000_0000_0000_0000 && Weight(10) == 64 * TWO_64
  {
    assert Weight(1) == 128 * Weight(0);
    assert Weight(2) == 128 * Weight(1);
    assert Weight(3) == 128 * Weight(2);
    assert Weight(4) == 128 * Weight(3);
    assert Weight(5) == 128 * Weight(4);
    assert Weight(6) == 128 * Weight(5);
    assert Weight(7) == 128 * Weight(6);
    assert Weight(8) == 128 * Weight(7);
    assert Weight(9) == 128 * Weight(8);
    assert Weight(10) == 128 * Weight(9);
  }

  lemma {:induction false} WeightMonotone(j: nat, k: nat)
    requires j <= k
    ensures Weight(j) <= Weight(k)
    decreases k
  {
    if j < k {
      WeightMonotone(j, k - 1);
    }
  }

  // ---------- reading ----------

  // wire |= uint64(b & 0x7F) << (7 * k). Bits already collected lie below the shifted ones
  // (acc < 2^(7k)), so the bitwise or is an addition; see OrShiftIsBitwise. At k = 9 only the
  // lowest bit of b survives the 64-bit shift.
  function OrShift(acc: nat, b: byte, k: nat): (r: uint64)
    requires k < 10 && acc < Weight(k)
    ensures b < 128 || k == 9 || r < Weight(k + 1)
    ensures k < 9 ==> r < Weight(k + 1)
  {
    ShiftBound(acc, b % 128, k);
    acc + (b % 128 * Weight(k)) % TWO_64
  }

  lemma ShiftBound(acc: nat, group: nat, k: nat)
    requires k < 10 && acc < Weight(k) && group < 128
    ensures acc + (group * Weight(k)) % TWO_64 < TWO_64
    ensures k < 9 ==> acc + (group * Weight(k)) % TWO_64 < Weight(k + 1)
  {
    WeightTable();
  }

  // ---------- the operators on bits ----------

  // x & y and x | y, bit by bit.
  function And(x: nat, y: nat): nat
    decreases x + y
  {
    if x == 0 || y == 0 then 0 else (if x % 2 == 1 && y % 2 == 1 then 1 else 0) + 2 * And(x / 2, y / 2)
  }

  function Or(x: nat, y: nat): nat
    decreases x + y
  {
    if x == 0 && y == 0 then 0 else (if x % 2 == 1 || y % 2 == 1 then 1 else 0) + 2 * Or(x / 2, y / 2)
  }

  // x << n on a word of so many values.
  function ShiftLeft(x: nat, n: nat, word: nat): nat
    requires word > 0
  {
    x * Pow2(n) % word
  }

  // Masking keeps the low bits.
  lemma {:induction false} AndIsRemainder(x: nat, n: nat)
    ensures Pow2(n) > 0 && And(x, Pow2(n) - 1) == x % Pow2(n)
    decreases n
  {
    hide And;
    if n == 0 {
      AndNothing(x);
    } else {
      AndIsRemainder(x / 2, n - 1);
      RemainderByTwice(x, Pow2(n - 1));
      AndOdd(x, Pow2(n - 1));
    }
  }

  lemma AndNothing(x: nat)
    ensures And(x, 0) == 0
  {
  }

  lemma AndOdd(x: nat, m: nat)
    requires m > 0
    ensures And(x, 2 * m - 1) == x % 2 + 2 * And(x / 2, m - 1)
  {
    assert (2 * m - 1) / 2 == m - 1 && (2 * m - 1) % 2 == 1;
  }

  lemma RemainderByTwice(x: nat, m: nat)
    requires m > 0
    ensures x % (2 * m) == x % 2 + 2 * (x / 2 % m)
  {
    var q, r := x / 2 / m, x / 2 % m;
    assert x / 2 == q * m + r;
    assert x == q * (2 * m) + (2 * r + x % 2);
    RemainderIs(q, 2 * m, 2 * r + x % 2);
  }

  lemma RemainderIs(q: nat, m: nat, r: nat)
    requires r < m
    ensures (q * m + r) % m == r
  {
    var x := q * m + r;
    var d, e := x / m, x % m;
    assert x == d * m + e;
    if q > d {
      MultiplesApart(q, d, m);
    } else if q < d {
      MultiplesApart(d, q, m);
    }
  }

  lemma MultiplesApart(p: nat, q: nat, m: nat)
    requires p > q
    ensures p * m >= q * m + m
  {
    MulAtLeast(p - q, m);
    assert (p - q) * m == p * m - q * m;
  }

  lemma {:induction false} OrNothing(x: nat)
    ensures Or(x, 0) == x && Or(0, x) == x
    decreases x
  {
    if x > 0 {
      OrNothing(x / 2);
    }
  }

  // Bits that do not overlap add up.
  lemma {:induction false} OrIsAddition(x: nat, q: nat, n: nat)
    requires x < Pow2(n)
    ensures Or(x, q * Pow2(n)) == x + q * Pow2(n)
    decreases n
  {
    if n == 0 {
      OrNothing(q);
    } else {
      var y := q * Pow2(n - 1);
      assert q * Pow2(n) == 2 * y;
      OrIsAddition(x / 2, q, n - 1);
      assert Or(x, 2 * y) == x % 2 + 2 * Or(x / 2, y);
    }
  }

  lemma {:induction false} WeightIsPow2(k: nat)
    ensures Weight(k) == Pow2(7 * k)
    decreases k
  {
    if k > 0 {
      WeightIsPow2(k - 1);
      var n := 7 * k;
      assert Pow2(n) == 2 * Pow2(n - 1) == 4 * Pow2(n - 2) == 8 * Pow2(n - 3);
      assert Pow2(n - 3) == 2 * Pow2(n - 4) == 4 * Pow2(n - 5) == 8 * Pow2(n - 6) == 16 * Pow2(n - 7);
    }
  }

  lemma MaskIsRemainder(b: nat)
    ensures And(b, 0x7F) == b % 128
  {
    AndIsRemainder(b, 7);
    assert Pow2(3) == 8 && Pow2(5) == 32 && Pow2(7) == 128;
  }

  lemma ScaledRemainder(g: nat, w: nat, c: nat)
    requires w > 0 && c > 0
    ensures g * w % (c * w) == g % c * w
  {
    var q, r := g / c, g % c;
    assert g * w == q * (c * w) + r * w by {
      assert g == q * c + r;
    }
    assert r * w < c * w;
    RemainderIs(q, c * w, r * w);
  }

  // What OrShift computes is acc | (b & 0x7F) << (7 * k) on 64 bits.
  lemma OrShiftIsBitwise(acc: nat, b: byte, k: nat)
    requires k < 10 && acc < Weight(k)
    ensures OrShift(acc, b, k) == Or(acc, ShiftLeft(And(b, 0x7F), 7 * k, TWO_64))
  {
    hide And, Or, Weight, Pow2;
    MaskIsRemainder(b);
    WeightIsPow2(k);
    var c := Cofactor(k);
    ScaledRemainder(b % 128, Weight(k), c);
    OrIsAddition(acc, b % 128 % c, 7 * k);
  }

  lemma Cofactor(k: nat) returns (c: nat)
    requires k < 10
    ensures c > 0 && TWO_64 == c * Weight(k)
  {
    WeightTable();
    c := TWO_64 / Weight(k);
  }

  // What the encoder writes for a group that is not the last.
  lemma GroupIsBitwise(v: nat)
    ensures Or(And(v, 0x7F), 0x80) == v % 128 + 128
  {
    MaskIsRemainder(v);
    assert Pow2(3) == 8 && Pow2(5) == 32 && Pow2(7) == 128;
    hide And, Or, Pow2;
    OrIsAddition(v % 128, 1, 7);
  }

  // What sovDatabase measures is x | 1.
  lemma OddIsBitwise(x: nat)
    ensures Or(x, 1) == if x % 2 == 0 then x + 1 else x
  {
    OrNothing(x / 2);
    assert Or(x, 1) == 1 + 2 * Or(x / 2, 0);
  }

  // The reading loop, from group k on with acc collected so far.
  function ScanFrom(s: seq<byte>, k: nat, acc: nat): (r: Result<Scan, Error>)
    requires k < 10 ==> acc < Weight(k)
    ensures r.Ok? ==> 1 <= r.value.width <= |s|
    decreases |s|
  {
    if k >= 10 then Err(IntOverflow)
    else if s == [] then Err(UnexpectedEOF)
    else
      var acc' := OrShift(acc, s[0], k);
      if s[0] < 128 then Ok(Scan(acc', 1))
      else Widen(ScanFrom(s[1..], k + 1, acc'), 1)
  }

  function Widen(r: Result<Scan, Error>, n: nat): Result<Scan, Error> {
    if r.Err? then r else Ok(Scan(r.value.value, r.value.width + n))
  }

  function Read(s: seq<byte>): (r: Result<Scan, Error>)
    ensures r.Ok? ==> 1 <= r.value.width <= |s|
  {
    ScanFrom(s, 0, 0)
  }

  // ---------- what reading means ----------

  // The groups of the first n bytes, each at its weight.
  function Sum(s: seq<byte>, n: nat): nat
    requires n <= |s|
  {
    if n == 0 then 0 else Sum(s, n - 1) + s[n - 1] % 128 * Weight(n - 1)
  }

  // The varint at the start of s takes n bytes: at most ten, and the last is the first below 128.
  predicate EndsAt(s: seq<byte>, n: nat) {
    1 <= n <= 10 && n <= |s| && s[n - 1] < 128 && forall i :: 0 <= i < n - 1 ==> s[i] >= 128
  }

  lemma {:induction false} SumIsSmall(s: seq<byte>, n: nat)
    requires n <= |s|
    ensures Sum(s, n) < Weight(n)
    decreases n
  {
    if n > 0 {
      SumIsSmall(s, n - 1);
      MulAtMost(s[n - 1] % 128, 127, Weight(n - 1));
    }
  }

  // One step of the reader is exact up to the ninth group, and modulo 2^64 at the tenth.
  lemma StepIsSum(s: seq<byte>, k: nat)
    requires k < 10 && k < |s|
    ensures Sum(s, k) < Weight(k) && OrShift(Sum(s, k), s[k], k) == Sum(s, k + 1) % TWO_64
    ensures k < 9 ==> OrShift(Sum(s, k), s[k], k) == Sum(s, k + 1)
  {
    hide Weight, Sum, OrShift;
    SumIsSmall(s, k);
    SumStep(s, k);
    OrShiftIsSum(Sum(s, k), s[k], k);
    if k < 9 {
      SumIsSmall(s, k + 1);
      WeightBelow64(k + 1);
    }
  }

  lemma OrShiftIsSum(acc: nat, b: byte, k: nat)
    requires k < 10 && acc < Weight(k)
    ensures OrShift(acc, b, k) == (acc + b % 128 * Weight(k)) % TWO_64
  {
    hide Weight;
    var r: uint64, x := OrShift(acc, b, k), b % 128 * Weight(k);
    assert r == acc + x % TWO_64;
    RemainderOfSum(acc, x);
  }

  lemma SumStep(s: seq<byte>, k: nat)
    requires k < |s|
    ensures Sum(s, k + 1) == Sum(s, k) + s[k] % 128 * Weight(k)
  {
  }

  lemma RemainderOfSum(x: nat, y: nat)
    requires x + y % TWO_64 < TWO_64
    ensures x + y % TWO_64 == (x + y) % TWO_64
  {
  }

  lemma WeightBelow64(k: nat)
    requires k <= 9
    ensures Weight(k) < TWO_64
  {
    WeightMonotone(k, 9);
    WeightTable();
  }

  // The reader after k bytes that were not the last.
  lemma {:induction false} ScanEnds(s: seq<byte>, k: nat, n: nat)
    requires k < n && EndsAt(s, n)
    ensures Sum(s, k) < Weight(k)
    ensures ScanFrom(s[k..], k, Sum(s, k)) == Ok(Scan(Sum(s, n) % TWO_64, n - k))
    decreases n - k
  {
    hide OrShift, Weight, Sum;
    StepIsSum(s, k);
    assert s[k..][0] == s[k] && s[k..][1..] == s[k + 1..];
    if k + 1 < n {
      ScanEnds(s, k + 1, n);
    }
  }

  lemma {:induction false} ScanFails(s: seq<byte>, k: nat)
    requires k <= |s| && k < 10 && forall i :: 0 <= i < |s| && i < 10 ==> s[i] >= 128
    ensures Sum(s, k) < Weight(k)
    ensures ScanFrom(s[k..], k, Sum(s, k)) == Err(if |s| < 10 then UnexpectedEOF else IntOverflow)
    decreases 10 - k
  {
    hide OrShift, Weight, Sum;
    SumIsSmall(s, k);
    if k < |s| {
      StepIsSum(s, k);
      assert s[k..][0] == s[k] && s[k..][1..] == s[k + 1..];
      if k < 9 {
        ScanFails(s, k + 1);
      }
    }
  }

  lemma FindEnd(s: seq<byte>) returns (n: nat)
    ensures EndsAt(s, n) || (n == 0 && forall i :: 0 <= i < |s| && i < 10 ==> s[i] >= 128)
  {
    n := 0;
    while n < |s| && n < 10 && s[n] >= 128
      invariant n <= |s| && n <= 10 && forall i :: 0 <= i < n ==> s[i] >= 128
    {
      n := n + 1;
    }
    n := if n < |s| && n < 10 then n + 1 else 0;
  }

  // Exactly what reading any byte string gives, overlong varints and a truncated tenth byte included:
  // the value is the sum of the groups modulo 2^64, and the two errors tell how the end is missing.
  lemma ReadIsExact(s: seq<byte>, v: uint64, n: nat)
    ensures Read(s) == Ok(Scan(v, n)) <==> EndsAt(s, n) && v == Sum(s, n) % TWO_64
    ensures Read(s) == Err(IntOverflow) <==> |s| >= 10 && forall i :: 0 <= i < 10 ==> s[i] >= 128
    ensures Read(s) == Err(UnexpectedEOF) <==> |s| < 10 && forall i :: 0 <= i < |s| ==> s[i] >= 128
  {
    var m := FindEnd(s);
    assert s[0..] == s && Sum(s, 0) == 0;
    hide ScanFrom, Sum;
    if m == 0 {
      ScanFails(s, 0);
    } else {
      ScanEnds(s, 0, m);
      assert s[m - 1] < 128;
    }
  }

  // Bytes after a complete varint do not affect how it reads.
  lemma {:induction false} ReadExtends(s: seq<byte>, t: seq<byte>, k: nat, acc: nat)
    requires k < 10 ==> acc < Weight(k)
    requires ScanFrom(s, k, acc).Ok?
    ensures ScanFrom(s + t, k, acc) == ScanFrom(s, k, acc)
    decreases |s|
  {
    if s[0] >= 128 {
      assert (s + t)[1..] == s[1..] + t;
      ReadExtends(s[1..], t, k + 1, OrShift(acc, s[0], k));
    }
  }

  lemma SplitWeight(v: nat, k: nat)
    ensures v * Weight(k) == v % 128 * Weight(k) + v / 128 * Weight(k + 1)
  {
    var w := Weight(k);
    calc {
      v * w;
      (128 * (v / 128) + v % 128) * w;
      128 * (v / 128) * w + v % 128 * w;
      v / 128 * (128 * w) + v % 128 * w;
    }
  }

  lemma {:induction false} EncodeThenScan(v: nat, rest: seq<byte>, k: nat, acc: nat)
    requires k < 10 && acc < Weight(k)
    requires acc + v * Weight(k) < TWO_64
    ensures ScanFrom(Encode(v) + rest, k, acc) == Ok(Scan(acc + v * Weight(k), |Encode(v)|))
    decreases v
  {
    hide OrShift, Weight;
    var s := Encode(v) + rest;
    if v < 128 {
      assert s[0] == v;
      ScanLast(v, k, acc);
    } else {
      ScanStep(v, k, acc);
      var acc' := OrShift(acc, v % 128 + 128, k);
      assert s[0] == v % 128 + 128 && s[1..] == Encode(v / 128) + rest;
      EncodeThenScan(v / 128, rest, k + 1, acc');
    }
  }

  lemma ScanLast(v: nat, k: nat, acc: nat)
    requires k < 10 && acc < Weight(k) && v < 128
    requires acc + v * Weight(k) < TWO_64
    ensures OrShift(acc, v, k) == acc + v * Weight(k)
  {
    hide Weight;
    assert v % 128 == v;
    LowPart(v * Weight(k), acc);
  }

  // The arithmetic of one group that is not the last.
  lemma ScanStep(v: nat, k: nat, acc: nat)
    requires k < 10 && acc < Weight(k) && v >= 128
    requires acc + v * Weight(k) < TWO_64
    ensures k + 1 < 10
    ensures var acc' := OrShift(acc, v % 128 + 128, k);
      acc' < Weight(k + 1) && acc' + v / 128 * Weight(k + 1) == acc + v * Weight(k)
  {
    SplitWeight(v, k);
    MulAtLeast(v / 128, Weight(k + 1));
    WeightTable();
    assert (v % 128 + 128) % 128 == v % 128;
    LowPart(v % 128 * Weight(k), acc);
  }

  lemma LowPart(low: nat, acc: nat)
    requires acc + low < TWO_64
    ensures acc + low % TWO_64 == acc + low
  {
  }

  lemma MulAtLeast(x: nat, w: nat)
    requires x >= 1
    ensures x * w >= w
  {
  }

  // Every 64-bit value survives being written and read back, whatever follows it.
  lemma ReadOfEncode(v: uint64, rest: seq<byte>)
    ensures Read(Encode(v) + rest) == Ok(Scan(v, Sov(v)))
  {
    SovIsExact(v);
    EncodeThenScan(v, rest, 0, 0);
  }

  // The largest varint takes ten bytes.
  lemma {:induction false} WidthBound(v: nat, k: nat)
    requires v * Weight(k) < TWO_64 && k < 10
    ensures |Encode(v)| <= 10 - k
    decreases v
  {
    if v >= 128 {
      SplitWeight(v, k);
      MulAtLeast(v / 128, Weight(k + 1));
      WeightTable();
      WidthBound(v / 128, k + 1);
    }
  }

  lemma SovAtMostTen(v: uint64)
    ensures 1 <= Sov(v) <= 10
  {
    SovIsExact(v);
    WidthBound(v, 0);
  }

  // encodeVarintDatabase: fills the Sov(v) bytes that end at offset, front to back, and
  // returns where they start.
  method WriteVarint(dAtA: array<byte>, offset: nat, v: uint64) returns (base: nat)
    requires Sov(v) <= offset <= dAtA.Length
    modifies dAtA
    ensures base == offset - Sov(v) == offset - |Encode(v)|
    ensures dAtA[base..offset] == Encode(v)
    ensures dAtA[..base] == old(dAtA[..base]) && dAtA[offset..] == old(dAtA[offset..])
  {
    SovIsExact(v);
    base := offset - Sov(v);
    ghost var all := Encode(v);
    var at: nat, left: nat := base, v;
    while left >= 128
      invariant base <= at < offset && left <= v
      invariant all[at - base..] == Encode(left)
      invariant dAtA[base..at] == all[..at - base]
      invariant dAtA[..base] == old(dAtA[..base]) && dAtA[offset..] == old(dAtA[offset..])
    {
      EncodeStep(all, at - base, left);
      dAtA[at] := left % 128 + 128;
      left := left / 128;
      at := at + 1;
    }
    dAtA[at] := left;
    assert all[at - base] == all[at - base..][0] == left;
  }

  lemma EncodeStep(all: seq<byte>, j: nat, left: nat)
    requires left >= 128 && j < |all| && all[j..] == Encode(left)
    ensures j + 1 < |all| && all[j] == left % 128 + 128 && all[j + 1..] == Encode(left / 128)
  {
    assert all[j] == all[j..][0] && all[j + 1..] == all[j..][1..];
  }

  // The reading loop that every generated field reader repeats.
  method ReadVarint(dAtA: seq<byte>, start: nat) returns (r: Result<uint64, Error>, iNdEx: nat)
    requires start <= |dAtA|
    ensures start <= iNdEx <= |dAtA|
    ensures match Read(dAtA[start..])
            case Ok(scan) => r == Ok(scan.value) && iNdEx == start + scan.width
            case Err(e) => r == Err(e)
  {
    hide OrShift;
    iNdEx := start;
    var acc: nat, k: nat := 0, 0;
    while true
      invariant start <= iNdEx <= |dAtA| && k <= 10
      invariant k < 10 ==> acc < Weight(k)
      invariant Read(dAtA[start..]) == Widen(ScanFrom(dAtA[iNdEx..], k, acc), iNdEx - start)
      decreases 10 - k
    {
      if k >= 10 {
        return Err(IntOverflow), iNdEx;
      }
      if iNdEx >= |dAtA| {
        return Err(UnexpectedEOF), iNdEx;
      }
      var b := dAtA[iNdEx];
      assert dAtA[iNdEx..][0] == b && dAtA[iNdEx..][1..] == dAtA[iNdEx + 1..];
      iNdEx := iNdEx + 1;
      acc := OrShift(acc, b, k);
      if b < 128 {
        return Ok(acc), iNdEx;
      }
      k := k + 1;
    }
  }

  // The same step on 32 bits: groups shifted past bit 31 vanish.
  lemma OrShiftLow(acc: nat, b: byte, k: nat)
    requires k < 10 && acc < Weight(k)
    ensures OrShift(acc, b, k) % TWO_32 == acc % TWO_32 + (b % 128 * Weight(k)) % TWO_32
  {
    ShiftLow(acc, b % 128, k);
  }

  lemma ShiftLow(acc: nat, d: nat, k: nat)
    requires k < 10 && acc < Weight(k) && d < 128
    ensures (acc + (d * Weight(k)) % TWO_64) % TWO_32 == acc % TWO_32 + (d * Weight(k)) % TWO_32
  {
    WeightTable();
    if k < 4 {
      WeightMonotone(k, 3);
      LowGroups(acc, d, Weight(k));
    } else if k == 4 {
      GroupAcrossBit32(acc, d);
    } else {
      var c := HighWeight(k);
      MultipleVanishes(acc, d, c);
    }
  }

  lemma LowGroups(acc: nat, d: nat, w: nat)
    requires d < 128 && acc < w <= 0x20_0000
    ensures (acc + (d * w) % TWO_64) % TWO_32 == acc % TWO_32 + (d * w) % TWO_32
  {
    MulAtMost(d, 127, w);
    NoTruncation(acc, d * w);
  }

  lemma MulAtMost(d: nat, e: nat, w: nat)
    requires d <= e
    ensures d * w <= e * w
  {
  }

  lemma NoTruncation(acc: nat, x: nat)
    requires acc + x < TWO_32
    ensures (acc + x % TWO_64) % TWO_32 == acc % TWO_32 + x % TWO_32
  {
  }

  lemma GroupAcrossBit32(acc: nat, d: nat)
    requires d < 128 && acc < 0x1000_0000
    ensures (acc + (d * 0x1000_0000) % TWO_64) % TWO_32 == acc % TWO_32 + (d * 0x1000_0000) % TWO_32
  {
    var x := d * 0x1000_0000;
    assert x == d / 16 * TWO_32 + d % 16 * 0x1000_0000;
    assert x < TWO_64 && x % TWO_32 == d % 16 * 0x1000_0000;
  }

  lemma HighWeight(k: nat) returns (c: nat)
    requires 5 <= k < 10
    ensures Weight(k) == c * TWO_32
  {
    WeightTable();
    c := Weight(k) / TWO_32;
  }

  lemma MultipleVanishes(acc: nat, d: nat, c: nat)
    ensures (d * (c * TWO_32)) % TWO_32 == 0
    ensures (acc + (d * (c * TWO_32)) % TWO_64) % TWO_32 == acc % TWO_32
  {
    var m := d * c;
    assert d * (c * TWO_32) == m * TWO_32;
    assert (m * TWO_32) % TWO_64 == m % TWO_32 * TWO_32;
  }

  // The 32-bit step is bits | int32(b & 0x7F) << (7 * k) on 32 bits.
  lemma OrShift32IsBitwise(acc: nat, b: byte, k: nat)
    requires k < 10 && acc < Weight(k)
    ensures acc % TWO_32 + (b % 128 * Weight(k)) % TWO_32
         == Or(acc % TWO_32, ShiftLeft(And(b, 0x7F), 7 * k, TWO_32))
  {
    hide And, Or, Weight, Pow2;
    MaskIsRemainder(b);
    WeightIsPow2(k);
    if k <= 4 {
      var c := Cofactor32(k);
      Below32(acc, k);
      ScaledRemainder(b % 128, Weight(k), c);
      OrIsAddition(acc, b % 128 % c, 7 * k);
    } else {
      var c := HighWeight(k);
      MultipleVanishes(acc, b % 128, c);
      OrNothing(acc % TWO_32);
    }
  }

  lemma Cofactor32(k: nat) returns (c: nat)
    requires k <= 4
    ensures c > 0 && TWO_32 == c * Weight(k)
  {
    WeightTable();
    c := TWO_32 / Weight(k);
  }

  lemma Below32(acc: nat, k: nat)
    requires k <= 4 && acc < Weight(k)
    ensures acc % TWO_32 == acc
  {
    WeightMonotone(k, 4);
    WeightTable();
  }

  // The reader of an int32 field accumulates in 32 bits, m.Misses |= int32(b&0x7F) << shift.
  // What it leaves is the low half of the 64-bit varint.
  method ReadVarint32(dAtA: seq<byte>, start: nat) returns (r: Result<int32, Error>, iNdEx: nat)
    requires start <= |dAtA|
    ensures start <= iNdEx <= |dAtA|
    ensures match Read(dAtA[start..])
            case Ok(scan) => r == Ok(AsInt32(scan.value)) && iNdEx == start + scan.width
            case Err(e) => r == Err(e)
  {
    hide OrShift;
    iNdEx := start;
    var bits: nat, k: nat := 0, 0;
    ghost var acc: nat := 0;
    while true
      invariant start <= iNdEx <= |dAtA| && k <= 10
      invariant k < 10 ==> acc < Weight(k)
      invariant bits == acc % TWO_32
      invariant Read(dAtA[start..]) == Widen(ScanFrom(dAtA[iNdEx..], k, acc), iNdEx - start)
      decreases 10 - k
    {
      if k >= 10 {
        return Err(IntOverflow), iNdEx;
      }
      if iNdEx >= |dAtA| {
        return Err(UnexpectedEOF), iNdEx;
      }
      var b := dAtA[iNdEx];
      assert dAtA[iNdEx..][0] == b && dAtA[iNdEx..][1..] == dAtA[iNdEx + 1..];
      iNdEx := iNdEx + 1;
      OrShiftLow(acc, b, k);
      bits, acc := bits + (b % 128 * Weight(k)) % TWO_32, OrShift(acc, b, k);
      if b < 128 {
        return Ok(if bits < 0x8000_0000 then bits else bits - TWO_32), iNdEx;
      }
      k := k + 1;
    }
  }
}
