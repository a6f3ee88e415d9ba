// lib/api/api_auth.go: escaping of user names for LDAP. The code replaces one rune after another;
// the result is a single simultaneous substitution that can be undone.
module Ldap {
  import opened Common

  const BACKSLASH: byte := 0x5C

  // '*' '(' ')' NUL behind the backslash, and the longer list for distinguished names.
  const FILTER_RUNES: seq<byte> := [BACKSLASH, 0x2A, 0x28, 0x29, 0]
  const DN_RUNES: seq<byte> := [BACKSLASH, 0x2C, 0x23, 0x2B, 0x3C, 0x3E, 0x3B, 0x22, 0x3D, 0x20, 0]

  // strings.ReplaceAll for a pattern of one byte.
  function ReplaceAll(s: seq<byte>, e: byte, replacement: seq<byte>): seq<byte> {
    if s == [] then []
    else (if s[0] == e then replacement else [s[0]]) + ReplaceAll(s[1..], e, replacement)
  }

  function HexDigit(n: nat): (d: byte)
    requires n < 16
  {
    if n < 10 then 0x30 + n else 0x41 + n - 10
  }

  predicate IsHexDigit(b: byte) {
    0x30 <= b <= 0x39 || 0x41 <= b <= 0x46
  }

  // fmt.Sprintf("\\%X", e): no leading zero.
  function Escape(e: byte): seq<byte> {
    [BACKSLASH] + if e < 16 then [HexDigit(e)] else [HexDigit(e / 16), HexDigit(e % 16)]
  }

  // The loop of escapeRunes.
  function Sequential(value: seq<byte>, runes: seq<byte>): seq<byte> {
    if runes == [] then value
    else
      var n := |runes| - 1;
      ReplaceAll(Sequential(value, runes[..n]), runes[n], Escape(runes[n]))
  }

  method EscapeRunes(value: seq<byte>, runes: seq<byte>) returns (r: seq<byte>)
    ensures r == Sequential(value, runes)
  {
    r := value;
    for i := 0 to |runes|
      invariant r == Sequential(value, runes[..i])
    {
      r := ReplaceAll(r, runes[i], Escape(runes[i]));
      assert runes[..i + 1][..i] == runes[..i];
    }
    assert runes[..|runes|] == runes;
  }

  // ---------- one simultaneous substitution ----------

  // Every character is looked at once.
  function EscapeEach(value: seq<byte>, runes: seq<byte>): seq<byte> {
    if value == [] then []
    else (if value[0] in runes then Escape(value[0]) else [value[0]]) + EscapeEach(value[1..], runes)
  }

  // What makes a list of runes safe to replace one by one: the backslash is first, nothing occurs
  // twice, and nothing listed can occur inside an escape sequence.
  predicate Suitable(runes: seq<byte>) {
    && runes != [] && runes[0] == BACKSLASH
    && (forall i, j :: 0 <= i < j < |runes| ==> runes[i] != runes[j])
    && (forall i :: 0 <= i < |runes| ==> !IsHexDigit(runes[i]) && (runes[i] == 0 || 16 <= runes[i]))
  }

  lemma ListsAreSuitable()
    ensures Suitable(FILTER_RUNES) && Suitable(DN_RUNES)
  {
  }

  lemma {:induction false} ReplaceAppend(s: seq<byte>, t: seq<byte>, e: byte, x: seq<byte>)
    ensures ReplaceAll(s + t, e, x) == ReplaceAll(s, e, x) + ReplaceAll(t, e, x)
    decreases |s|
  {
    if s == [] {
      assert s + t == t;
    } else {
      assert (s + t)[1..] == s[1..] + t;
      ReplaceAppend(s[1..], t, e, x);
    }
  }

  lemma {:induction false} ReplaceAbsent(s: seq<byte>, e: byte, x: seq<byte>)
    requires e !in s
    ensures ReplaceAll(s, e, x) == s
    decreases |s|
  {
    if s != [] {
      ReplaceAbsent(s[1..], e, x);
    }
  }

  lemma EscapeUses(c: byte)
    ensures forall b :: b in Escape(c) ==> b == BACKSLASH || IsHexDigit(b)
  {
  }

  // Replacing one more rune extends the simultaneous substitution by that rune.
  lemma {:induction false} OneMoreRune(value: seq<byte>, runes: seq<byte>, e: byte)
    requires e !in runes && (runes != [] ==> e != BACKSLASH) && !IsHexDigit(e)
    ensures ReplaceAll(EscapeEach(value, runes), e, Escape(e)) == EscapeEach(value, runes + [e])
    decreases |value|
  {
    if value != [] {
      var c := value[0];
      var first := if c in runes then Escape(c) else [c];
      OneMoreRune(value[1..], runes, e);
      ReplaceAppend(first, EscapeEach(value[1..], runes), e, Escape(e));
      if c in runes {
        EscapeUses(c);
        ReplaceAbsent(first, e, Escape(e));
      } else {
        assert [c][1..] == [];
      }
    }
  }

  lemma {:induction false} EscapeNone(value: seq<byte>)
    ensures EscapeEach(value, []) == value
    decreases |value|
  {
    if value != [] {
      EscapeNone(value[1..]);
    }
  }

  lemma {:induction false} SequentialPrefix(value: seq<byte>, runes: seq<byte>, n: nat)
    requires Suitable(runes) && n <= |runes|
    ensures Sequential(value, runes[..n]) == EscapeEach(value, runes[..n])
    decreases n
  {
    if n == 0 {
      EscapeNone(value);
    } else {
      SequentialPrefix(value, runes, n - 1);
      assert runes[..n][..n - 1] == runes[..n - 1] && runes[..n] == runes[..n - 1] + [runes[n - 1]];
      OneMoreRune(value, runes[..n - 1], runes[n - 1]);
    }
  }

  // Replacing the listed runes one after another equals replacing all of them at once.
  lemma SequentialIsSimultaneous(value: seq<byte>, runes: seq<byte>)
    requires Suitable(runes)
    ensures Sequential(value, runes) == EscapeEach(value, runes)
  {
    SequentialPrefix(value, runes, |runes|);
    assert runes[..|runes|] == runes;
  }

  // ---------- the inverse ----------

  function HexValue(d: byte): int {
    if d < 0x41 then d - 0x30 else d - 0x41 + 10
  }

  // Reads escape sequences back: a backslash and either the single digit 0 or two digits.
  function Unescape(s: seq<byte>): seq<int>
    decreases |s|
  {
    if s == [] then []
    else if s[0] != BACKSLASH then [s[0]] + Unescape(s[1..])
    else if |s| >= 2 && s[1] == 0x30 then [0] + Unescape(s[2..])
    else if |s| >= 3 then [16 * HexValue(s[1]) + HexValue(s[2])] + Unescape(s[3..])
    else s
  }

  lemma HexDigits(n: nat)
    requires n < 16
    ensures HexValue(HexDigit(n)) == n && (HexDigit(n) == 0x30 <==> n == 0)
  {
  }

  lemma UnescapeEscape(c: byte, rest: seq<byte>)
    requires c == 0 || 16 <= c
    ensures Unescape(Escape(c) + rest) == [c] + Unescape(rest)
  {
    var s := Escape(c) + rest;
    if c == 0 {
      assert s[2..] == rest;
    } else {
      HexDigits(c / 16);
      HexDigits(c % 16);
      assert s[3..] == rest;
    }
  }

  lemma {:induction false} UnescapeInverts(value: seq<byte>, runes: seq<byte>)
    requires Suitable(runes)
    ensures Unescape(EscapeEach(value, runes)) == value
    decreases |value|
  {
    if value != [] {
      var c, rest := value[0], EscapeEach(value[1..], runes);
      UnescapeInverts(value[1..], runes);
      if c in runes {
        UnescapeEscape(c, rest);
      } else {
        assert runes[0] in runes;
        assert ([c] + rest)[1..] == rest;
      }
    }
  }

  // Different names never escape to the same text.
  lemma EscapingIsInjective(v: seq<byte>, w: seq<byte>, runes: seq<byte>)
    requires Suitable(runes) && Sequential(v, runes) == Sequential(w, runes)
    ensures v == w
  {
    SequentialIsSimultaneous(v, runes);
    SequentialIsSimultaneous(w, runes);
    UnescapeInverts(v, runes);
    UnescapeInverts(w, runes);
  }

  // Nothing special is left in the output except the backslashes of the escape sequences.
  lemma {:induction false} OutputIsInert(value: seq<byte>, runes: seq<byte>)
    requires Suitable(runes)
    ensures forall b :: b in EscapeEach(value, runes) ==> b == BACKSLASH || b !in runes
    decreases |value|
  {
    if value != [] {
      OutputIsInert(value[1..], runes);
      EscapeUses(value[0]);
    }
  }

  // ---------- character by character ----------

  lemma {:induction false} EscapeAppend(v: seq<byte>, w: seq<byte>, runes: seq<byte>)
    ensures EscapeEach(v + w, runes) == EscapeEach(v, runes) + EscapeEach(w, runes)
    decreases |v|
  {
    if v == [] {
      assert v + w == w;
    } else {
      assert (v + w)[1..] == v[1..] + w;
      EscapeAppend(v[1..], w, runes);
    }
  }

  // What becomes of a text is determined by what becomes of its characters.
  lemma SequentialAppend(v: seq<byte>, w: seq<byte>, runes: seq<byte>)
    requires Suitable(runes)
    ensures Sequential(v + w, runes) == Sequential(v, runes) + Sequential(w, runes)
  {
    SequentialIsSimultaneous(v + w, runes);
    SequentialIsSimultaneous(v, runes);
    SequentialIsSimultaneous(w, runes);
    EscapeAppend(v, w, runes);
  }

  lemma OneCharacter(c: byte, runes: seq<byte>)
    requires Suitable(runes)
    ensures Sequential([c], runes) == if c in runes then Escape(c) else [c]
  {
    SequentialIsSimultaneous([c], runes);
    assert [c][1..] == [];
  }

  // \ is written \5C, * is \2A, ( is \28, ) is \29, NUL is \0, and everything else stays.
  function FilterText(c: byte): seq<byte> {
    if c == 0x5C then [0x5C, 0x35, 0x43]
    else if c == 0x2A then [0x5C, 0x32, 0x41]
    else if c == 0x28 then [0x5C, 0x32, 0x38]
    else if c == 0x29 then [0x5C, 0x32, 0x39]
    else if c == 0 then [0x5C, 0x30]
    else [c]
  }

  // The same for the comma, # + < > ; " = and the space in distinguished names.
  function DNText(c: byte): seq<byte> {
    if c == 0x5C then [0x5C, 0x35, 0x43]
    else if c == 0x2C then [0x5C, 0x32, 0x43]
    else if c == 0x23 then [0x5C, 0x32, 0x33]
    else if c == 0x2B then [0x5C, 0x32, 0x42]
    else if c == 0x3C then [0x5C, 0x33, 0x43]
    else if c == 0x3E then [0x5C, 0x33, 0x45]
    else if c == 0x3B then [0x5C, 0x33, 0x42]
    else if c == 0x22 then [0x5C, 0x32, 0x32]
    else if c == 0x3D then [0x5C, 0x33, 0x44]
    else if c == 0x20 then [0x5C, 0x32, 0x30]
    else if c == 0 then [0x5C, 0x30]
    else [c]
  }

  lemma FilterCharacter(c: byte)
    ensures Sequential([c], FILTER_RUNES) == FilterText(c)
  {
    hide Sequential;
    ListsAreSuitable();
    OneCharacter(c, FILTER_RUNES);
    var r := FILTER_RUNES;
    assert r[0] == 0x5C && r[1] == 0x2A && r[2] == 0x28 && r[3] == 0x29 && r[4] == 0;
  }

  lemma DNCharacter(c: byte)
    ensures Sequential([c], DN_RUNES) == DNText(c)
  {
    hide Sequential;
    ListsAreSuitable();
    OneCharacter(c, DN_RUNES);
    var r := DN_RUNES;
    assert r[0] == 0x5C && r[1] == 0x2C && r[2] == 0x23 && r[3] == 0x2B && r[4] == 0x3C && r[5] == 0x3E;
    assert r[6] == 0x3B && r[7] == 0x22 && r[8] == 0x3D && r[9] == 0x20 && r[10] == 0;
  }

  function Written(text: byte -> seq<byte>, value: seq<byte>): seq<byte> {
    if value == [] then [] else text(value[0]) + Written(text, value[1..])
  }

  // The escapes, spelled out: every character of a value is written by itself as the tables say.
  lemma {:induction false} EscapesAre(value: seq<byte>)
    ensures Sequential(value, FILTER_RUNES) == Written(FilterText, value)
    ensures Sequential(value, DN_RUNES) == Written(DNText, value)
    decreases |value|
  {
    hide FilterText, DNText, Sequential;
    ListsAreSuitable();
    if value == [] {
      SequentialIsSimultaneous([], FILTER_RUNES);
      SequentialIsSimultaneous([], DN_RUNES);
    } else {
      var c, rest := value[0], value[1..];
      assert value == [c] + rest;
      SequentialAppend([c], rest, FILTER_RUNES);
      SequentialAppend([c], rest, DN_RUNES);
      FilterCharacter(c);
      DNCharacter(c);
      EscapesAre(rest);
    }
  }

  // No character that means something in a filter, or in a distinguished name, gets through.
  lemma NothingGetsThrough(value: seq<byte>)
    ensures forall b :: b in Sequential(value, FILTER_RUNES) ==> b !in {0x2A, 0x28, 0x29, 0}
    ensures forall b :: b in Sequential(value, DN_RUNES) ==>
              b !in {0x2C, 0x23, 0x2B, 0x3C, 0x3E, 0x3B, 0x22, 0x3D, 0x20, 0}
  {
    hide Sequential;
    ListsAreSuitable();
    SequentialIsSimultaneous(value, FILTER_RUNES);
    SequentialIsSimultaneous(value, DN_RUNES);
    OutputIsInert(value, FILTER_RUNES);
    OutputIsInert(value, DN_RUNES);
    var r, t := FILTER_RUNES, DN_RUNES;
    assert r[1] == 0x2A && r[2] == 0x28 && r[3] == 0x29 && r[4] == 0;
    assert t[1] == 0x2C && t[2] == 0x23 && t[3] == 0x2B && t[4] == 0x3C && t[5] == 0x3E;
    assert t[6] == 0x3B && t[7] == 0x22 && t[8] == 0x3D && t[9] == 0x20 && t[10] == 0;
  }

  // ---------- RFC 4515 ----------

  // Section 3 of RFC 4515 escapes a character as a backslash and two hexadecimal digits.
  function EscapeTwoDigits(value: seq<byte>, runes: seq<byte>): seq<byte> {
    if value == [] then []
    else (if value[0] in runes then [BACKSLASH, HexDigit(value[0] / 16), HexDigit(value[0] % 16)] else [value[0]])
         + EscapeTwoDigits(value[1..], runes)
  }

  lemma {:induction false} LengthOfEscapes(value: seq<byte>, runes: seq<byte>)
    ensures |EscapeEach(value, runes)| <= |EscapeTwoDigits(value, runes)|
    ensures 0 in value && 0 in runes ==> |EscapeEach(value, runes)| < |EscapeTwoDigits(value, runes)|
    decreases |value|
  {
    if value != [] {
      LengthOfEscapes(value[1..], runes);
      assert value == [value[0]] + value[1..];
    }
  }

  lemma {:induction false} TwoDigitsWithoutNul(value: seq<byte>, runes: seq<byte>)
    requires Suitable(runes) && 0 !in value
    ensures EscapeEach(value, runes) == EscapeTwoDigits(value, runes)
    decreases |value|
  {
    if value != [] {
      TwoDigitsWithoutNul(value[1..], runes);
    }
  }

  // An escape has the two-digit form exactly for values without NUL, which the code writes with a
  // single digit.
  lemma TwoDigitsIff(value: seq<byte>, runes: seq<byte>)
    requires Suitable(runes) && 0 in runes
    ensures Sequential(value, runes) == EscapeTwoDigits(value, runes) <==> 0 !in value
  {
    SequentialIsSimultaneous(value, runes);
    LengthOfEscapes(value, runes);
    if 0 !in value {
      TwoDigitsWithoutNul(value, runes);
    }
  }

  // Section 3 of RFC 4515 asks for that form in filters.
  lemma FilterEscapeIsStandardIff(value: seq<byte>)
    ensures Sequential(value, FILTER_RUNES) == EscapeTwoDigits(value, FILTER_RUNES) <==> 0 !in value
  {
    ListsAreSuitable();
    assert FILTER_RUNES[4] == 0;
    TwoDigitsIff(value, FILTER_RUNES);
  }

  // Section 2.4 of RFC 4514 permits it for every character of a distinguished name, and no single
  // digit for any.
  lemma DNEscapeIsStandardIff(value: seq<byte>)
    ensures Sequential(value, DN_RUNES) == EscapeTwoDigits(value, DN_RUNES) <==> 0 !in value
  {
    ListsAreSuitable();
    assert DN_RUNES[10] == 0;
    TwoDigitsIff(value, DN_RUNES);
  }
}
