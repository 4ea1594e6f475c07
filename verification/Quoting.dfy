/** fmt's %q of a string: characters that print stay, everything else is escaped. */
module Quoting {
  import opened GoStrings

  const BACKSLASH: byte := 92

  /** The code points from 128 on that strconv.IsPrint accepts. Nothing is assumed of them: every statement holds
      whatever this table is. */
  const PRINTABLE: set<int>

  // ----- UTF-8

  predicate Continues(b: byte) { 0x80 <= b <= 0xBF }

  /** The second bytes that may follow a first one: no overlong forms, no surrogates, nothing past U+10FFFF. */
  predicate Follows(a: byte, b: byte) {
    && Continues(b)
    && (a == 0xE0 ==> b >= 0xA0) && (a == 0xED ==> b <= 0x9F)
    && (a == 0xF0 ==> b >= 0x90) && (a == 0xF4 ==> b <= 0x8F)
  }

  /** The length of the encoded character s begins with, or 0 when its bytes encode none. */
  function RuneLen(s: Bytes): (n: nat)
    requires s != []
    ensures n <= |s| && n <= 4 && (n == 1 <==> s[0] < 0x80)
    ensures n > 1 ==> forall i | 0 <= i < n :: s[i] >= 0x80
  {
    if s[0] < 0x80 then 1
    else if 0xC2 <= s[0] <= 0xDF && |s| >= 2 && Continues(s[1]) then 2
    else if 0xE0 <= s[0] <= 0xEF && |s| >= 3 && Follows(s[0], s[1]) && Continues(s[2]) then 3
    else if 0xF0 <= s[0] <= 0xF4 && |s| >= 4 && Follows(s[0], s[1]) && Continues(s[2]) && Continues(s[3]) then 4
    else 0
  }

  function Low6(b: byte): int { b as int % 64 }

  /** The code point of the character s begins with. */
  function RuneOf(s: Bytes): (r: int)
    requires s != [] && RuneLen(s) > 0
    ensures r >= 0
  {
    var n := RuneLen(s);
    if n == 1 then s[0] as int
    else if n == 2 then s[0] as int % 32 * 64 + Low6(s[1])
    else if n == 3 then s[0] as int % 16 * 4096 + Low6(s[1]) * 64 + Low6(s[2])
    else s[0] as int % 8 * 262144 + Low6(s[1]) * 4096 + Low6(s[2]) * 64 + Low6(s[3])
  }

  // ----- one character

  /** An ASCII byte that is written as it is. */
  predicate PlainByte(b: byte) { 32 <= b < 127 && b != QUOTE && b != BACKSLASH }

  /** The first character is written as it is. */
  predicate Kept(s: Bytes)
    requires s != []
  {
    RuneLen(s) > 0 && if s[0] < 0x80 then PlainByte(s[0]) else RuneOf(s) in PRINTABLE
  }

  /** How many bytes are taken at once: a character, or one byte that begins none. */
  function Taken(s: Bytes): (n: nat)
    requires s != []
    ensures 0 < n <= |s|
  {
    if RuneLen(s) > 0 then RuneLen(s) else 1
  }

  /** The lowest hexadecimal digits of a number. */
  function HexDigits(v: nat, n: nat): (d: Bytes)
    ensures |d| == n && NL !in d
    decreases n
  {
    if n == 0 then [] else HexDigits(v / 16, n - 1) + [HexDigit(v % 16)]
  }

  function EscapedAscii(b: byte): (e: Bytes)
    ensures |e| >= 2 && NL !in e
  {
    if b == QUOTE || b == BACKSLASH then [BACKSLASH, b]
    else if b == 7 then [BACKSLASH, 97]
    else if b == 8 then [BACKSLASH, 98]
    else if b == 12 then [BACKSLASH, 102]
    else if b == NL then [BACKSLASH, 110]
    else if b == CR then [BACKSLASH, 114]
    else if b == 9 then [BACKSLASH, 116]
    else if b == 11 then [BACKSLASH, 118]
    else [BACKSLASH, 120] + HexDigits(b as int, 2)
  }

  function EscapedFirst(s: Bytes): (e: Bytes)
    requires s != []
    ensures NL !in e && |e| >= Taken(s)
    ensures if Kept(s) then e == s[..Taken(s)] else |e| > Taken(s)
  {
    if Kept(s) then s[..RuneLen(s)]
    else if RuneLen(s) == 0 then [BACKSLASH, 120] + HexDigits(s[0] as int, 2)
    else if s[0] < 0x80 then EscapedAscii(s[0])
    else if RuneOf(s) < 0x1_0000 then [BACKSLASH, 117] + HexDigits(RuneOf(s), 4)
    else [BACKSLASH, 85] + HexDigits(RuneOf(s), 8)
  }

  // ----- a text

  /** What %q writes between its quotes. */
  function Escaped(v: Bytes): (e: Bytes)
    ensures |e| >= |v| && NL !in e
    decreases |v|
  {
    hide EscapedFirst, Taken;
    if v == [] then [] else EscapedFirst(v) + Escaped(v[Taken(v)..])
  }

  /** Every character is written as it is. */
  predicate Plain(v: Bytes)
    decreases |v|
  {
    v == [] || (Kept(v) && Plain(v[Taken(v)..]))
  }

  /** A text survives quoting unchanged exactly when all its characters print and none is a quote or backslash. */
  lemma {:induction false} EscapedIsSame(v: Bytes)
    ensures Escaped(v) == v <==> Plain(v)
    decreases |v|
  {
    hide EscapedFirst, Taken, Kept;
    if v != [] {
      var n := Taken(v);
      var rest := v[n..];
      EscapedIsSame(rest);
      assert v == v[..n] + rest;
      if Kept(v) {
        assert Escaped(v) == v[..n] + Escaped(rest);
        assert Escaped(v)[n..] == Escaped(rest);
      }
    }
  }

  lemma {:induction false} AsciiIsPlain(v: Bytes)
    requires forall i | 0 <= i < |v| :: PlainByte(v[i])
    ensures Plain(v)
  {
    if v != [] {
      AsciiIsPlain(v[1..]);
    }
  }
}
