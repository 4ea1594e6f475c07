/** Undoing Go's escapes: the string literals of the Go language specification, read as strconv.Unquote reads them. */
module Unquoting {
  import opened GoStrings
  import opened Quoting

  // ----- UTF-8

  /** The encoding of a code point, RFC 3629. */
  function Encode(r: int): Bytes
    requires 0 <= r < 0x11_0000
  {
    if r < 0x80 then [r as byte]
    else if r < 0x800 then [(0xC0 + r / 64) as byte, (0x80 + r % 64) as byte]
    else if r < 0x1_0000 then [(0xE0 + r / 4096) as byte, (0x80 + r / 64 % 64) as byte, (0x80 + r % 64) as byte]
    else [(0xF0 + r / 262144) as byte, (0x80 + r / 4096 % 64) as byte, (0x80 + r / 64 % 64) as byte,
          (0x80 + r % 64) as byte]
  }

  /** A code point that a character can have: no surrogate. */
  predicate IsRune(r: int) { 0 <= r < 0xD800 || 0xE000 <= r < 0x11_0000 }

  lemma TwoBytes(s: Bytes)
    requires s != [] && RuneLen(s) == 2
    ensures IsRune(RuneOf(s)) && Encode(RuneOf(s)) == s[..2]
  {
    var a, b := s[0] as int - 0xC0, s[1] as int - 0x80;
    assert RuneOf(s) == a * 64 + b;
  }

  lemma ThreeBytes(s: Bytes)
    requires s != [] && RuneLen(s) == 3
    ensures 0x800 <= RuneOf(s) < 0x1_0000 && IsRune(RuneOf(s)) && Encode(RuneOf(s)) == s[..3]
  {
    var a, b, c := s[0] as int - 0xE0, s[1] as int - 0x80, s[2] as int - 0x80;
    var r := RuneOf(s);
    assert r == a * 4096 + b * 64 + c;
    assert r / 4096 == a && r / 64 == a * 64 + b && r % 64 == c;
  }

  lemma LastDigit(q: nat, d: nat)
    requires d < 64
    ensures (64 * q + d) / 64 == q && (64 * q + d) % 64 == d
  {
  }

  lemma FourDigits(a: nat, b: nat, c: nat, d: nat)
    requires b < 64 && c < 64 && d < 64
    ensures var r := a * 262144 + b * 4096 + c * 64 + d;
            r / 262144 == a && r / 4096 % 64 == b && r / 64 % 64 == c && r % 64 == d
  {
    LastDigit(64 * (64 * a + b) + c, d);
    LastDigit(64 * a + b, c);
    LastDigit(a, b);
    var r := a * 262144 + b * 4096 + c * 64 + d;
    assert r / 4096 == 64 * a + b;
  }

  lemma FourBytes(s: Bytes)
    requires s != [] && RuneLen(s) == 4
    ensures 0x1_0000 <= RuneOf(s) && IsRune(RuneOf(s)) && Encode(RuneOf(s)) == s[..4]
  {
    var a, b, c, d := s[0] as int - 0xF0, s[1] as int - 0x80, s[2] as int - 0x80, s[3] as int - 0x80;
    RuneIsFour(s);
    FourDigits(a, b, c, d);
  }

  lemma RuneIsFour(s: Bytes)
    requires s != [] && RuneLen(s) == 4
    ensures var a, b, c, d := s[0] as int - 0xF0, s[1] as int - 0x80, s[2] as int - 0x80, s[3] as int - 0x80;
            && RuneOf(s) == a * 262144 + b * 4096 + c * 64 + d && 0 <= a <= 4
            && 0 <= b < 64 && 0 <= c < 64 && 0 <= d < 64 && 0x1_0000 <= RuneOf(s) < 0x11_0000
  {
  }

  /** Decoding a character and encoding it again gives its bytes. */
  lemma DecodedEncodes(s: Bytes)
    requires s != [] && RuneLen(s) > 0
    ensures IsRune(RuneOf(s)) && Encode(RuneOf(s)) == s[..RuneLen(s)]
  {
    hide Encode;
    if RuneLen(s) == 1 {
      OneByte(s);
    } else if RuneLen(s) == 2 {
      TwoBytes(s);
    } else if RuneLen(s) == 3 {
      ThreeBytes(s);
    } else {
      FourBytes(s);
    }
  }

  lemma OneByte(s: Bytes)
    requires s != [] && RuneLen(s) == 1
    ensures IsRune(RuneOf(s)) && Encode(RuneOf(s)) == s[..1]
  {
  }

  // ----- hexadecimal numbers

  /** The value of a digit, or 16. */
  function DigitOf(b: byte): (d: nat)
    ensures d <= 16
  {
    if '0' as int <= b as int <= '9' as int then b as int - '0' as int
    else if 'a' as int <= b as int <= 'f' as int then b as int - 'a' as int + 10
    else if 'A' as int <= b as int <= 'F' as int then b as int - 'A' as int + 10
    else 16
  }

  function NumberOf(d: Bytes): Option<nat>
    decreases |d|
  {
    if d == [] then Some(0)
    else
      var high, low := NumberOf(d[..|d| - 1]), DigitOf(d[|d| - 1]);
      if high.None? || low == 16 then None else Some(16 * high.value + low)
  }

  function Pow16(n: nat): nat { if n == 0 then 1 else 16 * Pow16(n - 1) }

  lemma {:induction false} HexReadsBack(v: nat, n: nat)
    requires v < Pow16(n)
    ensures NumberOf(HexDigits(v, n)) == Some(v)
    decreases n
  {
    hide HexDigit, DigitOf;
    if n > 0 {
      HexReadsBack(v / 16, n - 1);
      DigitReadsBack(v % 16);
      var d := HexDigits(v, n);
      assert d[..n - 1] == HexDigits(v / 16, n - 1) && d[n - 1] == HexDigit(v % 16);
    }
  }

  lemma DigitReadsBack(v: nat)
    requires v < 16
    ensures DigitOf(HexDigit(v)) == v
  {
  }

  // ----- reading

  function Before(b: Bytes, rest: Option<Bytes>): Option<Bytes> { if rest.None? then None else Some(b + rest.value) }

  /** What a letter behind a backslash stands for. */
  function Letter(b: byte): Option<byte> {
    var c := b as int as char;
    if c == '"' || c == '\\' then Some(b)
    else if c == 'a' then Some(7)
    else if c == 'b' then Some(8)
    else if c == 't' then Some(9)
    else if c == 'n' then Some(10)
    else if c == 'v' then Some(11)
    else if c == 'f' then Some(12)
    else if c == 'r' then Some(13)
    else None
  }

  /** How many hexadecimal digits follow the letter. */
  function DigitsAfter(b: byte): nat {
    var c := b as int as char;
    if c == 'x' then 2 else if c == 'u' then 4 else if c == 'U' then 8 else 0
  }

  /** The bytes a number stands for: one byte behind x, a character behind u and U. */
  function Numbered(b: byte, v: nat): Option<Bytes> {
    if b as int as char == 'x' then (if v < 256 then Some([v as byte]) else None)
    else if IsRune(v) then Some(Encode(v))
    else None
  }

  /** The text between the quotes of an interpreted string literal; nothing for a text that is none. */
  function Unescaped(e: Bytes): Option<Bytes>
    decreases |e|
  {
    if e == [] then Some([])
    else if e[0] as int as char == '\\' then
      (if |e| < 2 then None
       else if Letter(e[1]).Some? then Before([Letter(e[1]).value], Unescaped(e[2..]))
       else
         var n := DigitsAfter(e[1]);
         if n == 0 || |e| < 2 + n || NumberOf(e[2..2 + n]).None? then None
         else
           var b := Numbered(e[1], NumberOf(e[2..2 + n]).value);
           if b.None? then None else Before(b.value, Unescaped(e[2 + n..])))
    else if e[0] as int as char == '"' || e[0] as int as char == '\n' then None
    else Before([e[0]], Unescaped(e[1..]))
  }

  /** A byte that stands for itself. */
  predicate Bare(b: byte) { b as int as char != '\\' && b as int as char != '"' && b as int as char != '\n' }

  lemma {:induction false} BareIsItself(b: Bytes, rest: Bytes)
    requires forall i | 0 <= i < |b| :: Bare(b[i])
    ensures Unescaped(b + rest) == Before(b, Unescaped(rest))
    decreases |b|
  {
    if b == [] {
      assert b + rest == rest;
      NothingBefore(Unescaped(rest));
    } else {
      assert (b + rest)[0] == b[0] && (b + rest)[1..] == b[1..] + rest;
      BareIsItself(b[1..], rest);
      assert b == [b[0]] + b[1..];
      BeforeBoth([b[0]], b[1..], Unescaped(rest));
    }
  }

  lemma NothingBefore(rest: Option<Bytes>)
    ensures Before([], rest) == rest
  {
    if rest.Some? {
      assert [] + rest.value == rest.value;
    }
  }

  lemma BeforeBoth(a: Bytes, b: Bytes, rest: Option<Bytes>)
    ensures Before(a, Before(b, rest)) == Before(a + b, rest)
  {
    if rest.Some? {
      assert a + (b + rest.value) == a + b + rest.value;
    }
  }

  lemma LetterReads(c: byte, rest: Bytes)
    requires Letter(c).Some?
    ensures Unescaped([BACKSLASH, c] + rest) == Before([Letter(c).value], Unescaped(rest))
  {
    var e := [BACKSLASH, c] + rest;
    assert e[2..] == rest;
  }

  lemma NumberReads(c: byte, v: nat, rest: Bytes)
    requires Letter(c).None? && DigitsAfter(c) > 0 && v < Pow16(DigitsAfter(c)) && Numbered(c, v).Some?
    ensures Unescaped([BACKSLASH, c] + HexDigits(v, DigitsAfter(c)) + rest)
            == Before(Numbered(c, v).value, Unescaped(rest))
  {
    hide HexDigits, NumberOf, Numbered, Pow16;
    var n := DigitsAfter(c);
    HexReadsBack(v, n);
    var e := [BACKSLASH, c] + HexDigits(v, n) + rest;
    assert e[2..2 + n] == HexDigits(v, n) && e[2 + n..] == rest;
  }

  lemma KeptIsBare(s: Bytes)
    requires s != [] && Kept(s)
    ensures forall i | 0 <= i < RuneLen(s) :: Bare(s[..RuneLen(s)][i])
  {
    hide RuneOf;
  }

  lemma PowersAre()
    ensures Pow16(2) == 256 && Pow16(4) == 0x1_0000 && Pow16(8) == 0x1_0000_0000
  {
    assert Pow16(3) == 16 * Pow16(2);
    assert Pow16(5) == 16 * Pow16(4);
    assert Pow16(6) == 16 * Pow16(5);
    assert Pow16(7) == 16 * Pow16(6);
  }

  lemma AsciiReads(b: byte, rest: Bytes)
    requires b < 0x80 && !PlainByte(b)
    ensures Unescaped(EscapedAscii(b) + rest) == Before([b], Unescaped(rest))
  {
    hide Unescaped, HexDigits, NumberOf;
    PowersAre();
    var e := EscapedAscii(b);
    if |e| == 2 && Letter(e[1]).Some? && Letter(e[1]).value == b {
      assert e == [BACKSLASH, e[1]];
      LetterReads(e[1], rest);
    } else {
      NumberReads('x' as int as byte, b as nat, rest);
    }
  }

  lemma RuneReads(s: Bytes, rest: Bytes)
    requires s != [] && s[0] >= 0x80 && RuneLen(s) > 0 && !Kept(s)
    ensures Unescaped(EscapedFirst(s) + rest) == Before(s[..RuneLen(s)], Unescaped(rest))
  {
    hide Unescaped, HexDigits, Kept, RuneOf, RuneLen, Encode, Pow16;
    PowersAre();
    DecodedEncodes(s);
    var r := RuneOf(s);
    if r < 0x1_0000 {
      NumberReads('u' as int as byte, r, rest);
    } else {
      NumberReads('U' as int as byte, r, rest);
    }
  }

  lemma FirstReads(s: Bytes, rest: Bytes)
    requires s != []
    ensures Unescaped(EscapedFirst(s) + rest) == Before(s[..Taken(s)], Unescaped(rest))
  {
    hide Unescaped, HexDigits, RuneOf, RuneLen, Pow16, EscapedAscii;
    if Kept(s) {
      KeptIsBare(s);
      BareIsItself(s[..RuneLen(s)], rest);
    } else if RuneLen(s) == 0 {
      PowersAre();
      NumberReads('x' as int as byte, s[0] as nat, rest);
      assert s[..1] == [s[0]];
    } else if s[0] < 0x80 {
      AsciiReads(s[0], rest);
      assert s[..1] == [s[0]];
    } else {
      RuneReads(s, rest);
    }
  }

  /** What %q writes is read back as the text it was given, whatever bytes it holds. */
  lemma {:induction false} QuotingUndone(v: Bytes)
    ensures Unescaped(Escaped(v)) == Some(v)
    decreases |v|
  {
    hide Unescaped, EscapedFirst, Taken;
    if v == [] {
      NothingEscaped();
    } else {
      var n := Taken(v);
      FirstReads(v, Escaped(v[n..]));
      QuotingUndone(v[n..]);
      assert v == v[..n] + v[n..];
    }
  }

  lemma NothingEscaped()
    ensures Unescaped([]) == Some([])
  {
  }
}
