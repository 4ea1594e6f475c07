/** Go strings and byte slices, and the few library functions the model needs. */
module GoStrings {
  newtype byte = x: int | 0 <= x < 256
  type Bytes = seq<byte>

  type u32 = x: int | 0 <= x < 0x1_0000_0000
  type u64 = x: int | 0 <= x < 0x1_0000_0000_0000_0000

  /** Conversion to uint32 keeps the low 32 bits. */
  function Wrap(n: nat): (r: u32)
    ensures n < 0x1_0000_0000 ==> r == n
  {
    n % 0x1_0000_0000
  }

  datatype Option<+T> = None | Some(value: T)

  /** The bytes of an ASCII literal. */
  function Ascii(s: string): (b: Bytes)
    requires forall i | 0 <= i < |s| :: 0 < s[i] as int < 128
    ensures |b| == |s|
    ensures forall i | 0 <= i < |s| :: b[i] as int == s[i] as int && b[i] != 0
  {
    seq(|s|, i requires 0 <= i < |s| => s[i] as int as byte)
  }

  predicate IsText(s: string) { forall i | 0 <= i < |s| :: 0 < s[i] as int < 128 }

  lemma AsciiConcat(a: string, b: string)
    requires IsText(a) && IsText(b)
    ensures IsText(a + b) && Ascii(a + b) == Ascii(a) + Ascii(b)
  {
  }

  predicate HasPrefix(s: Bytes, prefix: Bytes) {
    |prefix| <= |s| && s[..|prefix|] == prefix
  }

  /** `b` occupies `data` from `pos` on. */
  predicate At(data: Bytes, pos: nat, b: Bytes) {
    pos + |b| <= |data| && data[pos..pos + |b|] == b
  }

  lemma AtSplit(data: Bytes, pos: nat, a: Bytes, b: Bytes)
    requires At(data, pos, a + b)
    ensures At(data, pos, a) && At(data, pos + |a|, b)
  {
    assert (a + b)[..|a|] == a && (a + b)[|a|..] == b;
    assert data[pos..pos + |a|] == data[pos..pos + |a + b|][..|a|];
    assert data[pos + |a|..pos + |a| + |b|] == data[pos..pos + |a + b|][|a|..];
  }

  lemma AtElement(data: Bytes, pos: nat, b: Bytes, i: nat)
    requires At(data, pos, b) && i < |b|
    ensures data[pos + i] == b[i]
  {
    assert data[pos..pos + |b|][i] == data[pos + i];
  }

  // ----- big-endian integers

  function U32Bytes(v: u32): (b: Bytes)
    ensures |b| == 4
  {
    [(v / 0x100_0000) as byte, (v / 0x1_0000 % 256) as byte, (v / 0x100 % 256) as byte, (v % 256) as byte]
  }

  function U32At(b: Bytes, i: nat): u32
    requires i + 4 <= |b|
  {
    b[i] as int * 0x100_0000 + b[i + 1] as int * 0x1_0000 + b[i + 2] as int * 0x100 + b[i + 3] as int
  }

  lemma U32ReadsBack(data: Bytes, pos: nat, v: u32)
    requires At(data, pos, U32Bytes(v))
    ensures U32At(data, pos) == v
  {
    hide U32Bytes;
    AtElement(data, pos, U32Bytes(v), 0);
    AtElement(data, pos, U32Bytes(v), 1);
    AtElement(data, pos, U32Bytes(v), 2);
    AtElement(data, pos, U32Bytes(v), 3);
    U32Sum(v);
  }

  lemma U32Sum(v: u32)
    ensures U32At(U32Bytes(v), 0) == v
  {
    assert v / 0x100 / 0x100 == v / 0x1_0000 && v / 0x1_0000 / 0x100 == v / 0x100_0000;
  }

  function U64Bytes(v: u64): (b: Bytes)
    ensures |b| == 8
  {
    U32Bytes(v / 0x1_0000_0000) + U32Bytes(v % 0x1_0000_0000)
  }

  function U64At(b: Bytes, i: nat): u64
    requires i + 8 <= |b|
  {
    U32At(b, i) * 0x1_0000_0000 + U32At(b, i + 4)
  }

  lemma U64ReadsBack(data: Bytes, pos: nat, v: u64)
    requires At(data, pos, U64Bytes(v))
    ensures U64At(data, pos) == v
  {
    AtSplit(data, pos, U32Bytes(v / 0x1_0000_0000), U32Bytes(v % 0x1_0000_0000));
    U32ReadsBack(data, pos, v / 0x1_0000_0000);
    U32ReadsBack(data, pos + 4, v % 0x1_0000_0000);
  }

  // ----- decimal numbers: strconv.Itoa and strconv.Atoi

  const ZERO: byte := 48
  const PLUS: byte := 43
  const MINUS: byte := 45

  predicate IsDigit(b: byte) { 48 <= b <= 57 }

  predicate AllDigits(s: Bytes) { forall i | 0 <= i < |s| :: IsDigit(s[i]) }

  function Itoa(n: nat): (s: Bytes)
    ensures |s| > 0 && AllDigits(s)
  {
    if n < 10 then [(48 + n) as byte] else Itoa(n / 10) + [(48 + n % 10) as byte]
  }

  function DigitsValue(s: Bytes): nat
    requires AllDigits(s)
  {
    if s == [] then 0 else 10 * DigitsValue(s[..|s| - 1]) + (s[|s| - 1] - 48) as int
  }

  /** The value of a signed decimal in the range of a 64-bit int. */
  function Atoi(s: Bytes): Option<int> {
    var signed := |s| > 0 && (s[0] == MINUS || s[0] == PLUS);
    var digits := if signed then s[1..] else s;
    if digits == [] || !AllDigits(digits) then None
    else
      var v: int := DigitsValue(digits);
      var w := if signed && s[0] == MINUS then -v else v;
      if -0x8000_0000_0000_0000 <= w < 0x8000_0000_0000_0000 then Some(w) else None
  }

  lemma {:induction false} ItoaReadsBack(n: nat)
    ensures DigitsValue(Itoa(n)) == n
  {
    if n >= 10 {
      ItoaReadsBack(n / 10);
      var s := Itoa(n / 10);
      assert (s + [(48 + n % 10) as byte])[..|s|] == s;
    }
  }

  /** strings.Join. */
  function Join(parts: seq<Bytes>, sep: Bytes): Bytes {
    if parts == [] then []
    else if |parts| == 1 then parts[0]
    else parts[0] + sep + Join(parts[1..], sep)
  }

  /** The index of the first b at or after i, or |s|. */
  function IndexByte(s: Bytes, b: byte): (i: nat)
    ensures i <= |s|
    ensures b !in s[..i]
    ensures i < |s| ==> s[i] == b
  {
    if s == [] || s[0] == b then 0
    else
      var i := 1 + IndexByte(s[1..], b);
      assert s[..i] == [s[0]] + s[1..][..i - 1];
      i
  }

  const NL: byte := 10
  const CR: byte := 13
  const HASH: byte := 35
  const EQUALS: byte := 61
  const QUOTE: byte := 34

  /** strings.Split at newlines. */
  function Lines(s: Bytes): (r: seq<Bytes>)
    ensures |r| > 0
    ensures forall i | 0 <= i < |r| :: NL !in r[i]
    decreases |s|
  {
    var i := IndexByte(s, NL);
    if i == |s| then assert s[..i] == s; [s] else [s[..i]] + Lines(s[i + 1..])
  }

  function Unlines(lines: seq<Bytes>): Bytes { Join(lines, [NL]) }

  lemma {:induction false} UnlinesOfLines(s: Bytes)
    ensures Unlines(Lines(s)) == s
    decreases |s|
  {
    var i := IndexByte(s, NL);
    if i < |s| {
      UnlinesOfLines(s[i + 1..]);
      assert Lines(s)[1..] == Lines(s[i + 1..]);
      assert s == s[..i] + [NL] + s[i + 1..];
    }
  }

  lemma {:induction false} IndexByteOf(s: Bytes, b: byte, i: nat)
    requires i <= |s| && b !in s[..i] && (i < |s| ==> s[i] == b)
    ensures IndexByte(s, b) == i
  {
    if s != [] && i > 0 {
      assert s[..i][0] == s[0];
      assert s[1..][..i - 1] == s[..i][1..];
      IndexByteOf(s[1..], b, i - 1);
    }
  }

  lemma {:induction false} LinesOfUnlines(lines: seq<Bytes>)
    requires lines != [] && forall i | 0 <= i < |lines| :: NL !in lines[i]
    ensures Lines(Unlines(lines)) == lines
  {
    var s := Unlines(lines);
    if |lines| == 1 {
      assert s[..|s|] == s;
      IndexByteOf(s, NL, |s|);
    } else {
      var i := |lines[0]|;
      assert s[..i] == lines[0] && s[i] == NL && s[i + 1..] == Unlines(lines[1..]);
      IndexByteOf(s, NL, i);
      LinesOfUnlines(lines[1..]);
    }
  }

  /** strings.TrimRight(s, "\n"). */
  function TrimNewlines(s: Bytes): (r: Bytes)
    ensures r <= s && (r != [] ==> r[|r| - 1] != NL)
  {
    if s != [] && s[|s| - 1] == NL then TrimNewlines(s[..|s| - 1]) else s
  }

  lemma FirstLine(s: Bytes, i: nat)
    requires i <= |s| && NL !in s[..i] && (i < |s| ==> s[i] == NL)
    ensures Lines(s) == if i == |s| then [s] else [s[..i]] + Lines(s[i + 1..])
  {
    IndexByteOf(s, NL, i);
  }

  lemma OneLine(s: Bytes)
    requires NL !in s
    ensures Lines(s) == [s]
  {
    FirstLine(s, |s|);
  }

  /** Text put together at a newline has the lines of its parts. */
  lemma {:induction false} LinesOfConcat(a: Bytes, b: Bytes)
    ensures Lines(a + [NL] + b) == Lines(a) + Lines(b)
    decreases |a|
  {
    hide Lines, IndexByte;
    var s, i := a + [NL] + b, IndexByte(a, NL);
    assert s[..i] == a[..i];
    FirstLine(s, i);
    FirstLine(a, i);
    if i == |a| {
      assert s[..i] == a && s[i + 1..] == b;
    } else {
      assert s[i + 1..] == a[i + 1..] + [NL] + b;
      LinesOfConcat(a[i + 1..], b);
      assert [a[..i]] + (Lines(a[i + 1..]) + Lines(b)) == [a[..i]] + Lines(a[i + 1..]) + Lines(b);
    }
  }

  // ----- white space: strings.TrimSpace

  /** White space among the ASCII bytes. */
  predicate IsSpace(b: byte) { 9 <= b <= 13 || b == 32 }

  /** The white-space characters of three bytes in UTF-8. */
  predicate IsWideSpace(a: byte, b: byte, c: byte) {
    || (a == 0xE1 && b == 0x9A && c == 0x80)
    || (a == 0xE2 && b == 0x80 && (0x80 <= c <= 0x8A || c == 0xA8 || c == 0xA9 || c == 0xAF))
    || (a == 0xE2 && b == 0x81 && c == 0x9F)
    || (a == 0xE3 && b == 0x80 && c == 0x80)
  }

  /** The length of the white-space character the text begins with, or 0. */
  function SpaceAt(s: Bytes): (n: nat)
    ensures n <= |s|
  {
    if s == [] then 0
    else if IsSpace(s[0]) then 1
    else if |s| >= 2 && s[0] == 0xC2 && (s[1] == 0x85 || s[1] == 0xA0) then 2
    else if |s| >= 3 && IsWideSpace(s[0], s[1], s[2]) then 3
    else 0
  }

  /** The length of the white-space character the text ends with, or 0. */
  function SpaceBefore(s: Bytes): (n: nat)
    ensures n <= |s| && (n > 0 ==> SpaceAt(s[|s| - n..]) == n)
  {
    if |s| >= 1 && SpaceAt(s[|s| - 1..]) == 1 then 1
    else if |s| >= 2 && SpaceAt(s[|s| - 2..]) == 2 then 2
    else if |s| >= 3 && SpaceAt(s[|s| - 3..]) == 3 then 3
    else 0
  }

  /** No white-space character anywhere. */
  predicate NoSpace(s: Bytes) { forall i | 0 <= i < |s| :: SpaceAt(s[i..]) == 0 }

  /** A text that does not begin in the middle of a character. */
  predicate Whole(s: Bytes) { s == [] || s[0] < 0x80 || s[0] >= 0xC0 }

  function TrimLeft(s: Bytes): (r: Bytes)
    ensures |r| <= |s| && s[|s| - |r|..] == r && SpaceAt(r) == 0
    decreases |s|
  {
    hide SpaceAt;
    if SpaceAt(s) > 0 then TrimLeft(s[SpaceAt(s)..]) else s
  }

  function TrimRight(s: Bytes): (r: Bytes)
    ensures r <= s && SpaceBefore(r) == 0
    decreases |s|
  {
    hide SpaceAt, SpaceBefore;
    if SpaceBefore(s) > 0 then TrimRight(s[..|s| - SpaceBefore(s)]) else s
  }

  function TrimSpace(s: Bytes): Bytes { TrimRight(TrimLeft(s)) }

  lemma SpaceIsWhole(s: Bytes)
    ensures SpaceAt(s) > 0 ==> Whole(s)
  {
  }

  /** What a text begins with, every longer one begins with. */
  lemma SpaceInLonger(s: Bytes, longer: Bytes)
    requires s <= longer && SpaceAt(s) > 0
    ensures SpaceAt(longer) == SpaceAt(s)
  {
    assert forall i | 0 <= i < |s| :: longer[i] == s[i];
  }

  /** No white space arises where two texts meet, if the second is whole. */
  lemma SpaceOfConcat(a: Bytes, b: Bytes)
    requires a != [] && Whole(b)
    ensures SpaceAt(a + b) == SpaceAt(a)
  {
    var s := a + b;
    assert forall i | 0 <= i < |a| :: s[i] == a[i];
    assert b != [] ==> s[|a|] == b[0];
  }

  lemma SpaceBeforeInLonger(a: Bytes, b: Bytes)
    requires SpaceBefore(b) > 0
    ensures SpaceBefore(a + b) > 0
  {
    hide SpaceAt, SpaceBefore;
    var s, n := a + b, SpaceBefore(b);
    assert s[|s| - n..] == b[|b| - n..];
    SpaceEnds(s, n);
  }

  /** A text ends with the white space that what follows an ASCII byte of it ends with. */
  lemma SpaceBeforeOfConcat(a: Bytes, b: Bytes)
    requires a != [] && a[|a| - 1] < 0x80 && b != []
    ensures SpaceBefore(a + b) > 0 <==> SpaceBefore(b) > 0
  {
    hide SpaceAt, SpaceBefore, IsSpace;
    var s := a + b;
    if SpaceBefore(b) > 0 {
      SpaceBeforeInLonger(a, b);
    }
    var n := SpaceBefore(s);
    if n > 0 {
      SpaceAvoids(s, n, |a| - 1);
      assert s[|s| - n..] == b[|b| - n..];
      SpaceEnds(b, n);
    }
  }

  /** White space of several bytes at the end covers no ASCII byte. */
  lemma SpaceAvoids(s: Bytes, n: nat, k: nat)
    requires 0 < n <= |s| && SpaceAt(s[|s| - n..]) == n && k < |s| - 1 && s[k] < 0x80
    ensures k < |s| - n
  {
    hide SpaceAt, IsSpace;
    var sp := s[|s| - n..];
    SpaceBytes(sp);
    assert forall i | 0 <= i < n :: sp[i] == s[|s| - n + i];
  }

  /** White space is one ASCII byte, or bytes from 128 on. */
  lemma SpaceBytes(s: Bytes)
    requires s != [] && SpaceAt(s) == |s|
    ensures |s| <= 3 && if |s| == 1 then IsSpace(s[0]) else forall i | 0 <= i < |s| :: s[i] >= 0x80
  {
  }

  lemma SpaceEnds(s: Bytes, n: nat)
    requires 0 < n <= |s| && SpaceAt(s[|s| - n..]) == n
    ensures SpaceBefore(s) > 0
  {
    hide SpaceAt, IsSpace;
    SpaceIsShort(s[|s| - n..]);
    if n == 1 {
      assert SpaceAt(s[|s| - 1..]) == 1;
    } else if n == 2 {
      assert SpaceAt(s[|s| - 2..]) == 2;
    } else {
      assert SpaceAt(s[|s| - 3..]) == 3;
    }
  }

  lemma SpaceIsShort(s: Bytes)
    requires s != [] && SpaceAt(s) == |s|
    ensures |s| <= 3
  {
    hide SpaceAt, IsSpace;
    SpaceBytes(s);
  }

  lemma AsciiEnds(s: Bytes)
    requires s != []
    ensures s[0] < 0x80 && !IsSpace(s[0]) ==> SpaceAt(s) == 0
    ensures s[|s| - 1] < 0x80 && !IsSpace(s[|s| - 1]) ==> SpaceBefore(s) == 0
  {
    hide SpaceBefore, IsSpace;
    var n := SpaceBefore(s);
    if n > 0 {
      var sp := s[|s| - n..];
      assert sp[n - 1] == s[|s| - 1];
      SpaceBytes(sp);
    }
  }

  /** ASCII text without white space. */
  predicate Visible(s: Bytes) { forall i | 0 <= i < |s| :: s[i] < 0x80 && !IsSpace(s[i]) }

  lemma VisibleNoSpace(s: Bytes)
    requires Visible(s)
    ensures NoSpace(s) && Whole(s) && SpaceAt(s) == 0 && SpaceBefore(s) == 0 && TrimSpace(s) == s
  {
    hide IsSpace, SpaceAt, SpaceBefore, TrimSpace;
    NothingBlank();
    forall i | 0 <= i < |s| ensures SpaceAt(s[i..]) == 0 {
      AsciiEnds(s[i..]);
    }
    if s != [] {
      AsciiEnds(s);
    }
    TrimmedIsSame(s);
  }

  lemma NothingBlank()
    ensures SpaceAt([]) == 0 && SpaceBefore([]) == 0
  {
  }

  lemma SpaceIsNotAll(s: Bytes, n: nat)
    requires 0 < n <= |s| && SpaceAt(s[|s| - n..]) == n && SpaceAt(s) == 0
    ensures n < |s|
  {
    hide SpaceAt;
    assert s[0..] == s;
  }

  lemma PrefixNoSpace(s: Bytes, longer: Bytes)
    requires s <= longer && SpaceAt(longer) == 0
    ensures SpaceAt(s) == 0
  {
    hide SpaceAt;
    if SpaceAt(s) > 0 {
      SpaceInLonger(s, longer);
    }
  }

  lemma {:induction false} TrimRightKeepsHead(s: Bytes)
    requires s != [] && SpaceAt(s) == 0
    ensures TrimRight(s) != [] && TrimRight(s)[0] == s[0] && SpaceAt(TrimRight(s)) == 0
    decreases |s|
  {
    hide SpaceAt, SpaceBefore;
    var n := SpaceBefore(s);
    if n > 0 {
      SpaceIsNotAll(s, n);
      var front := s[..|s| - n];
      PrefixNoSpace(front, s);
      TrimRightKeepsHead(front);
    }
  }

  lemma TrimmedIsSame(s: Bytes)
    requires SpaceAt(s) == 0 && SpaceBefore(s) == 0
    ensures TrimSpace(s) == s
  {
    hide SpaceAt, SpaceBefore;
  }

  lemma TrimmedEnds(s: Bytes)
    ensures SpaceAt(TrimSpace(s)) == 0 && SpaceBefore(TrimSpace(s)) == 0
  {
    hide SpaceAt, SpaceBefore, TrimRight;
    if TrimLeft(s) != [] {
      TrimRightKeepsHead(TrimLeft(s));
    } else {
      NothingBlank();
    }
  }

  lemma TrimKeepsBytes(s: Bytes, b: byte)
    requires b !in s
    ensures b !in TrimSpace(s)
  {
    hide SpaceAt, SpaceBefore;
    var left := TrimLeft(s);
    assert left == s[|s| - |left|..];
  }

  // ----- the order of strings

  /** Byte-wise order of strings. */
  predicate Less(a: Bytes, b: Bytes) {
    if b == [] then false else if a == [] then true else a[0] < b[0] || (a[0] == b[0] && Less(a[1..], b[1..]))
  }

  lemma {:induction false} LessIsStrict(a: Bytes, b: Bytes)
    ensures !(Less(a, b) && Less(b, a)) && !Less(a, a)
    ensures Less(a, b) || a == b || Less(b, a)
  {
    if a != [] {
      LessIsStrict(a[1..], a[1..]);
      if b != [] {
        LessIsStrict(a[1..], b[1..]);
        if a[0] == b[0] && a[1..] == b[1..] {
          assert a == [a[0]] + a[1..] == b;
        }
      }
    }
  }

  lemma {:induction false} LessIsTransitive(a: Bytes, b: Bytes, c: Bytes)
    requires Less(a, b) && Less(b, c)
    ensures Less(a, c)
  {
    if a != [] && a[0] == b[0] == c[0] {
      LessIsTransitive(a[1..], b[1..], c[1..]);
    }
  }

  // ----- insertion into a sequence

  lemma InsertedAt<T>(xs: seq<T>, x: T, k: nat, i: nat)
    requires k <= |xs| && i <= |xs|
    ensures (xs[..k] + [x] + xs[k..])[i] == if i < k then xs[i] else if i == k then x else xs[i - 1]
  {
  }

  // ----- small numbers

  function Min(a: int, b: int): int { if a <= b then a else b }

  function Max(a: int, b: int): int { if a >= b then a else b }

  /** The digits of fmt's %x. */
  function HexDigit(d: nat): byte
    requires d < 16
  {
    if d < 10 then (48 + d) as byte else (87 + d) as byte
  }
}
