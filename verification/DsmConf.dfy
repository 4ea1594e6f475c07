/** The key="value" settings editor: internal/dsmconf/dsmconf.go. */
module DsmConf {
  import opened GoStrings
  import opened Quoting

  const SPACE: byte := 32
  const TAB: byte := 9

  // ----- one line

  /** The text between a pair of double quotes, or all of it. */
  function Unquoted(v: Bytes): Bytes {
    if |v| >= 2 && v[0] == QUOTE && v[|v| - 1] == QUOTE then v[1..|v| - 1] else v
  }

  /** A line as key and value; nothing for comments, blank lines and lines that assign nothing. */
  function SplitLine(line: Bytes): Option<(Bytes, Bytes)> { SplitTrimmed(TrimSpace(line)) }

  function SplitTrimmed(s: Bytes): Option<(Bytes, Bytes)> {
    if s == [] || s[0] == HASH then None
    else
      var i := IndexByte(s, EQUALS);
      if i == 0 || i == |s| then None
      else
        var key := TrimSpace(s[..i]);
        if key == [] || SPACE in key || TAB in key then None
        else Some((key, Unquoted(TrimSpace(s[i + 1..]))))
  }

  /** A key that an assignment can carry. */
  predicate KeyOk(key: Bytes) {
    && key != [] && key[0] != HASH && SpaceAt(key) == 0 && SpaceBefore(key) == 0
    && EQUALS !in key && NL !in key && SPACE !in key && TAB !in key
  }

  // ----- an assignment

  /** fmt.Sprintf("%s=%q", key, value) */
  function Assignment(key: Bytes, value: Bytes): Bytes { key + [EQUALS, QUOTE] + Escaped(value) + [QUOTE] }

  function Quoted(text: Bytes): (q: Bytes)
    ensures |q| == |text| + 2 && q[0] == QUOTE && q[|q| - 1] == QUOTE
  {
    [QUOTE] + text + [QUOTE]
  }

  lemma AssignmentIs(key: Bytes, value: Bytes)
    ensures Assignment(key, value) == key + ([EQUALS] + Quoted(Escaped(value)))
  {
    hide Escaped;
  }

  /** Quoted text begins and ends with a quote, so nothing of it is trimmed. */
  lemma QuotedIsTrimmed(text: Bytes)
    ensures TrimSpace(Quoted(text)) == Quoted(text)
  {
    hide Quoted, TrimSpace, SpaceAt, SpaceBefore;
    AsciiEnds(Quoted(text));
    TrimmedIsSame(Quoted(text));
  }

  lemma QuotedInside(text: Bytes)
    ensures Quoted(text)[1..|text| + 1] == text
  {
  }

  /** Nothing is trimmed off an assignment, and its first equals sign stands behind the key. */
  lemma KeyEnds(key: Bytes, text: Bytes)
    requires KeyOk(key)
    ensures var s := key + ([EQUALS] + Quoted(text));
            TrimSpace(s) == s && IndexByte(s, EQUALS) == |key|
  {
    hide Quoted, TrimSpace, SpaceAt, SpaceBefore, IndexByte;
    var rest := [EQUALS] + Quoted(text);
    var s := key + rest;
    SpaceOfConcat(key, rest);
    assert s[|s| - 1] == rest[|rest| - 1] == QUOTE;
    AsciiEnds(s);
    TrimmedIsSame(s);
    assert s[..|key|] == key;
    IndexByteOf(s, EQUALS, |key|);
  }

  /** The editor reads its own assignments back. */
  lemma AssignmentReadsBack(key: Bytes, value: Bytes)
    requires KeyOk(key)
    ensures SplitLine(Assignment(key, value)) == Some((key, Escaped(value)))
    ensures NL !in Assignment(key, value)
  {
    hide Escaped, TrimSpace, SpaceAt, SpaceBefore, IndexByte, Quoted;
    var text, s := Escaped(value), Assignment(key, value);
    AssignmentIs(key, value);
    KeyEnds(key, text);
    QuotedIsTrimmed(text);
    QuotedInside(text);
    TrimmedIsSame(key);
    assert s[..|key|] == key && s[|key| + 1..] == Quoted(text);
  }

  /** Every key read from a line is one an assignment can carry. */
  lemma SplitKeyOk(line: Bytes)
    requires NL !in line
    ensures SplitLine(line).Some? ==> KeyOk(SplitLine(line).value.0)
  {
    hide TrimLeft, TrimRight, SpaceAt, SpaceBefore;
    var s := TrimSpace(line);
    TrimmedEnds(line);
    TrimKeepsBytes(line, NL);
    if SplitLine(line).Some? {
      var head := s[..IndexByte(s, EQUALS)];
      PrefixNoSpace(head, s);
      TrimKeepsBytes(head, EQUALS);
      TrimKeepsBytes(head, NL);
      TrimmedEnds(head);
      HeadIsKept(head);
    }
  }

  lemma HeadIsKept(s: Bytes)
    requires s != [] && SpaceAt(s) == 0
    ensures TrimSpace(s) != [] && TrimSpace(s)[0] == s[0]
  {
    hide SpaceAt, TrimRight;
    TrimRightKeepsHead(s);
    assert TrimLeft(s) == s;
  }

  // ----- a file body

  predicate Assigns(line: Bytes, key: Bytes) { SplitLine(line).Some? && SplitLine(line).value.0 == key }

  /** The first line that assigns the key, or the number of lines. */
  function FindKey(lines: seq<Bytes>, key: Bytes): (i: nat)
    ensures i <= |lines|
  {
    hide Assigns;
    if lines == [] || Assigns(lines[0], key) then 0 else 1 + FindKey(lines[1..], key)
  }

  lemma {:induction false} FindKeyFirst(lines: seq<Bytes>, key: Bytes)
    ensures var i := FindKey(lines, key);
            && (i < |lines| ==> Assigns(lines[i], key))
            && forall j | 0 <= j < i :: !Assigns(lines[j], key)
  {
    hide Assigns;
    if lines != [] && !Assigns(lines[0], key) {
      FindKeyFirst(lines[1..], key);
      forall j | 0 <= j < FindKey(lines, key) ensures !Assigns(lines[j], key) {
        if j > 0 {
          assert !Assigns(lines[1..][j - 1], key);
        }
      }
    }
  }

  lemma {:induction false} FindKeyIs(lines: seq<Bytes>, key: Bytes, i: nat)
    requires i <= |lines| && (i < |lines| ==> Assigns(lines[i], key))
    requires forall j | 0 <= j < i :: !Assigns(lines[j], key)
    ensures FindKey(lines, key) == i
  {
    hide Assigns;
    if i > 0 {
      FindKeyIs(lines[1..], key, i - 1);
    }
  }

  function LookUp(lines: seq<Bytes>, key: Bytes): Option<Bytes> {
    var i := FindKey(lines, key);
    FindKeyFirst(lines, key);
    if i < |lines| then Some(SplitLine(lines[i]).value.1) else None
  }

  function GetKey(body: Bytes, key: Bytes): Option<Bytes> { LookUp(Lines(body), key) }

  function SetKey(body: Bytes, key: Bytes, value: Bytes): Bytes {
    var lines := Lines(body);
    var i := FindKey(lines, key);
    if i < |lines| then Unlines(lines[i := Assignment(key, value)])
    else TrimNewlines(body) + [NL] + Assignment(key, value) + [NL]
  }

  function SetAllKeys(body: Bytes, kv: seq<(Bytes, Bytes)>): Bytes
    decreases |kv|
  {
    if kv == [] then body else SetAllKeys(SetKey(body, kv[0].0, kv[0].1), kv[1..])
  }

  method Get(body: Bytes, key: Bytes) returns (value: Option<Bytes>)
    ensures value == GetKey(body, key)
  {
    hide SplitLine;
    var lines := Lines(body);
    for i := 0 to |lines|
      invariant forall j | 0 <= j < i :: !Assigns(lines[j], key)
    {
      var kv := SplitLine(lines[i]);
      if kv.Some? && kv.value.0 == key {
        FindKeyIs(lines, key, i);
        return Some(kv.value.1);
      }
    }
    FindKeyIs(lines, key, |lines|);
    return None;
  }

  method Set(body: Bytes, key: Bytes, value: Bytes) returns (edited: Bytes)
    ensures edited == SetKey(body, key, value)
  {
    hide SplitLine, Assignment, Lines;
    var lines := Lines(body);
    for i := 0 to |lines|
      invariant lines == Lines(body)
      invariant forall j | 0 <= j < i :: !Assigns(lines[j], key)
    {
      var kv := SplitLine(lines[i]);
      if !kv.Some? || kv.value.0 != key {
        continue;
      }
      FindKeyIs(lines, key, i);
      return Unlines(lines[i := Assignment(key, value)]);
    }
    FindKeyIs(lines, key, |lines|);
    UnlinesOfLines(body);
    var trimmed := TrimNewlines(Unlines(lines));
    return trimmed + [NL] + Assignment(key, value) + [NL];
  }

  method SetAll(body: Bytes, kv: seq<(Bytes, Bytes)>) returns (edited: Bytes)
    ensures edited == SetAllKeys(body, kv)
  {
    hide SetKey;
    edited := body;
    for i := 0 to |kv|
      invariant SetAllKeys(edited, kv[i..]) == SetAllKeys(body, kv)
    {
      edited := Set(edited, kv[i].0, kv[i].1);
    }
  }

  // ----- what an edit does to the lines

  /** Trimming the newlines at the end only takes blank lines away. */
  lemma {:induction false} TrimmedLines(body: Bytes)
    ensures var lines, kept := Lines(body), Lines(TrimNewlines(body));
            && |kept| <= |lines| && lines[..|kept|] == kept
            && forall j | |kept| <= j < |lines| :: lines[j] == []
  {
    hide Lines;
    if body != [] && body[|body| - 1] == NL {
      var front := body[..|body| - 1];
      TrimmedLines(front);
      LinesOfConcat(front, []);
      assert body == front + [NL] + [];
      OneLine([]);
    }
  }

  lemma BlankAssignsNothing(key: Bytes)
    ensures !Assigns([], key)
  {
  }

  /** The edited file: one line replaced where it stood, or the assignment on a last line of its own. */
  lemma LinesAfterSet(body: Bytes, key: Bytes, value: Bytes)
    requires KeyOk(key)
    ensures var lines := Lines(body); var i := FindKey(lines, key);
            Lines(SetKey(body, key, value))
            == if i < |lines| then lines[i := Assignment(key, value)]
               else Lines(TrimNewlines(body)) + [Assignment(key, value), []]
  {
    hide SplitLine, Assigns, Assignment, KeyOk, Lines, FindKey, TrimNewlines, Unlines;
    FindKeyFirst(Lines(body), key);
    AssignmentReadsBack(key, value);
    var lines, a := Lines(body), Assignment(key, value);
    var i := FindKey(lines, key);
    if i < |lines| {
      LinesOfUnlines(lines[i := a]);
    } else {
      var kept := TrimNewlines(body);
      LinesOfConcat(kept, a + [NL]);
      LinesOfConcat(a, []);
      assert a + [NL] + [] == a + [NL];
      assert kept + [NL] + a + [NL] == kept + [NL] + (a + [NL]);
      OneLine(a);
      OneLine([]);
    }
  }

  /** Replacing a line that assigns one key leaves every other key where it was found. */
  lemma ReplacedLine(lines: seq<Bytes>, i: nat, line: Bytes, key: Bytes, other: Bytes)
    requires i < |lines| && Assigns(lines[i], key) && Assigns(line, key) && other != key
    ensures LookUp(lines[i := line], other) == LookUp(lines, other)
  {
    hide SplitLine, FindKey;
    var after, j := lines[i := line], FindKey(lines, other);
    FindKeyFirst(lines, other);
    FindKeyIs(after, other, j);
  }

  lemma AppendedLine(lines: seq<Bytes>, kept: seq<Bytes>, line: Bytes, key: Bytes, other: Bytes)
    requires |kept| <= |lines| && lines[..|kept|] == kept
    requires forall j | |kept| <= j < |lines| :: lines[j] == []
    requires Assigns(line, key) && other != key
    ensures LookUp(kept + [line, []], other) == LookUp(lines, other)
  {
    hide SplitLine;
    var after, j := kept + [line, []], FindKey(lines, other);
    FindKeyFirst(lines, other);
    BlankAssignsNothing(other);
    if j < |lines| {
      FindKeyIs(after, other, j);
    } else {
      FindKeyIs(after, other, |after|);
    }
  }

  /** The first line that assigns the key is exactly this assignment. */
  predicate Holds(body: Bytes, key: Bytes, value: Bytes) {
    var i := FindKey(Lines(body), key);
    i < |Lines(body)| && Lines(body)[i] == Assignment(key, value)
  }

  lemma SetHolds(body: Bytes, key: Bytes, value: Bytes)
    requires KeyOk(key)
    ensures Holds(SetKey(body, key, value), key, value)
  {
    hide SplitLine, Assignment, KeyOk, SetKey;
    FindKeyFirst(Lines(body), key);
    LinesAfterSet(body, key, value);
    AssignmentReadsBack(key, value);
    TrimmedLines(body);
    var lines, after := Lines(body), Lines(SetKey(body, key, value));
    var i := FindKey(lines, key);
    if i < |lines| {
      FindKeyIs(after, key, i);
    } else {
      var kept := Lines(TrimNewlines(body));
      assert forall j | 0 <= j < |kept| :: kept[j] == lines[j];
      FindKeyIs(after, key, |kept|);
    }
  }

  lemma HoldsReads(body: Bytes, key: Bytes, value: Bytes)
    requires KeyOk(key) && Holds(body, key, value)
    ensures GetKey(body, key) == Some(Escaped(value))
  {
    hide SplitLine, Assignment, KeyOk, Escaped;
    FindKeyFirst(Lines(body), key);
    AssignmentReadsBack(key, value);
  }

  lemma BadKeyIsNeverRead(body: Bytes, key: Bytes)
    requires !KeyOk(key)
    ensures GetKey(body, key) == None
  {
    hide SplitLine, KeyOk;
    FindKeyFirst(Lines(body), key);
    var lines := Lines(body);
    var i := FindKey(lines, key);
    if i < |lines| {
      SplitKeyOk(lines[i]);
    }
  }

  /** What is read after an edit: the quoted form of the value, under exactly the keys a line can carry. */
  lemma SetThenGet(body: Bytes, key: Bytes, value: Bytes)
    ensures GetKey(SetKey(body, key, value), key) == if KeyOk(key) then Some(Escaped(value)) else None
  {
    hide SetKey, GetKey, KeyOk, Escaped, Holds;
    if KeyOk(key) {
      SetHolds(body, key, value);
      HoldsReads(SetKey(body, key, value), key, value);
    } else {
      BadKeyIsNeverRead(SetKey(body, key, value), key);
    }
  }

  /** An edit reads back as written exactly for the keys a line can carry and text that needs no escapes. */
  lemma ReadsBackExactly(body: Bytes, key: Bytes, value: Bytes)
    ensures GetKey(SetKey(body, key, value), key) == Some(value) <==> KeyOk(key) && Plain(value)
  {
    hide SetKey, GetKey, KeyOk, Escaped, Plain;
    SetThenGet(body, key, value);
    EscapedIsSame(value);
  }

  /** Setting one key changes no other. */
  lemma SetKeepsOthers(body: Bytes, key: Bytes, value: Bytes, other: Bytes)
    requires KeyOk(key) && other != key
    ensures GetKey(SetKey(body, key, value), other) == GetKey(body, other)
  {
    hide SplitLine, Assignment, KeyOk, SetKey;
    FindKeyFirst(Lines(body), key);
    LinesAfterSet(body, key, value);
    AssignmentReadsBack(key, value);
    TrimmedLines(body);
    var lines := Lines(body);
    var i := FindKey(lines, key);
    if i < |lines| {
      ReplacedLine(lines, i, Assignment(key, value), key, other);
    } else {
      AppendedLine(lines, Lines(TrimNewlines(body)), Assignment(key, value), key, other);
    }
  }

  lemma {:induction false} FindKeyConcat(a: seq<Bytes>, b: seq<Bytes>, key: Bytes)
    ensures FindKey(a + b, key) == if FindKey(a, key) < |a| then FindKey(a, key) else |a| + FindKey(b, key)
  {
    hide Assigns;
    if a == [] {
      assert a + b == b;
    } else {
      assert (a + b)[1..] == a[1..] + b;
      FindKeyConcat(a[1..], b, key);
    }
  }

  lemma LookUpConcat(a: seq<Bytes>, b: seq<Bytes>, key: Bytes)
    ensures LookUp(a + b, key) == if LookUp(a, key).Some? then LookUp(a, key) else LookUp(b, key)
  {
    hide SplitLine;
    FindKeyConcat(a, b, key);
    FindKeyFirst(a, key);
    FindKeyFirst(b, key);
  }

  lemma LookUpBlanks(lines: seq<Bytes>, key: Bytes)
    requires forall j | 0 <= j < |lines| :: lines[j] == []
    ensures LookUp(lines, key) == None
  {
    hide SplitLine;
    BlankAssignsNothing(key);
    FindKeyIs(lines, key, |lines|);
  }

  /** What is looked up after a key that no line can carry was "set": the appended lines come last. */
  lemma BadKeyAppends(body: Bytes, key: Bytes, value: Bytes, other: Bytes)
    requires !KeyOk(key)
    ensures GetKey(SetKey(body, key, value), other)
            == if GetKey(body, other).Some? then GetKey(body, other) else LookUp(Lines(Assignment(key, value)), other)
  {
    hide SplitLine, Assigns, Assignment, KeyOk, Lines, TrimNewlines, Unlines, LookUp, FindKey;
    var kept, a := TrimNewlines(body), Assignment(key, value);
    var lines := Lines(body);
    BadKeyIsNeverRead(body, key);
    NotFound(lines, key);
    TrimmedLines(body);
    var blanks := lines[|Lines(kept)|..];
    assert lines == Lines(kept) + blanks;
    LookUpConcat(Lines(kept), blanks, other);
    LookUpBlanks(blanks, other);
    OneLine([]);
    LookUpBlanks([[]], other);
    LinesOfConcat(kept, a + [NL]);
    LinesOfConcat(a, []);
    assert a + [NL] + [] == a + [NL];
    assert kept + [NL] + a + [NL] == kept + [NL] + (a + [NL]);
    LookUpConcat(Lines(kept), Lines(a) + [[]], other);
    LookUpConcat(Lines(a), [[]], other);
  }

  lemma NotFound(lines: seq<Bytes>, key: Bytes)
    requires LookUp(lines, key) == None
    ensures FindKey(lines, key) == |lines|
  {
  }

  /** Some line of the text is an assignment. */
  predicate AssignsSomething(text: Bytes) { exists i | 0 <= i < |Lines(text)| :: SplitLine(Lines(text)[i]).Some? }

  lemma AssignsMeansFound(text: Bytes)
    ensures AssignsSomething(text) ==> !forall key :: LookUp(Lines(text), key) == None
    ensures !AssignsSomething(text) ==> forall key :: LookUp(Lines(text), key) == None
  {
    hide SplitLine, Lines;
    var lines := Lines(text);
    if AssignsSomething(text) {
      var i :| 0 <= i < |lines| && SplitLine(lines[i]).Some?;
      var key := SplitLine(lines[i]).value.0;
      FindKeyFirst(lines, key);
      assert LookUp(lines, key) != None;
    } else {
      forall key ensures LookUp(lines, key) == None {
        FindKeyFirst(lines, key);
      }
    }
  }

  lemma {:induction false} TrimLeftOfConcat(a: Bytes, b: Bytes)
    requires b != [] && Whole(b) && SpaceAt(b) == 0
    ensures TrimLeft(a + b) == TrimLeft(a) + b
    decreases |a|
  {
    hide SpaceAt;
    if a == [] {
      assert a + b == b;
      NothingBlank();
    } else {
      SpaceOfConcat(a, b);
      var n := SpaceAt(a);
      if n > 0 {
        assert (a + b)[n..] == a[n..] + b;
        TrimLeftOfConcat(a[n..], b);
      }
    }
  }

  /** Whether a line is an assignment is decided by what stands up to its first equals sign. */
  lemma DecidedAtEquals(x: Bytes, value: Bytes)
    ensures SplitLine(x + [EQUALS, QUOTE] + Escaped(value) + [QUOTE]).Some? <==> SplitLine(x + [EQUALS]).Some?
  {
    hide Escaped, TrimLeft, TrimRight, SpaceAt, SpaceBefore;
    var short, long := [EQUALS], [EQUALS, QUOTE] + Escaped(value) + [QUOTE];
    var t := TrimLeft(x);
    AsciiEnds(short);
    AsciiEnds(long);
    TrimLeftOfConcat(x, short);
    TrimLeftOfConcat(x, long);
    NothingToTrimAfter(t, short);
    NothingToTrimAfter(t, long);
    assert x + [EQUALS, QUOTE] + Escaped(value) + [QUOTE] == x + long;
    SplitToEquals(t, short);
    SplitToEquals(t, long);
  }

  /** What is read as the key of a trimmed line. */
  lemma SplitToEquals(t: Bytes, b: Bytes)
    requires b != [] && b[0] == EQUALS
    ensures var i := IndexByte(t, EQUALS);
            SplitTrimmed(t + b).Some?
            <==> t != [] && t[0] != HASH && i > 0
                 && var key := TrimSpace(t[..i]); key != [] && SPACE !in key && TAB !in key
  {
    hide TrimSpace;
    var i, s := IndexByte(t, EQUALS), t + b;
    assert s[..i] == t[..i];
    IndexByteOf(s, EQUALS, i);
  }

  lemma NothingToTrimAfter(t: Bytes, b: Bytes)
    requires b != [] && b[|b| - 1] < 0x80 && !IsSpace(b[|b| - 1])
    ensures TrimRight(t + b) == t + b
  {
    hide SpaceAt, SpaceBefore, IsSpace;
    assert (t + b)[|t + b| - 1] == b[|b| - 1];
    AsciiEnds(t + b);
  }

  lemma {:induction false} LinesOfLonger(a: Bytes, b: Bytes)
    requires NL !in b
    ensures var n := |Lines(a)| - 1; Lines(a + b) == Lines(a)[..n] + [Lines(a)[n] + b]
    decreases |a|
  {
    hide Lines;
    var i := IndexByte(a, NL);
    FirstLine(a, i);
    assert (a + b)[..i] == a[..i];
    if i < |a| {
      FirstLine(a + b, i);
      assert (a + b)[i + 1..] == a[i + 1..] + b;
      LinesOfLonger(a[i + 1..], b);
    } else {
      assert a[..i] == a;
      OneLine(a + b);
    }
  }

  /** What an edit writes assigns something exactly when its key and equals sign do. */
  lemma AssignsByItsKey(key: Bytes, value: Bytes)
    ensures AssignsSomething(Assignment(key, value)) <==> AssignsSomething(key + [EQUALS])
  {
    hide SplitLine, Lines, Escaped;
    var tail := [EQUALS, QUOTE] + Escaped(value) + [QUOTE];
    assert Assignment(key, value) == key + tail;
    LinesOfLonger(key, [EQUALS]);
    LinesOfLonger(key, tail);
    var n := |Lines(key)| - 1;
    var x := Lines(key)[n];
    assert x + tail == x + [EQUALS, QUOTE] + Escaped(value) + [QUOTE];
    DecidedAtEquals(x, value);
    var short, long := Lines(key + [EQUALS]), Lines(Assignment(key, value));
    forall i | 0 <= i <= n ensures SplitLine(short[i]).Some? <==> SplitLine(long[i]).Some? {
      assert i < n ==> short[i] == Lines(key)[i] == long[i];
    }
  }

  /** A text put behind an empty file assigns what it assigns, and never the key of the edit. */
  lemma BadKeyDisturbs(key: Bytes, value: Bytes, other: Bytes)
    requires !KeyOk(key) && LookUp(Lines(Assignment(key, value)), other) != None
    ensures other != key && GetKey(SetKey([], key, value), other) != GetKey([], other)
  {
    hide SetKey, GetKey, KeyOk, Assignment, LookUp, Lines;
    BadKeyAppends([], key, value, other);
    BadKeyAppends([], key, value, key);
    EmptyHasNothing(other);
    EmptyHasNothing(key);
    BadKeyIsNeverRead(SetKey([], key, value), key);
  }

  lemma BadKeyIsHarmless(key: Bytes, value: Bytes, body: Bytes, other: Bytes)
    requires !KeyOk(key) && LookUp(Lines(Assignment(key, value)), other) == None
    ensures GetKey(SetKey(body, key, value), other) == GetKey(body, other)
  {
    hide SetKey, GetKey, KeyOk, Assignment, LookUp, Lines;
    BadKeyAppends(body, key, value, other);
  }

  /** An edit leaves every other key of every file alone exactly when a line can carry its own key, or when the key
      followed by an equals sign is no assignment. */
  lemma OthersKeptExactly(key: Bytes, value: Bytes)
    ensures (forall body, other | other != key :: GetKey(SetKey(body, key, value), other) == GetKey(body, other))
            <==> KeyOk(key) || !AssignsSomething(key + [EQUALS])
  {
    hide SetKey, GetKey, KeyOk, Assignment, LookUp, Lines, AssignsSomething;
    AssignsByItsKey(key, value);
    AssignsMeansFound(Assignment(key, value));
    if KeyOk(key) {
      forall body, other | other != key ensures GetKey(SetKey(body, key, value), other) == GetKey(body, other) {
        SetKeepsOthers(body, key, value, other);
      }
    } else if AssignsSomething(Assignment(key, value)) {
      var other :| LookUp(Lines(Assignment(key, value)), other) != None;
      BadKeyDisturbs(key, value, other);
    } else {
      forall body, other ensures GetKey(SetKey(body, key, value), other) == GetKey(body, other) {
        BadKeyIsHarmless(key, value, body, other);
      }
    }
  }

  lemma EmptyHasNothing(key: Bytes)
    ensures GetKey([], key) == None
  {
    hide SplitLine, Lines;
    OneLine([]);
    BlankAssignsNothing(key);
    FindKeyIs([[]], key, 1);
  }

  /** A key with a space in front is written, but what it sets is the key without the space. */
  lemma SpacedKeySetsAnother(key: Bytes, value: Bytes)
    requires KeyOk(key)
    ensures GetKey([], key) == None && GetKey(SetKey([], [SPACE] + key, value), key) == Some(Escaped(value))
  {
    hide SetKey, GetKey, SplitLine, Escaped, Lines, FindKey, LookUp;
    var spaced := [SPACE] + key;
    EmptyHasNothing(key);
    BadKeyAppends([], spaced, value, key);
    AssignmentReadsBack(key, value);
    assert Assignment(spaced, value) == [SPACE] + Assignment(key, value);
    SpacedLine(key, value);
  }

  lemma SpacedLine(key: Bytes, value: Bytes)
    requires KeyOk(key)
    ensures LookUp(Lines([SPACE] + Assignment(key, value)), key) == Some(Escaped(value))
  {
    hide SplitLine, Escaped, Lines, Assignment, KeyOk;
    var line := [SPACE] + Assignment(key, value);
    AssignmentReadsBack(key, value);
    assert line[1..] == Assignment(key, value);
    LeadingSpace(line);
    OneLine(line);
    FindKeyIs([line], key, 0);
  }

  lemma LeadingSpace(line: Bytes)
    requires line != [] && IsSpace(line[0])
    ensures SplitLine(line) == SplitLine(line[1..])
  {
    hide SplitTrimmed, TrimRight, IsSpace;
    assert SpaceAt(line) == 1;
  }

  /** Writing what already stands there changes nothing. */
  lemma HoldsIsFixed(body: Bytes, key: Bytes, value: Bytes)
    requires Holds(body, key, value)
    ensures SetKey(body, key, value) == body
  {
    hide FindKey, Assigns, Assignment, Lines, Unlines;
    var lines, i := Lines(body), FindKey(Lines(body), key);
    assert lines[i := Assignment(key, value)] == lines;
    UnlinesOfLines(body);
  }

  /** A second identical edit is a no-op. */
  lemma SetTwice(body: Bytes, key: Bytes, value: Bytes)
    requires KeyOk(key)
    ensures SetKey(SetKey(body, key, value), key, value) == SetKey(body, key, value)
  {
    hide SetKey, Holds, KeyOk;
    SetHolds(body, key, value);
    HoldsIsFixed(SetKey(body, key, value), key, value);
  }
}
