/** Lines of "<PCIe path> <port number>": the bay plan and the ports file (cmd/vibeldr-init/main.go). */
module PortLines {
  import opened GoStrings
  import opened Slots
  import opened PortMap

  // ----- strings.Fields

  /** The index of the first white space, or |s|. */
  function FieldEnd(s: Bytes): (i: nat)
    ensures i <= |s| && (i < |s| ==> SpaceAt(s[i..]) > 0) && forall j | 0 <= j < i :: SpaceAt(s[j..]) == 0
  {
    hide SpaceAt;
    if s == [] then 0
    else
      assert s[0..] == s;
      if SpaceAt(s) > 0 then 0
      else
        var i := 1 + FieldEnd(s[1..]);
        assert s[i..] == s[1..][i - 1..];
        assert forall j | 0 < j < i :: s[j..] == s[1..][j - 1..];
        i
  }

  lemma {:induction false} FieldEndIs(s: Bytes, i: nat)
    requires i <= |s| && (i < |s| ==> SpaceAt(s[i..]) > 0) && forall j | 0 <= j < i :: SpaceAt(s[j..]) == 0
    ensures FieldEnd(s) == i
  {
    hide SpaceAt;
    assert s[0..] == s;
    if i > 0 {
      assert s[i..] == s[1..][i - 1..];
      assert forall j | 0 < j < i :: s[j..] == s[1..][j - 1..];
      FieldEndIs(s[1..], i - 1);
    }
  }

  function Fields(s: Bytes): (f: seq<Bytes>)
    decreases |s|
  {
    var t := TrimLeft(s);
    if t == [] then []
    else
      assert FieldEnd(t) > 0 by { FieldIsNotEmpty(t); }
      [t[..FieldEnd(t)]] + Fields(t[FieldEnd(t)..])
  }

  lemma FieldIsNotEmpty(t: Bytes)
    requires t != [] && SpaceAt(t) == 0
    ensures FieldEnd(t) > 0
  {
    hide SpaceAt;
    assert t[0..] == t;
  }

  lemma FieldsStep(s: Bytes)
    ensures var t := TrimLeft(s); Fields(s) == if t == [] then [] else [t[..FieldEnd(t)]] + Fields(t[FieldEnd(t)..])
    ensures TrimLeft(s) != [] ==> FieldEnd(TrimLeft(s)) > 0
  {
    hide TrimLeft;
    if TrimLeft(s) != [] {
      FieldIsNotEmpty(TrimLeft(s));
    }
  }

  lemma NoSpaceBeforeEnd(t: Bytes)
    ensures NoSpace(t[..FieldEnd(t)])
  {
    hide SpaceAt;
    var e := FieldEnd(t);
    forall i | 0 <= i < e ensures SpaceAt(t[..e][i..]) == 0 {
      assert t[..e][i..] <= t[i..];
      PrefixNoSpace(t[..e][i..], t[i..]);
    }
  }

  lemma {:induction false} FieldsAreWords(s: Bytes)
    ensures forall i | 0 <= i < |Fields(s)| :: Fields(s)[i] != [] && NoSpace(Fields(s)[i])
    decreases |s|
  {
    hide NoSpace, Fields, FieldEnd, TrimLeft;
    FieldsStep(s);
    var t := TrimLeft(s);
    if t != [] {
      NoSpaceBeforeEnd(t);
      FieldsAreWords(t[FieldEnd(t)..]);
    }
  }

  /** A white-space character, and nothing else. */
  predicate IsBlank(sp: Bytes) { sp != [] && SpaceAt(sp) == |sp| }

  lemma LeadingSpace(sp: Bytes, s: Bytes)
    requires IsBlank(sp)
    ensures Fields(sp + s) == Fields(s)
  {
    hide SpaceAt, FieldEnd;
    SpaceInLonger(sp, sp + s);
    assert (sp + s)[|sp|..] == s;
  }

  /** White space behind a text makes no other white space in it. */
  lemma SpaceOfFront(s: Bytes, sp: Bytes)
    requires IsBlank(sp) && s != []
    ensures SpaceAt(s + sp) == SpaceAt(s)
  {
    hide SpaceAt;
    SpaceIsWhole(sp);
    SpaceOfConcat(s, sp);
  }

  lemma {:induction false} TrimLeftOfEnd(s: Bytes, sp: Bytes)
    requires IsBlank(sp)
    ensures TrimLeft(s + sp) == if TrimLeft(s) == [] then [] else TrimLeft(s) + sp
    decreases |s|
  {
    hide SpaceAt;
    NothingBlank();
    if s == [] {
      assert s + sp == sp && sp[|sp|..] == [];
    } else {
      SpaceOfFront(s, sp);
      var n := SpaceAt(s);
      if n > 0 {
        assert (s + sp)[n..] == s[n..] + sp;
        TrimLeftOfEnd(s[n..], sp);
      }
    }
  }

  lemma FieldEndOfFront(t: Bytes, sp: Bytes)
    requires IsBlank(sp)
    ensures FieldEnd(t + sp) == FieldEnd(t)
  {
    hide SpaceAt;
    var e, s := FieldEnd(t), t + sp;
    forall j | 0 <= j < |t| ensures SpaceAt(s[j..]) == SpaceAt(t[j..]) {
      assert s[j..] == t[j..] + sp;
      SpaceOfFront(t[j..], sp);
    }
    assert e == |t| ==> s[e..] == sp;
    FieldEndIs(s, e);
  }

  lemma {:induction false} TrailingSpace(s: Bytes, sp: Bytes)
    requires IsBlank(sp)
    ensures Fields(s + sp) == Fields(s)
    decreases |s|
  {
    hide IsBlank, TrimLeft, Fields, FieldEnd;
    TrimLeftOfEnd(s, sp);
    FieldsStep(s);
    FieldsStep(s + sp);
    var t := TrimLeft(s);
    if t != [] {
      var i := FieldEnd(t);
      FieldEndOfFront(t, sp);
      assert (t + sp)[..i] == t[..i] && (t + sp)[i..] == t[i..] + sp;
      TrailingSpace(t[i..], sp);
    }
  }

  lemma FirstField(s: Bytes, i: nat)
    requires 0 < i <= |s| && NoSpace(s[..i]) && (i < |s| ==> SpaceAt(s[i..]) > 0)
    ensures Fields(s) == [s[..i]] + Fields(s[i..])
  {
    hide SpaceAt, Fields, TrimLeft, FieldEnd;
    if i < |s| {
      SpaceIsWhole(s[i..]);
    }
    forall j | 0 <= j < i ensures SpaceAt(s[j..]) == 0 {
      assert s[j..] == s[..i][j..] + s[i..];
      SpaceOfConcat(s[..i][j..], s[i..]);
    }
    assert s[0..] == s;
    FieldEndIs(s, i);
    FieldsStep(s);
    NothingBlankAhead(s);
  }

  lemma NothingBlankAhead(s: Bytes)
    requires SpaceAt(s) == 0
    ensures TrimLeft(s) == s
  {
    hide SpaceAt;
  }

  lemma NoFields()
    ensures Fields([]) == []
  {
  }

  lemma OneField(s: Bytes)
    requires s != [] && NoSpace(s)
    ensures Fields(s) == [s]
  {
    hide NoSpace, Fields;
    assert s[..|s|] == s && s[|s|..] == [];
    FirstField(s, |s|);
    NoFields();
  }

  lemma TwoFields(a: Bytes, b: Bytes)
    requires a != [] && b != [] && NoSpace(a) && NoSpace(b)
    ensures Fields(a + SPACE + b) == [a, b]
  {
    hide SpaceAt, NoSpace, Fields;
    SpaceIsBlank();
    var s := a + SPACE + b;
    assert s[..|a|] == a && s[|a|..] == SPACE + b;
    SpaceInLonger(SPACE, SPACE + b);
    FirstField(s, |a|);
    LeadingSpace(SPACE, b);
    OneField(b);
  }

  lemma SpaceIsBlank()
    ensures IsBlank(SPACE)
  {
  }

  // ----- one line

  function ParsePort(line: Bytes): Option<SataPort> {
    var f := Fields(line);
    if |f| != 2 then None
    else
      match Atoi(f[1])
      case None => None
      case Some(n) => Some(SataPort(f[0], n % 0x1_0000_0000))
  }

  /** A path that is one field of a line. */
  predicate RootOk(root: Bytes) { root != [] && NoSpace(root) }

  lemma ItoaNoSpace(n: nat)
    ensures NoSpace(Itoa(n)) && Whole(Itoa(n)) && SpaceBefore(Itoa(n)) == 0
  {
    hide NoSpace, Whole, SpaceBefore, Itoa, AllDigits, Visible, TrimSpace;
    DigitsAreVisible(Itoa(n));
    VisibleNoSpace(Itoa(n));
  }

  lemma DigitsAreVisible(s: Bytes)
    requires AllDigits(s)
    ensures Visible(s)
  {
    assert forall i | 0 <= i < |s| :: IsDigit(s[i]);
  }

  lemma AtoiOfItoa(n: nat)
    requires n < 0x8000_0000_0000_0000
    ensures Atoi(Itoa(n)) == Some(n)
  {
    hide DigitsValue, Itoa;
    ItoaReadsBack(n);
    assert IsDigit(Itoa(n)[0]);
  }

  /** A settings key reads back as its port. */
  lemma KeyParses(p: SataPort)
    requires RootOk(p.pcieRoot)
    ensures ParsePort(PortKey(p.pcieRoot, p.port)) == Some(p)
  {
    hide Fields, Atoi, NoSpace, Itoa;
    ItoaNoSpace(p.port);
    AtoiOfItoa(p.port);
    TwoFields(p.pcieRoot, Itoa(p.port));
  }

  lemma ParsedRootOk(line: Bytes)
    ensures ParsePort(line).Some? ==> RootOk(ParsePort(line).value.pcieRoot)
  {
    hide Fields, Atoi, NoSpace;
    FieldsAreWords(line);
  }

  lemma {:induction false} SpacesDoNotParse(line: Bytes)
    ensures ParsePort(TrimSpace(line)) == ParsePort(line)
  {
    hide Fields, Atoi;
    TrimLeftFields(line);
    TrimRightFields(TrimLeft(line));
  }

  lemma {:induction false} TrimLeftFields(s: Bytes)
    ensures Fields(TrimLeft(s)) == Fields(s)
    decreases |s|
  {
    hide Fields, SpaceAt;
    var n := SpaceAt(s);
    if n > 0 {
      FrontBlank(s);
      TrimLeftFields(s[n..]);
      LeadingSpace(s[..n], s[n..]);
      assert s == s[..n] + s[n..];
    }
  }

  lemma FrontBlank(s: Bytes)
    requires SpaceAt(s) > 0
    ensures IsBlank(s[..SpaceAt(s)])
  {
  }

  lemma {:induction false} TrimRightFields(s: Bytes)
    ensures Fields(TrimRight(s)) == Fields(s)
    decreases |s|
  {
    hide Fields, SpaceAt, SpaceBefore;
    var n := SpaceBefore(s);
    if n > 0 {
      var m := |s| - n;
      TrimRightFields(s[..m]);
      TrailingSpace(s[..m], s[m..]);
      assert s == s[..m] + s[m..];
    }
  }

  // ----- a whole text

  function ParsePorts(lines: seq<Bytes>): seq<SataPort> {
    if lines == [] then []
    else
      var p := ParsePort(lines[0]);
      (if p.Some? then [p.value] else []) + ParsePorts(lines[1..])
  }

  function ReadPorts(text: Bytes): seq<SataPort> { ParsePorts(Lines(TrimSpace(text))) }

  method ParsePortLine(line: Bytes) returns (p: Option<SataPort>)
    ensures p == ParsePort(line)
  {
    hide Fields, Atoi;
    var f := Fields(line);
    if |f| != 2 {
      return None;
    }
    var n := Atoi(f[1]);
    if n.None? {
      return None;
    }
    return Some(SataPort(f[0], n.value % 0x1_0000_0000));
  }

  method ParsePortLines(text: Bytes) returns (out: seq<SataPort>)
    ensures out == ReadPorts(text)
  {
    hide ParsePort, Lines, TrimSpace;
    out := [];
    var lines := Lines(TrimSpace(text));
    for i := 0 to |lines|
      invariant out + ParsePorts(lines[i..]) == ParsePorts(lines)
    {
      ghost var before := out;
      var p := ParsePortLine(lines[i]);
      if p.Some? {
        out := out + [p.value];
      }
      assert lines[i..][1..] == lines[i + 1..];
      assert out + ParsePorts(lines[i + 1..]) == before + ParsePorts(lines[i..]);
    }
  }

  lemma FirstPort(lines: seq<Bytes>)
    requires lines != []
    ensures ParsePorts(lines)
            == (if ParsePort(lines[0]).Some? then [ParsePort(lines[0]).value] else []) + ParsePorts(lines[1..])
  {
    hide ParsePort;
  }

  lemma {:induction false} ParsePortsConcat(a: seq<Bytes>, b: seq<Bytes>)
    ensures ParsePorts(a + b) == ParsePorts(a) + ParsePorts(b)
  {
    hide ParsePort, ParsePorts;
    NoPorts();
    if a == [] {
      assert a + b == b;
    } else {
      assert (a + b)[1..] == a[1..] + b;
      ParsePortsConcat(a[1..], b);
      FirstPort(a);
      FirstPort(a + b);
    }
  }

  lemma OneLineParses(line: Bytes)
    ensures ParsePorts([line]) == if ParsePort(line).Some? then [ParsePort(line).value] else []
  {
    hide ParsePort;
    assert [line][1..] == [];
  }

  lemma BlankDoesNotParse()
    ensures ParsePort([]) == None && ParsePorts([[]]) == []
  {
    OneLineParses([]);
  }

  /** A newline, or white space within a line. */
  lemma BlankInLine(sp: Bytes)
    requires IsBlank(sp)
    ensures sp == [NL] || NL !in sp
  {
    hide IsSpace;
    SpaceBytes(sp);
  }

  /** White space around the text does not matter. */
  lemma LeadingSpaceOfText(sp: Bytes, s: Bytes)
    requires IsBlank(sp)
    ensures ParsePorts(Lines(sp + s)) == ParsePorts(Lines(s))
  {
    hide Lines, ParsePort, ParsePorts, IsBlank;
    BlankInLine(sp);
    if sp == [NL] {
      LinesOfConcat([], s);
      assert [] + [NL] + s == sp + s;
      OneLine([]);
      BlankDoesNotParse();
      ParsePortsConcat([[]], Lines(s));
    } else {
      SpaceOnFirstLine(sp, s);
    }
  }

  lemma SpaceOnFirstLine(sp: Bytes, s: Bytes)
    requires IsBlank(sp) && NL !in sp
    ensures ParsePorts(Lines(sp + s)) == ParsePorts(Lines(s))
  {
    hide Lines, ParsePort, ParsePorts, IsBlank;
    var i := IndexByte(s, NL);
    var first := s[..i];
    FirstLine(s, i);
    assert (sp + s)[..|sp| + i] == sp + first;
    FirstLine(sp + s, |sp| + i);
    SpaceAhead(sp, first);
    OneLineParses(first);
    OneLineParses(sp + first);
    if i < |s| {
      assert (sp + s)[|sp| + i + 1..] == s[i + 1..];
      ParsePortsConcat([first], Lines(s[i + 1..]));
      ParsePortsConcat([sp + first], Lines(s[i + 1..]));
    } else {
      assert first == s;
    }
  }

  lemma SpaceAhead(sp: Bytes, s: Bytes)
    requires IsBlank(sp)
    ensures ParsePort(sp + s) == ParsePort(s)
  {
    hide Fields, Atoi, IsBlank;
    LeadingSpace(sp, s);
  }

  lemma SpaceAfter(s: Bytes, sp: Bytes)
    requires IsBlank(sp)
    ensures ParsePort(s + sp) == ParsePort(s)
  {
    hide Fields, Atoi, IsBlank;
    TrailingSpace(s, sp);
  }

  lemma TrailingSpaceOfText(s: Bytes, sp: Bytes)
    requires IsBlank(sp)
    ensures ParsePorts(Lines(s + sp)) == ParsePorts(Lines(s))
  {
    hide Lines, ParsePort, ParsePorts, IsBlank;
    BlankInLine(sp);
    if sp == [NL] {
      LinesOfConcat(s, []);
      assert s + [NL] + [] == s + sp;
      OneLine([]);
      BlankDoesNotParse();
      ParsePortsConcat(Lines(s), [[]]);
    } else {
      SpaceOnLastLine(s, sp);
    }
  }

  lemma {:induction false} SpaceOnLastLine(s: Bytes, sp: Bytes)
    requires IsBlank(sp) && NL !in sp
    ensures ParsePorts(Lines(s + sp)) == ParsePorts(Lines(s))
    decreases |s|
  {
    hide Lines, ParsePort, ParsePorts, IsBlank;
    var i := IndexByte(s, NL);
    FirstLine(s, i);
    assert (s + sp)[..i] == s[..i];
    if i < |s| {
      FirstLine(s + sp, i);
      assert (s + sp)[i + 1..] == s[i + 1..] + sp;
      SpaceOnLastLine(s[i + 1..], sp);
      ParsePortsConcat([s[..i]], Lines(s[i + 1..]));
      ParsePortsConcat([s[..i]], Lines(s[i + 1..] + sp));
    } else {
      assert s[..i] == s;
      OneLine(s + sp);
      SpaceAfter(s, sp);
      OneLineParses(s);
      OneLineParses(s + sp);
    }
  }

  lemma TrimmedTextReads(text: Bytes)
    ensures ReadPorts(text) == ParsePorts(Lines(text))
  {
    hide Lines, ParsePorts, TrimLeft, TrimRight;
    TrimLeftText(text);
    TrimRightText(TrimLeft(text));
  }

  lemma {:induction false} TrimLeftText(s: Bytes)
    ensures ParsePorts(Lines(TrimLeft(s))) == ParsePorts(Lines(s))
    decreases |s|
  {
    hide Lines, ParsePorts, SpaceAt;
    var n := SpaceAt(s);
    if n > 0 {
      FrontBlank(s);
      TrimLeftText(s[n..]);
      LeadingSpaceOfText(s[..n], s[n..]);
      assert s == s[..n] + s[n..];
    }
  }

  lemma {:induction false} TrimRightText(s: Bytes)
    ensures ParsePorts(Lines(TrimRight(s))) == ParsePorts(Lines(s))
    decreases |s|
  {
    hide Lines, ParsePorts, SpaceAt, SpaceBefore;
    var n := SpaceBefore(s);
    if n > 0 {
      var m := |s| - n;
      TrimRightText(s[..m]);
      TrailingSpaceOfText(s[..m], s[m..]);
      assert s == s[..m] + s[m..];
    }
  }

  // ----- texts written a line at a time

  function Written(lines: seq<Bytes>): Bytes
    decreases |lines|
  {
    if lines == [] then [] else lines[0] + [NL] + Written(lines[1..])
  }

  lemma {:induction false} WrittenOneMore(lines: seq<Bytes>, last: Bytes)
    ensures Written(lines + [last]) == Written(lines) + (last + [NL])
    decreases |lines|
  {
    if lines == [] {
      assert (lines + [last])[1..] == [];
    } else {
      assert (lines + [last])[1..] == lines[1..] + [last];
      WrittenOneMore(lines[1..], last);
    }
  }

  lemma {:induction false} WrittenParses(lines: seq<Bytes>)
    requires forall i | 0 <= i < |lines| :: NL !in lines[i]
    ensures ParsePorts(Lines(Written(lines))) == ParsePorts(lines)
    decreases |lines|
  {
    hide ParsePort, Lines, ParsePorts;
    if lines == [] {
      OneLine([]);
      BlankDoesNotParse();
      NoPorts();
      assert lines == [];
    } else {
      var rest := Written(lines[1..]);
      LinesOfConcat(lines[0], rest);
      OneLine(lines[0]);
      WrittenParses(lines[1..]);
      ParsePortsConcat([lines[0]], Lines(rest));
      ParsePortsConcat([lines[0]], lines[1..]);
      assert lines == [lines[0]] + lines[1..];
    }
  }

  lemma NoPorts()
    ensures ParsePorts([]) == []
  {
  }

  // ----- the ports file: what the ramdisk hands to the installed system

  function KeysOf(ports: seq<SataPort>): (keys: seq<Bytes>)
    ensures |keys| == |ports|
  {
    seq(|ports|, i requires 0 <= i < |ports| => PortKey(ports[i].pcieRoot, ports[i].port))
  }

  function SavedPorts(ports: seq<SataPort>): Bytes { Written(KeysOf(ports)) }

  method SavePorts(ports: seq<SataPort>) returns (text: Bytes)
    ensures text == SavedPorts(ports)
  {
    hide PortKey, Written;
    text := [];
    NothingWritten();
    assert KeysOf(ports[..0]) == [];
    for i := 0 to |ports|
      invariant text == Written(KeysOf(ports[..i]))
    {
      var key := PortKey(ports[i].pcieRoot, ports[i].port);
      WrittenOneMore(KeysOf(ports[..i]), key);
      assert KeysOf(ports[..i + 1]) == KeysOf(ports[..i]) + [key];
      text := text + (key + [NL]);
    }
    assert ports[..|ports|] == ports;
  }

  lemma NothingWritten()
    ensures Written([]) == []
  {
  }

  lemma NoSpaceNoNewline(s: Bytes)
    requires NoSpace(s)
    ensures NL !in s
  {
    forall i | 0 <= i < |s| ensures s[i] != NL {
      assert SpaceAt(s[i..]) == 0;
    }
  }

  lemma KeyIsOneLine(p: SataPort)
    requires RootOk(p.pcieRoot)
    ensures NL !in PortKey(p.pcieRoot, p.port)
  {
    hide NoSpace;
    ItoaNoSpace(p.port);
    NoSpaceNoNewline(Itoa(p.port));
    NoSpaceNoNewline(p.pcieRoot);
  }

  lemma {:induction false} ParsedRootsOk(lines: seq<Bytes>)
    ensures forall p | p in ParsePorts(lines) :: RootOk(p.pcieRoot)
  {
    hide ParsePort, RootOk;
    if lines != [] {
      ParsedRootOk(lines[0]);
      ParsedRootsOk(lines[1..]);
    }
  }

  lemma {:induction false} KeysParse(ports: seq<SataPort>)
    requires forall i | 0 <= i < |ports| :: RootOk(ports[i].pcieRoot)
    ensures ParsePorts(KeysOf(ports)) == ports
    decreases |ports|
  {
    hide ParsePort, RootOk, PortKey;
    if ports != [] {
      KeyParses(ports[0]);
      assert KeysOf(ports)[1..] == KeysOf(ports[1..]);
      KeysParse(ports[1..]);
    }
  }

  /** The ports file reads back as written exactly when every path is one word. */
  lemma SavedReadsBackExactly(ports: seq<SataPort>)
    ensures ReadPorts(SavedPorts(ports)) == ports <==> forall i | 0 <= i < |ports| :: RootOk(ports[i].pcieRoot)
  {
    hide ParsePort, RootOk, PortKey, ParsePorts, Written, Lines, ReadPorts;
    var text := SavedPorts(ports);
    TrimmedTextReads(text);
    ParsedRootsOk(Lines(text));
    if ReadPorts(text) == ports {
      forall i | 0 <= i < |ports| ensures RootOk(ports[i].pcieRoot) {
        assert ports[i] in ports;
      }
    }
    if forall i | 0 <= i < |ports| :: RootOk(ports[i].pcieRoot) {
      forall i | 0 <= i < |ports| ensures NL !in KeysOf(ports)[i] {
        KeyIsOneLine(ports[i]);
      }
      WrittenParses(KeysOf(ports));
      KeysParse(ports);
    }
  }

  // ----- the bay plan file

  function Entries(order: seq<Bytes>): seq<Bytes>
    decreases |order|
  {
    if order == [] then []
    else (if TrimSpace(order[0]) == [] then [] else [TrimSpace(order[0])]) + Entries(order[1..])
  }

  function RenderedPlan(order: seq<Bytes>): Bytes { Written(Entries(order)) }

  method RenderBayPlan(order: seq<Bytes>) returns (text: Bytes)
    ensures text == RenderedPlan(order)
  {
    hide TrimSpace, Written;
    ghost var done: seq<Bytes> := [];
    text := [];
    NothingWritten();
    for i := 0 to |order|
      invariant text == Written(done) && done + Entries(order[i..]) == Entries(order)
    {
      var line := TrimSpace(order[i]);
      assert order[i..][1..] == order[i + 1..];
      if line == [] {
        continue;
      }
      WrittenOneMore(done, line);
      assert done + [line] + Entries(order[i + 1..]) == done + Entries(order[i..]);
      done := done + [line];
      text := text + (line + [NL]);
    }
    assert done + Entries([]) == done;
  }

  lemma {:induction false} EntriesParse(order: seq<Bytes>)
    ensures ParsePorts(Entries(order)) == ParsePorts(order)
    decreases |order|
  {
    hide ParsePort, TrimSpace, ParsePorts;
    if order != [] {
      EntriesParse(order[1..]);
      SpacesDoNotParse(order[0]);
      BlankDoesNotParse();
      OneLineParses(order[0]);
      OneLineParses(TrimSpace(order[0]));
      ParsePortsConcat([TrimSpace(order[0])], Entries(order[1..]));
      ParsePortsConcat([order[0]], order[1..]);
      assert order == [order[0]] + order[1..];
      if TrimSpace(order[0]) == [] {
        assert Entries(order) == Entries(order[1..]);
      }
      assert Entries(order) == (if TrimSpace(order[0]) == [] then [] else [TrimSpace(order[0])]) + Entries(order[1..]);
    }
  }

  lemma {:induction false} EntriesOneLine(order: seq<Bytes>)
    requires forall i | 0 <= i < |order| :: NL !in order[i]
    ensures forall i | 0 <= i < |Entries(order)| :: NL !in Entries(order)[i]
    decreases |order|
  {
    hide TrimSpace;
    if order != [] {
      TrimKeepsBytes(order[0], NL);
      EntriesOneLine(order[1..]);
    }
  }

  /** The plan file says, in bay order, exactly the entries that name a port. */
  lemma PlanReadsBack(order: seq<Bytes>)
    requires forall i | 0 <= i < |order| :: NL !in order[i]
    ensures ReadPorts(RenderedPlan(order)) == ParsePorts(order)
  {
    hide ParsePorts, Written, Entries, Lines, ReadPorts;
    TrimmedTextReads(RenderedPlan(order));
    EntriesOneLine(order);
    WrittenParses(Entries(order));
    EntriesParse(order);
  }
}
