/** Writing a tree and reading it back: Bytes against Parse. */
module RoundTrip {
  import opened GoStrings
  import opened FlatTree

  // ----- the strings table: an offset keeps naming its string while the table grows

  predicate Names(strs: Bytes, off: nat, name: Bytes) {
    NulFree(name) && At(strs, off, name + [0])
  }

  ghost predicate TableOk(t: Table) {
    forall name <- t.offsets :: Names(t.data, t.offsets[name], name)
  }

  lemma NamesInLonger(strs: Bytes, longer: Bytes, off: nat, name: Bytes)
    requires Names(strs, off, name) && strs <= longer
    ensures Names(longer, off, name)
  {
    var end := off + |name + [0]|;
    assert longer[off..end] == longer[..|strs|][off..end] == strs[off..end];
  }

  lemma NamesReadsBack(strs: Bytes, off: u32, name: Bytes)
    requires Names(strs, off, name)
    ensures StringAt(strs, off) == Ok(name)
  {
    AtSplit(strs, off, name, [0]);
    AtElement(strs, off + |name|, [0], 0);
    NulFromUnique(strs, off, off + |name|);
  }

  lemma InternGrows(t: Table, name: Bytes)
    ensures t.data <= Intern(t, name).table.data
  {
  }

  lemma InternOk(t: Table, name: Bytes)
    requires TableOk(t) && NulFree(name) && |Intern(t, name).table.data| < 0x1_0000_0000
    ensures TableOk(Intern(t, name).table)
    ensures Names(Intern(t, name).table.data, Intern(t, name).offset, name)
  {
    var i := Intern(t, name);
    if name !in t.offsets {
      assert i.table.data == t.data + (name + [0]);
      assert i.table.data[|t.data|..|t.data| + |name + [0]|] == name + [0];
      forall other <- t.offsets ensures Names(i.table.data, t.offsets[other], other) {
        NamesInLonger(t.data, i.table.data, t.offsets[other], other);
      }
    }
  }

  lemma {:induction false} WritePropsGrows(ps: seq<Property>, t: Table)
    ensures t.data <= WriteProps(ps, t).table.data
  {
    if ps != [] {
      WritePropsGrows(ps[..|ps| - 1], t);
    }
  }

  lemma {:induction false} WriteNodeGrows(n: Node, t: Table)
    ensures t.data <= WriteNode(n, t).table.data
    decreases n, 1
  {
    WritePropsGrows(n.props, t);
    WriteNodesGrows(n.children, WriteProps(n.props, t).table);
  }

  lemma {:induction false} WriteNodesGrows(cs: seq<Node>, t: Table)
    ensures t.data <= WriteNodes(cs, t).table.data
    decreases cs, 0
  {
    if cs != [] {
      WriteNodesGrows(cs[..|cs| - 1], t);
      WriteNodeGrows(cs[|cs| - 1], WriteNodes(cs[..|cs| - 1], t).table);
    }
  }

  // ----- the parser over what the writer wrote

  /** What a reader needs of its two blocks for the writer's output to be legible. */
  ghost predicate Legible(data: Bytes, strs: Bytes, pos: nat, w: Written) {
    && pos % 4 == 0
    && |data| < 0x1_0000_0000 && |strs| < 0x1_0000_0000
    && At(data, pos, w.bytes)
    && w.table.data <= strs
  }

  function Top(s: State): Node
    requires s.stack != []
  {
    s.stack[|s.stack| - 1]
  }

  function WithTop(s: State, pos: nat, n: Node): State
    requires s.stack != []
  {
    State(pos, s.stack[..|s.stack| - 1] + [n], s.root)
  }

  lemma WithTopTwice(s: State, pos: nat, n: Node, pos': nat, n': Node)
    requires s.stack != []
    ensures Top(WithTop(s, pos, n)) == n
    ensures WithTop(WithTop(s, pos, n), pos', n') == WithTop(s, pos', n')
  {
  }

  lemma AttachToTop(s: State, pos: nat, n: Node, pos': nat, c: Node)
    requires s.stack != []
    ensures Attach(WithTop(s, pos, n).(pos := pos'), c) == WithTop(s, pos', AddChild(n, c))
  {
  }

  lemma WithTopSame(s: State)
    requires s.stack != []
    ensures WithTop(s, s.pos, Top(s)) == s
  {
  }

  lemma RunStep(data: Bytes, strs: Bytes, s: State, s': State)
    requires Step(data, strs, s) == Next(s')
    ensures Run(data, strs, s) == Run(data, strs, s')
  {
    hide Step;
  }

  lemma Align4Shift(p: nat, n: nat)
    requires p % 4 == 0
    ensures Align4(p + n) == p + Align4(n)
  {
  }

  lemma PropReadsBack(data: Bytes, strs: Bytes, pos: nat, p: Property, off: u32)
    requires |data| < 0x1_0000_0000
    requires At(data, pos, PropBytes(p, off)) && Names(strs, off, p.name)
    ensures pos + 4 <= |data| && U32At(data, pos) == PROP
    ensures PropAt(data, strs, pos + 4) == Ok(p)
  {
    hide NulFrom, U32Bytes, U32At, StringAt, Names;
    var length := Wrap(|p.value|);
    var padded := Pad4(p.value);
    AtSplit(data, pos, U32Bytes(PROP) + U32Bytes(length) + U32Bytes(off), padded);
    AtSplit(data, pos, U32Bytes(PROP) + U32Bytes(length), U32Bytes(off));
    AtSplit(data, pos, U32Bytes(PROP), U32Bytes(length));
    U32ReadsBack(data, pos, PROP);
    U32ReadsBack(data, pos + 4, length);
    U32ReadsBack(data, pos + 8, off);
    NamesReadsBack(strs, off, p.name);
    assert padded == p.value + padded[|p.value|..];
    AtSplit(data, pos + 12, p.value, padded[|p.value|..]);
  }

  lemma ReadProp(data: Bytes, strs: Bytes, s: State, p: Property, off: u32)
    requires s.stack != [] && s.pos % 4 == 0 && |data| < 0x1_0000_0000
    requires At(data, s.pos, PropBytes(p, off)) && Names(strs, off, p.name)
    ensures Run(data, strs, s) == Run(data, strs, WithTop(s, s.pos + |PropBytes(p, off)|, AddProp(Top(s), p)))
  {
    hide Run, PropAt, U32At, Align4, Names, At;
    PropReadsBack(data, strs, s.pos, p, off);
    AddMod4(s.pos, 12);
    Align4Shift(s.pos + 12, |p.value|);
    RunStep(data, strs, s, WithTop(s, s.pos + |PropBytes(p, off)|, AddProp(Top(s), p)));
  }

  lemma {:induction false} ReadProps(data: Bytes, strs: Bytes, s: State, ps: seq<Property>, t: Table)
    requires s.stack != [] && TableOk(t) && forall p <- ps :: NulFree(p.name)
    requires Legible(data, strs, s.pos, WriteProps(ps, t))
    ensures TableOk(WriteProps(ps, t).table)
    ensures var w := WriteProps(ps, t);
            Run(data, strs, s) == Run(data, strs, WithTop(s, s.pos + |w.bytes|, Top(s).(props := Top(s).props + ps)))
  {
    hide Run, Step, PropBytes, At, NulFree, TableOk, Intern, Top;
    if ps == [] {
      assert Top(s).props + ps == Top(s).props;
      WithTopSame(s);
    } else {
      var front, p := ps[..|ps| - 1], ps[|ps| - 1];
      var before := WriteProps(front, t);
      var i := Intern(before.table, p.name);
      InternGrows(before.table, p.name);
      AtSplit(data, s.pos, before.bytes, PropBytes(p, i.offset));
      ReadProps(data, strs, s, front, t);
      InternOk(before.table, p.name);
      NamesInLonger(i.table.data, strs, i.offset, p.name);
      var pos := s.pos + |before.bytes|;
      var n := Top(s).(props := Top(s).props + front);
      AddMod4(s.pos, |before.bytes|);
      WithTopTwice(s, pos, n, pos + |PropBytes(p, i.offset)|, AddProp(n, p));
      ReadProp(data, strs, WithTop(s, pos, n), p, i.offset);
      AppendLast(Top(s).props, ps);
    }
  }

  lemma AppendLast<T>(a: seq<T>, b: seq<T>)
    requires b != []
    ensures (a + b[..|b| - 1]) + [b[|b| - 1]] == a + b
  {
    assert b[..|b| - 1] + [b[|b| - 1]] == b;
  }

  lemma AddMod4(a: nat, b: nat)
    requires a % 4 == 0 && b % 4 == 0
    ensures (a + b) % 4 == 0
  {
  }

  lemma NameReadsBack(data: Bytes, pos: nat, name: Bytes)
    requires NulFree(name) && At(data, pos, BeginBytes(name))
    ensures pos + 4 <= |data| && U32At(data, pos) == BEGIN_NODE
    ensures NulFrom(data, pos + 4) == pos + 4 + |name| < |data|
    ensures data[pos + 4..pos + 4 + |name|] == name
  {
    hide NulFrom, U32Bytes, U32At;
    var padded := Pad4(name + [0]);
    AtSplit(data, pos, U32Bytes(BEGIN_NODE), padded);
    U32ReadsBack(data, pos, BEGIN_NODE);
    assert padded == name + ([0] + padded[|name| + 1..]);
    AtSplit(data, pos + 4, name, [0] + padded[|name| + 1..]);
    AtElement(data, pos + 4 + |name|, [0] + padded[|name| + 1..], 0);
    NulFromUnique(data, pos + 4, pos + 4 + |name|);
  }

  lemma ReadBegin(data: Bytes, strs: Bytes, s: State, name: Bytes)
    requires s.pos % 4 == 0 && NulFree(name) && At(data, s.pos, BeginBytes(name))
    requires s.stack != [] || s.root.None?
    ensures Run(data, strs, s) == Run(data, strs,
              State(s.pos + |BeginBytes(name)|, s.stack + [Node(name, [], [])], s.root))
  {
    hide Run, NulFrom, U32At, Align4, At, NulFree;
    NameReadsBack(data, s.pos, name);
    AddMod4(s.pos, 4);
    Align4Shift(s.pos + 4, |name| + 1);
    RunStep(data, strs, s, State(s.pos + |BeginBytes(name)|, s.stack + [Node(name, [], [])], s.root));
  }

  lemma ReadEnd(data: Bytes, strs: Bytes, s: State)
    requires s.stack != [] && At(data, s.pos, U32Bytes(END_NODE))
    ensures Run(data, strs, s) == Run(data, strs,
              Attach(State(s.pos + 4, s.stack[..|s.stack| - 1], s.root), Top(s)))
  {
    hide Run;
    U32ReadsBack(data, s.pos, END_NODE);
    RunStep(data, strs, s, Attach(State(s.pos + 4, s.stack[..|s.stack| - 1], s.root), Top(s)));
  }

  lemma {:induction false} ReadNode(data: Bytes, strs: Bytes, s: State, n: Node, t: Table)
    requires s.stack != [] || s.root.None?
    requires TableOk(t) && NamesNulFree(n)
    requires Legible(data, strs, s.pos, WriteNode(n, t))
    ensures TableOk(WriteNode(n, t).table)
    ensures Run(data, strs, s) == Run(data, strs, Attach(s.(pos := s.pos + |WriteNode(n, t).bytes|), n))
    decreases n, 1
  {
    hide Run, Step, BeginBytes, At, U32Bytes, WriteProps, WriteNodes;
    var begin := BeginBytes(n.name);
    var props := WriteProps(n.props, t);
    var children := WriteNodes(n.children, props.table);
    AtSplit(data, s.pos, begin + props.bytes + children.bytes, U32Bytes(END_NODE));
    AtSplit(data, s.pos, begin + props.bytes, children.bytes);
    AtSplit(data, s.pos, begin, props.bytes);
    WriteNodesGrows(n.children, props.table);

    ReadBegin(data, strs, s, n.name);
    var s1 := State(s.pos + |begin|, s.stack + [Node(n.name, [], [])], s.root);
    AddMod4(s.pos, |begin|);
    ReadProps(data, strs, s1, n.props, t);
    var s2 := WithTop(s1, s1.pos + |props.bytes|, Node(n.name, n.props, []));
    assert [] + n.props == n.props;
    AddMod4(s1.pos, |props.bytes|);
    ReadNodes(data, strs, s2, n.children, props.table);
    var s3 := WithTop(s2, s2.pos + |children.bytes|, n);
    assert [] + n.children == n.children;
    ReadEnd(data, strs, s3);
    assert s3.stack[..|s3.stack| - 1] == s.stack;
  }

  lemma {:induction false} ReadNodes(data: Bytes, strs: Bytes, s: State, cs: seq<Node>, t: Table)
    requires s.stack != [] && TableOk(t) && forall c <- cs :: NamesNulFree(c)
    requires Legible(data, strs, s.pos, WriteNodes(cs, t))
    ensures TableOk(WriteNodes(cs, t).table)
    ensures var w := WriteNodes(cs, t);
            Run(data, strs, s)
            == Run(data, strs, WithTop(s, s.pos + |w.bytes|, Top(s).(children := Top(s).children + cs)))
    decreases cs, 0
  {
    hide Run, Step, WriteNode, At, NamesNulFree, TableOk, Attach, Top;
    if cs == [] {
      assert Top(s).children + cs == Top(s).children;
      WithTopSame(s);
    } else {
      var front, c := cs[..|cs| - 1], cs[|cs| - 1];
      var before := WriteNodes(front, t);
      var last := WriteNode(c, before.table);
      WriteNodeGrows(c, before.table);
      AtSplit(data, s.pos, before.bytes, last.bytes);
      ReadNodes(data, strs, s, front, t);
      var pos := s.pos + |before.bytes|;
      var n := Top(s).(children := Top(s).children + front);
      AddMod4(s.pos, |before.bytes|);
      ReadNode(data, strs, WithTop(s, pos, n), c, before.table);
      AttachToTop(s, pos, n, pos + |last.bytes|, c);
      AppendLast(Top(s).children, cs);
    }
  }

  /** The parser undoes the writer: the structure block of a tree reads back as the tree. */
  lemma StructBlockReadsBack(root: Node, data: Bytes, strs: Bytes)
    requires NamesNulFree(root)
    requires data == StructBlock(root).bytes && strs == StructBlock(root).table.data
    requires |data| < 0x1_0000_0000 && |strs| < 0x1_0000_0000
    ensures Run(data, strs, START) == Ok(root)
  {
    hide WriteNode, NamesNulFree, U32Bytes, U32At;
    var w := WriteNode(root, EMPTY_TABLE);
    assert data[0..|w.bytes|] == w.bytes;
    ReadNode(data, strs, START, root, EMPTY_TABLE);
    var s := Attach(START.(pos := |w.bytes|), root);
    assert At(data, |w.bytes|, U32Bytes(END));
    U32ReadsBack(data, |w.bytes|, END);
  }

  // ----- the reserve map

  predicate NoZeroEntry(es: seq<ReserveEntry>) { forall e <- es :: e != ReserveEntry(0, 0) }

  function EntryBytes(e: ReserveEntry): (b: Bytes)
    ensures |b| == 16
  {
    U64Bytes(e.address) + U64Bytes(e.size)
  }

  lemma {:induction false} EntryAt(es: seq<ReserveEntry>, k: nat)
    requires k < |es|
    ensures At(WriteReserve(es), 16 * k, EntryBytes(es[k]))
  {
    hide U64Bytes;
    var front := es[..|es| - 1];
    if k < |front| {
      EntryAt(front, k);
      var b := WriteReserve(front);
      assert WriteReserve(es)[16 * k..16 * k + 16] == b[16 * k..16 * k + 16];
    }
  }

  lemma EntryReadsBack(data: Bytes, off: nat, e: ReserveEntry)
    requires At(data, off, EntryBytes(e))
    ensures off + 16 <= |data| && ReserveEntry(U64At(data, off), U64At(data, off + 8)) == e
  {
    hide U64Bytes, U64At;
    AtSplit(data, off, U64Bytes(e.address), U64Bytes(e.size));
    U64ReadsBack(data, off, e.address);
    U64ReadsBack(data, off + 8, e.size);
  }

  lemma AtInside(data: Bytes, off: nat, b: Bytes, i: nat, c: Bytes)
    requires At(data, off, b) && At(b, i, c)
    ensures At(data, off + i, c)
  {
    var window := data[off..off + |b|];
    assert window[i..i + |c|] == c;
    forall k | 0 <= k < |c| ensures data[off + i + k] == c[k] {
      assert window[i..i + |c|][k] == window[i + k] == data[off + (i + k)];
    }
  }

  lemma {:induction false} ReserveReadsBack(data: Bytes, off: nat, es: seq<ReserveEntry>, k: nat)
    requires k <= |es| && NoZeroEntry(es) && At(data, off, ReserveBlock(es))
    ensures ReadReserve(data, off + 16 * k) == es[k..]
    decreases |es| - k
  {
    hide U64Bytes, U64At, At, WriteReserve;
    var zero := EntryBytes(ReserveEntry(0, 0));
    assert ReserveBlock(es) == WriteReserve(es) + zero;
    AtSplit(data, off, WriteReserve(es), zero);
    if k == |es| {
      EntryReadsBack(data, off + 16 * k, ReserveEntry(0, 0));
    } else {
      EntryAt(es, k);
      AtInside(data, off, WriteReserve(es), 16 * k, EntryBytes(es[k]));
      EntryReadsBack(data, off + 16 * k, es[k]);
      ReserveReadsBack(data, off, es, k + 1);
      assert es[k] in es;
      assert [es[k]] + es[k + 1..] == es[k..];
    }
  }

  lemma {:induction false} ReservesAreNotZero(data: Bytes, off: nat)
    ensures NoZeroEntry(ReadReserve(data, off))
    decreases Left(data, off)
  {
    hide U64At;
    if off + 16 <= |data| {
      ReservesAreNotZero(data, off + 16);
    }
  }

  // ----- what the parser accepts has NUL-free names

  ghost predicate StateNulFree(s: State) {
    && (forall n <- s.stack :: NamesNulFree(n))
    && (s.root.Some? ==> NamesNulFree(s.root.value))
  }

  lemma AttachNulFree(s: State, n: Node)
    requires StateNulFree(s) && NamesNulFree(n)
    ensures StateNulFree(Attach(s, n))
  {
    hide NulFree;
    if s.stack != [] {
      var top := s.stack[|s.stack| - 1];
      assert top in s.stack;
      assert NamesNulFree(AddChild(top, n));
    }
  }

  lemma StepNulFree(data: Bytes, strs: Bytes, s: State)
    requires StateNulFree(s) && Step(data, strs, s).Next?
    ensures StateNulFree(Step(data, strs, s).state)
  {
    hide NulFrom, PropAt, StringAt, Attach, U32At, NulFree;
    var p := s.pos + 4;
    if s.stack != [] {
      assert s.stack[|s.stack| - 1] in s.stack;
    }
    match U32At(data, s.pos)
    case 1 =>
      assert NamesNulFree(Node(data[p..NulFrom(data, p)], [], []));
    case 2 =>
      AttachNulFree(State(p, s.stack[..|s.stack| - 1], s.root), s.stack[|s.stack| - 1]);
    case 3 =>
      assert NamesNulFree(AddProp(s.stack[|s.stack| - 1], PropAt(data, strs, p).value));
    case _ =>
  }

  lemma {:induction false} RunNulFree(data: Bytes, strs: Bytes, s: State)
    requires StateNulFree(s) && Run(data, strs, s).Ok?
    ensures NamesNulFree(Run(data, strs, s).value)
    decreases Left(data, s.pos)
  {
    hide NamesNulFree, PropAt, U32At, NulFrom;
    if Step(data, strs, s).Next? {
      StepNulFree(data, strs, s);
      RunNulFree(data, strs, Step(data, strs, s).state);
    }
  }

  // ----- the whole file

  /** The trees the format can carry. A caller can check each condition before writing. */
  ghost predicate Printable(t: Tree) {
    && t.root.Some? && NamesNulFree(t.root.value)
    && (t.version == 0 || t.version >= MIN_VERSION)
    && NoZeroEntry(t.reserveMap)
  }

  lemma AcceptedIsPrintable(file: Bytes)
    requires Deserialise(file).Ok?
    ensures Printable(Deserialise(file).value)
  {
    hide Run, U32At, ReadReserve, NamesNulFree, NoZeroEntry;
    var data := file[..U32At(file, 4)];
    var endStrings := Wrap(U32At(data, 12) + U32At(data, 32));
    var endStruct := Wrap(U32At(data, 8) + U32At(data, 36));
    RunNulFree(data[U32At(data, 8)..endStruct], data[U32At(data, 12)..endStrings], START);
    ReservesAreNotZero(data, U32At(data, 16));
  }

  lemma {:induction false} ConcatField(words: seq<u32>, file: Bytes, i: nat)
    requires Words(words) <= file && i < |words|
    ensures 4 * i + 4 <= |file| && U32At(file, 4 * i) == words[i]
  {
    hide U32Bytes, U32At;
    var last := words[|words| - 1];
    var front := Words(words[..|words| - 1]);
    assert file[..|Words(words)|] == Words(words);
    if i == |words| - 1 {
      assert file[4 * i..4 * i + 4] == Words(words)[4 * i..4 * i + 4] == U32Bytes(last);
      U32ReadsBack(file, 4 * i, last);
    } else {
      assert front <= file by { assert file[..|front|] == Words(words)[..|front|]; }
      ConcatField(words[..|words| - 1], file, i);
    }
  }

  lemma FileReadsBack(t: Tree)
    requires Printable(t) && SerialisedSize(t) < 0x1_0000_0000
    ensures Serialise(t).Ok? && Deserialise(Serialise(t).value) == Ok(Defaulted(t))
  {
    hide Run, U32At, ReadReserve, NamesNulFree, NoZeroEntry, StructBlock, ReserveBlock, Words, At;
    var d, root := Defaulted(t), t.root.value;
    var rsv, w := ReserveBlock(t.reserveMap), StructBlock(root);
    var offStruct: u32, offStrings: u32 := HEADER_SIZE + |rsv|, HEADER_SIZE + |rsv| + |w.bytes|;
    var header := HeaderBytes(SerialisedSize(t), offStruct, offStrings, d.version, d.compVersion, t.bootCpuId,
                              |w.table.data|, |w.bytes|);
    var file := header + rsv + w.bytes + w.table.data;
    assert Serialise(t) == Ok(file);
    var words: seq<u32> := [MAGIC, SerialisedSize(t), offStruct, offStrings, HEADER_SIZE, d.version, d.compVersion,
                            t.bootCpuId, |w.table.data|, |w.bytes|];
    assert header == Words(words) <= file;
    FileFields(words, file);
    assert file[..SerialisedSize(t)] == file;
    BlocksOf(header, rsv, w.bytes, w.table.data);
    StructBlockReadsBack(root, w.bytes, w.table.data);
    ReserveReadsBack(file, HEADER_SIZE, t.reserveMap, 0);
  }

  lemma FileFields(words: seq<u32>, file: Bytes)
    requires |words| == 10 && Words(words) <= file
    ensures |file| >= 40
    ensures U32At(file, 0) == words[0] && U32At(file, 4) == words[1] && U32At(file, 8) == words[2]
    ensures U32At(file, 12) == words[3] && U32At(file, 16) == words[4] && U32At(file, 20) == words[5]
    ensures U32At(file, 24) == words[6] && U32At(file, 28) == words[7] && U32At(file, 32) == words[8]
    ensures U32At(file, 36) == words[9]
  {
    hide U32At, Words;
    forall i: nat | i < 10 ensures 4 * i + 4 <= |file| && U32At(file, 4 * i) == words[i] {
      ConcatField(words, file, i);
    }
  }

  lemma BlocksOf(header: Bytes, rsv: Bytes, st: Bytes, strs: Bytes)
    ensures var file := header + rsv + st + strs;
            && At(file, |header|, rsv)
            && file[|header + rsv|..|header + rsv| + |st|] == st
            && file[|header + rsv + st|..|header + rsv + st| + |strs|] == strs
  {
    var file := header + rsv + st + strs;
    assert file == header + (rsv + (st + strs));
    assert file == (header + rsv) + (st + strs);
  }

  /** Parse undoes Bytes exactly on the printable trees: every tree whose file stays below 2^32 bytes. */
  lemma RoundTrip(t: Tree)
    requires t.root.Some? && SerialisedSize(t) < 0x1_0000_0000
    ensures Serialise(t).Ok?
    ensures Deserialise(Serialise(t).value) == Ok(Defaulted(t)) <==> Printable(t)
  {
    hide Run, U32At, ReadReserve, NamesNulFree, NoZeroEntry, StructBlock, ReserveBlock, HeaderBytes, Deserialise;
    if Printable(t) {
      FileReadsBack(t);
    } else if Deserialise(Serialise(t).value) == Ok(Defaulted(t)) {
      AcceptedIsPrintable(Serialise(t).value);
    }
  }

  /** Every tree that Parse accepts can be written and reads back, with the compatible version filled in. */
  lemma AcceptedReprints(file: Bytes)
    requires Deserialise(file).Ok? && SerialisedSize(Deserialise(file).value) < 0x1_0000_0000
    ensures var t := Deserialise(file).value;
            && Serialise(t).Ok?
            && Deserialise(Serialise(t).value) == Ok(t.(compVersion := OrDefault(t.compVersion, MIN_VERSION)))
  {
    hide Run, U32At, ReadReserve, NamesNulFree, NoZeroEntry, StructBlock, ReserveBlock, HeaderBytes, Serialise;
    AcceptedIsPrintable(file);
    FileReadsBack(Deserialise(file).value);
  }
}
