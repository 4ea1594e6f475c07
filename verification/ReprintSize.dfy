/** How large the reprint of an accepted file can get: internal/dtb/dtb.go. */
module ReprintSize {
  import opened GoStrings
  import opened FlatTree
  import opened RoundTrip

  // ----- the size of a written tree

  function PropsSize(ps: seq<Property>): nat {
    if ps == [] then 0 else PropsSize(ps[..|ps| - 1]) + 12 + Align4(|ps[|ps| - 1].value|)
  }

  function NodeSize(n: Node): nat
    decreases n, 1
  {
    8 + Align4(|n.name| + 1) + PropsSize(n.props) + NodesSize(n.children)
  }

  function NodesSize(cs: seq<Node>): nat
    decreases cs, 0
  {
    if cs == [] then 0 else NodesSize(cs[..|cs| - 1]) + NodeSize(cs[|cs| - 1])
  }

  lemma {:induction false} PropsAreSized(ps: seq<Property>, t: Table)
    ensures |WriteProps(ps, t).bytes| == PropsSize(ps)
  {
    hide PropBytes, Align4, Intern;
    if ps != [] {
      PropsAreSized(ps[..|ps| - 1], t);
    }
  }

  /** The length does not depend on the strings table. */
  lemma {:induction false} NodeIsSized(n: Node, t: Table)
    ensures |WriteNode(n, t).bytes| == NodeSize(n)
    decreases n, 1
  {
    hide WriteProps, PropsSize, NodesSize, WriteNodes, Align4, BeginBytes;
    PropsAreSized(n.props, t);
    NodesAreSized(n.children, WriteProps(n.props, t).table);
    BeginIsSized(n.name);
  }

  lemma {:induction false} NodesAreSized(cs: seq<Node>, t: Table)
    ensures |WriteNodes(cs, t).bytes| == NodesSize(cs)
    decreases cs, 0
  {
    hide NodeSize, WriteNode;
    if cs != [] {
      NodesAreSized(cs[..|cs| - 1], t);
      NodeIsSized(cs[|cs| - 1], WriteNodes(cs[..|cs| - 1], t).table);
    }
  }

  lemma BeginIsSized(name: Bytes)
    ensures |BeginBytes(name)| == 4 + Align4(|name| + 1)
  {
    hide Align4;
  }

  // ----- the structure block of an accepted tree is no longer than the one it was read from

  function StackSize(stack: seq<Node>): int {
    if stack == [] then 0 else StackSize(stack[..|stack| - 1]) + NodeSize(stack[|stack| - 1]) - 4
  }

  function RootSize(root: Option<Node>): nat { if root.Some? then NodeSize(root.value) else 0 }

  /** What has been built so far takes no more room than what has been read. */
  predicate NoLonger(s: State) {
    s.pos % 4 == 0 && StackSize(s.stack) + RootSize(s.root) <= s.pos
  }

  lemma StackPush(stack: seq<Node>, n: Node)
    ensures StackSize(stack + [n]) == StackSize(stack) + NodeSize(n) - 4
  {
    hide NodeSize;
    assert (stack + [n])[..|stack|] == stack;
  }

  lemma StackPop(stack: seq<Node>)
    requires stack != []
    ensures StackSize(stack) == StackSize(stack[..|stack| - 1]) + NodeSize(stack[|stack| - 1]) - 4
  {
    hide NodeSize;
  }

  lemma NewNodeSize(name: Bytes)
    ensures NodeSize(Node(name, [], [])) == 8 + Align4(|name| + 1)
  {
    hide Align4;
  }

  lemma ChildSize(n: Node, c: Node)
    ensures NodeSize(AddChild(n, c)) == NodeSize(n) + NodeSize(c)
  {
    hide PropsSize, Align4;
    assert (n.children + [c])[..|n.children|] == n.children;
  }

  lemma PropSize(n: Node, p: Property)
    ensures NodeSize(AddProp(n, p)) == NodeSize(n) + 12 + Align4(|p.value|)
  {
    hide NodesSize, Align4;
    assert (n.props + [p])[..|n.props|] == n.props;
  }

  lemma AttachSize(s: State, n: Node)
    requires StackSize(s.stack) + RootSize(s.root) + NodeSize(n) <= s.pos && s.pos % 4 == 0
    requires s.stack == [] ==> NodeSize(n) <= s.pos
    ensures NoLonger(Attach(s, n))
  {
    hide NodeSize, StackSize, AddChild;
    if s.stack == [] {
      EmptyStack();
    } else {
      var front, top := s.stack[..|s.stack| - 1], s.stack[|s.stack| - 1];
      StackPop(s.stack);
      ChildSize(top, n);
      StackPush(front, AddChild(top, n));
    }
  }

  lemma EmptyStack()
    ensures StackSize([]) == 0
  {
  }

  lemma StepNoLonger(data: Bytes, strs: Bytes, s: State)
    requires NoLonger(s) && Step(data, strs, s).Next?
    ensures NoLonger(Step(data, strs, s).state)
  {
    hide NulFrom, PropAt, StringAt, Attach, U32At, StackSize, NodeSize, Align4, AddProp;
    var p := s.pos + 4;
    AddMod4(s.pos, 4);
    match U32At(data, s.pos)
    case 1 =>
      var name := data[p..NulFrom(data, p)];
      NewNodeSize(name);
      StackPush(s.stack, Node(name, [], []));
      Align4Shift(p, |name| + 1);
    case 2 =>
      var front, top := s.stack[..|s.stack| - 1], s.stack[|s.stack| - 1];
      StackPop(s.stack);
      EmptyStack();
      AttachSize(State(p, front, s.root), top);
    case 3 =>
      var front, top := s.stack[..|s.stack| - 1], s.stack[|s.stack| - 1];
      var prop := PropAt(data, strs, p).value;
      StackPop(s.stack);
      PropSize(top, prop);
      StackPush(front, AddProp(top, prop));
      AddMod4(p, 8);
      Align4Shift(p + 8, |prop.value|);
    case _ =>
  }

  lemma {:induction false} RunNoLonger(data: Bytes, strs: Bytes, s: State)
    requires NoLonger(s) && Run(data, strs, s).Ok?
    requires StackSize(s.stack) >= 0
    ensures NodeSize(Run(data, strs, s).value) + 4 <= |data|
    decreases Left(data, s.pos)
  {
    hide NoLonger, PropAt, U32At, NulFrom, NodeSize, StackSize;
    match Step(data, strs, s)
    case Next(s') =>
      StepNoLonger(data, strs, s);
      StackIsNat(s'.stack);
      RunNoLonger(data, strs, s');
    case Done(_) =>
      DoneNoLonger(data, strs, s);
    case Error(_) =>
  }

  lemma {:induction false} StackIsNat(stack: seq<Node>)
    ensures StackSize(stack) >= 0
  {
    hide PropsSize, NodesSize, Align4;
    if stack != [] {
      StackIsNat(stack[..|stack| - 1]);
    }
  }

  lemma DoneNoLonger(data: Bytes, strs: Bytes, s: State)
    requires NoLonger(s) && Step(data, strs, s).Done? && StackSize(s.stack) >= 0
    ensures NodeSize(Step(data, strs, s).node) + 4 <= |data|
  {
    hide PropAt, U32At, NulFrom, NodeSize, StackSize, Attach, AddProp, Align4;
  }

  // ----- the strings

  function PropCount(n: Node): nat
    decreases n, 1
  {
    |n.props| + PropCounts(n.children)
  }

  function PropCounts(cs: seq<Node>): nat
    decreases cs, 0
  {
    if cs == [] then 0 else PropCounts(cs[..|cs| - 1]) + PropCount(cs[|cs| - 1])
  }

  /** Every property name with its NUL fits in so many bytes. */
  predicate NamesWithin(n: Node, limit: nat) {
    (forall p <- n.props :: |p.name| < limit) && forall c <- n.children :: NamesWithin(c, limit)
  }

  lemma MoreTimes(a: nat, b: nat, limit: nat)
    ensures (a + b) * limit == a * limit + b * limit
  {
  }

  lemma {:induction false} PropsStrings(ps: seq<Property>, t: Table, limit: nat)
    requires forall p <- ps :: |p.name| < limit
    ensures |WriteProps(ps, t).table.data| <= |t.data| + |ps| * limit
  {
    hide PropBytes;
    if ps != [] {
      PropsStrings(ps[..|ps| - 1], t, limit);
      MoreTimes(|ps| - 1, 1, limit);
      assert ps[|ps| - 1] in ps;
    }
  }

  lemma {:induction false} NodeStrings(n: Node, t: Table, limit: nat)
    requires NamesWithin(n, limit)
    ensures |WriteNode(n, t).table.data| <= |t.data| + PropCount(n) * limit
    decreases n, 1
  {
    hide WriteProps, WriteNodes, PropCounts, BeginBytes;
    PropsStrings(n.props, t, limit);
    NodesStrings(n.children, WriteProps(n.props, t).table, limit);
    MoreTimes(|n.props|, PropCounts(n.children), limit);
  }

  lemma {:induction false} NodesStrings(cs: seq<Node>, t: Table, limit: nat)
    requires forall c <- cs :: NamesWithin(c, limit)
    ensures |WriteNodes(cs, t).table.data| <= |t.data| + PropCounts(cs) * limit
    decreases cs, 0
  {
    hide WriteNode, PropCount, NamesWithin;
    if cs != [] {
      var front, last := cs[..|cs| - 1], cs[|cs| - 1];
      NodesStrings(front, t, limit);
      NodeStrings(last, WriteNodes(front, t).table, limit);
      MoreTimes(PropCounts(front), PropCount(last), limit);
    }
  }

  lemma {:induction false} PropsTakeTwelve(ps: seq<Property>)
    ensures 12 * |ps| <= PropsSize(ps)
  {
    hide Align4;
    if ps != [] {
      PropsTakeTwelve(ps[..|ps| - 1]);
    }
  }

  lemma {:induction false} CountIsSized(n: Node)
    ensures 12 * PropCount(n) <= NodeSize(n)
    decreases n, 1
  {
    hide PropsSize, NodesSize, PropCounts, Align4;
    PropsTakeTwelve(n.props);
    CountsAreSized(n.children);
  }

  lemma {:induction false} CountsAreSized(cs: seq<Node>)
    ensures 12 * PropCounts(cs) <= NodesSize(cs)
    decreases cs, 0
  {
    hide PropCount, NodeSize;
    if cs != [] {
      CountsAreSized(cs[..|cs| - 1]);
      CountIsSized(cs[|cs| - 1]);
    }
  }

  ghost predicate StateWithin(s: State, limit: nat) {
    && (forall n <- s.stack :: NamesWithin(n, limit))
    && (s.root.Some? ==> NamesWithin(s.root.value, limit))
  }

  lemma AttachWithin(s: State, n: Node, limit: nat)
    requires StateWithin(s, limit) && NamesWithin(n, limit)
    ensures StateWithin(Attach(s, n), limit)
  {
    if s.stack != [] {
      var top := s.stack[|s.stack| - 1];
      assert top in s.stack;
      assert NamesWithin(AddChild(top, n), limit);
    }
  }

  /** A name read from the strings block and its NUL lie inside it. */
  lemma NameIsWithin(data: Bytes, strs: Bytes, p: nat)
    requires PropAt(data, strs, p).Ok?
    ensures |PropAt(data, strs, p).value.name| < |strs|
  {
    hide U32At, NulFrom;
  }

  lemma StepWithin(data: Bytes, strs: Bytes, s: State)
    requires StateWithin(s, |strs|) && Step(data, strs, s).Next?
    ensures StateWithin(Step(data, strs, s).state, |strs|)
  {
    hide NulFrom, PropAt, StringAt, Attach, U32At;
    var p := s.pos + 4;
    if s.stack != [] {
      assert s.stack[|s.stack| - 1] in s.stack;
    }
    match U32At(data, s.pos)
    case 1 =>
      assert NamesWithin(Node(data[p..NulFrom(data, p)], [], []), |strs|);
    case 2 =>
      AttachWithin(State(p, s.stack[..|s.stack| - 1], s.root), s.stack[|s.stack| - 1], |strs|);
    case 3 =>
      NameIsWithin(data, strs, p);
      assert NamesWithin(AddProp(s.stack[|s.stack| - 1], PropAt(data, strs, p).value), |strs|);
    case _ =>
  }

  lemma {:induction false} RunWithin(data: Bytes, strs: Bytes, s: State)
    requires StateWithin(s, |strs|) && Run(data, strs, s).Ok?
    ensures NamesWithin(Run(data, strs, s).value, |strs|)
    decreases Left(data, s.pos)
  {
    hide NamesWithin, PropAt, U32At, NulFrom;
    if Step(data, strs, s).Next? {
      StepWithin(data, strs, s);
      RunWithin(data, strs, Step(data, strs, s).state);
    }
  }

  /** The two blocks of what is printed, against the two it was parsed from. */
  lemma BlocksAreBounded(data: Bytes, strs: Bytes)
    requires Run(data, strs, START).Ok?
    ensures var w := StructBlock(Run(data, strs, START).value);
            |w.bytes| <= |data| && |w.table.data| <= |data| / 12 * |strs|
  {
    hide Run, WriteNode, NodeSize, PropCount, NamesWithin, U32Bytes;
    var root := Run(data, strs, START).value;
    RunNoLonger(data, strs, START);
    RunWithin(data, strs, START);
    NodeIsSized(root, EMPTY_TABLE);
    NodeStrings(root, EMPTY_TABLE, |strs|);
    CountIsSized(root);
    Times(PropCount(root), |data| / 12, |strs|);
  }

  lemma Times(a: nat, b: nat, c: nat)
    requires a <= b
    ensures a * c <= b * c
  {
  }

  lemma {:induction false} ReservesFit(data: Bytes, off: nat)
    ensures 16 * |ReadReserve(data, off)| <= |data|
    ensures off <= |data| ==> 16 * |ReadReserve(data, off)| <= |data| - off
    decreases Left(data, off)
  {
    hide U64At;
    if off + 16 <= |data| {
      ReservesFit(data, off + 16);
    }
  }

  /** The reprint of an accepted file, bounded by the block sizes in its header. */
  lemma ReprintIsBounded(file: Bytes)
    requires Deserialise(file).Ok?
    ensures |file| >= HEADER_SIZE && Deserialise(file).value.root.Some?
    ensures var sizeStrings: nat, sizeStruct: nat := U32At(file, 32), U32At(file, 36);
            && sizeStruct <= |file| && sizeStrings <= |file|
            && SerialisedSize(Deserialise(file).value) <= |file| + 56 + sizeStruct + sizeStruct / 12 * sizeStrings
  {
    hide Run, ReadReserve, StructBlock, U32At, ReserveBlock, Wrap;
    var data := file[..U32At(file, 4)];
    HeaderIsWhole(file);
    var offStruct: nat, offStrings: nat := U32At(data, 8), U32At(data, 12);
    var sizeStrings: nat, sizeStruct: nat := U32At(data, 32), U32At(data, 36);
    WrapIsShorter(offStruct, sizeStruct);
    WrapIsShorter(offStrings, sizeStrings);
    var st, strs := data[offStruct..Wrap(offStruct + sizeStruct)], data[offStrings..Wrap(offStrings + sizeStrings)];
    BlocksAreBounded(st, strs);
    ReservesFit(data, U32At(data, 16));
    ReserveIsSized(ReadReserve(data, U32At(data, 16)));
  }

  lemma HeaderIsWhole(file: Bytes)
    requires Deserialise(file).Ok?
    ensures HEADER_SIZE <= U32At(file, 4) <= |file|
    ensures var data := file[..U32At(file, 4)]; U32At(data, 32) == U32At(file, 32) && U32At(data, 36) == U32At(file, 36)
  {
    hide Run, ReadReserve, Wrap;
  }

  /** Where the end of a block does not lie before its start, nothing has wrapped around. */
  lemma WrapIsShorter(a: nat, b: nat)
    requires a < 0x1_0000_0000 && b < 0x1_0000_0000
    ensures Wrap(a + b) >= a ==> Wrap(a + b) == a + b
  {
  }

  lemma ReserveIsSized(es: seq<ReserveEntry>)
    ensures |ReserveBlock(es)| == 16 * |es| + 16
  {
    hide WriteReserve, U64Bytes;
  }

  /** Every accepted file of up to 220 KiB can be written again and reads back as the same tree, with the compatible
      version filled in. */
  lemma SmallFileReprints(file: Bytes)
    requires Deserialise(file).Ok? && |file| <= 220 * 1024
    ensures var t := Deserialise(file).value;
            && Serialise(t).Ok?
            && Deserialise(Serialise(t).value) == Ok(t.(compVersion := OrDefault(t.compVersion, MIN_VERSION)))
  {
    hide Deserialise, SerialisedSize, U32At, Serialise;
    ReprintIsBounded(file);
    SmallProduct(U32At(file, 36), U32At(file, 32));
    AcceptedReprints(file);
  }

  lemma SmallProduct(sizeStruct: nat, sizeStrings: nat)
    requires sizeStruct <= 220 * 1024 && sizeStrings <= 220 * 1024
    ensures sizeStruct / 12 * sizeStrings <= 0xFFF0_0000
  {
    Times(sizeStruct / 12, 18774, sizeStrings);
  }
}
