/** The flattened device tree format: internal/dtb/dtb.go. */
module FlatTree {
  import opened GoStrings

  const MAGIC: u32 := 0xd00dfeed
  const BEGIN_NODE: u32 := 1
  const END_NODE: u32 := 2
  const PROP: u32 := 3
  const NOP: u32 := 4
  const END: u32 := 9
  const HEADER_SIZE: nat := 40
  const MIN_VERSION: u32 := 16
  const DEFAULT_VERSION: u32 := 17

  datatype Property = Property(name: Bytes, value: Bytes)
  datatype Node = Node(name: Bytes, props: seq<Property>, children: seq<Node>)
  datatype ReserveEntry = ReserveEntry(address: u64, size: u64)
  datatype Tree = Tree(root: Option<Node>, reserveMap: seq<ReserveEntry>,
                       bootCpuId: u32, version: u32, compVersion: u32)

  predicate NulFree(s: Bytes) { forall i | 0 <= i < |s| :: s[i] != 0 }

  predicate NamesNulFree(n: Node) {
    && NulFree(n.name)
    && (forall p <- n.props :: NulFree(p.name))
    && (forall c <- n.children :: NamesNulFree(c))
  }

  function Zeros(k: nat): (b: Bytes)
    ensures |b| == k && forall i | 0 <= i < k :: b[i] == 0
  {
    seq(k, _ => 0)
  }

  function Align4(n: nat): (r: nat)
    ensures r % 4 == 0 && n <= r < n + 4
  {
    (n + 3) / 4 * 4
  }

  function Pad4(b: Bytes): (p: Bytes)
    ensures |p| == Align4(|b|) && |p| % 4 == 0 && b <= p
  {
    b + Zeros(Align4(|b|) - |b|)
  }

  lemma AlignedSum(a: Bytes, b: Bytes)
    requires |a| % 4 == 0 && |b| % 4 == 0
    ensures |a + b| % 4 == 0
  {
  }

  lemma TwelveMore(n: nat)
    requires n % 4 == 0
    ensures (12 + n) % 4 == 0
  {
  }

  // ----- the strings table

  datatype Table = Table(data: Bytes, offsets: map<Bytes, u32>)

  const EMPTY_TABLE: Table := Table([], map[])

  datatype Interned = Interned(table: Table, offset: u32)

  function Intern(t: Table, name: Bytes): Interned {
    if name in t.offsets then Interned(t, t.offsets[name])
    else
      var off := Wrap(|t.data|);
      Interned(Table(t.data + name + [0], t.offsets[name := off]), off)
  }

  class StrTab {
    var data: Bytes
    var offsets: map<Bytes, u32>

    ghost function View(): Table
      reads this
    {
      Table(data, offsets)
    }

    constructor ()
      ensures View() == EMPTY_TABLE
    {
      data, offsets := [], map[];
    }

    method Add(name: Bytes) returns (off: u32)
      modifies this
      ensures View() == Intern(old(View()), name).table
      ensures off == Intern(old(View()), name).offset
    {
      if name in offsets {
        return offsets[name];
      }
      off := Wrap(|data|);
      data := data + name;
      data := data + [0];
      offsets := offsets[name := off];
    }
  }

  // ----- the writer

  datatype Written = Written(bytes: Bytes, table: Table)

  function PropBytes(p: Property, off: u32): (b: Bytes)
    ensures |b| == 12 + Align4(|p.value|) && |b| % 4 == 0
  {
    hide U32Bytes, Wrap, Align4, Pad4;
    TwelveMore(Align4(|p.value|));
    U32Bytes(PROP) + U32Bytes(Wrap(|p.value|)) + U32Bytes(off) + Pad4(p.value)
  }

  function WriteProps(ps: seq<Property>, t: Table): (w: Written)
    ensures |w.bytes| % 4 == 0
  {
    if ps == [] then Written([], t)
    else
      var before := WriteProps(ps[..|ps| - 1], t);
      var p := ps[|ps| - 1];
      var i := Intern(before.table, p.name);
      AlignedSum(before.bytes, PropBytes(p, i.offset));
      Written(before.bytes + PropBytes(p, i.offset), i.table)
  }

  function BeginBytes(name: Bytes): (b: Bytes)
    ensures |b| % 4 == 0
  {
    U32Bytes(BEGIN_NODE) + Pad4(name + [0])
  }

  function WriteNode(n: Node, t: Table): (w: Written)
    ensures |w.bytes| % 4 == 0
    decreases n, 1
  {
    var props := WriteProps(n.props, t);
    var children := WriteNodes(n.children, props.table);
    var begin := BeginBytes(n.name);
    AlignedSum(begin, props.bytes);
    AlignedSum(begin + props.bytes, children.bytes);
    AlignedSum(begin + props.bytes + children.bytes, U32Bytes(END_NODE));
    Written(begin + props.bytes + children.bytes + U32Bytes(END_NODE), children.table)
  }

  function WriteNodes(cs: seq<Node>, t: Table): (w: Written)
    ensures |w.bytes| % 4 == 0
    decreases cs, 0
  {
    if cs == [] then Written([], t)
    else
      var before := WriteNodes(cs[..|cs| - 1], t);
      var last := WriteNode(cs[|cs| - 1], before.table);
      AlignedSum(before.bytes, last.bytes);
      Written(before.bytes + last.bytes, last.table)
  }

  method Pad4Buffer(b: Bytes) returns (out: Bytes)
    ensures out == Pad4(b)
  {
    out := b;
    while |out| % 4 != 0
      invariant b <= out && |out| <= Align4(|b|)
      invariant out[|b|..] == Zeros(|out| - |b|)
      decreases Align4(|b|) - |out|
    {
      out := out + [0];
    }
    assert out == b + out[|b|..];
  }

  /** Padding counts from the start of the buffer, so an aligned start pads each chunk alone. */
  lemma PadsChunk(out: Bytes, chunk: Bytes)
    requires |out| % 4 == 0
    ensures Pad4(out + chunk) == out + Pad4(chunk)
  {
    assert Align4(|out + chunk|) == |out| + Align4(|chunk|);
  }

  method AppendU32(b: Bytes, v: u32) returns (out: Bytes)
    ensures out == b + U32Bytes(v)
  {
    out := b + [(v / 0x100_0000) as byte, (v / 0x1_0000 % 256) as byte, (v / 0x100 % 256) as byte, (v % 256) as byte];
  }

  method AppendBegin(buffer: Bytes, name: Bytes) returns (out: Bytes)
    requires |buffer| % 4 == 0
    ensures out == buffer + BeginBytes(name) && |out| % 4 == 0
  {
    out := AppendU32(buffer, BEGIN_NODE);
    PadsChunk(out, name + [0]);
    assert (out + name) + [0] == out + (name + [0]);
    out := out + name;
    out := out + [0];
    out := Pad4Buffer(out);
  }

  method AppendProp(buffer: Bytes, p: Property, s: StrTab) returns (out: Bytes)
    requires |buffer| % 4 == 0
    modifies s
    ensures s.View() == Intern(old(s.View()), p.name).table
    ensures out == buffer + PropBytes(p, Intern(old(s.View()), p.name).offset) && |out| % 4 == 0
  {
    out := AppendU32(buffer, PROP);
    out := AppendU32(out, Wrap(|p.value|));
    var off := s.Add(p.name);
    out := AppendU32(out, off);
    PadsChunk(out, p.value);
    out := out + p.value;
    out := Pad4Buffer(out);
  }

  method WritePropsTo(buffer: Bytes, props: seq<Property>, s: StrTab) returns (out: Bytes)
    requires |buffer| % 4 == 0
    modifies s
    ensures |out| % 4 == 0
    ensures out == buffer + WriteProps(props, old(s.View())).bytes
    ensures s.View() == WriteProps(props, old(s.View())).table
  {
    ghost var t0 := s.View();
    out := buffer;
    for i := 0 to |props|
      invariant |out| % 4 == 0
      invariant s.View() == WriteProps(props[..i], t0).table
      invariant out == buffer + WriteProps(props[..i], t0).bytes
    {
      assert props[..i + 1][..i] == props[..i];
      out := AppendProp(out, props[i], s);
    }
    assert props[..|props|] == props;
  }

  method WriteNodesTo(buffer: Bytes, cs: seq<Node>, s: StrTab) returns (out: Bytes)
    requires |buffer| % 4 == 0
    modifies s
    ensures |out| % 4 == 0
    ensures out == buffer + WriteNodes(cs, old(s.View())).bytes
    ensures s.View() == WriteNodes(cs, old(s.View())).table
    decreases cs, 0
  {
    ghost var t0 := s.View();
    out := buffer;
    for i := 0 to |cs|
      invariant |out| % 4 == 0
      invariant s.View() == WriteNodes(cs[..i], t0).table
      invariant out == buffer + WriteNodes(cs[..i], t0).bytes
    {
      assert cs[..i + 1][..i] == cs[..i];
      out := WriteNodeTo(out, cs[i], s);
    }
    assert cs[..|cs|] == cs;
  }

  method WriteNodeTo(buffer: Bytes, n: Node, s: StrTab) returns (out: Bytes)
    requires |buffer| % 4 == 0
    modifies s
    ensures |out| % 4 == 0
    ensures out == buffer + WriteNode(n, old(s.View())).bytes
    ensures s.View() == WriteNode(n, old(s.View())).table
    decreases n, 1
  {
    hide WriteProps, WriteNodes, U32Bytes;
    out := AppendBegin(buffer, n.name);
    out := WritePropsTo(out, n.props, s);
    out := WriteNodesTo(out, n.children, s);
    AlignedSum(out, U32Bytes(END_NODE));
    out := AppendU32(out, END_NODE);
  }

  // ----- the whole file

  function WriteReserve(es: seq<ReserveEntry>): (b: Bytes)
    ensures |b| == 16 * |es|
  {
    if es == [] then []
    else
      var e := es[|es| - 1];
      WriteReserve(es[..|es| - 1]) + (U64Bytes(e.address) + U64Bytes(e.size))
  }

  function OrDefault(v: u32, default: u32): u32 { if v == 0 then default else v }

  /** The tree as it reads back: unset versions take their defaults. */
  function Defaulted(t: Tree): Tree {
    t.(version := OrDefault(t.version, DEFAULT_VERSION), compVersion := OrDefault(t.compVersion, MIN_VERSION))
  }

  function StructBlock(root: Node): Written {
    var w := WriteNode(root, EMPTY_TABLE);
    Written(w.bytes + U32Bytes(END), w.table)
  }

  function ReserveBlock(es: seq<ReserveEntry>): Bytes {
    WriteReserve(es) + U64Bytes(0) + U64Bytes(0)
  }

  function SerialisedSize(t: Tree): nat
    requires t.root.Some?
  {
    var st := StructBlock(t.root.value);
    HEADER_SIZE + |ReserveBlock(t.reserveMap)| + |st.bytes| + |st.table.data|
  }

  /** Big-endian words laid end to end. */
  function Words(words: seq<u32>): (b: Bytes)
    ensures |b| == 4 * |words|
  {
    if words == [] then [] else Words(words[..|words| - 1]) + U32Bytes(words[|words| - 1])
  }

  function HeaderBytes(total: u32, offStruct: u32, offStrings: u32, version: u32, comp: u32,
                       boot: u32, sizeStrings: u32, sizeStruct: u32): (b: Bytes)
    ensures |b| == HEADER_SIZE
  {
    Words([MAGIC, total, offStruct, offStrings, HEADER_SIZE, version, comp, boot, sizeStrings, sizeStruct])
  }

  /** An operation ends with a value, an error return, or a run-time panic. */
  datatype Result<+T> = Ok(value: T) | Failed(error: Error) | Panics

  datatype Error =
    | NoRootNode | TooShort | BadMagic | TotalTooLarge | OldVersion | BlockPastEnd
    | EndedMidToken | UnterminatedName | NameOffsetPastStrings | UnterminatedPropertyName
    | SecondRoot | UnmatchedEnd | ValuePastEnd | PropertyOutsideNode | NodesStillOpen | UnknownToken
    | NoBays

  /** Header and blocks laid end to end; every offset is a uint32. */
  function Assemble(version: u32, comp: u32, boot: u32, rsv: Bytes, st: Bytes, strs: Bytes): Result<Bytes> {
    var offStruct := Wrap(HEADER_SIZE + |rsv|);
    var offStrings := Wrap(offStruct + |st|);
    var total := Wrap(offStrings + |strs|);
    if total < HEADER_SIZE then Panics
    else
      Ok(HeaderBytes(total, offStruct, offStrings, version, comp, boot, Wrap(|strs|), Wrap(|st|)) + rsv + st + strs)
  }

  function Serialise(t: Tree): Result<Bytes> {
    if t.root.None? then Failed(NoRootNode)
    else
      var st := StructBlock(t.root.value);
      var d := Defaulted(t);
      Assemble(d.version, d.compVersion, t.bootCpuId, ReserveBlock(t.reserveMap), st.bytes, st.table.data)
  }

  method AppendReserve(es: seq<ReserveEntry>) returns (rsv: Bytes)
    ensures rsv == ReserveBlock(es)
  {
    rsv := [];
    for i := 0 to |es|
      invariant rsv == WriteReserve(es[..i])
    {
      assert es[..i + 1][..i] == es[..i];
      rsv := rsv + U64Bytes(es[i].address);
      rsv := rsv + U64Bytes(es[i].size);
    }
    assert es[..|es|] == es;
    rsv := rsv + U64Bytes(0);
    rsv := rsv + U64Bytes(0);
  }

  method BytesOf(t: Tree) returns (r: Result<Bytes>)
    ensures r == Serialise(t)
  {
    if t.root.None? {
      return Failed(NoRootNode);
    }
    var version := t.version;
    if version == 0 {
      version := DEFAULT_VERSION;
    }
    var comp := t.compVersion;
    if comp == 0 {
      comp := MIN_VERSION;
    }
    var s := new StrTab();
    var st := WriteNodeTo([], t.root.value, s);
    st := AppendU32(st, END);
    var rsv := AppendReserve(t.reserveMap);
    assert st == StructBlock(t.root.value).bytes;
    r := Assemble(version, comp, t.bootCpuId, rsv, st, s.data);
  }

  // ----- the reader

  /** The index of the first NUL at or after i, or |b| when there is none. */
  function NulFrom(b: Bytes, i: nat): (j: nat)
    requires i <= |b|
    ensures i <= j <= |b|
    ensures NulFree(b[i..j])
    ensures j < |b| ==> b[j] == 0
    decreases |b| - i
  {
    if i == |b| || b[i] == 0 then i
    else
      var j := NulFrom(b, i + 1);
      assert b[i..j] == [b[i]] + b[i + 1..j];
      j
  }

  lemma NulFromUnique(b: Bytes, i: nat, j: nat)
    requires i <= j < |b| && b[j] == 0 && NulFree(b[i..j])
    ensures NulFrom(b, i) == j
    decreases j - i
  {
    if i < j {
      assert b[i..j][0] == b[i];
      assert b[i + 1..j] == b[i..j][1..];
      NulFromUnique(b, i + 1, j);
    }
  }

  function StringAt(strs: Bytes, off: u32): (r: Result<Bytes>)
    ensures r.Ok? ==> NulFree(r.value)
    ensures !r.Panics?
  {
    if off >= |strs| then Failed(NameOffsetPastStrings)
    else
      var end := NulFrom(strs, off);
      if end == |strs| then Failed(UnterminatedPropertyName) else Ok(strs[off..end])
  }

  /** The parser between two tokens. `root` holds the root node once it is closed. */
  datatype State = State(pos: nat, stack: seq<Node>, root: Option<Node>)

  datatype Outcome = Next(state: State) | Done(node: Node) | Error(error: Error)

  function AddChild(parent: Node, child: Node): Node {
    parent.(children := parent.children + [child])
  }

  function AddProp(n: Node, p: Property): Node {
    n.(props := n.props + [p])
  }

  /** The length, name offset and value of a property whose token has been read. */
  function PropAt(data: Bytes, strs: Bytes, p: nat): (r: Result<Property>)
    ensures !r.Panics?
    ensures r.Ok? ==> NulFree(r.value.name) && p + 8 + |r.value.value| <= |data|
  {
    if p + 8 > |data| then Failed(EndedMidToken)
    else
      var length := U32At(data, p);
      var name := StringAt(strs, U32At(data, p + 4));
      if p + 8 + length > |data| then Failed(ValuePastEnd)
      else if name.Failed? then Failed(name.error)
      else Ok(Property(name.value, data[p + 8..p + 8 + length]))
  }

  /** The state after node n has been closed on top of s. */
  function Attach(s: State, n: Node): State {
    if s.stack == [] then s.(root := Some(n))
    else s.(stack := s.stack[..|s.stack| - 1] + [AddChild(s.stack[|s.stack| - 1], n)])
  }

  function Step(data: Bytes, strs: Bytes, s: State): (o: Outcome)
    ensures o.Next? ==> s.pos + 4 <= |data| && s.pos + 4 <= o.state.pos
  {
    if s.pos + 4 > |data| then Error(EndedMidToken)
    else
      var p := s.pos + 4;
      match U32At(data, s.pos)
      case 4 => Next(s.(pos := p))
      case 1 =>
        var end := NulFrom(data, p);
        if end == |data| then Error(UnterminatedName)
        else if s.stack == [] && s.root.Some? then Error(SecondRoot)
        else Next(s.(pos := Align4(end + 1), stack := s.stack + [Node(data[p..end], [], [])]))
      case 2 =>
        if s.stack == [] then Error(UnmatchedEnd)
        else Next(Attach(State(p, s.stack[..|s.stack| - 1], s.root), s.stack[|s.stack| - 1]))
      case 3 =>
        var prop := PropAt(data, strs, p);
        if prop.Failed? then Error(prop.error)
        else if s.stack == [] then Error(PropertyOutsideNode)
        else
          Next(State(Align4(p + 8 + |prop.value.value|),
                     s.stack[..|s.stack| - 1] + [AddProp(s.stack[|s.stack| - 1], prop.value)], s.root))
      case 9 =>
        if s.stack != [] then Error(NodesStillOpen)
        else if s.root.None? then Error(NoRootNode)
        else Done(s.root.value)
      case _ => Error(UnknownToken)
  }

  function Left(data: Bytes, pos: nat): nat { if pos <= |data| then |data| - pos else 0 }

  function Run(data: Bytes, strs: Bytes, s: State): Result<Node>
    decreases Left(data, s.pos)
  {
    match Step(data, strs, s)
    case Next(s') => Run(data, strs, s')
    case Done(n) => Ok(n)
    case Error(e) => Failed(e)
  }

  lemma RunOneStep(data: Bytes, strs: Bytes, s: State)
    ensures Run(data, strs, s) == match Step(data, strs, s)
                                  case Next(s') => Run(data, strs, s')
                                  case Done(n) => Ok(n)
                                  case Error(e) => Failed(e)
  {
    hide Step;
  }

  const START: State := State(0, [], None)

  /** dtb.go's parser: a position that moves through the structure block. */
  class Parser {
    const data: Bytes
    const strs: Bytes
    var pos: nat

    constructor (data: Bytes, strs: Bytes)
      ensures this.data == data && this.strs == strs && pos == 0
    {
      this.data, this.strs, pos := data, strs, 0;
    }

    method U32() returns (r: Result<u32>)
      modifies this
      ensures old(pos) + 4 > |data| ==> r == Failed(EndedMidToken) && pos == old(pos)
      ensures old(pos) + 4 <= |data| ==> r == Ok(U32At(data, old(pos))) && pos == old(pos) + 4
    {
      if pos + 4 > |data| {
        return Failed(EndedMidToken);
      }
      r := Ok(U32At(data, pos));
      pos := pos + 4;
    }

    method CStr() returns (r: Result<Bytes>)
      requires pos <= |data|
      modifies this
      ensures var end := NulFrom(data, old(pos));
              if end == |data| then r == Failed(UnterminatedName)
              else r == Ok(data[old(pos)..end]) && pos == Align4(end + 1)
    {
      var start := pos;
      while pos < |data| && data[pos] != 0
        invariant start <= pos <= |data|
        invariant NulFrom(data, start) == NulFrom(data, pos)
      {
        pos := pos + 1;
      }
      if pos >= |data| {
        return Failed(UnterminatedName);
      }
      r := Ok(data[start..pos]);
      pos := Align4(pos + 1);
    }

    method NameAt(off: u32) returns (r: Result<Bytes>)
      ensures r == StringAt(strs, off)
    {
      if off >= |strs| {
        return Failed(NameOffsetPastStrings);
      }
      var i := off;
      while i < |strs|
        invariant off <= i <= |strs|
        invariant NulFrom(strs, off) == NulFrom(strs, i)
      {
        if strs[i] == 0 {
          return Ok(strs[off..i]);
        }
        i := i + 1;
      }
      r := Failed(UnterminatedPropertyName);
    }

    method Prop() returns (r: Result<Property>)
      modifies this
      ensures r == PropAt(data, strs, old(pos))
      ensures r.Ok? ==> pos == Align4(old(pos) + 8 + |r.value.value|)
    {
      var length := U32();
      if length.Failed? {
        return Failed(length.error);
      }
      var nameOff := U32();
      if nameOff.Failed? {
        return Failed(nameOff.error);
      }
      if pos + length.value > |data| {
        return Failed(ValuePastEnd);
      }
      var name := NameAt(nameOff.value);
      if name.Failed? {
        return Failed(name.error);
      }
      r := Ok(Property(name.value, data[pos..pos + length.value]));
      pos := Align4(pos + length.value);
    }

    method Parse() returns (r: Result<Node>)
      modifies this
      requires pos == 0
      ensures r == Run(data, strs, START)
    {
      hide PropAt, U32At, NulFrom, Run, AddChild, AddProp;
      var root: Option<Node> := None;
      var stack: seq<Node> := [];
      while true
        invariant Run(data, strs, START) == Run(data, strs, State(pos, stack, root))
        decreases Left(data, pos)
      {
        ghost var s := State(pos, stack, root);
        RunOneStep(data, strs, s);
        var tok := U32();
        if tok.Failed? {
          return Failed(tok.error);
        }
        match tok.value {
        case 4 =>
        case 1 =>
          var name := CStr();
          if name.Failed? {
            return Failed(name.error);
          }
          if |stack| == 0 && root.Some? {
            return Failed(SecondRoot);
          }
          stack := stack + [Node(name.value, [], [])];
          assert Step(data, strs, s) == Next(State(pos, stack, root));
        case 2 =>
          if |stack| == 0 {
            return Failed(UnmatchedEnd);
          }
          var top := stack[|stack| - 1];
          stack := stack[..|stack| - 1];
          if |stack| == 0 {
            root := Some(top);
          } else {
            stack := stack[..|stack| - 1] + [AddChild(stack[|stack| - 1], top)];
          }
          assert Step(data, strs, s) == Next(State(pos, stack, root));
        case 3 =>
          var prop := Prop();
          if prop.Failed? {
            return Failed(prop.error);
          }
          if |stack| == 0 {
            return Failed(PropertyOutsideNode);
          }
          stack := stack[..|stack| - 1] + [AddProp(stack[|stack| - 1], prop.value)];
          assert Step(data, strs, s) == Next(State(pos, stack, root));
        case 9 =>
          if |stack| != 0 {
            return Failed(NodesStillOpen);
          }
          if root.None? {
            return Failed(NoRootNode);
          }
          return Ok(root.value);
        case _ =>
          return Failed(UnknownToken);
        }
      }
    }
  }

  function ReadReserve(data: Bytes, off: nat): seq<ReserveEntry>
    decreases Left(data, off)
  {
    if off + 16 > |data| then []
    else
      var e := ReserveEntry(U64At(data, off), U64At(data, off + 8));
      if e == ReserveEntry(0, 0) then [] else [e] + ReadReserve(data, off + 16)
  }

  method ReserveMapOf(data: Bytes, offRsv: nat) returns (reserve: seq<ReserveEntry>)
    ensures reserve == ReadReserve(data, offRsv)
  {
    reserve := [];
    var off: nat := offRsv;
    while off + 16 <= |data|
      invariant ReadReserve(data, offRsv) == reserve + ReadReserve(data, off)
      decreases Left(data, off)
    {
      var e := ReserveEntry(U64At(data, off), U64At(data, off + 8));
      if e == ReserveEntry(0, 0) {
        break;
      }
      reserve := reserve + [e];
      off := off + 16;
    }
  }

  /** What reading a file gives; a slice or header read out of range panics. */
  function Deserialise(file: Bytes): Result<Tree> {
    if |file| < HEADER_SIZE then Failed(TooShort)
    else if U32At(file, 0) != MAGIC then Failed(BadMagic)
    else if U32At(file, 4) > |file| then Failed(TotalTooLarge)
    else
      var data := file[..U32At(file, 4)];
      if |data| < 32 then Panics
      else if U32At(data, 20) < MIN_VERSION then Failed(OldVersion)
      else if |data| < HEADER_SIZE then Panics
      else
        var offStruct, offStrings := U32At(data, 8), U32At(data, 12);
        var endStrings := Wrap(offStrings + U32At(data, 32));
        var endStruct := Wrap(offStruct + U32At(data, 36));
        if endStruct > |data| || endStrings > |data| then Failed(BlockPastEnd)
        else if endStrings < offStrings || endStruct < offStruct then Panics
        else
          var root := Run(data[offStruct..endStruct], data[offStrings..endStrings], START);
          if root.Failed? then Failed(root.error)
          else if root.Panics? then Panics
          else Ok(Tree(Some(root.value), ReadReserve(data, U32At(data, 16)),
                       U32At(data, 28), U32At(data, 20), U32At(data, 24)))
  }

  method Parse(file: Bytes) returns (r: Result<Tree>)
    ensures r == Deserialise(file)
  {
    if |file| < HEADER_SIZE {
      return Failed(TooShort);
    }
    if U32At(file, 0) != MAGIC {
      return Failed(BadMagic);
    }
    var total := U32At(file, 4);
    if total > |file| {
      return Failed(TotalTooLarge);
    }
    var data := file[..total];
    if |data| < 32 {
      return Panics;
    }
    var version, comp, boot := U32At(data, 20), U32At(data, 24), U32At(data, 28);
    if version < MIN_VERSION {
      return Failed(OldVersion);
    }
    if |data| < HEADER_SIZE {
      return Panics;
    }
    var offStruct: nat, offStrings: nat, offRsv: nat := U32At(data, 8), U32At(data, 12), U32At(data, 16);
    var sizeStrings: nat, sizeStruct: nat := U32At(data, 32), U32At(data, 36);
    var endStruct := Wrap(offStruct + sizeStruct);
    var endStrings := Wrap(offStrings + sizeStrings);
    if endStruct > |data| || endStrings > |data| {
      return Failed(BlockPastEnd);
    }
    if endStrings < offStrings {
      return Panics;
    }
    var strs := data[offStrings..endStrings];
    var reserve := ReserveMapOf(data, offRsv);
    if endStruct < offStruct {
      return Panics;
    }
    var p := new Parser(data[offStruct..endStruct], strs);
    var root := p.Parse();
    match root
    case Failed(e) => r := Failed(e);
    case Panics => r := Panics;
    case Ok(n) => r := Ok(Tree(Some(n), reserve, boot, version, comp));
  }
}
