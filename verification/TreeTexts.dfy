/** What trees and files say to their readers, in literal names and bytes: internal/dtb and chapter 5 of the Devicetree
    Specification. */
module TreeTexts {
  import opened GoStrings
  import opened FlatTree
  import opened RoundTrip
  import opened Slots
  import opened NvmeSlots
  import opened DeviceTrees
  import opened BootRewrite

  /** The number in four bytes, highest first. */
  function Word(b: Bytes, i: nat): nat
    requires i + 4 <= |b|
  {
    0x100_0000 * b[i] as int + 0x1_0000 * b[i + 1] as int + 0x100 * b[i + 2] as int + b[i + 3] as int
  }

  lemma WordIsU32At(b: Bytes, i: nat)
    requires i + 4 <= |b|
    ensures Word(b, i) == U32At(b, i)
  {
  }

  // ----- the M.2 slots

  /** One M.2 slot: its name counts from 1, and its two properties are text with a NUL. */
  predicate IsNvmeSlot(c: Node, i: nat, root: Bytes) {
    && c.name == Ascii("nvme_slot@") + Itoa(i + 1)
    && Prop(c, Ascii("pcie_root")) == Some(root + [0])
    && Prop(c, Ascii("port_type")) == Some(Ascii("ssdcache") + [0])
  }

  /** n times 14.85, a comma behind each but the last, and a NUL. */
  predicate IsPowerLimit(v: Bytes, n: nat) {
    && |v| == 6 * n
    && forall i: nat | i < n ::
         v[6 * i..6 * i + 5] == Ascii("14.85") && v[6 * i + 5] == if i < n - 1 then 44 else 0
  }

  lemma NvmeKeys()
    ensures PCIE_ROOT == Ascii("pcie_root") && PORT_TYPE == Ascii("port_type") && PCIE_ROOT != PORT_TYPE
  {
    assert PCIE_ROOT[1] == 99 && PORT_TYPE[1] == 111;
  }

  lemma NvmeNodeSays(i: nat, root: Bytes)
    ensures IsNvmeSlot(NvmeNode(i, root), i, root)
  {
    hide SetProp, Prop, Itoa;
    NvmeKeys();
    NvmeNodeName(i, root);
    var n := Node(NVME_PREFIX + Itoa(i + 1), [], []);
    var mid := SetString(n, PCIE_ROOT, root);
    PropAfterSet(n, PCIE_ROOT, root + [0], PCIE_ROOT);
    PropAfterSet(mid, PORT_TYPE, SSDCACHE + [0], PCIE_ROOT);
  }

  lemma LimitsStep(n: nat)
    ensures n > 0 ==> Limits(n)[0] == NVME_POWER_LIMIT && Limits(n)[1..] == Limits(n - 1)
  {
  }

  lemma LimitText()
    ensures NVME_POWER_LIMIT == Ascii("14.85") && |NVME_POWER_LIMIT| == 5 && COMMA == [44]
  {
  }

  lemma PowerLimitNext(rest: Bytes, n: nat)
    requires IsPowerLimit(rest, n) && n > 0
    ensures IsPowerLimit(Ascii("14.85") + [44] + rest, n + 1)
  {
    var first: Bytes := Ascii("14.85") + [44];
    var v := first + rest;
    forall i: nat | i < n + 1
      ensures v[6 * i..6 * i + 5] == Ascii("14.85") && v[6 * i + 5] == if i < n then 44 else 0
    {
      if i > 0 {
        var j := i - 1;
        assert v[6 * i..6 * i + 5] == rest[6 * j..6 * j + 5];
        assert v[6 * i + 5] == rest[6 * j + 5];
      }
    }
  }

  lemma {:induction false} LimitsJoined(n: nat)
    requires n > 0
    ensures IsPowerLimit(Join(Limits(n), COMMA) + [0], n)
  {
    hide Limits, IsPowerLimit;
    LimitText();
    LimitsStep(n);
    var rest := Limits(n - 1);
    if n == 1 {
      OneLimit();
    } else {
      LimitsJoined(n - 1);
      LimitsStep(n - 1);
      PowerLimitNext(Join(rest, COMMA) + [0], n - 1);
      JoinStep(NVME_POWER_LIMIT, rest, COMMA);
      assert [NVME_POWER_LIMIT] + rest == Limits(n) by { LimitsAre(n); }
      assert Join(Limits(n), COMMA) + [0] == NVME_POWER_LIMIT + COMMA + (Join(rest, COMMA) + [0]);
    }
  }

  lemma LimitsAre(n: nat)
    requires n > 0
    ensures Limits(n) == [NVME_POWER_LIMIT] + Limits(n - 1)
  {
  }

  lemma JoinStep(part: Bytes, rest: seq<Bytes>, sep: Bytes)
    requires rest != []
    ensures Join([part] + rest, sep) == part + sep + Join(rest, sep)
  {
    assert ([part] + rest)[1..] == rest;
  }

  lemma OneLimit()
    ensures IsPowerLimit(Join(Limits(1), COMMA) + [0], 1)
  {
    assert Limits(1) == [NVME_POWER_LIMIT];
  }

  /** The tree's M.2 slots are one for each controller, in order, behind the other children, and the power limit has one
      value for each. */
  predicate SaysSlots(root: Node, roots: seq<Bytes>) {
    var kept := |root.children| - |roots|;
    && kept >= 0
    && (forall i | 0 <= i < kept :: !HasPrefix(root.children[i].name, Ascii("nvme_slot@")))
    && (forall i: nat | i < |roots| :: IsNvmeSlot(root.children[kept + i], i, roots[i]))
    && var limit := Prop(root, Ascii("power_limit")); limit.Some? && IsPowerLimit(limit.value, |roots|)
  }

  lemma NvmePrefixIs()
    ensures NVME_PREFIX == Ascii("nvme_slot@") && POWER_LIMIT == Ascii("power_limit")
  {
  }

  /** The slots after the edit, in literal names and values. */
  lemma SlotsAreSaid(root: Node, roots: seq<Bytes>)
    requires roots != []
    ensures SaysSlots(WithNvmeSlots(root, roots), roots)
  {
    hide SetProp, Prop, HasPrefix, IsNvmeSlot, IsPowerLimit, WithoutNvme, NvmeNode;
    NvmePrefixIs();
    var kept, nodes := WithoutNvme(root.children), NvmeNodes(roots);
    var base := root.(children := kept + nodes);
    var limits := Join(Limits(|roots|), COMMA) + [0];
    SetPropChildren(base, POWER_LIMIT, limits);
    PropAfterSet(base, POWER_LIMIT, limits, POWER_LIMIT);
    LimitsJoined(|roots|);
    WithoutNvmeHas(root.children);
    var done := WithNvmeSlots(root, roots);
    assert done.children == kept + nodes;
    forall i | 0 <= i < |kept| ensures !HasPrefix(done.children[i].name, NVME_PREFIX) {
      assert kept[i] in kept;
    }
    forall i: nat | i < |roots| ensures IsNvmeSlot(done.children[|kept| + i], i, roots[i]) {
      NvmeNodeSays(i, roots[i]);
    }
  }

  /** And so says the tree that the written file reads back as, whatever the bay numbers are. */
  lemma WrittenSlotsAreSaid(file: Bytes, ports: seq<SataPort>, nvme: seq<Bytes>, out: Bytes)
    requires Rewrites(file, ports, nvme, out) && |out| < 0x1_0000_0000 && nvme != []
    ensures Deserialise(out).Ok? && Deserialise(out).value.root.Some?
    ensures SaysSlots(Deserialise(out).value.root.value, nvme)
  {
    hide Deserialise, Serialise, WithNvmeSlots, WithPorts, SlotNumber, SaysSlots, Rewrites;
    var slots := RewriteReadsBack(file, ports, nvme, out);
    SlotsAreSaid(WithPorts(Deserialise(file).value.root.value, slots, ports), nvme);
  }

  // ----- a bay

  /** A child is a bay when its name is the prefix and a number. */
  lemma BayIsNamed(n: nat, props: seq<Property>, children: seq<Node>)
    requires n < 0x8000_0000_0000_0000
    ensures SlotNumber(Node(Ascii("internal_slot@") + Itoa(n), props, children)) == Some(n)
  {
    hide Itoa, DigitsValue;
    var name := Ascii("internal_slot@") + Itoa(n);
    assert name[..|SLOT_PREFIX|] == SLOT_PREFIX && name[|SLOT_PREFIX|..] == Itoa(n);
    ItoaReadsBack(n);
    assert IsDigit(Itoa(n)[0]);
  }

  lemma OtherIsNoBay(n: Node)
    requires !HasPrefix(n.name, Ascii("internal_slot@"))
    ensures SlotNumber(n) == None
  {
  }

  /** A bay is a SATA bay when it has a child called ahci. */
  lemma SataBayHasAhci(n: Node)
    ensures HasAhci(n) <==> exists c | c in n.children :: c.name == Ascii("ahci")
  {
    if HasAhci(n) {
      assert AhciOf(n) in n.children;
    }
  }

  lemma AddressKeys()
    ensures PCIE_ROOT == Ascii("pcie_root") && ATA_PORT == Ascii("ata_port") && PCIE_ROOT != ATA_PORT
  {
    assert PCIE_ROOT[0] == 112 && ATA_PORT[0] == 97;
  }

  /** The path with a NUL, and the port as four bytes, highest first. */
  predicate SaysAddress(ahci: Node, p: SataPort) {
    && Prop(ahci, Ascii("pcie_root")) == Some(p.pcieRoot + [0])
    && var port := Prop(ahci, Ascii("ata_port")); port.Some? && |port.value| == 4 && Word(port.value, 0) == p.port
  }

  lemma PointedSays(ahci: Node, p: SataPort)
    ensures SaysAddress(PointAt(ahci, p), p)
  {
    hide SetProp, Prop, U32Bytes, U32At, Word;
    AddressKeys();
    U32Sum(p.port);
    WordIsU32At(U32Bytes(p.port), 0);
    var mid := SetString(ahci, PCIE_ROOT, p.pcieRoot);
    PropAfterSet(ahci, PCIE_ROOT, p.pcieRoot + [0], PCIE_ROOT);
    PropAfterSet(mid, ATA_PORT, U32Bytes(p.port), PCIE_ROOT);
  }

  /** An address written into a bay is what its ahci child says. */
  lemma AddressIsSaid(n: Node, p: SataPort)
    requires HasAhci(n)
    ensures HasAhci(WithAddress(n, p)) && SaysAddress(AhciOf(WithAddress(n, p)), p)
  {
    hide SaysAddress, WithAddress, HasAhci, AhciOf, PointAt;
    AhciAfter(n, p);
    PointedSays(AhciOf(n), p);
  }

  lemma AhciAfter(n: Node, p: SataPort)
    requires HasAhci(n)
    ensures HasAhci(WithAddress(n, p)) && AhciOf(WithAddress(n, p)) == PointAt(AhciOf(n), p)
  {
    hide SetProp;
    PointAtName(AhciOf(n), p);
    ChildIndexAfterUpdate(n.children, AHCI, PointAt(AhciOf(n), p));
  }

  lemma PointAtName(ahci: Node, p: SataPort)
    ensures PointAt(ahci, p).name == ahci.name
  {
  }

  // ----- the file

  /** The header of a written file: the magic bytes, and the ten words where the specification has them. */
  lemma HeaderIsSaid(t: Tree)
    requires t.root.Some? && SerialisedSize(t) < 0x1_0000_0000
    ensures Serialise(t).Ok? && |Serialise(t).value| == SerialisedSize(t) >= 40
    ensures var b := Serialise(t).value;
            var st := StructBlock(t.root.value);
            var structAt := 40 + 16 * |t.reserveMap| + 16;
            && b[..4] == [0xd0, 0x0d, 0xfe, 0xed]
            && Word(b, 4) == |b| && Word(b, 8) == structAt && Word(b, 12) == structAt + |st.bytes|
            && Word(b, 16) == 40
            && Word(b, 20) == (if t.version == 0 then 17 else t.version)
            && Word(b, 24) == (if t.compVersion == 0 then 16 else t.compVersion)
            && Word(b, 28) == t.bootCpuId && Word(b, 32) == |st.table.data| && Word(b, 36) == |st.bytes|
  {
    hide StructBlock, ReserveBlock, Words, U32At, Word;
    var d, root := Defaulted(t), t.root.value;
    var rsv, w := ReserveBlock(t.reserveMap), StructBlock(root);
    ReserveSize(t.reserveMap);
    var offStruct: u32, offStrings: u32 := HEADER_SIZE + |rsv|, HEADER_SIZE + |rsv| + |w.bytes|;
    var words: seq<u32> := [MAGIC, SerialisedSize(t), offStruct, offStrings, HEADER_SIZE, d.version, d.compVersion,
                            t.bootCpuId, |w.table.data|, |w.bytes|];
    var file := Words(words) + rsv + w.bytes + w.table.data;
    assert Serialise(t) == Ok(file);
    assert Words(words) <= file;
    FileFields(words, file);
    MagicBytes(file);
    forall i: nat | i < 10 ensures Word(file, 4 * i) == U32At(file, 4 * i) {
      WordIsU32At(file, 4 * i);
    }
    assert Word(file, 4 * 1) == U32At(file, 4 * 1) && Word(file, 4 * 2) == U32At(file, 4 * 2);
    assert Word(file, 4 * 3) == U32At(file, 4 * 3) && Word(file, 4 * 4) == U32At(file, 4 * 4);
    assert Word(file, 4 * 5) == U32At(file, 4 * 5) && Word(file, 4 * 6) == U32At(file, 4 * 6);
    assert Word(file, 4 * 7) == U32At(file, 4 * 7) && Word(file, 4 * 8) == U32At(file, 4 * 8);
    assert Word(file, 4 * 9) == U32At(file, 4 * 9);
  }

  lemma {:induction false} EntryLies(es: seq<ReserveEntry>, i: nat)
    requires i < |es|
    ensures At(WriteReserve(es), 16 * i, U64Bytes(es[i].address) + U64Bytes(es[i].size))
    decreases |es|
  {
    hide U64Bytes;
    var last := |es| - 1;
    if i < last {
      EntryLies(es[..last], i);
      var front, e := WriteReserve(es[..last]), U64Bytes(es[i].address) + U64Bytes(es[i].size);
      assert WriteReserve(es)[..16 * last] == front;
      assert WriteReserve(es)[16 * i..16 * i + 16] == front[16 * i..16 * i + 16];
    }
  }

  /** A number of 64 bits is two words, the high one first. */
  lemma TwoWords(b: Bytes, pos: nat, v: u64)
    requires At(b, pos, U64Bytes(v))
    ensures Word(b, pos) * 0x1_0000_0000 + Word(b, pos + 4) == v
  {
    hide U32Bytes, Word, U32At;
    AtSplit(b, pos, U32Bytes(v / 0x1_0000_0000), U32Bytes(v % 0x1_0000_0000));
    U32ReadsBack(b, pos, v / 0x1_0000_0000);
    U32ReadsBack(b, pos + 4, v % 0x1_0000_0000);
    WordIsU32At(b, pos);
    WordIsU32At(b, pos + 4);
  }

  /** The reserve map of a written file: from byte 40 on, address before size, and a pair of zeros at its end. */
  lemma ReserveIsSaid(t: Tree, i: nat)
    requires t.root.Some? && SerialisedSize(t) < 0x1_0000_0000 && i <= |t.reserveMap|
    ensures Serialise(t).Ok? && 40 + 16 * i + 16 <= |Serialise(t).value|
    ensures var b, e := Serialise(t).value, if i < |t.reserveMap| then t.reserveMap[i] else ReserveEntry(0, 0);
            && Word(b, 40 + 16 * i) * 0x1_0000_0000 + Word(b, 44 + 16 * i) == e.address
            && Word(b, 48 + 16 * i) * 0x1_0000_0000 + Word(b, 52 + 16 * i) == e.size
  {
    hide StructBlock, Words, WriteReserve, U64Bytes, Word;
    var es := t.reserveMap;
    var e := if i < |es| then es[i] else ReserveEntry(0, 0);
    var rsv, w := ReserveBlock(es), StructBlock(t.root.value);
    var b := Serialise(t).value;
    HeaderIsSaid(t);
    ReserveSize(es);
    if i < |es| {
      EntryLies(es, i);
      assert rsv[16 * i..16 * i + 16] == WriteReserve(es)[16 * i..16 * i + 16];
    } else {
      assert rsv[16 * i..16 * i + 16] == U64Bytes(0) + U64Bytes(0);
    }
    FileAt(t, 16 * i);
    var pair := U64Bytes(e.address) + U64Bytes(e.size);
    assert At(b, 40 + 16 * i, pair);
    AtSplit(b, 40 + 16 * i, U64Bytes(e.address), U64Bytes(e.size));
    TwoWords(b, 40 + 16 * i, e.address);
    TwoWords(b, 48 + 16 * i, e.size);
  }

  lemma FileAt(t: Tree, at: nat)
    requires t.root.Some? && SerialisedSize(t) < 0x1_0000_0000 && at + 16 <= |ReserveBlock(t.reserveMap)|
    ensures Serialise(t).Ok? && 40 + at + 16 <= |Serialise(t).value|
    ensures Serialise(t).value[40 + at..40 + at + 16] == ReserveBlock(t.reserveMap)[at..at + 16]
  {
    hide StructBlock, ReserveBlock;
  }

  lemma ReserveSize(es: seq<ReserveEntry>)
    ensures |ReserveBlock(es)| == 16 * |es| + 16
  {
    hide WriteReserve, U64Bytes;
  }

  lemma MagicBytes(file: Bytes)
    requires |file| >= 4 && U32At(file, 0) == MAGIC
    ensures file[..4] == [0xd0, 0x0d, 0xfe, 0xed]
  {
    assert file[0] == 0xd0;
    assert file[1] == 0x0d;
    assert file[2] == 0xfe;
    assert file[3] == 0xed;
  }

  /** A small tree, byte by byte: a root with property a and child b. */
  lemma SmallTreeIsSaid()
    ensures var w := StructBlock(Node([], [Property([97], [7])], [Node([98], [], [])]));
            && w.bytes == [0, 0, 0, 1, 0, 0, 0, 0] + [0, 0, 0, 3, 0, 0, 0, 1, 0, 0, 0, 0, 7, 0, 0, 0]
                          + ([0, 0, 0, 1, 98, 0, 0, 0] + [0, 0, 0, 2]) + [0, 0, 0, 2] + [0, 0, 0, 9]
            && w.table.data == [97, 0]
  {
    hide BeginBytes, PropBytes, U32Bytes, Intern, WriteNode, WriteNodes, WriteProps;
    var p, c := Property([97], [7]), Node([98], [], []);
    var root := Node([], [p], [c]);
    TokenBytes();
    SmallParts();
    var i := Intern(EMPTY_TABLE, [97]);
    OneProp(p, EMPTY_TABLE);
    BareNode([98], i.table);
    OneNode(c, i.table);
    NodeParts(root, EMPTY_TABLE);
  }

  lemma TokenBytes()
    ensures U32Bytes(END_NODE) == [0, 0, 0, 2] && U32Bytes(END) == [0, 0, 0, 9]
  {
  }

  lemma SmallParts()
    ensures BeginBytes([]) == [0, 0, 0, 1, 0, 0, 0, 0] && BeginBytes([98]) == [0, 0, 0, 1, 98, 0, 0, 0]
    ensures PropBytes(Property([97], [7]), 0) == [0, 0, 0, 3, 0, 0, 0, 1, 0, 0, 0, 0, 7, 0, 0, 0]
    ensures Intern(EMPTY_TABLE, [97]) == Interned(Table([97, 0], map[[97] := 0]), 0)
  {
    SmallBegins();
    SmallProp();
  }

  lemma SmallBegins()
    ensures BeginBytes([]) == [0, 0, 0, 1, 0, 0, 0, 0] && BeginBytes([98]) == [0, 0, 0, 1, 98, 0, 0, 0]
  {
    hide U32Bytes;
    SmallNumbers();
    var none: Bytes := [];
    assert none + [0] == [0] && Pad4([0]) == [0, 0, 0, 0];
    assert [98] + [0] == [98, 0] && Pad4([98, 0]) == [98, 0, 0, 0];
  }

  lemma SmallNumbers()
    ensures U32Bytes(BEGIN_NODE) == [0, 0, 0, 1] && U32Bytes(PROP) == [0, 0, 0, 3]
    ensures U32Bytes(1) == [0, 0, 0, 1] && U32Bytes(0) == [0, 0, 0, 0]
  {
  }

  lemma SmallProp()
    ensures PropBytes(Property([97], [7]), 0) == [0, 0, 0, 3, 0, 0, 0, 1, 0, 0, 0, 0, 7, 0, 0, 0]
  {
    hide U32Bytes;
    SmallNumbers();
    assert Pad4([7]) == [7, 0, 0, 0];
  }

  lemma OneProp(p: Property, t: Table)
    ensures WriteProps([p], t) == Written(PropBytes(p, Intern(t, p.name).offset), Intern(t, p.name).table)
  {
    hide PropBytes, Intern;
    assert [p][..0] == [];
    assert WriteProps([], t) == Written([], t);
    assert [] + PropBytes(p, Intern(t, p.name).offset) == PropBytes(p, Intern(t, p.name).offset);
  }

  lemma NodeParts(n: Node, t: Table)
    ensures var props := WriteProps(n.props, t);
            var children := WriteNodes(n.children, props.table);
            WriteNode(n, t)
            == Written(BeginBytes(n.name) + props.bytes + children.bytes + U32Bytes(END_NODE), children.table)
  {
    hide BeginBytes, WriteProps, WriteNodes, U32Bytes;
  }

  lemma BareNode(name: Bytes, t: Table)
    ensures WriteNode(Node(name, [], []), t) == Written(BeginBytes(name) + U32Bytes(END_NODE), t)
  {
    hide BeginBytes, U32Bytes;
    NodeParts(Node(name, [], []), t);
    assert WriteProps([], t) == Written([], t) && WriteNodes([], t) == Written([], t);
  }

  lemma OneNode(c: Node, t: Table)
    ensures WriteNodes([c], t) == WriteNode(c, t)
  {
    hide WriteNode;
    assert [c][..0] == [];
    assert WriteNodes([], t) == Written([], t);
    assert [] + WriteNode(c, t).bytes == WriteNode(c, t).bytes;
  }
}
