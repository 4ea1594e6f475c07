/** The boot-time rewrite of a device tree: slots.go and nvme.go composed by rewrite in cmd/vibeldr-init/main.go. */
module BootRewrite {
  import opened GoStrings
  import opened FlatTree
  import opened RoundTrip
  import opened Slots
  import opened NvmeSlots
  import opened DeviceTrees

  // ----- writing an address

  lemma {:induction false} PropAfterSet(n: Node, name: Bytes, value: Bytes, other: Bytes)
    ensures Prop(SetProp(n, name, value), name) == Some(value)
    ensures other != name ==> Prop(SetProp(n, name, value), other) == Prop(n, other)
  {
    PropIndexAfterSet(n.props, name, value, other);
  }

  function SetIn(ps: seq<Property>, name: Bytes, value: Bytes): seq<Property> {
    var i := PropIndex(ps, name);
    if i < |ps| then ps[i := Property(name, value)] else ps + [Property(name, value)]
  }

  lemma PropIndexStep(p: Property, rest: seq<Property>, name: Bytes)
    ensures PropIndex([p] + rest, name) == if p.name == name then 0 else 1 + PropIndex(rest, name)
  {
    assert ([p] + rest)[1..] == rest;
  }

  lemma SetInStep(p: Property, rest: seq<Property>, name: Bytes, value: Bytes)
    ensures SetIn([p] + rest, name, value)
            == if p.name == name then [Property(name, value)] + rest else [p] + SetIn(rest, name, value)
  {
    hide PropIndex;
    PropIndexStep(p, rest, name);
    var ps, i := [p] + rest, PropIndex(rest, name);
    if p.name != name && i < |rest| {
      assert ps[1 + i := Property(name, value)] == [p] + rest[i := Property(name, value)];
    }
  }

  lemma PropIndexEmpty(name: Bytes, value: Bytes)
    ensures PropIndex([], name) == 0 && SetIn([], name, value) == [Property(name, value)]
  {
  }

  lemma PropIndexOne(p: Property, name: Bytes)
    ensures PropIndex([p], name) == if p.name == name then 0 else 1
  {
    assert [p][1..] == [];
  }

  lemma {:induction false} OwnIndexAfterSet(ps: seq<Property>, name: Bytes, value: Bytes)
    ensures var after, i := SetIn(ps, name, value), PropIndex(ps, name);
            PropIndex(after, name) == i < |after| && after[i] == Property(name, value)
    decreases |ps|
  {
    hide PropIndex, SetIn;
    if ps == [] {
      PropIndexEmpty(name, value);
      PropIndexOne(Property(name, value), name);
    } else {
      var p, rest := ps[0], ps[1..];
      assert ps == [p] + rest;
      OwnIndexAfterSet(rest, name, value);
      SetInStep(p, rest, name, value);
      PropIndexStep(p, rest, name);
      PropIndexStep(if p.name == name then Property(name, value) else p,
                    if p.name == name then rest else SetIn(rest, name, value), name);
    }
  }

  lemma {:induction false} OtherIndexAfterSet(ps: seq<Property>, name: Bytes, value: Bytes, other: Bytes)
    requires other != name
    ensures var after, k := SetIn(ps, name, value), PropIndex(ps, other);
            && (k < |ps| ==> PropIndex(after, other) == k < |after| && after[k] == ps[k])
            && (k == |ps| ==> PropIndex(after, other) == |after|)
    decreases |ps|
  {
    hide PropIndex, SetIn;
    if ps == [] {
      PropIndexEmpty(name, value);
      PropIndexEmpty(other, value);
      PropIndexOne(Property(name, value), other);
    } else {
      var p, rest := ps[0], ps[1..];
      assert ps == [p] + rest;
      OtherIndexAfterSet(rest, name, value, other);
      SetInStep(p, rest, name, value);
      PropIndexStep(p, rest, other);
      PropIndexStep(if p.name == name then Property(name, value) else p,
                    if p.name == name then rest else SetIn(rest, name, value), other);
    }
  }

  lemma PropIndexAfterSet(ps: seq<Property>, name: Bytes, value: Bytes, other: Bytes)
    ensures var after, i := SetIn(ps, name, value), PropIndex(ps, name);
            && PropIndex(after, name) == i < |after| && after[i] == Property(name, value)
            && (other != name ==>
                  var k := PropIndex(ps, other);
                  && (k < |ps| ==> PropIndex(after, other) == k && after[k] == ps[k])
                  && (k == |ps| ==> PropIndex(after, other) == |after|))
  {
    hide PropIndex, SetIn;
    OwnIndexAfterSet(ps, name, value);
    if other != name {
      OtherIndexAfterSet(ps, name, value, other);
    }
  }

  lemma SetPropTwice(n: Node, name: Bytes, v: Bytes)
    ensures SetProp(SetProp(n, name, v), name, v) == SetProp(n, name, v)
  {
    PropIndexAfterSet(n.props, name, v, name);
  }

  /** A property that already has the value is not changed by setting it. */
  lemma SetPropSame(n: Node, name: Bytes, v: Bytes)
    requires Prop(n, name) == Some(v)
    ensures SetProp(n, name, v) == n
  {
    assert n.props[PropIndex(n.props, name) := Property(name, v)] == n.props;
  }

  lemma {:induction false} ChildIndexAfterUpdate(cs: seq<Node>, name: Bytes, c: Node)
    requires ChildIndex(cs, name) < |cs| && c.name == name
    ensures ChildIndex(cs[ChildIndex(cs, name) := c], name) == ChildIndex(cs, name)
  {
    if cs[0].name != name {
      ChildIndexAfterUpdate(cs[1..], name, c);
      assert cs[ChildIndex(cs, name) := c][1..] == cs[1..][ChildIndex(cs[1..], name) := c];
    }
  }

  /** Only the ahci child changes, and in it only the two address properties. */
  lemma AddressOnly(n: Node, p: SataPort)
    requires HasAhci(n)
    ensures var m := WithAddress(n, p);
            && m.name == n.name && m.props == n.props && HasAhci(m)
            && |m.children| == |n.children|
            && (forall i | 0 <= i < |n.children| && i != ChildIndex(n.children, AHCI) :: m.children[i] == n.children[i])
            && AhciOf(m).name == AhciOf(n).name && AhciOf(m).children == AhciOf(n).children
            && (forall name | name != PCIE_ROOT && name != ATA_PORT :: Prop(AhciOf(m), name) == Prop(AhciOf(n), name))
            && AddressOf(m) == Some(SataPort(TrimNuls(p.pcieRoot), p.port))
  {
    hide ChildIndex, PropIndex, U32Bytes, U32At, SetProp, Prop;
    var m := WithAddress(n, p);
    ChildIndexAfterUpdate(n.children, AHCI, PointAt(AhciOf(n), p)) by { PointAtKeepsName(AhciOf(n), p); }
    PointAtKeepsName(AhciOf(n), p);
    assert AhciOf(m) == PointAt(AhciOf(n), p);
    forall name | name != PCIE_ROOT && name != ATA_PORT ensures Prop(AhciOf(m), name) == Prop(AhciOf(n), name) {
      PropAfterSet(AhciOf(n), PCIE_ROOT, p.pcieRoot + [0], name);
      PropAfterSet(SetString(AhciOf(n), PCIE_ROOT, p.pcieRoot), ATA_PORT, U32Bytes(p.port), name);
    }
    PointAtReadsBack(AhciOf(n), p);
  }

  lemma PointAtKeepsName(ahci: Node, p: SataPort)
    ensures PointAt(ahci, p).name == ahci.name && PointAt(ahci, p).children == ahci.children
  {
    hide PropIndex;
  }

  lemma PointAtReadsBack(ahci: Node, p: SataPort)
    ensures GetString(PointAt(ahci, p), PCIE_ROOT) == Some(TrimNuls(p.pcieRoot))
    ensures GetUint32(PointAt(ahci, p), ATA_PORT) == Some(p.port)
    ensures PointAt(PointAt(ahci, p), p) == PointAt(ahci, p)
  {
    hide PropIndex, U32Bytes, U32At, SetProp, Prop;
    KeysDiffer();
    var mid, bytes := SetString(ahci, PCIE_ROOT, p.pcieRoot), U32Bytes(p.port);
    var done := PointAt(ahci, p);
    PropAfterSet(ahci, PCIE_ROOT, p.pcieRoot + [0], ATA_PORT);
    PropAfterSet(mid, ATA_PORT, bytes, PCIE_ROOT);
    assert (p.pcieRoot + [0])[..|p.pcieRoot|] == p.pcieRoot;
    assert bytes[0..4] == bytes;
    U32ReadsBack(bytes, 0, p.port);
    SetPropSame(done, PCIE_ROOT, p.pcieRoot + [0]);
    SetPropSame(done, ATA_PORT, bytes);
  }

  lemma KeysDiffer()
    ensures PCIE_ROOT != ATA_PORT
  {
    assert |PCIE_ROOT| != |ATA_PORT|;
  }

  lemma WithAddressTwice(n: Node, p: SataPort)
    requires HasAhci(n)
    ensures HasAhci(WithAddress(n, p)) && WithAddress(WithAddress(n, p), p) == WithAddress(n, p)
  {
    hide ChildIndex, PointAt;
    PointAtKeepsName(AhciOf(n), p);
    PointAtReadsBack(AhciOf(n), p);
    ChildIndexAfterUpdate(n.children, AHCI, PointAt(AhciOf(n), p));
  }

  // ----- what the address edit does to each child, whatever its place

  predicate IsSataBay(n: Node) { SlotNumber(n).Some? && HasAhci(n) }

  function BayNumbers(cs: seq<Node>): set<int> {
    set c | c in cs && IsSataBay(c) :: SlotNumber(c).value
  }

  /** How many of the numbers are smaller: 0 for the first bay. */
  function Rank(numbers: set<int>, m: int): nat { |set b | b in numbers && b < m| }

  function Readdress(numbers: set<int>, ports: seq<SataPort>, n: Node): Node {
    if IsSataBay(n) && Rank(numbers, SlotNumber(n).value) < |ports|
    then WithAddress(n, ports[Rank(numbers, SlotNumber(n).value)])
    else n
  }

  function ReaddressAll(numbers: set<int>, ports: seq<SataPort>, cs: seq<Node>): (r: seq<Node>)
    ensures |r| == |cs|
  {
    seq(|cs|, i requires 0 <= i < |cs| => Readdress(numbers, ports, cs[i]))
  }

  predicate DistinctNumbers(cs: seq<Node>) {
    forall i, j | 0 <= i < j < |cs| && SlotNumber(cs[i]).Some? && SlotNumber(cs[j]).Some? ::
      SlotNumber(cs[i]) != SlotNumber(cs[j])
  }

  lemma {:induction false} SataBaysComplete(cs: seq<Node>, slots: seq<Slot>, i: nat) returns (k: nat)
    requires Within(cs, slots) && i < |slots| && HasAhci(cs[slots[i].at])
    ensures k < |SataBays(cs, slots)| && SataBays(cs, slots)[k] == slots[i]
  {
    hide HasAhci;
    if i == |slots| - 1 {
      k := |SataBays(cs, slots)| - 1;
    } else {
      assert slots[..|slots| - 1][i] == slots[i];
      k := SataBaysComplete(cs, slots[..|slots| - 1], i);
    }
  }

  predicate Increasing(bays: seq<Slot>) {
    forall i, j | 0 <= i < j < |bays| :: bays[i].index < bays[j].index
  }

  function FirstNumbers(bays: seq<Slot>, k: nat): set<int>
    requires k <= |bays|
  {
    set i | 0 <= i < k :: bays[i].index
  }

  lemma {:induction false} FirstNumbersSize(bays: seq<Slot>, k: nat)
    requires k <= |bays| && Increasing(bays)
    ensures |FirstNumbers(bays, k)| == k
  {
    hide FirstNumbers;
    if k > 0 {
      FirstNumbersSize(bays, k - 1);
      OneMoreNumber(bays, k);
    } else {
      NoNumbers(bays);
    }
  }

  lemma NoNumbers(bays: seq<Slot>)
    ensures FirstNumbers(bays, 0) == {}
  {
  }

  lemma OneMoreNumber(bays: seq<Slot>, k: nat)
    requires 0 < k <= |bays| && Increasing(bays)
    ensures FirstNumbers(bays, k) == FirstNumbers(bays, k - 1) + {bays[k - 1].index}
    ensures bays[k - 1].index !in FirstNumbers(bays, k - 1)
  {
  }

  lemma RankOfBay(bays: seq<Slot>, k: nat)
    requires k < |bays| && Increasing(bays)
    ensures Rank(FirstNumbers(bays, |bays|), bays[k].index) == k
  {
    var numbers := FirstNumbers(bays, |bays|);
    FirstNumbersSize(bays, k);
    assert FirstNumbers(bays, k) == set b | b in numbers && b < bays[k].index;
  }

  lemma SlotOrderNumbers(cs: seq<Node>, slots: seq<Slot>)
    requires IsSlotOrder(cs, slots) && DistinctNumbers(cs)
    ensures Increasing(SataBays(cs, slots))
    ensures FirstNumbers(SataBays(cs, slots), |SataBays(cs, slots)|) == BayNumbers(cs)
  {
    hide HasAhci, SlotNumber;
    var bays := SataBays(cs, slots);
    forall k | 0 <= k < |bays| ensures SlotNumber(cs[bays[k].at]) == Some(bays[k].index) {
      assert bays[k] in slots;
    }
    forall i, j | 0 <= i < j < |bays| ensures bays[i].index < bays[j].index {
      assert bays[i].at != bays[j].at;
    }
    var numbers := FirstNumbers(bays, |bays|);
    forall m | m in BayNumbers(cs) ensures m in numbers {
      var c :| c in cs && IsSataBay(c) && SlotNumber(c).value == m;
      var at :| 0 <= at < |cs| && cs[at] == c;
      assert Slot(m, at) in slots;
      var i :| 0 <= i < |slots| && slots[i] == Slot(m, at);
      var k := SataBaysComplete(cs, slots, i);
      assert bays[k].index == m;
    }
    forall m | m in numbers ensures m in BayNumbers(cs) {
      var k :| 0 <= k < |bays| && bays[k].index == m;
      assert IsSataBay(cs[bays[k].at]);
    }
  }

  /** With distinct numbers the k-th port goes to the bay with k smaller numbers, and nothing else changes. */
  lemma PortsByRank(root: Node, slots: seq<Slot>, ports: seq<SataPort>)
    requires IsSlotOrder(root.children, slots) && DistinctNumbers(root.children)
    ensures WithPorts(root, slots, ports).children == ReaddressAll(BayNumbers(root.children), ports, root.children)
  {
    hide HasAhci, SlotNumber, WithAddress, Rank, BayNumbers;
    var cs, numbers := root.children, BayNumbers(root.children);
    var bays := SataBays(cs, slots);
    var k := Min(|bays|, |ports|);
    SlotOrderNumbers(cs, slots);
    forall at | 0 <= at < |cs| ensures Addressed(cs, bays, ports, k)[at] == Readdress(numbers, ports, cs[at]) {
      AddressedAt(cs, bays, ports, k, at);
      if IsSataBay(cs[at]) {
        var s := Slot(SlotNumber(cs[at]).value, at);
        assert s in slots;
        var i :| 0 <= i < |slots| && slots[i] == s;
        var j := SataBaysComplete(cs, slots, i);
        RankOfBay(bays, j);
      } else {
        forall i | 0 <= i < k ensures bays[i].at != at {
          assert bays[i] in slots;
        }
      }
    }
  }

  // ----- the two edits, each idempotent, and in either order

  lemma ReaddressKeeps(numbers: set<int>, ports: seq<SataPort>, n: Node)
    ensures var m := Readdress(numbers, ports, n);
            && m.name == n.name && SlotNumber(m) == SlotNumber(n) && HasAhci(m) == HasAhci(n)
            && Readdress(numbers, ports, m) == m
  {
    hide HasAhci, WithAddress, Rank;
    if IsSataBay(n) && Rank(numbers, SlotNumber(n).value) < |ports| {
      AddressOnly(n, ports[Rank(numbers, SlotNumber(n).value)]);
      WithAddressTwice(n, ports[Rank(numbers, SlotNumber(n).value)]);
    }
  }

  lemma ReaddressAllKeeps(numbers: set<int>, ports: seq<SataPort>, cs: seq<Node>)
    ensures var ds := ReaddressAll(numbers, ports, cs);
            && BayNumbers(ds) == BayNumbers(cs)
            && (DistinctNumbers(cs) ==> DistinctNumbers(ds))
            && ReaddressAll(numbers, ports, ds) == ds
  {
    hide HasAhci, SlotNumber, Readdress;
    var ds := ReaddressAll(numbers, ports, cs);
    forall i | 0 <= i < |cs|
      ensures SlotNumber(ds[i]) == SlotNumber(cs[i]) && HasAhci(ds[i]) == HasAhci(cs[i])
      ensures Readdress(numbers, ports, ds[i]) == ds[i]
    {
      ReaddressKeeps(numbers, ports, cs[i]);
    }
    forall m | m in BayNumbers(cs) ensures m in BayNumbers(ds) {
      var c :| c in cs && IsSataBay(c) && SlotNumber(c).value == m;
      var i :| 0 <= i < |cs| && cs[i] == c;
      assert ds[i] in ds && IsSataBay(ds[i]);
    }
    forall m | m in BayNumbers(ds) ensures m in BayNumbers(cs) {
      var d :| d in ds && IsSataBay(d) && SlotNumber(d).value == m;
      var i :| 0 <= i < |ds| && ds[i] == d;
      assert cs[i] in cs && IsSataBay(cs[i]);
    }
  }

  lemma NvmeNameIsNoSlot(n: Node)
    requires HasPrefix(n.name, NVME_PREFIX)
    ensures SlotNumber(n).None?
  {
    hide Atoi;
    assert n.name[..|NVME_PREFIX|][0] == n.name[0] == NVME_PREFIX[0];
  }

  lemma NvmeNodeName(i: nat, root: Bytes)
    ensures NvmeNode(i, root).name == NVME_PREFIX + Itoa(i + 1) && HasPrefix(NvmeNode(i, root).name, NVME_PREFIX)
    ensures NvmeNode(i, root).children == []
  {
    hide PropIndex, Itoa;
  }

  lemma WithoutNvmeNext(front: seq<Node>, c: Node)
    ensures WithoutNvme(front + [c])
            == if HasPrefix(c.name, NVME_PREFIX) then WithoutNvme(front) else WithoutNvme(front) + [c]
  {
    hide HasPrefix;
    assert (front + [c])[..|front|] == front;
  }

  lemma NothingWithoutNvme()
    ensures WithoutNvme([]) == []
  {
  }

  lemma {:induction false} WithoutNvmeHas(cs: seq<Node>)
    ensures forall c :: c in WithoutNvme(cs) <==> c in cs && !HasPrefix(c.name, NVME_PREFIX)
  {
    hide HasPrefix;
    if cs != [] {
      var front, c := cs[..|cs| - 1], cs[|cs| - 1];
      WithoutNvmeHas(front);
      assert cs == front + [c];
    }
  }

  lemma WithoutNvmeKeeps(cs: seq<Node>)
    ensures forall c :: c in WithoutNvme(cs) <==> c in cs && !HasPrefix(c.name, NVME_PREFIX)
    ensures DistinctNumbers(cs) ==> DistinctNumbers(WithoutNvme(cs))
  {
    hide WithoutNvme, HasPrefix, DistinctNumbers;
    WithoutNvmeHas(cs);
    if DistinctNumbers(cs) {
      WithoutNvmeDistinct(cs);
    }
  }

  lemma {:induction false} WithoutNvmeDistinct(cs: seq<Node>)
    requires DistinctNumbers(cs)
    ensures DistinctNumbers(WithoutNvme(cs))
    decreases |cs|
  {
    hide WithoutNvme, HasPrefix, DistinctNumbers;
    if cs == [] {
      NothingWithoutNvme();
    } else {
      var front, c := cs[..|cs| - 1], cs[|cs| - 1];
      assert cs == front + [c];
      DistinctFront(cs);
      WithoutNvmeDistinct(front);
      WithoutNvmeNext(front, c);
      WithoutNvmeHas(front);
      DistinctNext(cs, WithoutNvme(front));
    }
  }

  lemma DistinctFront(cs: seq<Node>)
    requires cs != [] && DistinctNumbers(cs)
    ensures DistinctNumbers(cs[..|cs| - 1])
  {
    hide SlotNumber;
  }

  lemma DistinctNext(cs: seq<Node>, kept: seq<Node>)
    requires cs != [] && DistinctNumbers(cs) && DistinctNumbers(kept)
    requires forall d | d in kept :: d in cs[..|cs| - 1]
    ensures DistinctNumbers(kept + [cs[|cs| - 1]])
  {
    hide SlotNumber;
    forall i | 0 <= i < |kept| && SlotNumber(kept[i]).Some? ensures SlotNumber(kept[i]) != SlotNumber(cs[|cs| - 1]) {
      assert kept[i] in kept;
      var j :| 0 <= j < |cs| - 1 && cs[j] == kept[i];
    }
  }

  lemma {:induction false} WithoutNvmeOfOthers(cs: seq<Node>, ds: seq<Node>)
    requires forall i | 0 <= i < |ds| :: HasPrefix(ds[i].name, NVME_PREFIX)
    ensures WithoutNvme(cs + ds) == WithoutNvme(cs)
  {
    if ds == [] {
      assert cs + ds == cs;
    } else {
      assert (cs + ds)[..|cs + ds| - 1] == cs + ds[..|ds| - 1];
      WithoutNvmeOfOthers(cs, ds[..|ds| - 1]);
    }
  }

  lemma {:induction false} WithoutNvmeTwice(cs: seq<Node>)
    ensures WithoutNvme(WithoutNvme(cs)) == WithoutNvme(cs)
    decreases |cs|
  {
    hide WithoutNvme, HasPrefix;
    if cs == [] {
      NothingWithoutNvme();
    } else {
      var front, c := cs[..|cs| - 1], cs[|cs| - 1];
      assert cs == front + [c];
      WithoutNvmeTwice(front);
      WithoutNvmeNext(front, c);
      WithoutNvmeNext(WithoutNvme(front), c);
    }
  }

  lemma ReaddressNothing(numbers: set<int>, ports: seq<SataPort>)
    ensures ReaddressAll(numbers, ports, []) == []
  {
  }

  lemma ReaddressNext(numbers: set<int>, ports: seq<SataPort>, front: seq<Node>, c: Node)
    ensures ReaddressAll(numbers, ports, front + [c])
            == ReaddressAll(numbers, ports, front) + [Readdress(numbers, ports, c)]
  {
    hide Readdress;
  }

  lemma {:induction false} WithoutNvmeAfterReaddress(numbers: set<int>, ports: seq<SataPort>, cs: seq<Node>)
    ensures WithoutNvme(ReaddressAll(numbers, ports, cs)) == ReaddressAll(numbers, ports, WithoutNvme(cs))
  {
    hide Readdress, WithoutNvme, HasPrefix, ReaddressAll;
    ReaddressNothing(numbers, ports);
    if cs == [] {
      NothingWithoutNvme();
    } else {
      var front, c := cs[..|cs| - 1], cs[|cs| - 1];
      assert cs == front + [c];
      WithoutNvmeAfterReaddress(numbers, ports, front);
      ReaddressKeeps(numbers, ports, c);
      ReaddressNext(numbers, ports, front, c);
      ReaddressNext(numbers, ports, WithoutNvme(front), c);
      WithoutNvmeNext(front, c);
      WithoutNvmeNext(ReaddressAll(numbers, ports, front), Readdress(numbers, ports, c));
    }
  }

  lemma NvmeNodesAreOthers(roots: seq<Bytes>, i: nat)
    requires i < |roots|
    ensures HasPrefix(NvmeNodes(roots)[i].name, NVME_PREFIX) && SlotNumber(NvmeNodes(roots)[i]).None?
  {
    NvmeNodeName(i, roots[i]);
    NvmeNameIsNoSlot(NvmeNodes(roots)[i]);
  }

  lemma NvmeKeepsBays(root: Node, roots: seq<Bytes>)
    ensures var cs := WithNvmeSlots(root, roots).children;
            && BayNumbers(cs) == BayNumbers(root.children)
            && (DistinctNumbers(root.children) ==> DistinctNumbers(cs))
  {
    hide SlotNumber, HasPrefix, HasAhci, NvmeNodes;
    if roots != [] {
      var cs, nodes := root.children, NvmeNodes(roots);
      var ds := WithoutNvme(cs) + nodes;
      assert WithNvmeSlots(root, roots).children == ds by { hide PropIndex; }
      WithoutNvmeKeeps(cs);
      forall i | 0 <= i < |nodes| ensures SlotNumber(nodes[i]).None? {
        NvmeNodesAreOthers(roots, i);
      }
      assert forall d :: d in nodes ==> SlotNumber(d).None?;
      forall c | c in cs && SlotNumber(c).Some? ensures !HasPrefix(c.name, NVME_PREFIX) {
        if HasPrefix(c.name, NVME_PREFIX) {
          NvmeNameIsNoSlot(c);
        }
      }
      assert forall c :: c in ds && IsSataBay(c) <==> c in cs && IsSataBay(c);
    }
  }

  lemma NvmeTwice(root: Node, roots: seq<Bytes>)
    ensures WithNvmeSlots(WithNvmeSlots(root, roots), roots) == WithNvmeSlots(root, roots)
  {
    hide HasPrefix, NvmeNodes, PropIndex, SetProp, Join;
    if roots != [] {
      var cs, nodes := root.children, NvmeNodes(roots);
      forall i | 0 <= i < |nodes| ensures HasPrefix(nodes[i].name, NVME_PREFIX) {
        NvmeNodesAreOthers(roots, i);
      }
      WithoutNvmeOfOthers(WithoutNvme(cs), nodes);
      WithoutNvmeTwice(cs);
      var limits := Join(Limits(|roots|), COMMA);
      var once := root.(children := WithoutNvme(cs) + nodes);
      SetPropChildren(once, POWER_LIMIT, limits + [0]);
      SetPropTwice(once, POWER_LIMIT, limits + [0]);
      var done := WithNvmeSlots(root, roots);
      assert done.(children := WithoutNvme(done.children) + nodes) == done;
    }
  }

  lemma SetPropChildren(n: Node, name: Bytes, value: Bytes)
    ensures SetProp(n, name, value).children == n.children && SetProp(n, name, value).name == n.name
    ensures forall cs :: SetProp(n.(children := cs), name, value) == SetProp(n, name, value).(children := cs)
  {
    hide PropIndex;
  }

  /** WithPorts without the order of the bays. */
  function PortsEdit(root: Node, ports: seq<SataPort>): Node {
    root.(children := ReaddressAll(BayNumbers(root.children), ports, root.children))
  }

  /** Replacing the M.2 slots and rewriting the addresses may be done in either order. */
  lemma RankEditsCommute(root: Node, ports: seq<SataPort>, roots: seq<Bytes>)
    ensures WithNvmeSlots(PortsEdit(root, ports), roots) == PortsEdit(WithNvmeSlots(root, roots), ports)
  {
    hide HasPrefix, NvmeNodes, PropIndex, SetProp, Join, Readdress, BayNumbers;
    if roots != [] {
      var cs, nodes, numbers := root.children, NvmeNodes(roots), BayNumbers(root.children);
      var limits := Join(Limits(|roots|), COMMA) + [0];
      NvmeKeepsBays(root, roots);
      WithoutNvmeAfterReaddress(numbers, ports, cs);
      forall i | 0 <= i < |nodes| ensures Readdress(numbers, ports, nodes[i]) == nodes[i] {
        NvmeNodesAreOthers(roots, i);
        NotABay(numbers, ports, nodes[i]);
      }
      assert ReaddressAll(numbers, ports, WithoutNvme(cs) + nodes)
          == ReaddressAll(numbers, ports, WithoutNvme(cs)) + nodes;
      SetPropChildren(root, POWER_LIMIT, limits);
    }
  }

  lemma NotABay(numbers: set<int>, ports: seq<SataPort>, n: Node)
    requires SlotNumber(n).None?
    ensures Readdress(numbers, ports, n) == n
  {
  }

  /** Doing both edits again changes nothing. */
  lemma RankEditsTwice(root: Node, ports: seq<SataPort>, roots: seq<Bytes>)
    requires DistinctNumbers(root.children)
    ensures var done := WithNvmeSlots(PortsEdit(root, ports), roots);
            && DistinctNumbers(done.children)
            && PortsEdit(done, ports) == done
            && WithNvmeSlots(PortsEdit(done, ports), roots) == done
  {
    hide WithNvmeSlots, ReaddressAll, BayNumbers, DistinctNumbers;
    var once := PortsEdit(root, ports);
    ReaddressAllKeeps(BayNumbers(root.children), ports, root.children);
    RankEditsCommute(once, ports, roots);
    NvmeKeepsBays(once, roots);
    NvmeTwice(once, roots);
  }

  // ----- the names stay legible

  /** The edits put no NUL into a name. */
  lemma EditsNulFree(root: Node, slots: seq<Slot>, ports: seq<SataPort>, roots: seq<Bytes>)
    requires NamesNulFree(root) && IsSlotOrder(root.children, slots)
    ensures NamesNulFree(WithNvmeSlots(WithPorts(root, slots, ports), roots))
  {
    hide WithNvmeSlots, SataBays, Addressed;
    var bays, once := SataBays(root.children, slots), WithPorts(root, slots, ports);
    AddressedNulFree(root.children, bays, ports, Min(|bays|, |ports|));
    NvmeNulFree(once, roots);
  }

  lemma {:induction false} AddressedNulFree(cs: seq<Node>, bays: seq<Slot>, ports: seq<SataPort>, k: nat)
    requires k <= |bays| && k <= |ports| && AllSata(cs, bays) && InOrder(bays)
    requires forall c | c in cs :: NamesNulFree(c)
    ensures forall c | c in Addressed(cs, bays, ports, k) :: NamesNulFree(c)
  {
    hide HasAhci, WithAddress, NamesNulFree;
    if k > 0 {
      var b := bays[k - 1];
      AddressedNulFree(cs, bays, ports, k - 1);
      assert cs[b.at] in cs;
      WithAddressNulFree(cs[b.at], ports[k - 1]);
    }
  }

  lemma SetPropNulFree(n: Node, name: Bytes, value: Bytes)
    requires NamesNulFree(n) && NulFree(name)
    ensures NamesNulFree(SetProp(n, name, value))
  {
    hide NulFree, PropIndex;
    forall p | p in SetProp(n, name, value).props ensures NulFree(p.name) {
      assert p in n.props || p == Property(name, value);
    }
  }

  lemma WithAddressNulFree(n: Node, p: SataPort)
    requires HasAhci(n) && NamesNulFree(n)
    ensures NamesNulFree(WithAddress(n, p))
  {
    hide NulFree, ChildIndex, SetProp;
    assert AhciOf(n) in n.children;
    assert NulFree(PCIE_ROOT) && NulFree(ATA_PORT) by { ConstantsNulFree(); }
    SetPropNulFree(AhciOf(n), PCIE_ROOT, p.pcieRoot + [0]);
    SetPropNulFree(SetString(AhciOf(n), PCIE_ROOT, p.pcieRoot), ATA_PORT, U32Bytes(p.port));
    forall c | c in WithAddress(n, p).children ensures NamesNulFree(c) {
      assert c in n.children || c == PointAt(AhciOf(n), p);
    }
  }

  lemma ConstantsNulFree()
    ensures NulFree(PCIE_ROOT) && NulFree(ATA_PORT) && NulFree(PORT_TYPE) && NulFree(POWER_LIMIT)
    ensures NulFree(NVME_PREFIX)
  {
  }

  lemma NvmeNulFree(root: Node, roots: seq<Bytes>)
    requires NamesNulFree(root)
    ensures NamesNulFree(WithNvmeSlots(root, roots))
  {
    hide NulFree, SetProp, HasPrefix, Itoa, Join;
    if roots != [] {
      ConstantsNulFree();
      WithoutNvmeKeeps(root.children);
      forall c | c in NvmeNodes(roots) ensures NamesNulFree(c) {
        var i :| 0 <= i < |roots| && NvmeNodes(roots)[i] == c;
        var name := NVME_PREFIX + Itoa(i + 1);
        assert NulFree(name) by { NumberedNulFree(NVME_PREFIX, i + 1); }
        var n := Node(name, [], []);
        SetPropNulFree(n, PCIE_ROOT, roots[i] + [0]);
        SetPropNulFree(SetString(n, PCIE_ROOT, roots[i]), PORT_TYPE, SSDCACHE + [0]);
      }
      var once := root.(children := WithoutNvme(root.children) + NvmeNodes(roots));
      SetPropNulFree(once, POWER_LIMIT, Join(Limits(|roots|), COMMA) + [0]);
    }
  }

  lemma NumberedNulFree(prefix: Bytes, n: nat)
    requires NulFree(prefix)
    ensures NulFree(prefix + Itoa(n))
  {
  }

  // ----- one order of the bays always exists

  lemma {:induction false} SlotOrderExists(cs: seq<Node>) returns (slots: seq<Slot>)
    ensures IsSlotOrder(cs, slots)
  {
    hide SlotNumber;
    if cs == [] {
      slots := [];
    } else {
      var front, c := cs[..|cs| - 1], cs[|cs| - 1];
      slots := SlotOrderExists(front);
      assert cs == front + [c];
      if SlotNumber(c).Some? {
        var s := Slot(SlotNumber(c).value, |front|);
        var k := Place(slots, s.index, |slots|);
        var out := slots[..k] + [s] + slots[k..];
        InsertedIsOrdered(front, c, slots, s, k, out);
        slots := out;
      }
    }
  }

  // ----- the file

  predicate HasDistinctNumbers(file: Bytes) {
    && Deserialise(file).Ok? && Deserialise(file).value.root.Some?
    && DistinctNumbers(Deserialise(file).value.root.value.children)
  }

  lemma SlotOrderEmpty(cs: seq<Node>, slots: seq<Slot>)
    requires IsSlotOrder(cs, slots)
    ensures slots == [] <==> forall i | 0 <= i < |cs| :: SlotNumber(cs[i]).None?
  {
    hide SlotNumber;
    if slots != [] {
      assert SlotNumber(cs[slots[0].at]).Some?;
    }
  }

  /** The tree after the rewrite, as it reads back. */
  function Rewritten(t: Tree, ports: seq<SataPort>, nvme: seq<Bytes>): Tree
    requires t.root.Some?
  {
    Defaulted(WithRoot(t, WithNvmeSlots(PortsEdit(t.root.value, ports), nvme)))
  }

  lemma SerialiseDefaulted(t: Tree)
    ensures Serialise(Defaulted(t)) == Serialise(t)
  {
    hide StructBlock, ReserveBlock, Assemble;
  }

  lemma SerialisedLength(t: Tree)
    requires Serialise(t).Ok?
    ensures t.root.Some? && |Serialise(t).value| == SerialisedSize(t)
  {
    hide StructBlock, ReserveBlock, Words;
  }

  /** A written file reads back as the edited tree, for some listing of the bays. */
  lemma RewriteReadsBack(file: Bytes, ports: seq<SataPort>, nvme: seq<Bytes>, out: Bytes) returns (slots: seq<Slot>)
    requires Rewrites(file, ports, nvme, out) && |out| < 0x1_0000_0000
    ensures Deserialise(file).Ok?
    ensures var t := Deserialise(file).value;
            && t.root.Some? && IsSlotOrder(t.root.value.children, slots) && slots != []
            && Serialise(Edited(t, slots, ports, nvme)) == Ok(out)
            && Deserialise(out) == Ok(Defaulted(Edited(t, slots, ports, nvme)))
  {
    hide Deserialise, Serialise, WithNvmeSlots, WithPorts, SerialisedSize, NamesNulFree, NoZeroEntry, SlotNumber;
    var t := Deserialise(file).value;
    slots :| IsSlotOrder(t.root.value.children, slots) && slots != []
             && Serialise(Edited(t, slots, ports, nvme)) == Ok(out);
    var edited := Edited(t, slots, ports, nvme);
    AcceptedIsPrintable(file);
    EditsNulFree(t.root.value, slots, ports, nvme);
    SerialisedLength(edited);
    FileReadsBack(edited);
  }

  lemma RewritesOnce(file: Bytes, ports: seq<SataPort>, nvme: seq<Bytes>, out: Bytes)
    requires Rewrites(file, ports, nvme, out) && HasDistinctNumbers(file) && |out| < 0x1_0000_0000
    ensures Deserialise(out) == Ok(Rewritten(Deserialise(file).value, ports, nvme))
    ensures Serialise(Rewritten(Deserialise(file).value, ports, nvme)) == Ok(out)
  {
    hide Deserialise, Serialise, WithNvmeSlots, PortsEdit, WithPorts, SlotNumber;
    var t := Deserialise(file).value;
    var slots := RewriteReadsBack(file, ports, nvme, out);
    WithPortsIsPortsEdit(t.root.value, slots, ports);
    SerialiseDefaulted(Edited(t, slots, ports, nvme));
  }

  lemma WithPortsIsPortsEdit(root: Node, slots: seq<Slot>, ports: seq<SataPort>)
    requires IsSlotOrder(root.children, slots) && DistinctNumbers(root.children)
    ensures WithPorts(root, slots, ports) == PortsEdit(root, ports)
  {
    hide ReaddressAll, DistinctNumbers, SlotNumber, SataBays, Addressed;
    PortsByRank(root, slots, ports);
  }

  /** Replacing the M.2 slots and rewriting the addresses may be done in either order, however each listing of the bays
      came out. */
  lemma EditsCommute(root: Node, before: seq<Slot>, after: seq<Slot>, ports: seq<SataPort>, roots: seq<Bytes>)
    requires DistinctNumbers(root.children)
    requires IsSlotOrder(root.children, before) && IsSlotOrder(WithNvmeSlots(root, roots).children, after)
    ensures WithNvmeSlots(WithPorts(root, before, ports), roots) == WithPorts(WithNvmeSlots(root, roots), after, ports)
  {
    hide WithNvmeSlots, WithPorts, PortsEdit, DistinctNumbers, IsSlotOrder;
    NvmeKeepsBays(root, roots);
    WithPortsIsPortsEdit(root, before, ports);
    WithPortsIsPortsEdit(WithNvmeSlots(root, roots), after, ports);
    RankEditsCommute(root, ports, roots);
  }

  /** Doing both edits again changes nothing, however the bays are listed the second time. */
  lemma EditsTwice(root: Node, before: seq<Slot>, after: seq<Slot>, ports: seq<SataPort>, roots: seq<Bytes>)
    requires DistinctNumbers(root.children) && IsSlotOrder(root.children, before)
    requires IsSlotOrder(WithNvmeSlots(WithPorts(root, before, ports), roots).children, after)
    ensures var done := WithNvmeSlots(WithPorts(root, before, ports), roots);
            && DistinctNumbers(done.children)
            && WithPorts(done, after, ports) == done
            && WithNvmeSlots(WithPorts(done, after, ports), roots) == done
  {
    hide WithNvmeSlots, WithPorts, PortsEdit, DistinctNumbers, IsSlotOrder;
    WithPortsIsPortsEdit(root, before, ports);
    RankEditsTwice(root, ports, roots);
    WithPortsIsPortsEdit(WithNvmeSlots(PortsEdit(root, ports), roots), after, ports);
  }

  /** Rewriting the rewritten file with the same ports and roots gives exactly its own bytes. */
  lemma RewriteIsAFixedPoint(file: Bytes, ports: seq<SataPort>, nvme: seq<Bytes>, out: Bytes)
    requires Rewrites(file, ports, nvme, out) && HasDistinctNumbers(file) && |out| < 0x1_0000_0000
    ensures Rewrites(out, ports, nvme, out)
    ensures forall out' :: Rewrites(out, ports, nvme, out') ==> out' == out
  {
    hide Deserialise, Serialise, WithNvmeSlots, PortsEdit, WithPorts, SlotNumber, DistinctNumbers;
    RewritesOnce(file, ports, nvme, out);
    var t := Rewritten(Deserialise(file).value, ports, nvme);
    RankEditsTwice(Deserialise(file).value.root.value, ports, nvme);
    forall slots | IsSlotOrder(t.root.value.children, slots) ensures Edited(t, slots, ports, nvme) == t {
      WithPortsIsPortsEdit(t.root.value, slots, ports);
    }
    var slots := SlotOrderExists(t.root.value.children);
    BaysRemain(file, ports, nvme, out, slots);
    assert Serialise(Edited(t, slots, ports, nvme)) == Ok(out);
  }

  lemma BaysRemain(file: Bytes, ports: seq<SataPort>, nvme: seq<Bytes>, out: Bytes, slots: seq<Slot>)
    requires Rewrites(file, ports, nvme, out) && HasDistinctNumbers(file)
    requires IsSlotOrder(Rewritten(Deserialise(file).value, ports, nvme).root.value.children, slots)
    ensures slots != []
  {
    hide Deserialise, Serialise, Readdress, SlotNumber, HasPrefix, NvmeNodes, SetProp, Join, BayNumbers, WithPorts;
    var t := Deserialise(file).value;
    var cs := t.root.value.children;
    var before :| IsSlotOrder(cs, before) && before != []
                  && Serialise(Edited(t, before, ports, nvme)) == Ok(out);
    SlotOrderEmpty(cs, before);
    var i :| 0 <= i < |cs| && SlotNumber(cs[i]).Some?;
    var ds := PortsEdit(t.root.value, ports).children;
    ReaddressKeeps(BayNumbers(cs), ports, cs[i]);
    assert ds[i] in ds;
    WithoutNvmeKeeps(ds);
    if HasPrefix(ds[i].name, NVME_PREFIX) {
      NvmeNameIsNoSlot(ds[i]);
    }
    var done := Rewritten(t, ports, nvme).root.value.children;
    assert ds[i] in done by { NvmeChildren(PortsEdit(t.root.value, ports), nvme); }
    var j :| 0 <= j < |done| && done[j] == ds[i];
    SlotOrderEmpty(done, slots);
  }

  lemma NvmeChildren(root: Node, roots: seq<Bytes>)
    ensures roots == [] ==> WithNvmeSlots(root, roots) == root
    ensures roots != [] ==> WithNvmeSlots(root, roots).children == WithoutNvme(root.children) + NvmeNodes(roots)
  {
    hide PropIndex, WithoutNvme, NvmeNodes, Join;
  }

  /** In the rewritten file the k-th SATA bay by number reads back the k-th port. */
  lemma PortsReadBack(file: Bytes, ports: seq<SataPort>, nvme: seq<Bytes>, out: Bytes, slots: seq<Slot>, k: nat)
    requires Rewrites(file, ports, nvme, out) && HasDistinctNumbers(file) && |out| < 0x1_0000_0000
    requires Deserialise(out).Ok? && Deserialise(out).value.root.Some?
    requires IsSlotOrder(Deserialise(out).value.root.value.children, slots)
    ensures var cs := Deserialise(out).value.root.value.children;
            var bays := SataBays(cs, slots);
            && |bays| == |BayNumbers(Deserialise(file).value.root.value.children)|
            && (k < |bays| && k < |ports| ==>
                  AddressOf(cs[bays[k].at]) == Some(SataPort(TrimNuls(ports[k].pcieRoot), ports[k].port)))
  {
    hide Deserialise, Serialise, WithNvmeSlots, WithPorts, SlotNumber, Readdress, HasAhci, AddressOf, WithAddress;
    RewritesOnce(file, ports, nvme, out);
    var root := Deserialise(file).value.root.value;
    var done := Deserialise(out).value.root.value;
    RankEditsTwice(root, ports, nvme);
    ReaddressAllKeeps(BayNumbers(root.children), ports, root.children);
    NvmeKeepsBays(PortsEdit(root, ports), nvme);
    var cs := done.children;
    var bays := SataBays(cs, slots);
    SlotOrderNumbers(cs, slots);
    FirstNumbersSize(bays, |bays|);
    if k < |bays| && k < |ports| {
      AddressedAt(cs, bays, ports, Min(|bays|, |ports|), bays[k].at);
      WithPortsIsPortsEdit(done, slots, ports);
      assert WithPorts(done, slots, ports) == done;
      assert Addressed(cs, bays, ports, Min(|bays|, |ports|)) == cs by { WithPortsChildren(done, slots, ports); }
      assert HasAhci(cs[bays[k].at]);
      AddressOnly(cs[bays[k].at], ports[k]);
    }
  }

  lemma WithPortsChildren(root: Node, slots: seq<Slot>, ports: seq<SataPort>)
    requires Within(root.children, slots) && InOrder(slots)
    ensures var bays := SataBays(root.children, slots);
            WithPorts(root, slots, ports).children == Addressed(root.children, bays, ports, Min(|bays|, |ports|))
  {
  }
}
