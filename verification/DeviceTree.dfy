/** The tree object the boot helper edits in place, and the rewrite of one file. */
module DeviceTrees {
  import opened GoStrings
  import opened FlatTree
  import opened Slots
  import opened NvmeSlots

  /** One insertion of the sort: the new bay goes behind every bay with a number no larger. */
  method InsertSlot(ghost cs: seq<Node>, ghost c: Node, slots: seq<Slot>, s: Slot) returns (out: seq<Slot>)
    requires IsSlotOrder(cs, slots)
    requires s.at == |cs| && SlotNumber(c) == Some(s.index)
    ensures IsSlotOrder(cs + [c], out)
  {
    hide SlotNumber;
    var k := Place(slots, s.index, |slots|);
    out := slots[..k] + [s] + slots[k..];
    InsertedIsOrdered(cs, c, slots, s, k, out);
  }

  class DeviceTree {
    var root: Option<Node>
    var reserveMap: seq<ReserveEntry>
    var bootCpuId: u32
    var version: u32
    var compVersion: u32

    function View(): Tree
      reads this
    {
      Tree(root, reserveMap, bootCpuId, version, compVersion)
    }

    constructor (t: Tree)
      ensures View() == t
    {
      root, reserveMap, bootCpuId := t.root, t.reserveMap, t.bootCpuId;
      version, compVersion := t.version, t.compVersion;
    }

    method InternalSlots() returns (slots: seq<Slot>)
      ensures root.None? ==> slots == []
      ensures root.Some? ==> IsSlotOrder(root.value.children, slots)
    {
      if root.None? {
        return [];
      }
      var cs := root.value.children;
      slots := [];
      for at := 0 to |cs|
        invariant IsSlotOrder(cs[..at], slots)
      {
        var number := SlotNumber(cs[at]);
        if number.Some? {
          slots := InsertSlot(cs[..at], cs[at], slots, Slot(number.value, at));
        }
        assert cs[..at + 1] == cs[..at] + [cs[at]];
      }
      assert cs[..|cs|] == cs;
    }

    /** Point every SATA bay at the given ports, in the order of the bay numbers. */
    method ApplySATAPorts(ports: seq<SataPort>) returns (r: Result<Remap>, ghost slots: seq<Slot>)
      requires root.Some?
      modifies this
      ensures IsSlotOrder(old(root.value.children), slots)
      ensures slots == [] ==> r == Failed(NoBays) && View() == old(View())
      ensures slots != [] ==>
                var cs := old(root.value.children);
                var bays := SataBays(cs, slots);
                var k := Min(|bays|, |ports|);
                && r == Ok(Remap(k, Numbers(bays[k..]), ports[k..], NamesOfOthers(cs, slots)))
                && View() == old(View()).(root := Some(WithPorts(old(root.value), slots, ports)))
      ensures r.Ok? ==>
                && r.value.count + |r.value.unassigned| + |r.value.skipped| == |slots|
                && r.value.count + |r.value.surplus| == |ports|
    {
      hide Reached, SataBays, NamesOfOthers, Addressed, HasAhci, WithAddress, SlotNumber;
      var order := InternalSlots();
      slots := order;
      if |order| == 0 {
        return Failed(NoBays), slots;
      }
      ghost var node := root.value;
      ReachedStart(node.children, ports);
      var remap := Remap(0, [], [], []);
      var next: nat := 0;
      for i := 0 to |order|
        invariant root.Some? && View() == old(View()).(root := root)
        invariant root.value == node.(children := root.value.children)
        invariant Reached(node.children, order[..i], ports, next, remap, root.value.children)
      {
        assert order[..i + 1] == order[..i] + [order[i]];
        var s := order[i];
        StillUntouched(node.children, order[..i], s, ports, next, remap, root.value.children);
        var child := root.value.children[s.at];
        ReachedNext(node.children, order[..i], s, ports, next, remap, root.value.children);
        if !HasAhci(child) {
          remap := remap.(skipped := remap.skipped + [child.name]);
        } else if next >= |ports| {
          remap := remap.(unassigned := remap.unassigned + [s.index]);
        } else {
          ReachedAssigned(node.children, order[..i], s, ports, next, remap, root.value.children);
          root := Some(root.value.(children := root.value.children[s.at := WithAddress(child, ports[next])]));
          next := next + 1;
          remap := remap.(count := remap.count + 1);
        }
      }
      assert order[..|order|] == order;
      ReachedEnd(node.children, order, ports, next, remap, root.value.children);
      assert remap.surplus + ports[next..] == ports[next..];
      if next < |ports| {
        remap := remap.(surplus := remap.surplus + ports[next..]);
      }
      BaysAreSplit(node.children, order);
      r := Ok(remap);
    }

    /** Replace the board's M.2 slots by one per NVMe controller. */
    method SetNVMeSlots(roots: seq<Bytes>) returns (n: nat)
      requires root.Some?
      modifies this
      ensures n == |roots|
      ensures View() == old(View()).(root := Some(WithNvmeSlots(old(root.value), roots)))
    {
      hide WithoutNvme, NvmeNodes, Limits, SetString, Join;
      if |roots| == 0 {
        return 0;
      }
      var kept := BoardChildren(root.value.children);
      var nodes, limits := SlotsFor(roots);
      root := Some(SetString(root.value.(children := kept + nodes), POWER_LIMIT, Join(limits, COMMA)));
      n := |roots|;
    }
  }

  method BoardChildren(children: seq<Node>) returns (kept: seq<Node>)
    ensures kept == WithoutNvme(children)
  {
    hide HasPrefix;
    kept := [];
    for i := 0 to |children|
      invariant kept == WithoutNvme(children[..i])
    {
      assert children[..i + 1][..i] == children[..i];
      if !HasPrefix(children[i].name, NVME_PREFIX) {
        kept := kept + [children[i]];
      }
    }
    assert children[..|children|] == children;
  }

  method SlotsFor(roots: seq<Bytes>) returns (nodes: seq<Node>, limits: seq<Bytes>)
    ensures nodes == NvmeNodes(roots) && limits == Limits(|roots|)
  {
    hide SetString, Itoa;
    nodes, limits := [], [];
    for i := 0 to |roots|
      invariant nodes == NvmeNodes(roots)[..i] && limits == Limits(i)
    {
      var node := Node(NVME_PREFIX + Itoa(i + 1), [], []);
      node := SetString(node, PCIE_ROOT, roots[i]);
      node := SetString(node, PORT_TYPE, SSDCACHE);
      assert node == NvmeNodes(roots)[i];
      nodes := nodes + [node];
      limits := limits + [NVME_POWER_LIMIT];
    }
  }

  function WithRoot(t: Tree, root: Node): Tree { t.(root := Some(root)) }

  /** The tree after both edits, for one order of the bays. */
  function Edited(t: Tree, slots: seq<Slot>, ports: seq<SataPort>, nvme: seq<Bytes>): Tree
    requires t.root.Some? && Within(t.root.value.children, slots) && InOrder(slots)
  {
    WithRoot(t, WithNvmeSlots(WithPorts(t.root.value, slots, ports), nvme))
  }

  /** `out` is what one run of the rewrite may write over `file`. */
  ghost predicate Rewrites(file: Bytes, ports: seq<SataPort>, nvme: seq<Bytes>, out: Bytes) {
    && Deserialise(file).Ok?
    && var t := Deserialise(file).value;
       && t.root.Some?
       && exists slots ::
            && IsSlotOrder(t.root.value.children, slots) && slots != []
            && Serialise(Edited(t, slots, ports, nvme)) == Ok(out)
  }

  /** What rewrite leaves of one file: the new contents, or the error that keeps the old ones. */
  method Rewrite(file: Bytes, ports: seq<SataPort>, nvme: seq<Bytes>) returns (r: Result<Bytes>, ghost slots: seq<Slot>)
    ensures Deserialise(file).Failed? ==> r == Failed(Deserialise(file).error)
    ensures Deserialise(file).Panics? ==> r == Panics
    ensures Deserialise(file).Ok? ==>
              var t := Deserialise(file).value;
              && t.root.Some? && IsSlotOrder(t.root.value.children, slots)
              && r == if slots == [] then Failed(NoBays) else Serialise(Edited(t, slots, ports, nvme))
    ensures r.Ok? ==> Rewrites(file, ports, nvme, r.value)
  {
    hide Serialise, WithNvmeSlots, WithPorts, SataBays, NamesOfOthers;
    slots := [];
    var parsed := Parse(file);
    match parsed
    case Failed(e) => r := Failed(e);
    case Panics => r := Panics;
    case Ok(t) =>
      var tree := new DeviceTree(t);
      var remap, order := tree.ApplySATAPorts(ports);
      slots := order;
      if remap.Failed? {
        return Failed(remap.error), slots;
      }
      var n := tree.SetNVMeSlots(nvme);
      r := BytesOf(tree.View());
  }
}
