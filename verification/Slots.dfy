/** Disk bays of a device tree: internal/dtb/slots.go. */
module Slots {
  import opened GoStrings
  import opened FlatTree

  const SLOT_PREFIX: Bytes := Ascii("internal_slot@")
  const AHCI: Bytes := Ascii("ahci")
  const PCIE_ROOT: Bytes := Ascii("pcie_root")
  const ATA_PORT: Bytes := Ascii("ata_port")

  datatype SataPort = SataPort(pcieRoot: Bytes, port: u32)

  // ----- properties of one node

  /** The index of the first property called name, or |ps|. */
  function PropIndex(ps: seq<Property>, name: Bytes): (i: nat)
    ensures i <= |ps|
    ensures forall j | 0 <= j < i :: ps[j].name != name
    ensures i < |ps| ==> ps[i].name == name
  {
    if ps == [] || ps[0].name == name then 0 else 1 + PropIndex(ps[1..], name)
  }

  function Prop(n: Node, name: Bytes): Option<Bytes> {
    var i := PropIndex(n.props, name);
    if i < |n.props| then Some(n.props[i].value) else None
  }

  /** Overwrite the first property of that name, or add it at the end. */
  function SetProp(n: Node, name: Bytes, value: Bytes): Node {
    var i := PropIndex(n.props, name);
    n.(props := if i < |n.props| then n.props[i := Property(name, value)] else n.props + [Property(name, value)])
  }

  function TrimNuls(s: Bytes): (r: Bytes)
    ensures r <= s && (r != [] ==> r[|r| - 1] != 0)
  {
    if s != [] && s[|s| - 1] == 0 then TrimNuls(s[..|s| - 1]) else s
  }

  function SetString(n: Node, name: Bytes, value: Bytes): Node { SetProp(n, name, value + [0]) }

  function GetString(n: Node, name: Bytes): Option<Bytes> {
    var v := Prop(n, name);
    if v.Some? then Some(TrimNuls(v.value)) else None
  }

  function SetUint32(n: Node, name: Bytes, v: u32): Node { SetProp(n, name, U32Bytes(v)) }

  function GetUint32(n: Node, name: Bytes): Option<u32> {
    var v := Prop(n, name);
    if v.Some? && |v.value| == 4 then Some(U32At(v.value, 0)) else None
  }

  // ----- one bay

  /** The index of the first child called name, or |cs|. */
  function ChildIndex(cs: seq<Node>, name: Bytes): (i: nat)
    ensures i <= |cs|
    ensures forall j | 0 <= j < i :: cs[j].name != name
    ensures i < |cs| ==> cs[i].name == name
  {
    if cs == [] || cs[0].name == name then 0 else 1 + ChildIndex(cs[1..], name)
  }

  predicate HasAhci(n: Node) { ChildIndex(n.children, AHCI) < |n.children| }

  function AhciOf(n: Node): Node
    requires HasAhci(n)
  {
    n.children[ChildIndex(n.children, AHCI)]
  }

  function SlotNumber(n: Node): Option<int> {
    if HasPrefix(n.name, SLOT_PREFIX) then Atoi(n.name[|SLOT_PREFIX|..]) else None
  }

  function AddressOf(n: Node): Option<SataPort> {
    if !HasAhci(n) then None
    else
      var root, port := GetString(AhciOf(n), PCIE_ROOT), GetUint32(AhciOf(n), ATA_PORT);
      if root.Some? && port.Some? then Some(SataPort(root.value, port.value)) else None
  }

  function PointAt(ahci: Node, p: SataPort): Node {
    SetUint32(SetString(ahci, PCIE_ROOT, p.pcieRoot), ATA_PORT, p.port)
  }

  function WithAddress(n: Node, p: SataPort): Node
    requires HasAhci(n)
  {
    n.(children := n.children[ChildIndex(n.children, AHCI) := PointAt(AhciOf(n), p)])
  }

  // ----- the bays of a tree

  /** A bay: its number, and where its node stands among the root's children. */
  datatype Slot = Slot(index: int, at: nat)

  predicate Within(cs: seq<Node>, slots: seq<Slot>) {
    forall i | 0 <= i < |slots| :: slots[i].at < |cs|
  }

  predicate InOrder(slots: seq<Slot>) {
    forall i, j | 0 <= i < j < |slots| :: slots[i].at != slots[j].at && slots[i].index <= slots[j].index
  }

  /** What sorting the bays by number may give: sort.Slice fixes no order between equal numbers. */
  ghost predicate IsSlotOrder(cs: seq<Node>, slots: seq<Slot>) {
    && Within(cs, slots) && (forall i | 0 <= i < |slots| :: SlotNumber(cs[slots[i].at]) == Some(slots[i].index))
    && (forall i | 0 <= i < |cs| && SlotNumber(cs[i]).Some? :: Slot(SlotNumber(cs[i]).value, i) in slots)
    && InOrder(slots)
  }

  predicate AllSata(cs: seq<Node>, bays: seq<Slot>) {
    Within(cs, bays) && forall i | 0 <= i < |bays| :: HasAhci(cs[bays[i].at])
  }

  /** The bays that have an ahci node, in the order of `slots`. */
  function SataBays(cs: seq<Node>, slots: seq<Slot>): (bays: seq<Slot>)
    requires Within(cs, slots)
    ensures forall i | 0 <= i < |bays| :: bays[i] in slots
    ensures AllSata(cs, bays) && (InOrder(slots) ==> InOrder(bays))
  {
    hide HasAhci, InOrder, AllSata;
    if slots == [] then NoBays(cs); []
    else
      var front, s := slots[..|slots| - 1], slots[|slots| - 1];
      var bays := SataBays(cs, front);
      assert slots == front + [s];
      LastInOrder(slots, bays);
      if HasAhci(cs[s.at]) then LastIsSata(cs, bays, s); bays + [s] else bays
  }

  lemma NoBays(cs: seq<Node>)
    ensures AllSata(cs, []) && InOrder([])
  {
  }

  lemma LastIsSata(cs: seq<Node>, bays: seq<Slot>, s: Slot)
    requires AllSata(cs, bays) && s.at < |cs| && HasAhci(cs[s.at])
    ensures AllSata(cs, bays + [s])
  {
    hide HasAhci;
  }

  lemma LastInOrder(slots: seq<Slot>, bays: seq<Slot>)
    requires slots != [] && forall i | 0 <= i < |bays| :: bays[i] in slots[..|slots| - 1]
    ensures InOrder(slots) ==> InOrder(slots[..|slots| - 1])
    ensures InOrder(slots) && InOrder(bays) ==> InOrder(bays + [slots[|slots| - 1]])
  {
    var all := bays + [slots[|slots| - 1]];
    if InOrder(slots) && InOrder(bays) {
      forall i, j | 0 <= i < j < |all| ensures all[i].at != all[j].at && all[i].index <= all[j].index {
        if j == |bays| {
          var front := slots[..|slots| - 1];
          assert bays[i] in front;
          var k :| 0 <= k < |front| && front[k] == bays[i];
          assert slots[k] == bays[i];
        }
      }
    }
  }

  function NamesOfOthers(cs: seq<Node>, slots: seq<Slot>): seq<Bytes>
    requires Within(cs, slots)
  {
    if slots == [] then []
    else
      var s := slots[|slots| - 1];
      NamesOfOthers(cs, slots[..|slots| - 1]) + if HasAhci(cs[s.at]) then [] else [cs[s.at].name]
  }

  /** Every bay is either a SATA bay or one of the others. */
  lemma {:induction false} BaysAreSplit(cs: seq<Node>, slots: seq<Slot>)
    requires Within(cs, slots)
    ensures |SataBays(cs, slots)| + |NamesOfOthers(cs, slots)| == |slots|
  {
    hide HasAhci;
    if slots != [] {
      BaysAreSplit(cs, slots[..|slots| - 1]);
    }
  }

  /** The children once bays[0..k] have been pointed at ports[0..k]. */
  function Addressed(cs: seq<Node>, bays: seq<Slot>, ports: seq<SataPort>, k: nat): (r: seq<Node>)
    requires k <= |bays| && k <= |ports| && AllSata(cs, bays) && InOrder(bays)
    ensures |r| == |cs|
  {
    hide HasAhci, WithAddress;
    if k == 0 then cs
    else
      var b := bays[k - 1];
      Addressed(cs, bays, ports, k - 1)[b.at := WithAddress(cs[b.at], ports[k - 1])]
  }

  function WithPorts(root: Node, slots: seq<Slot>, ports: seq<SataPort>): Node
    requires Within(root.children, slots) && InOrder(slots)
  {
    var bays := SataBays(root.children, slots);
    root.(children := Addressed(root.children, bays, ports, Min(|bays|, |ports|)))
  }

  lemma {:induction false} AddressedAt(cs: seq<Node>, bays: seq<Slot>, ports: seq<SataPort>, k: nat, at: nat)
    requires k <= |bays| && k <= |ports| && AllSata(cs, bays) && InOrder(bays) && at < |cs|
    ensures forall i | 0 <= i < k && bays[i].at == at ::
              Addressed(cs, bays, ports, k)[at] == WithAddress(cs[at], ports[i])
    ensures (forall i | 0 <= i < k :: bays[i].at != at) ==> Addressed(cs, bays, ports, k)[at] == cs[at]
  {
    hide HasAhci, WithAddress;
    if k > 0 {
      AddressedAt(cs, bays, ports, k - 1, at);
    }
  }

  datatype Remap = Remap(count: nat, unassigned: seq<int>, surplus: seq<SataPort>, skipped: seq<Bytes>)

  function Numbers(slots: seq<Slot>): (r: seq<int>)
    ensures |r| == |slots|
  {
    seq(|slots|, i requires 0 <= i < |slots| => slots[i].index)
  }

  // ----- the loop of ApplySATAPorts, one bay at a time

  /** The state of ApplySATAPorts after the bays in `order`. */
  ghost predicate Reached(cs: seq<Node>, order: seq<Slot>, ports: seq<SataPort>, next: nat, remap: Remap,
                          now: seq<Node>)
  {
    && Within(cs, order) && InOrder(order)
    && var bays := SataBays(cs, order);
       && next == Min(|bays|, |ports|)
       && remap == Remap(next, Numbers(bays[next..]), [], NamesOfOthers(cs, order))
       && now == Addressed(cs, bays, ports, next)
  }

  lemma ReachedStart(cs: seq<Node>, ports: seq<SataPort>)
    ensures Reached(cs, [], ports, 0, Remap(0, [], [], []), cs)
  {
  }

  lemma ReachedEnd(cs: seq<Node>, order: seq<Slot>, ports: seq<SataPort>, next: nat, remap: Remap, now: seq<Node>)
    requires Reached(cs, order, ports, next, remap, now)
    ensures var bays := SataBays(cs, order);
            && next == Min(|bays|, |ports|)
            && remap == Remap(next, Numbers(bays[next..]), [], NamesOfOthers(cs, order))
            && now == Addressed(cs, bays, ports, next)
  {
    hide HasAhci, WithAddress, SataBays, NamesOfOthers, Addressed;
  }

  lemma StillUntouched(cs: seq<Node>, order: seq<Slot>, s: Slot, ports: seq<SataPort>, next: nat, remap: Remap,
                       now: seq<Node>)
    requires Reached(cs, order, ports, next, remap, now)
    requires Within(cs, order + [s]) && InOrder(order + [s])
    ensures s.at < |cs| == |now| && now[s.at] == cs[s.at]
  {
    hide HasAhci, WithAddress;
    assert s == (order + [s])[|order|];
    var bays := SataBays(cs, order);
    forall i | 0 <= i < |bays| ensures bays[i].at != s.at {
      assert bays[i] in order;
      var j :| 0 <= j < |order| && order[j] == bays[i];
      assert (order + [s])[j] == order[j];
    }
    AddressedAt(cs, bays, ports, next, s.at);
  }

  lemma SataBaysNext(cs: seq<Node>, order: seq<Slot>, s: Slot)
    requires Within(cs, order + [s])
    ensures Within(cs, order) && s.at < |cs|
    ensures SataBays(cs, order + [s]) == SataBays(cs, order) + if HasAhci(cs[s.at]) then [s] else []
    ensures NamesOfOthers(cs, order + [s])
            == NamesOfOthers(cs, order) + if HasAhci(cs[s.at]) then [] else [cs[s.at].name]
  {
    hide HasAhci;
    assert s == (order + [s])[|order|];
    assert (order + [s])[..|order|] == order;
    assert SataBays(cs, order) + [] == SataBays(cs, order);
    assert NamesOfOthers(cs, order) + [] == NamesOfOthers(cs, order);
  }

  lemma ReachedNext(cs: seq<Node>, order: seq<Slot>, s: Slot, ports: seq<SataPort>, next: nat, remap: Remap,
                    now: seq<Node>)
    requires Reached(cs, order, ports, next, remap, now)
    requires Within(cs, order + [s]) && InOrder(order + [s]) && s.at < |cs|
    ensures !HasAhci(cs[s.at]) ==>
              Reached(cs, order + [s], ports, next, remap.(skipped := remap.skipped + [cs[s.at].name]), now)
    ensures HasAhci(cs[s.at]) && next >= |ports| ==>
              Reached(cs, order + [s], ports, next, remap.(unassigned := remap.unassigned + [s.index]), now)
  {
    hide HasAhci, WithAddress, SataBays, NamesOfOthers, Addressed;
    var bays := SataBays(cs, order);
    SataBaysNext(cs, order, s);
    if HasAhci(cs[s.at]) && next >= |ports| {
      assert AllSata(cs, bays + [s]);
      AddressedPrefix(cs, bays, bays + [s], ports, next);
      assert (bays + [s])[next..] == bays[next..] + [s];
      assert Numbers(bays[next..] + [s]) == Numbers(bays[next..]) + [s.index];
    } else {
      assert bays + [] == bays;
    }
  }

  lemma ReachedAssigned(cs: seq<Node>, order: seq<Slot>, s: Slot, ports: seq<SataPort>, next: nat, remap: Remap,
                        now: seq<Node>)
    requires Reached(cs, order, ports, next, remap, now)
    requires Within(cs, order + [s]) && InOrder(order + [s]) && s.at < |cs| == |now|
    requires HasAhci(cs[s.at]) && next < |ports|
    ensures Reached(cs, order + [s], ports, next + 1, remap.(count := remap.count + 1),
                    now[s.at := WithAddress(cs[s.at], ports[next])])
  {
    hide HasAhci, WithAddress, SataBays, NamesOfOthers;
    var bays := SataBays(cs, order);
    SataBaysNext(cs, order, s);
    assert AllSata(cs, bays + [s]);
    AddressedPrefix(cs, bays, bays + [s], ports, next);
    assert NamesOfOthers(cs, order) + [] == NamesOfOthers(cs, order);
    assert bays[next..] == [] == (bays + [s])[next + 1..];
    assert (bays + [s])[next] == s;
  }

  lemma {:induction false} AddressedPrefix(cs: seq<Node>, bays: seq<Slot>, longer: seq<Slot>, ports: seq<SataPort>,
                                           k: nat)
    requires bays <= longer && k <= |bays| && k <= |ports|
    requires AllSata(cs, longer) && InOrder(longer)
    ensures Addressed(cs, bays, ports, k) == Addressed(cs, longer, ports, k)
  {
    hide HasAhci, WithAddress;
    if k > 0 {
      AddressedPrefix(cs, bays, longer, ports, k - 1);
    }
  }

  lemma InsertedIsOrdered(cs: seq<Node>, c: Node, slots: seq<Slot>, s: Slot, k: nat, out: seq<Slot>)
    requires IsSlotOrder(cs, slots) && k <= |slots|
    requires s.at == |cs| && SlotNumber(c) == Some(s.index)
    requires forall j | k <= j < |slots| :: s.index <= slots[j].index
    requires k > 0 ==> slots[k - 1].index <= s.index
    requires out == slots[..k] + [s] + slots[k..]
    ensures IsSlotOrder(cs + [c], out)
  {
    hide SlotNumber, InOrder;
    InsertedKeepsOrder(cs, slots, s, k, out);
    assert forall i | 0 <= i < |out| :: out[i] == if i < k then slots[i] else if i == k then s else slots[i - 1];
    forall i | 0 <= i < |cs + [c]| && SlotNumber((cs + [c])[i]).Some?
      ensures Slot(SlotNumber((cs + [c])[i]).value, i) in out
    {
      assert out[k] == s;
      if i < |cs| {
        InsertedHasAll(slots, s, k, out, Slot(SlotNumber(cs[i]).value, i));
      }
    }
  }

  lemma InsertedHasAll(slots: seq<Slot>, s: Slot, k: nat, out: seq<Slot>, t: Slot)
    requires k <= |slots| && out == slots[..k] + [s] + slots[k..] && t in slots
    ensures t in out
  {
    var j :| 0 <= j < |slots| && slots[j] == t;
    assert out[if j < k then j else j + 1] == t;
  }

  lemma InsertedKeepsOrder(cs: seq<Node>, slots: seq<Slot>, s: Slot, k: nat, out: seq<Slot>)
    requires Within(cs, slots) && InOrder(slots) && k <= |slots| && s.at == |cs|
    requires forall j | k <= j < |slots| :: s.index <= slots[j].index
    requires k > 0 ==> slots[k - 1].index <= s.index
    requires out == slots[..k] + [s] + slots[k..]
    ensures InOrder(out)
  {
    forall i, j | 0 <= i < j < |out| ensures out[i].at != out[j].at && out[i].index <= out[j].index {
      InsertedAt(slots, s, k, i);
      InsertedAt(slots, s, k, j);
      PairInOrder(cs, slots, s, k, i, j);
    }
  }

  /** Bays i and j of the listing with s put in at k. */
  lemma PairInOrder(cs: seq<Node>, slots: seq<Slot>, s: Slot, k: nat, i: nat, j: nat)
    requires Within(cs, slots) && InOrder(slots) && k <= |slots| && s.at == |cs|
    requires forall j | k <= j < |slots| :: s.index <= slots[j].index
    requires k > 0 ==> slots[k - 1].index <= s.index
    requires i < j <= |slots|
    ensures var a := if i < k then slots[i] else if i == k then s else slots[i - 1];
            var b := if j < k then slots[j] else if j == k then s else slots[j - 1];
            a.at != b.at && a.index <= b.index
  {
    if j == k && i < k - 1 {
      assert slots[i].index <= slots[k - 1].index;
    }
  }

  /** Where the sort puts one more bay: behind every bay with a number no larger. */
  function Place(slots: seq<Slot>, index: int, k: nat): (r: nat)
    requires k <= |slots| && forall j | k <= j < |slots| :: index < slots[j].index
    ensures r <= |slots| && (forall j | r <= j < |slots| :: index < slots[j].index)
    ensures r > 0 ==> slots[r - 1].index <= index
  {
    if k > 0 && slots[k - 1].index > index then Place(slots, index, k - 1) else k
  }
}
