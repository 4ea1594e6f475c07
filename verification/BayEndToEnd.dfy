/** From the bays chosen in the editor to what the rewritten device trees say. */
module BayEndToEnd {
  import opened GoStrings
  import opened FlatTree
  import opened Slots
  import opened PortMap
  import opened PortLines
  import opened BayPlan
  import opened PortMapMeaning
  import opened ChosenBays
  import opened DeviceTrees
  import opened BootRewrite

  /** The file the loader puts into the ramdisk: none when nothing is chosen. */
  function PlanFile(order: seq<Bytes>): Option<Bytes> {
    if RenderedPlan(order) == [] then None else Some(RenderedPlan(order))
  }

  /** The boot works with the chosen ports that are there, or with all of them when no entry names one. */
  lemma BootPortsAre(order: seq<Bytes>, cs: seq<Controller>)
    requires forall i | 0 <= i < |order| :: NL !in order[i]
    ensures BootPorts(PlanFile(order), cs) == ApplyPlan(ParsePorts(order), Detected(cs))
  {
    hide ReadPorts, RenderedPlan, ParsePorts, Detected;
    PlanReadsBack(order);
    if RenderedPlan(order) == [] {
      EmptyReads();
    }
  }

  lemma EmptyReads()
    ensures ReadPorts([]) == []
  {
    hide Lines, ParsePorts;
    TrimmedTextReads([]);
    OneLine([]);
    BlankDoesNotParse();
  }

  /** The path of a controller: one word without NULs. */
  predicate PathOk(root: Bytes) { RootOk(root) && 0 !in root }

  predicate PathsOk(cs: seq<Controller>) { forall i | 0 <= i < |cs| :: PathOk(cs[i].pcieRoot) }

  lemma {:induction false} DetectedPathsOk(cs: seq<Controller>)
    requires PathsOk(cs)
    ensures forall p | p in Detected(cs) :: PathOk(p.pcieRoot)
    decreases |cs|
  {
    hide PathOk;
    if cs != [] {
      DetectedPathsOk(cs[1..]);
    }
  }

  lemma NothingToTrim(s: Bytes)
    requires 0 !in s
    ensures TrimNuls(s) == s
  {
  }

  /** The ports of the ramdisk's tree, or of the installed system's. */
  function PortsFor(installed: bool, plan: Option<Bytes>, cs: seq<Controller>): seq<SataPort> {
    if installed then ReadPorts(SavedPorts(BootPorts(plan, cs))) else BootPorts(plan, cs)
  }

  lemma PortsForEither(installed: bool, order: seq<Bytes>, cs: seq<Controller>)
    requires PathsOk(cs) && forall i | 0 <= i < |order| :: NL !in order[i]
    requires BootPorts(PlanFile(order), cs) != []
    ensures PortsFor(installed, PlanFile(order), cs) == ApplyPlan(ParsePorts(order), Detected(cs))
    ensures forall p | p in PortsFor(installed, PlanFile(order), cs) :: PathOk(p.pcieRoot)
  {
    hide BootPorts, ReadPorts, SavedPorts, ParsePorts, Detected, PlanFile, RootOk;
    BootPortsAre(order, cs);
    assert RootsOk(cs) by {
      assert forall i | 0 <= i < |cs| :: PathOk(cs[i].pcieRoot);
    }
    InstalledGetsTheSamePorts(PlanFile(order), cs);
    DetectedPathsOk(cs);
    PresentAreFound(ParsePorts(order), Detected(cs));
  }

  /** In either rewritten tree the k-th SATA bay, by number, is the k-th chosen port that is there. */
  lemma TreesShowTheChosenBays(installed: bool, order: seq<Bytes>, cs: seq<Controller>, nvme: seq<Bytes>,
                               file: Bytes, out: Bytes, slots: seq<Slot>, k: nat)
    requires PathsOk(cs) && forall i | 0 <= i < |order| :: NL !in order[i]
    requires BootPorts(PlanFile(order), cs) != []
    requires Rewrites(file, PortsFor(installed, PlanFile(order), cs), nvme, out)
    requires HasDistinctNumbers(file) && |out| < 0x1_0000_0000
    requires Deserialise(out).Ok? && Deserialise(out).value.root.Some?
    requires IsSlotOrder(Deserialise(out).value.root.value.children, slots)
    ensures var nodes, ports := Deserialise(out).value.root.value.children, ApplyPlan(ParsePorts(order), Detected(cs));
            var bays := SataBays(nodes, slots);
            k < |bays| && k < |ports| ==> AddressOf(nodes[bays[k].at]) == Some(ports[k])
  {
    hide BootPorts, ParsePorts, Detected, PlanFile, PortsFor, ApplyPlan, Rewrites, Deserialise, HasDistinctNumbers,
         IsSlotOrder, SataBays, AddressOf, PathOk;
    var ports := PortsFor(installed, PlanFile(order), cs);
    PortsForEither(installed, order, cs);
    PortsReadBack(file, ports, nvme, out, slots, k);
    if k < |ports| {
      assert ports[k] in ports;
      PathIsTrimmed(ports[k].pcieRoot);
    }
  }

  lemma PathIsTrimmed(root: Bytes)
    requires PathOk(root)
    ensures TrimNuls(root) == root
  {
    NothingToTrim(root);
  }

  // ----- the two paths from one list of bays

  /** Entry i of the list names port p of controller c, and the port is there. */
  ghost predicate Chooses(l: Layout, order: seq<Bytes>, found: seq<SataPort>, i: nat, c: nat, p: u32)
    requires i < |order| && c < |l.cs|
  {
    var root := l.cs[c].pcieRoot;
    RootOk(root) && HasPort(l, c, p) && BayAt(order, i) == PortKey(root, p) && SataPort(root, p) in found
  }

  lemma ChosenEntry(l: Layout, order: seq<Bytes>, found: seq<SataPort>, i: nat, c: nat, p: u32)
    requires i < |order| && c < |l.cs| && Chooses(l, order, found, i, c, p)
    requires Distinct(order) && l.bay == BayMap(order)
    ensures IsListed(l, c, p, i + 1) && IsThere(order[i], found)
    ensures ParsePort(order[i]) == Some(SataPort(l.cs[c].pcieRoot, p))
  {
    hide PortKey, ParsePort, TrimSpace, RootOk, BayMap, Distinct;
    KeyIsTrimmed(l.cs[c].pcieRoot, p);
    KeyParses(SataPort(l.cs[c].pcieRoot, p));
    SpacesDoNotParse(order[i]);
    BayMapIsPositional(order, i);
  }

  lemma OneIndexOnly(m: Maps, c: nat, p: nat, d: nat, e: nat)
    requires MapsTo(m, c, p, d)
    ensures MapsTo(m, c, p, e) <==> e == d
  {
    hide StartAt, CountAt;
  }

  /** The device tree gives a chosen disk the place k of its port among the entries that are there; the command line
      gives it what the start of its controller comes to. Both are the chosen bay exactly when the start allows it
      and no bay before is blank or names a port that is missing. */
  lemma PathsAgreeExactly(cs: seq<Controller>, order: seq<Bytes>, found: seq<SataPort>, starts: seq<int>, maxBays: nat,
                          i: nat, c: nat, p: u32)
    requires var l := LayoutFor(cs, order);
             && IsPlacement(l, starts) && StartsOk(l, starts) && InByte(starts)
             && Distinct(order) && i < |order| && i < maxBays && c < |l.cs| && Chooses(l, order, found, i, c, p)
    ensures var l, ports, k := LayoutFor(cs, order), Present(ParsePorts(order), found), PresentCount(order[..i], found);
            var m := RenderMaps(l, starts, maxBays);
            && ChosenOf(l, c).Some?
            && k < |ports| && ports[k] == SataPort(l.cs[c].pcieRoot, p)
            && (MapsTo(m, c, p, k) <==> ComesOutAt(l, maxBays, c, p, k))
            && (MapsTo(m, c, p, i) <==> ComesOutAt(l, maxBays, c, p, i))
            && (MapsTo(m, c, p, i) && k == i <==>
                  ComesOutAt(l, maxBays, c, p, i) && forall j | 0 <= j < i :: IsThere(order[j], found))
  {
    hide ParsePort, TrimSpace, LayoutFor, Distinct, BayAt, PresentCount, RenderMaps, MapsTo, ComesOutAt, IsPlacement,
         StartsOk, InByte, ChosenOf, IsListed, Chooses, ParsePorts, Present;
    var l := LayoutFor(cs, order);
    BaysOfLayout(cs, order);
    ChosenEntry(l, order, found, i, c, p);
    EntryIsThere(order[i], found);
    EntryLands(order, found, i);
    CountIsFull(order, found, i);
    ListedIsChosen(l, c, p, i + 1);
    IndexOfChosen(l, starts, maxBays, c, p, PresentCount(order[..i], found));
    IndexOfChosen(l, starts, maxBays, c, p, i);
  }

  lemma BaysOfLayout(cs: seq<Controller>, order: seq<Bytes>)
    ensures LayoutFor(cs, order).bay == BayMap(order)
  {
  }

  lemma EntryIsThere(entry: Bytes, found: seq<SataPort>)
    requires IsThere(entry, found)
    ensures ParsePort(entry).Some? && ParsePort(entry).value in found
  {
  }

  /** A gap before a disk that the command line puts in its chosen bay: the device tree closes it, so the two systems
      number that disk differently. */
  lemma GapIsClosed(cs: seq<Controller>, order: seq<Bytes>, found: seq<SataPort>, starts: seq<int>, maxBays: nat,
                    i: nat, c: nat, p: u32)
    requires var l := LayoutFor(cs, order);
             && IsPlacement(l, starts) && StartsOk(l, starts) && InByte(starts)
             && Distinct(order) && i < |order| && i < maxBays && c < |l.cs| && Chooses(l, order, found, i, c, p)
             && MapsTo(RenderMaps(l, starts, maxBays), c, p, i)
    ensures var k := PresentCount(order[..i], found);
            var m := RenderMaps(LayoutFor(cs, order), starts, maxBays);
            !MapsTo(m, c, p, k) <==> exists j | 0 <= j < i :: !IsThere(order[j], found)
  {
    hide LayoutFor, Distinct, PresentCount, RenderMaps, MapsTo, IsPlacement, StartsOk, InByte, Chooses, IsThere;
    var m, k := RenderMaps(LayoutFor(cs, order), starts, maxBays), PresentCount(order[..i], found);
    CountIsFull(order, found, i);
    OneIndexOnly(m, c, p, i, k);
  }

  /** Such a machine: one disk, chosen for the second bay, is index 1 on the command line and index 0 in the tree. */
  lemma BlankBayIsClosed(root: Bytes, name: Bytes)
    requires RootOk(root)
    ensures var cs, order := [Controller(Sata, root, [Port(name, 0)])], [[], PortKey(root, 0)];
            var l := LayoutFor(cs, order);
            && IsPlacement(l, [1]) && StartsOk(l, [1]) && |l.cs| == 1
            && MapsTo(RenderMaps(l, [1], 2), 0, 0, 1)
            && Detected(cs) == [SataPort(root, 0)] && PresentCount(order[..1], Detected(cs)) == 0
  {
    hide PortKey, BayMap, ParsePort, TrimSpace, RenderMaps, MapsTo, ChosenOf, AnyExposed, InByte;
    var c, order := Controller(Sata, root, [Port(name, 0)]), [[], PortKey(root, 0)];
    var l := LayoutFor([c], order);
    OneController(c, order);
    SecondBayOnly(root, 0);
    BayMapIsPositional(order, 1);
    OneStart(l, c);
    ChosenIsExposed(l, 0, 2);
    assert InByte([1]) by { OneInByte(); }
    BayIsHonouredExactly(l, [1], 2, 0, 0, 2);
    OneDetected(c);
    BlankDoesNotParse();
    CountIsFull(order, Detected([c]), 1);
  }

  lemma OneInByte()
    ensures InByte([1])
  {
  }

  lemma OneController(c: Controller, order: seq<Bytes>)
    requires c.kind == Sata
    ensures LayoutFor([c], order) == Layout([c], BayMap(order))
  {
    hide BayMap, MinAta;
    assert [c][..0] == [] && SataOnly([]) == [] && SataOnly([c]) == [c];
    assert SortByAta([]) == [] && SortByAta([c]) == [c];
  }

  lemma OneStart(l: Layout, c: Controller)
    requires LayoutOk(l) && l.cs == [c] && |c.ports| == 1 && c.ports[0].index == 0
    requires PortKey(c.pcieRoot, 0) in l.bay && l.bay[PortKey(c.pcieRoot, 0)] == 2
    ensures ChosenOf(l, 0) == Some(1) && IsListed(l, 0, 0, 2) && IsPlacement(l, [1]) && StartsOk(l, [1])
  {
    hide PortKey;
    assert l.cs[0].ports[0].index == 0;
    assert PlacedAt(l, [1], 0);
  }

  lemma OneDetected(c: Controller)
    requires c.kind == Sata && |c.ports| == 1 && c.ports[0].index == 0
    ensures Detected([c]) == [SataPort(c.pcieRoot, 0)]
  {
    assert [c][1..] == [];
  }

  lemma KeyIsTrimmed(root: Bytes, port: u32)
    requires RootOk(root)
    ensures PortKey(root, port) != [] && TrimSpace(PortKey(root, port)) == PortKey(root, port)
  {
    hide SpaceAt, SpaceBefore, Itoa, TrimSpace;
    var key := PortKey(root, port);
    ItoaNoSpace(port);
    SpaceOfConcat(root, SPACE + Itoa(port));
    SpaceBeforeOfConcat(root + SPACE, Itoa(port));
    assert key == root + (SPACE + Itoa(port));
    assert root[0..] == root;
    TrimmedIsSame(key);
  }

  lemma SecondBayOnly(root: Bytes, port: u32)
    requires RootOk(root)
    ensures var order := [[], PortKey(root, port)];
            Distinct(order) && BayAt(order, 1) == PortKey(root, port) && PortKey(root, port) != []
  {
    hide TrimSpace, SpaceAt, SpaceBefore, PortKey;
    var order := [[], PortKey(root, port)];
    KeyIsTrimmed(root, port);
    NothingBlank();
    TrimmedIsSame([]);
    assert forall i: nat | i != 1 :: BayAt(order, i) == [];
  }
}
